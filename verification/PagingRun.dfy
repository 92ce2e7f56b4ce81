/** Whole runs of the virtual memory system: processes that read and write their pages, switches between
    them, and kernel allocations behave as one flat memory would, until the machine is full. */
module PagingRun {
  import opened Options
  import opened Paging
  import opened PagingKernel
  import opened PagingSpace
  import opened PagingState
  import opened Sums

  /** Flat memory of every process, the process that runs, and the runs of frames the kernel holds, each with its
      length. */
  datatype Abs = Abs(mem: Flat, pid: nat, kruns: map<nat, nat>)

  /** image is what the program file holds for the page; FreeOp(a) frees the run that starts at frame a, if the
      kernel holds one. */
  datatype Op =
    | ReadOp(addr: nat, image: Page)
    | WriteOp(addr: nat, p: Page, image: Page)
    | SwitchOp(pid: nat)
    | AllocOp(n: nat, junk: int)
    | FreeOp(a: nat)

  datatype Res = Value(p: Page) | Wrote | Refused | Gave(r: nat) | NoRun | Done | Halted

  /** What one operation does to flat memory; back says that the page it is about was in the swap file. A page that
      exists is always read back. A store goes through if and only if the page may be written, unless the page
      slipped; addresses outside the process's segments and stack are refused. */
  predicate Step(a: Abs, spaces: map<nat, Space>, op: Op, back: bool, res: Res, a': Abs) {
    match op
    case ReadOp(addr, image) =>
      a.pid in spaces &&
      var k := Key(a.pid, PageBase(addr));
      var answer, m := Answer(a.mem.view, k, spaces[a.pid]), After(a.mem, back, k, spaces[a.pid], image);
      && a' == a.(mem := m)
      && if answer == OK then k in m.view && res == Value(m.view[k]) else answer == EFAULT && res == Refused
    case WriteOp(addr, p, image) =>
      a.pid in spaces &&
      var k := Key(a.pid, PageBase(addr));
      var answer, m := Answer(a.mem.view, k, spaces[a.pid]), After(a.mem, back, k, spaces[a.pid], image);
      && a' == a.(mem := if res == Wrote then m.(view := m.view[k := p]) else m)
      && (if answer != OK then answer == EFAULT && res == Refused
          else if k in m.rw then res == Wrote
          else if k !in m.slipped then res == Refused
          else res == Wrote || res == Refused)
    case SwitchOp(pid) => res == Done && a' == a.(pid := pid)
    case AllocOp(n, _) =>
      if n == 0 then res == Done && a' == a
      else if res.Gave? then res.r !in a.kruns && a' == a.(kruns := a.kruns[res.r := n])
      else res == NoRun && a' == a
    case FreeOp(r) => res == Done && a' == a.(kruns := a.kruns - {r})
  }

  // ------------------------------------------------------ the machine behind it

  /** A machine with so many frames, the first boot of them the kernel's from the start, and so many slots in its
      swap file; frame 0 is at physical address lo. */
  datatype Machine = Machine(frames: nat, boot: nat, lo: nat, slots: nat)

  /** A moment of a run: flat memory, and the state that stands for it. */
  datatype Moment = Moment(abs: Abs, state: State)

  ghost predicate Real(m: Moment, mc: Machine) {
    && Inv(m.state) && ViewIs(m.state, m.abs.mem.view) && RwOk(m.state, m.abs.mem.rw)
    && m.abs.mem.rw <= m.abs.mem.view.Keys && m.abs.mem.slipped <= m.abs.mem.view.Keys
    && |m.state.core| == mc.frames && |m.state.slots| == mc.slots
    && RunsOk(m.state, m.abs.kruns, mc.lo) && KernelIs(m.state, m.abs.kruns, mc.boot)
  }

  ghost predicate AllKernel(s: State) {
    forall i :: 0 <= i < |s.core| ==> s.core[i].isKernel
  }

  /** Why the system halts on an access: the page needs a frame and there is no place for it, or the address is
      above the user stack and "the kernel lost something". */
  ghost predicate Stuck(m: Moment, op: Op, spaces: map<nat, Space>) {
    && (op.ReadOp? || op.WriteOp?) && m.abs.pid in spaces &&
    var k, a := Key(m.abs.pid, PageBase(op.addr)), spaces[m.abs.pid];
    || Answer(m.abs.mem.view, k, a) == PANIC
    || (NeedsFrame(m.state, m.abs.mem.view, k, a) && (NoPlace(m.state) || AllKernel(m.state)))
  }

  /** The page that op is about is in the swap file. */
  ghost predicate Back(m: Moment, op: Op) {
    (op.ReadOp? || op.WriteOp?) && Swapped(m.state, Key(m.abs.pid, PageBase(op.addr)))
  }

  /** One step of a run: it is a step of flat memory, the system was not stuck, and the kernel is refused a run
      of frames only if there is none. */
  ghost predicate Moved(m: Moment, spaces: map<nat, Space>, op: Op, res: Res, m': Moment) {
    && Step(m.abs, spaces, op, Back(m, op), res, m'.abs) && !Stuck(m, op, spaces)
    && (op.AllocOp? && res.Gave? ==> FreeRun(m.state.core, res.r, op.n))
    && (op.AllocOp? && res == NoRun ==> forall st: nat :: !FreeRun(m.state.core, st, op.n))
  }

  ghost predicate Refines(trace: seq<Moment>, ops: seq<Op>, results: seq<Res>, spaces: map<nat, Space>, mc: Machine) {
    && |trace| == |results| + 1 && |results| <= |ops|
    && (forall i :: 0 <= i < |trace| ==> Real(trace[i], mc))
    && (forall i :: 0 <= i < |results| ==> Moved(trace[i], spaces, ops[i], results[i], trace[i + 1]))
    && (|results| < |ops| ==> Stuck(trace[|results|], ops[|results|], spaces))
  }

  /** A run that halts has filled the machine: the pages that exist and the kernel's frames leave no frame and no
      slot, or the kernel has every frame. */
  lemma HaltedOnlyIfFull(trace: seq<Moment>, ops: seq<Op>, results: seq<Res>, spaces: map<nat, Space>, mc: Machine)
    requires Refines(trace, ops, results, spaces, mc) && |results| < |ops|
    ensures var last, op := trace[|results|].abs, ops[|results|];
      var kernel := mc.boot + Sum(last.kruns);
      && (op.ReadOp? || op.WriteOp?) && last.pid in spaces
      && (|| Answer(last.mem.view, Key(last.pid, PageBase(op.addr)), spaces[last.pid]) == PANIC
          || |last.mem.view| + kernel == mc.frames + mc.slots
          || kernel == mc.frames)
  {
    hide Inv;
    hide ViewX;
    hide Answer;
    hide NoPlace;
    hide KernelIs;
    hide RunsOk;
    hide NeedsFrame;
    var m := trace[|results|];
    assert Real(m, mc) && Stuck(m, ops[|results|], spaces);
    FullIff(m.state, m.abs.mem.view, m.abs.kruns, mc.boot, mc.lo);
    AllKernelIff(m.state, m.abs.kruns, mc.boot, mc.lo);
  }

  /** Write protection: a page that may not be written and has not slipped keeps its contents for as long as it is
      not swapped out. */
  lemma {:induction false} TextStays(trace: seq<Moment>, ops: seq<Op>, results: seq<Res>, spaces: map<nat, Space>,
                                     mc: Machine, i: nat, j: nat, k: Key)
    requires Refines(trace, ops, results, spaces, mc) && i <= j < |trace|
    requires ReadOnlyPage(trace[i].abs.mem, k) && forall n :: i <= n < j ==> !Swapped(trace[n].state, k)
    ensures ReadOnlyPage(trace[j].abs.mem, k) && trace[j].abs.mem.view[k] == trace[i].abs.mem.view[k]
  {
    hide Real;
    hide Stuck;
    hide Swapped;
    if j > i {
      TextStays(trace, ops, results, spaces, mc, i, j - 1, k);
      assert Moved(trace[j - 1], spaces, ops[j - 1], results[j - 1], trace[j - 1 + 1]);
      StepStays(trace[j - 1].abs, spaces, ops[j - 1], Back(trace[j - 1], ops[j - 1]), results[j - 1], trace[j].abs, k);
    }
  }

  predicate ReadOnlyPage(m: Flat, k: Key) {
    k in m.view && k !in m.rw && k !in m.slipped
  }

  lemma StepStays(a: Abs, spaces: map<nat, Space>, op: Op, back: bool, res: Res, a': Abs, k: Key)
    requires Step(a, spaces, op, back, res, a') && ReadOnlyPage(a.mem, k)
    requires (op.ReadOp? || op.WriteOp?) && k == Key(a.pid, PageBase(op.addr)) ==> !back
    ensures ReadOnlyPage(a'.mem, k) && a'.mem.view[k] == a.mem.view[k]
  {
    hide SegOf;
  }

  /** The operation does not write page k, which belongs to the process that runs when it is written. */
  predicate Spares(a: Abs, op: Op, k: Key) {
    !(op.WriteOp? && k == Key(a.pid, PageBase(op.addr)))
  }

  /** A page keeps its contents until it is written, whatever else is read, written, evicted, swapped in, allocated
      or switched to in between. */
  lemma {:induction false} PageKept(trace: seq<Moment>, ops: seq<Op>, results: seq<Res>, spaces: map<nat, Space>,
                                    mc: Machine, i: nat, j: nat, k: Key)
    requires Refines(trace, ops, results, spaces, mc) && i <= j < |trace| && k in trace[i].abs.mem.view
    requires forall n :: i <= n < j ==> Spares(trace[n].abs, ops[n], k)
    ensures k in trace[j].abs.mem.view && trace[j].abs.mem.view[k] == trace[i].abs.mem.view[k]
  {
    hide Real;
    hide Stuck;
    hide Back;
    if j > i {
      PageKept(trace, ops, results, spaces, mc, i, j - 1, k);
      assert Moved(trace[j - 1], spaces, ops[j - 1], results[j - 1], trace[j - 1 + 1]);
      StepKeeps(trace[j - 1].abs, spaces, ops[j - 1], Back(trace[j - 1], ops[j - 1]), results[j - 1], trace[j].abs, k);
    }
  }

  lemma StepKeeps(a: Abs, spaces: map<nat, Space>, op: Op, back: bool, res: Res, a': Abs, k: Key)
    requires Step(a, spaces, op, back, res, a') && k in a.mem.view && Spares(a, op, k)
    ensures k in a'.mem.view && a'.mem.view[k] == a.mem.view[k]
  {
    hide SegOf;
  }

  /** A process reads what it last wrote to the page, if the read is reached. */
  lemma ReadsLastWrite(trace: seq<Moment>, ops: seq<Op>, results: seq<Res>, spaces: map<nat, Space>, mc: Machine,
                       i: nat, j: nat)
    requires Refines(trace, ops, results, spaces, mc) && i < j < |results|
    requires ops[i].WriteOp? && results[i] == Wrote && ops[j].ReadOp? && trace[j].abs.pid == trace[i].abs.pid
    requires PageBase(ops[j].addr) == PageBase(ops[i].addr)
    requires forall n :: i < n < j ==> Spares(trace[n].abs, ops[n], Key(trace[i].abs.pid, PageBase(ops[i].addr)))
    ensures results[j] == Value(ops[i].p)
  {
    hide Real;
    hide Stuck;
    hide Back;
    hide SegOf;
    hide PageBase;
    var k := Key(trace[i].abs.pid, PageBase(ops[i].addr));
    assert Moved(trace[i], spaces, ops[i], results[i], trace[i + 1]);
    PageKept(trace, ops, results, spaces, mc, i + 1, j, k);
    assert Moved(trace[j], spaces, ops[j], results[j], trace[j + 1]);
  }

  /** The first read of a page returns what its segment's file holds, or zeros on the stack. */
  lemma FirstRead(trace: seq<Moment>, ops: seq<Op>, results: seq<Res>, spaces: map<nat, Space>, mc: Machine, i: nat)
    requires Refines(trace, ops, results, spaces, mc) && i < |results| && ops[i].ReadOp? && trace[i].abs.pid in spaces
    requires Key(trace[i].abs.pid, PageBase(ops[i].addr)) !in trace[i].abs.mem.view
    ensures var va, a := PageBase(ops[i].addr), spaces[trace[i].abs.pid];
      var seg := SegOf(a.segs, va);
      results[i] ==
        if seg.Some? then
          if seg.value.writeable || va < seg.value.base + seg.value.size then Value(ops[i].image) else Refused
        else if a.stackb <= va <= a.stackt then Value(ZeroPage)
        else Refused
  {
    hide Real;
    hide Back;
    var va, a := PageBase(ops[i].addr), spaces[trace[i].abs.pid];
    SegHas(a.segs, va);
    hide SegOf;
    assert Moved(trace[i], spaces, ops[i], results[i], trace[i + 1]);
  }

  // -------------------------------------------------------------------- running

  ghost function Now(vm: Vm): Moment
    reads vm
  {
    Moment(Abs(vm.Mem(), vm.pid, vm.kruns), vm.St())
  }

  lemma Later(s: State, t: Time, u: Time)
    requires Stamped(s, t) && Before(t, u)
    ensures Stamped(s, u)
  {
  }

  /** Some frame is not the kernel's: otherwise there is none to evict. */
  method HasRoom(vm: Vm) returns (b: bool)
    ensures b <==> !AllKernel(vm.St())
  {
    var i := 0;
    while i < |vm.core|
      invariant 0 <= i <= |vm.core| && forall j :: 0 <= j < i ==> vm.core[j].isKernel
    {
      if !vm.core[i].isKernel {
        return true;
      }
      i := i + 1;
    }
    b := false;
  }

  /** held are the first frames of the kernel's runs. */
  ghost predicate Ready(vm: Vm, held: set<nat>, spaces: map<nat, Space>, mc: Machine, t: Time)
    reads vm
  {
    && vm.Valid() && Real(Now(vm), mc) && Stamped(vm.St(), t) && held == vm.kruns.Keys
    && vm.pid in spaces && forall p :: p in spaces ==> SpaceOk(spaces[p])
  }

  /** Without a frame for the processes an access still fails or halts as it would otherwise. */
  method Barren(vm: Vm, op: Op, spaces: map<nat, Space>) returns (res: Res)
    requires vm.Valid() && AllKernel(vm.St()) && (op.ReadOp? || op.WriteOp?) && vm.pid in spaces
    ensures res == Halted || res == Refused
    ensures res == Halted <==> Stuck(Now(vm), op, spaces)
    ensures res == Refused ==> Step(Now(vm).abs, spaces, op, Back(Now(vm), op), res, Now(vm).abs)
  {
    hide InvX;
    hide ViewX;
    hide TlbOk;
    var va, a := op.addr / PAGE_SIZE * PAGE_SIZE, spaces[vm.pid];
    var j := vm.SwapSearch(vm.pid, va);
    var seg := vm.FindSeg(a, va);
    if j >= 0 {
      SlotPresent(vm.St(), vm.view, j);
      return Halted;
    }
    NoSlot(vm.St(), vm.pid, va);
    Absent(vm.St(), vm.view, Key(vm.pid, va));
    res := if va > USERSTACK || seg.Some? || a.stackb <= va <= a.stackt then Halted else Refused;
  }

  /** A process reads or writes. */
  method Access(vm: Vm, op: Op, held: set<nat>, spaces: map<nat, Space>, mc: Machine, now: Time) returns (res: Res)
    requires Ready(vm, held, spaces, mc, now) && (op.ReadOp? || op.WriteOp?)
    modifies vm
    ensures res == Halted <==> old(Stuck(Now(vm), op, spaces))
    ensures res != Halted ==> Ready(vm, held, spaces, mc, now)
    ensures res != Halted ==> Step(old(Now(vm)).abs, spaces, op, old(Back(Now(vm), op)), res, Now(vm).abs)
  {
    hide RunsOk;
    hide KernelIs;
    hide Stamped;
    hide KernelKept;
    hide Faulted;
    hide Answer;
    hide NoPlace;
    hide NeedsFrame;
    hide After;
    hide Swapped;
    hide InvX;
    hide ViewX;
    hide RwOk;
    hide TlbOk;
    var room := HasRoom(vm);
    if !room {
      res := Barren(vm, op, spaces);
      return;
    }
    ghost var s0 := vm.St();
    var r;
    if op.ReadOp? {
      var p;
      r, p := vm.UserRead(op.addr, spaces[vm.pid], op.image, now);
      res := if r == PANIC then Halted else if r == OK then Value(p) else Refused;
    } else {
      r := vm.UserWrite(op.addr, op.p, spaces[vm.pid], op.image, now);
      res := if r == PANIC then Halted else if r == OK then Wrote else Refused;
    }
    if r != PANIC {
      RunsKept(s0, vm.St(), vm.kruns, mc.lo, mc.boot);
    }
  }

  /** A switch, or a run of frames for the kernel allocated or freed. */
  method Manage(vm: Vm, op: Op, held: set<nat>, spaces: map<nat, Space>, mc: Machine, now: Time)
    returns (res: Res, held': set<nat>)
    requires Ready(vm, held, spaces, mc, now) && !op.ReadOp? && !op.WriteOp?
    requires op.SwitchOp? ==> op.pid != 0 && op.pid in spaces
    modifies vm
    ensures res != Halted && Ready(vm, held', spaces, mc, now) && Moved(old(Now(vm)), spaces, op, res, Now(vm))
  {
    hide RunsOk;
    hide KernelIs;
    hide Stamped;
    hide FreeRun;
    hide InvX;
    hide ViewX;
    hide RwOk;
    hide TlbOk;
    held', res := held, Done;
    if op.SwitchOp? {
      vm.Activate(op.pid, now);
    } else if op.AllocOp? {
      var r := AllocKpages(vm, op.n, mc.lo, now, op.junk);
      if op.n > 0 {
        held', res := if r >= 0 then held + {r} else held, if r >= 0 then Gave(r) else NoRun;
      }
    } else if op.a in held {
      ghost var freed := FreeKpage(vm, Kva(mc.lo, op.a), mc.lo);
      held' := held - {op.a};
    }
  }

  /** Every run, up to a halt, is a run of flat memory on the machine vm runs on, and it halts only where it is
      stuck; trace is that run. */
  method Run(vm: Vm, ops: seq<Op>, times: seq<Time>, spaces: map<nat, Space>, mc: Machine, start: Time)
    returns (results: seq<Res>, ghost trace: seq<Moment>)
    requires Ready(vm, {}, spaces, mc, start) && |times| == |ops|
    requires |times| > 0 ==> Before(start, times[0])
    requires forall i :: 0 < i < |times| ==> Before(times[i - 1], times[i])
    requires forall i :: 0 <= i < |ops| && ops[i].SwitchOp? ==> ops[i].pid != 0 && ops[i].pid in spaces
    modifies vm
    ensures Refines(trace, ops, results, spaces, mc) && trace[0] == old(Now(vm))
    ensures |results| == |ops| ==> vm.Valid() && trace[|ops|] == Now(vm) && Balanced(vm.stats)
  {
    hide Step;
    hide Stamped;
    hide RunsOk;
    hide KernelIs;
    hide Stuck;
    hide Inv;
    hide ViewIs;
    hide RwOk;
    hide TlbOk;
    results, trace := [], [Now(vm)];
    var held: set<nat> := {};
    ghost var t := start;
    var i := 0;
    while i < |ops|
      invariant 0 <= i <= |ops| && Ready(vm, held, spaces, mc, t) && t == (if i == 0 then start else times[i - 1])
      invariant |results| == i && Refines(trace, ops[..i], results, spaces, mc)
      invariant trace[i] == Now(vm) && trace[0] == old(Now(vm))
    {
      assert Before(t, times[i]);
      Later(vm.St(), t, times[i]);
      t := times[i];
      var res;
      if ops[i].ReadOp? || ops[i].WriteOp? {
        res := Access(vm, ops[i], held, spaces, mc, times[i]);
        if res == Halted {
          return;
        }
      } else {
        res, held := Manage(vm, ops[i], held, spaces, mc, times[i]);
      }
      results := results + [res];
      trace := trace + [Now(vm)];
      i := i + 1;
    }
  }

  /** From boot: the kernel has the first boot frames, process p runs, and no page exists yet. */
  method Boot(frames: nat, boot: nat, lo: nat, p: nat, ops: seq<Op>, times: seq<Time>, spaces: map<nat, Space>)
    returns (results: seq<Res>, ghost trace: seq<Moment>)
    requires boot <= frames && p != 0 && p in spaces && |times| == |ops|
    requires forall q :: q in spaces ==> SpaceOk(spaces[q])
    requires forall i :: 0 < i < |times| ==> Before(times[i - 1], times[i])
    requires forall i :: 0 <= i < |ops| && ops[i].SwitchOp? ==> ops[i].pid != 0 && ops[i].pid in spaces
    ensures Refines(trace, ops, results, spaces, Machine(frames, boot, lo, SWAP_MAX))
    ensures trace[0].abs == Abs(Flat(map[], {}, {}), p, map[])
  {
    hide Refines;
    var vm := new Vm(frames, boot, lo, p);
    RunsAtBoot(vm.St(), lo, boot);
    results, trace := Run(vm, ops, times, spaces, Machine(frames, boot, lo, SWAP_MAX), Time(0, 0));
  }
}
