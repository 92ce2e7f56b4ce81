/** What the callers of the synchronization primitives see, over every run: calls and returns, semaphore counts, who
    has which lock, and who waits on which condition variable. Nothing here is recorded by the primitives
    themselves; it is read off the run. */
module SynchCalls {
  import opened Options
  import opened Synch
  import opened SynchInv
  import opened SynchSafe

  // ------------------------------------------------------------ calls and returns

  /** The call a thread inside a primitive is in. */
  function OpOf(pc: Pc): Op
    requires pc != Idle
  {
    match pc
    case InP(n, _) => P(n)
    case InV(n, _) => V(n)
    case InAcquire(l, _, ret) => if ret.Client? then Acquire(l) else CvWait(ret.c, l)
    case InRelease(l, _, ret) => if ret.Client? then Release(l) else CvWait(ret.c, l)
    case InWait(c, l, _) => CvWait(c, l)
    case InSignal(c, l, _, all) => CvSignal(c, l, all)
  }

  predicate Busy(s: State, t: Tid, op: Op) {
    t in s.pc && s.pc[t] != Idle && OpOf(s.pc[t]) == op
  }

  predicate Calls(step: Step, op: Op) {
    step.Call? && step.op == op
  }

  /** The step from s to s' is the end of a call of op. */
  predicate Returns(s: State, step: Step, s': State, op: Op) {
    step.Micro? && Busy(s, step.t, op) && step.t in s'.pc && s'.pc[step.t] == Idle
  }

  /** How many of the first i steps call op. */
  function Called(steps: seq<Step>, i: nat, op: Op): nat
    requires i <= |steps|
  {
    if i == 0 then 0 else Called(steps, i - 1, op) + if Calls(steps[i - 1], op) then 1 else 0
  }

  /** How many of the first i steps return from op. */
  function Returned(run: seq<State>, steps: seq<Step>, i: nat, op: Op): nat
    requires i <= |steps| && |run| == |steps| + 1
  {
    if i == 0 then 0
    else Returned(run, steps, i - 1, op) + if Returns(run[i - 1], steps[i - 1], run[i], op) then 1 else 0
  }

  function BusyWith(pc: map<Tid, Pc>, op: Op): set<Tid> {
    set t | t in pc && pc[t] != Idle && OpOf(pc[t]) == op
  }

  /** V has been called and has yet to raise the count; P has been called and has yet to lower it. */
  predicate OwesV(pc: Pc, n: nat) {
    pc == InV(n, VSpl) || pc == InV(n, VInc)
  }

  predicate OwesP(pc: Pc, n: nat) {
    pc == InP(n, PSpl) || pc == InP(n, PTest) || pc == InP(n, PTake)
  }

  function OwingV(pc: map<Tid, Pc>, n: nat): set<Tid> {
    set t | t in pc && OwesV(pc[t], n)
  }

  function OwingP(pc: map<Tid, Pc>, n: nat): set<Tid> {
    set t | t in pc && OwesP(pc[t], n)
  }

  function One(b: bool): nat {
    if b then 1 else 0
  }

  lemma OneMoved(a: set<Tid>, b: set<Tid>, t: Tid)
    requires forall x :: x != t ==> (x in a <==> x in b)
    ensures |b| == |a| + One(t in b) - One(t in a)
  {
    assert a - {t} == b - {t};
    assert |a - {t}| == |a| - One(t in a);
    assert |b - {t}| == |b| - One(t in b);
  }

  // ------------------------------------------------- one statement, as a caller sees it

  /** The lock a call leaves its caller with. */
  function Gets(op: Op, t: Tid): set<(Tid, nat)> {
    if op.Acquire? || op.CvWait? then {(t, op.l)} else {}
  }

  /** The lock a caller gives up by calling op. */
  function GivesBack(op: Op, t: Tid): set<(Tid, nat)> {
    if op.Release? || op.CvWait? then {(t, op.l)} else {}
  }

  /** vs counts the Vs that raised the count and ps the Ps that lowered it, when a thread moves from pc to pc'. */
  ghost predicate Counts(vs: seq<nat>, ps: seq<nat>, pc: Pc,
                         vs': seq<nat>, ps': seq<nat>, pc': Pc, called: Option<Op>) {
    && |vs'| == |vs| && |ps'| == |ps|
    && (forall n: nat :: n < |vs| ==>
          vs'[n] + One(OwesV(pc', n)) == vs[n] + One(OwesV(pc, n)) + One(called == Some(V(n))))
    && (forall n: nat :: n < |ps| ==>
          ps'[n] + One(OwesP(pc', n)) == ps[n] + One(OwesP(pc, n)) + One(called == Some(P(n))))
  }

  /** The same statement, or another of the same kind: neither count changes. */
  lemma CountsAlone(vs: seq<nat>, ps: seq<nat>, pc: Pc, pc': Pc)
    requires forall n: nat :: OwesV(pc', n) == OwesV(pc, n) && OwesP(pc', n) == OwesP(pc, n)
    ensures Counts(vs, ps, pc, vs, ps, pc', None)
  {
  }

  lemma CountsV(vs: seq<nat>, ps: seq<nat>, n: nat)
    requires n < |vs|
    ensures Counts(vs, ps, InV(n, VInc), vs[n := vs[n] + 1], ps, InV(n, VWake), None)
  {
  }

  lemma CountsP(vs: seq<nat>, ps: seq<nat>, n: nat)
    requires n < |ps|
    ensures Counts(vs, ps, InP(n, PTake), vs, ps[n := ps[n] + 1], InP(n, PSplx), None)
  {
  }

  lemma CountsCall(vs: seq<nat>, ps: seq<nat>, pc: Pc, op: Op)
    requires pc != Idle && OpOf(pc) == op && (op.P? ==> pc == InP(op.s, PSpl)) && (op.V? ==> pc == InV(op.s, VSpl))
    ensures Counts(vs, ps, Idle, vs, ps, pc, Some(op))
  {
  }

  /** What a statement of thread t inside a primitive may do. */
  ghost predicate Stays(s: State, s': State, t: Tid)
    requires t in s.pc && s.pc[t] != Idle
  {
    && t in s'.pc && s'.pc == s.pc[t := s'.pc[t]] && (s'.pc[t] == Idle || OpOf(s'.pc[t]) == OpOf(s.pc[t]))
    && Counts(s.vs, s.ps, s.pc[t], s'.vs, s'.ps, s'.pc[t], None)
    && s'.inside == s.inside + (if s'.pc[t] == Idle then Gets(OpOf(s.pc[t]), t) else {})
    && HolderMoves(s.holder, s'.holder, t) && (!s.pc[t].InSignal? ==> s.waiting.Keys <= s'.waiting.Keys)
  }

  /** Only t may have got a lock. */
  ghost predicate HolderMoves(holder: seq<Option<Tid>>, holder': seq<Option<Tid>>, t: Tid) {
    && |holder'| == |holder|
    && forall l, x :: 0 <= l < |holder| && x != t && holder'[l] == Some(x) ==> holder[l] == Some(x)
  }

  lemma PStays(s: State, t: Tid, n: nat, p: PPc)
    requires t in s.pc && s.pc[t] == InP(n, p) && n < |s.count| == |s.ps|
    ensures Stays(s, ExecP(s, t, n, p), t)
  {
    hide Counts;
    var s' := ExecP(s, t, n, p);
    if p == PTake && s.count[n] > 0 {
      CountsP(s.vs, s.ps, n);
    } else {
      CountsAlone(s.vs, s.ps, s.pc[t], s'.pc[t]);
    }
  }

  lemma VStays(s: State, t: Tid, n: nat, v: VPc)
    requires t in s.pc && s.pc[t] == InV(n, v) && n < |s.count| == |s.vs|
    ensures Stays(s, ExecV(s, t, n, v), t)
  {
    hide Counts;
    hide Wakeup;
    var s' := ExecV(s, t, n, v);
    if v == VInc {
      CountsV(s.vs, s.ps, n);
    } else {
      CountsAlone(s.vs, s.ps, s.pc[t], s'.pc[t]);
    }
  }

  lemma AcquireStays(s: State, t: Tid, l: nat, q: APc, ret: Ret)
    requires t in s.pc && s.pc[t] == InAcquire(l, q, ret) && l < |s.holder|
    ensures Stays(s, ExecAcquire(s, t, l, q, ret), t)
  {
    hide Counts;
    var s' := ExecAcquire(s, t, l, q, ret);
    CountsAlone(s.vs, s.ps, s.pc[t], s'.pc[t]);
  }

  lemma ReleaseStays(s: State, t: Tid, l: nat, r: RPc, ret: Ret)
    requires t in s.pc && s.pc[t] == InRelease(l, r, ret) && l < |s.holder|
    ensures Stays(s, ExecRelease(s, t, l, r, ret), t)
  {
    hide Counts;
    hide Wakeup;
    var s' := ExecRelease(s, t, l, r, ret);
    CountsAlone(s.vs, s.ps, s.pc[t], s'.pc[t]);
  }

  lemma WaitStays(s: State, t: Tid, c: nat, l: nat, w: WPc)
    requires t in s.pc && s.pc[t] == InWait(c, l, w) && l < |s.holder|
    ensures Stays(s, ExecWait(s, t, c, l, w), t)
  {
    hide Counts;
    var s' := ExecWait(s, t, c, l, w);
    CountsAlone(s.vs, s.ps, s.pc[t], s'.pc[t]);
  }

  lemma SignalStays(s: State, t: Tid, x: Tid, c: nat, l: nat, g: SPc, all: bool)
    requires t in s.pc && s.pc[t] == InSignal(c, l, g, all) && l < |s.holder|
    ensures Stays(s, ExecSignal(s, t, x, c, l, g, all), t)
  {
    hide Counts;
    hide Wakeup;
    hide Unwait;
    var s' := ExecSignal(s, t, x, c, l, g, all);
    CountsAlone(s.vs, s.ps, s.pc[t], s'.pc[t]);
  }

  lemma ExecStays(s: State, t: Tid, x: Tid)
    requires t in s.pc && s.pc[t] != Idle && InRange(s, s.pc[t])
    ensures Stays(s, Exec(s, t, x), t)
  {
    hide Stays;
    match s.pc[t]
    case InP(n, p) => PStays(s, t, n, p);
    case InV(n, v) => VStays(s, t, n, v);
    case InAcquire(l, q, ret) => AcquireStays(s, t, l, q, ret);
    case InRelease(l, r, ret) => ReleaseStays(s, t, l, r, ret);
    case InWait(c, l, w) => WaitStays(s, t, c, l, w);
    case InSignal(c, l, g, all) => SignalStays(s, t, x, c, l, g, all);
  }

  lemma InvokeStays(s: State, t: Tid, op: Op)
    requires t in s.pc && s.pc[t] == Idle
    ensures var s' := Invoke(s, t, op);
      && s'.pc == s.pc[t := s'.pc[t]] && Busy(s', t, op)
      && Counts(s.vs, s.ps, Idle, s'.vs, s'.ps, s'.pc[t], Some(op))
      && s'.inside == s.inside - GivesBack(op, t)
  {
    CountsCall(s.vs, s.ps, Invoke(s, t, op).pc[t], op);
    hide Counts;
  }

  // ----------------------------------------------------------- counting the calls

  /** Every call is under way or has returned. */
  lemma OpTally(s: State, step: Step, op: Op)
    requires Enabled(s, step)
    ensures var s' := Apply(s, step);
      |BusyWith(s'.pc, op)| + One(Returns(s, step, s', op)) == |BusyWith(s.pc, op)| + One(Calls(step, op))
  {
    hide Exec;
    hide Invoke;
    hide Counts;
    hide InRange;
    var s' := Apply(s, step);
    match step
    case Call(t, o) =>
      InvokeStays(s, t, o);
      OneMoved(BusyWith(s.pc, op), BusyWith(s'.pc, op), t);
    case Micro(t, x) =>
      ExecStays(s, t, x);
      OneMoved(BusyWith(s.pc, op), BusyWith(s'.pc, op), t);
    case Preempt =>
    case Dispatch(t) =>
  }

  lemma CountTally(s: State, step: Step, n: nat)
    requires Enabled(s, step) && n < |s.vs| && n < |s.ps|
    ensures var s' := Apply(s, step);
      && |s'.vs| == |s.vs| && |s'.ps| == |s.ps|
      && s'.vs[n] + |OwingV(s'.pc, n)| == s.vs[n] + |OwingV(s.pc, n)| + One(Calls(step, V(n)))
      && s'.ps[n] + |OwingP(s'.pc, n)| == s.ps[n] + |OwingP(s.pc, n)| + One(Calls(step, P(n)))
  {
    hide Exec;
    hide Invoke;
    hide InRange;
    hide OwesV;
    hide OwesP;
    var s' := Apply(s, step);
    match step
    case Call(t, op) =>
      InvokeStays(s, t, op);
      OneMoved(OwingV(s.pc, n), OwingV(s'.pc, n), t);
      OneMoved(OwingP(s.pc, n), OwingP(s'.pc, n), t);
    case Micro(t, x) =>
      ExecStays(s, t, x);
      OneMoved(OwingV(s.pc, n), OwingV(s'.pc, n), t);
      OneMoved(OwingP(s.pc, n), OwingP(s'.pc, n), t);
    case Preempt =>
    case Dispatch(t) =>
  }

  // ------------------------------------------------------------- locks and waiting

  /** Who has which lock, after its acquire or wait returned and until it calls release or wait. */
  function HasNext(has: set<(Tid, nat)>, s: State, step: Step, s': State): set<(Tid, nat)> {
    match step
    case Call(t, op) => has - GivesBack(op, t)
    case Micro(t, _) =>
      if t in s.pc && s.pc[t] != Idle && t in s'.pc && s'.pc[t] == Idle then has + Gets(OpOf(s.pc[t]), t) else has
    case _ => has
  }

  function Has(run: seq<State>, steps: seq<Step>, i: nat): set<(Tid, nat)>
    requires i <= |steps| && |run| == |steps| + 1
  {
    if i == 0 then {} else HasNext(Has(run, steps, i - 1), run[i - 1], steps[i - 1], run[i])
  }

  /** Thread t is in cv_wait and the step lets go of its lock. */
  predicate LetsGo(s: State, s': State, t: Tid) {
    && t in s.pc && s.pc[t] != Idle && OpOf(s.pc[t]).CvWait?
    && var l := OpOf(s.pc[t]).l;
       l < |s.holder| && l < |s'.holder| && s.holder[l] == Some(t) && s'.holder[l] != Some(t)
  }

  /** Thread t was asleep on a condition variable and is not any more. */
  predicate CvWoken(s: State, s': State, t: Tid) {
    t in s.asleep && s.asleep[t].CvAddr? && t !in s'.asleep
  }

  /** Who waits on which condition variable, from letting go of the lock until it is woken. */
  function WaitsNext(waits: map<Tid, nat>, s: State, step: Step, s': State): map<Tid, nat> {
    var more := if step.Micro? && LetsGo(s, s', step.t) then waits[step.t := OpOf(s.pc[step.t]).c] else waits;
    map t | t in more && !CvWoken(s, s', t) :: more[t]
  }

  function Waits(run: seq<State>, steps: seq<Step>, i: nat): map<Tid, nat>
    requires i <= |steps| && |run| == |steps| + 1
  {
    if i == 0 then map[] else WaitsNext(Waits(run, steps, i - 1), run[i - 1], steps[i - 1], run[i])
  }

  lemma HasStep(s: State, step: Step)
    requires Enabled(s, step)
    ensures Apply(s, step).inside == HasNext(s.inside, s, step, Apply(s, step))
  {
    hide Exec;
    hide Invoke;
    hide Counts;
    hide InRange;
    match step
    case Call(t, op) => InvokeStays(s, t, op);
    case Micro(t, x) => ExecStays(s, t, x);
    case Preempt =>
    case Dispatch(t) =>
  }

  /** What a statement of t does to the waiting threads. */
  ghost predicate WaitMoves(s: State, s': State, t: Tid)
    requires t in s.pc && s.pc[t] != Idle
  {
    var more := if LetsGo(s, s', t) then s.waiting[t := OpOf(s.pc[t]).c] else s.waiting;
    && (forall x :: x in s'.waiting <==> x in more && !CvWoken(s, s', x))
    && (forall x :: x in s'.waiting ==> s'.waiting[x] == more[x])
  }

  lemma PWaits(s: State, t: Tid, n: nat, p: PPc)
    requires t in s.pc && s.pc[t] == InP(n, p) && n < |s.count| == |s.ps|
    ensures WaitMoves(s, ExecP(s, t, n, p), t)
  {
  }

  lemma VWaits(s: State, t: Tid, n: nat, v: VPc)
    requires t in s.pc && s.pc[t] == InV(n, v) && n < |s.count| == |s.vs|
    ensures WaitMoves(s, ExecV(s, t, n, v), t)
  {
  }

  lemma AcquireWaits(s: State, t: Tid, l: nat, q: APc, ret: Ret)
    requires t in s.pc && s.pc[t] == InAcquire(l, q, ret) && l < |s.holder|
    ensures WaitMoves(s, ExecAcquire(s, t, l, q, ret), t)
  {
  }

  lemma ReleaseWaits(s: State, t: Tid, l: nat, r: RPc, ret: Ret)
    requires t in s.pc && s.pc[t] == InRelease(l, r, ret) && l < |s.holder| && t !in s.asleep
    ensures WaitMoves(s, ExecRelease(s, t, l, r, ret), t)
  {
  }

  lemma WaitWaits(s: State, t: Tid, c: nat, l: nat, w: WPc)
    requires t in s.pc && s.pc[t] == InWait(c, l, w) && l < |s.holder|
    ensures WaitMoves(s, ExecWait(s, t, c, l, w), t)
  {
  }

  lemma SignalWaits(s: State, init: seq<int>, t: Tid, x: Tid, c: nat, l: nat, g: SPc, all: bool)
    requires s.cur == Some(t) && t in s.pc && s.pc[t] == InSignal(c, l, g, all) && l < |s.holder| && Inv(s, init)
    ensures WaitMoves(s, ExecSignal(s, t, x, c, l, g, all), t)
  {
    Own(s, init, t);
    hide Inv;
    forall y | y in s.pc
      ensures y in s.waiting ==> y in s.asleep && s.asleep[y] == CvAddr(s.waiting[y])
      ensures y in s.asleep && s.asleep[y].CvAddr? ==> y in s.waiting && s.waiting[y] == s.asleep[y].n
    {
      if y in s.waiting {
        WaiterSleeps(s, init, y);
      }
      if y in s.asleep && s.asleep[y].CvAddr? {
        AsleepWaits(s, init, y);
      }
    }
    InPc(s, init);
  }

  lemma InPc(s: State, init: seq<int>)
    requires Inv(s, init)
    ensures (forall y :: y in s.waiting ==> y in s.pc) && (forall y :: y in s.asleep ==> y in s.pc)
  {
    hide ThreadOk;
    hide SemOk;
    hide LockOk;
  }

  lemma WaitsStep(s: State, init: seq<int>, step: Step)
    requires Enabled(s, step) && Inv(s, init)
    ensures Apply(s, step).waiting == WaitsNext(s.waiting, s, step, Apply(s, step))
  {
    hide Inv;
    hide ExecP;
    hide ExecV;
    hide ExecAcquire;
    hide ExecRelease;
    hide ExecWait;
    hide ExecSignal;
    hide LetsGo;
    match step
    case Micro(t, x) => {
      Own(s, init, t);
      match s.pc[t]
      case Idle =>
      case InP(n, p) => PWaits(s, t, n, p);
      case InV(n, v) => VWaits(s, t, n, v);
      case InAcquire(l, q, ret) => AcquireWaits(s, t, l, q, ret);
      case InRelease(l, r, ret) => ReleaseWaits(s, t, l, r, ret);
      case InWait(c, l, w) => WaitWaits(s, t, c, l, w);
      case InSignal(c, l, g, all) => SignalWaits(s, init, t, x, c, l, g, all);
    }
    case _ =>
  }

  /** A thread that is letting go of a lock, or has to take it again, does not hold it. */
  predicate LetGo(pc: Pc) {
    || (pc.InRelease? && (pc.r == RWake || pc.r == RSplx))
    || (pc.InWait? && (pc.w == WSleep || pc.w == WWoken))
    || (pc.InAcquire? && pc.ret.Wait? && pc.q != ASplx)
  }

  predicate NotHolder(s: State, t: Tid)
    requires t in s.pc
  {
    LetGo(s.pc[t]) ==> s.pc[t].l < |s.holder| && s.holder[s.pc[t].l] != Some(t)
  }

  lemma NotHolderStep(s: State, init: seq<int>, step: Step, t: Tid)
    requires Enabled(s, step) && Inv(s, init) && t in s.pc && NotHolder(s, t)
    ensures t in Apply(s, step).pc && NotHolder(Apply(s, step), t)
  {
    hide Inv;
    hide Wakeup;
    hide Unwait;
    match step
    case Call(u, op) => InvokeStays(s, u, op);
    case Micro(u, x) => {
      Own(s, init, u);
      if u == t {
        OwnNotHolder(s, t, x);
      } else {
        ExecStays(s, u, x);
        hide Exec;
      }
    }
    case Preempt =>
    case Dispatch(u) =>
  }

  lemma OwnNotHolder(s: State, t: Tid, x: Tid)
    requires t in s.pc && s.pc[t] != Idle && InRange(s, s.pc[t]) && NotHolder(s, t)
    ensures t in Exec(s, t, x).pc && NotHolder(Exec(s, t, x), t)
  {
    hide ExecP;
    hide ExecV;
    hide ExecAcquire;
    hide ExecRelease;
    hide ExecWait;
    hide ExecSignal;
    hide Counts;
    ExecStays(s, t, x);
    match s.pc[t]
    case InAcquire(l, q, ret) => AcquireNotHolder(s, t, l, q, ret);
    case InRelease(l, r, ret) => ReleaseNotHolder(s, t, l, r, ret);
    case InWait(c, l, w) => WaitNotHolder(s, t, c, l, w);
    case _ =>
  }

  lemma AcquireNotHolder(s: State, t: Tid, l: nat, q: APc, ret: Ret)
    requires t in s.pc && s.pc[t] == InAcquire(l, q, ret) && l < |s.holder| && NotHolder(s, t)
    ensures var s' := ExecAcquire(s, t, l, q, ret);
      t in s'.pc && NotHolder(s', t)
  {
  }

  lemma ReleaseNotHolder(s: State, t: Tid, l: nat, r: RPc, ret: Ret)
    requires t in s.pc && s.pc[t] == InRelease(l, r, ret) && l < |s.holder| && NotHolder(s, t)
    ensures var s' := ExecRelease(s, t, l, r, ret);
      t in s'.pc && NotHolder(s', t)
  {
    hide Wakeup;
  }

  lemma WaitNotHolder(s: State, t: Tid, c: nat, l: nat, w: WPc)
    requires t in s.pc && s.pc[t] == InWait(c, l, w) && l < |s.holder| && NotHolder(s, t)
    ensures var s' := ExecWait(s, t, c, l, w);
      t in s'.pc && NotHolder(s', t)
  {
  }

  // ------------------------------------------------------------------ every run

  ghost predicate Linked(run: seq<State>, steps: seq<Step>, i: nat)
    requires i <= |steps| && |run| == |steps| + 1
  {
    && run[i].inside == Has(run, steps, i) && run[i].waiting == Waits(run, steps, i)
    && forall t :: t in run[i].pc ==> NotHolder(run[i], t)
  }

  lemma {:induction false} RunLinked(run: seq<State>, steps: seq<Step>, init: seq<int>, i: nat)
    requires Run(run, steps) && Initial(run[0], init) && i <= |steps|
    ensures Linked(run, steps, i)
  {
    hide Inv;
    hide Apply;
    hide Enabled;
    hide NotHolder;
    hide HasNext;
    hide WaitsNext;
    if i == 0 {
      FirstNotHolder(run[0], init);
    } else {
      RunLinked(run, steps, init, i - 1);
      RunInv(run, steps, init, i - 1);
      var s, step := run[i - 1], steps[i - 1];
      assert run[i - 1 + 1] == Apply(s, step);
      HasStep(s, step);
      WaitsStep(s, init, step);
      KeysKept(s, step);
      forall t | t in run[i].pc
        ensures NotHolder(run[i], t)
      {
        NotHolderStep(s, init, step, t);
      }
    }
  }

  lemma FirstNotHolder(s: State, init: seq<int>)
    requires Initial(s, init)
    ensures forall t :: t in s.pc ==> NotHolder(s, t)
  {
  }

  lemma KeysKept(s: State, step: Step)
    requires Enabled(s, step)
    ensures Apply(s, step).pc.Keys == s.pc.Keys
  {
    hide Exec;
    hide Counts;
    match step
    case Micro(t, x) => ExecStays(s, t, x);
    case _ =>
  }

  /** Every call is under way or has returned. */
  lemma {:induction false} Accounts(run: seq<State>, steps: seq<Step>, init: seq<int>, i: nat, op: Op)
    requires Run(run, steps) && Initial(run[0], init) && i <= |steps|
    ensures Called(steps, i, op) == Returned(run, steps, i, op) + |BusyWith(run[i].pc, op)|
  {
    hide Apply;
    hide Enabled;
    if i == 0 {
      assert BusyWith(run[0].pc, op) == {};
    } else {
      Accounts(run, steps, init, i - 1, op);
      assert run[i - 1 + 1] == Apply(run[i - 1], steps[i - 1]);
      OpTally(run[i - 1], steps[i - 1], op);
    }
  }

  /** The counters in the state are the calls, less those that have yet to take effect. */
  lemma {:induction false} Effects(run: seq<State>, steps: seq<Step>, init: seq<int>, i: nat, n: nat)
    requires Run(run, steps) && Initial(run[0], init) && i <= |steps| && n < |init|
    ensures n < |run[i].vs| && run[i].vs[n] + |OwingV(run[i].pc, n)| == Called(steps, i, V(n))
    ensures n < |run[i].ps| && run[i].ps[n] + |OwingP(run[i].pc, n)| == Called(steps, i, P(n))
  {
    hide Apply;
    hide Enabled;
    if i == 0 {
      assert OwingV(run[0].pc, n) == {} && OwingP(run[0].pc, n) == {};
    } else {
      Effects(run, steps, init, i - 1, n);
      assert run[i - 1 + 1] == Apply(run[i - 1], steps[i - 1]);
      CountTally(run[i - 1], steps[i - 1], n);
    }
  }

  // ------------------------------------------------------------------- theorems

  /** What a sleeping thread waits for is what it called. */
  ghost predicate SleepsFor(s: State, waits: map<Tid, nat>, t: Tid)
    requires t in s.asleep
  {
    match s.asleep[t]
    case SemAddr(n) => Busy(s, t, P(n))
    case LockAddr(l) => Busy(s, t, Acquire(l)) || exists c :: Busy(s, t, CvWait(c, l))
    case CvAddr(c) => t in waits && waits[t] == c
  }

  /** A thread that waits has let go of its lock, and is asleep whenever another thread runs. */
  ghost predicate WaitsFor(s: State, waits: map<Tid, nat>, t: Tid)
    requires t in waits
  {
    && (exists l: nat :: Busy(s, t, CvWait(waits[t], l)) && l < |s.holder| && s.holder[l] != Some(t))
    && (s.cur != Some(t) ==> t in s.asleep && s.asleep[t] == CvAddr(waits[t]))
  }

  /** What callers may rely on after i steps of a run. */
  ghost predicate Promises(run: seq<State>, steps: seq<Step>, init: seq<int>, i: nat)
    requires i <= |steps| && |run| == |steps| + 1
  {
    var s, has, waits := run[i], Has(run, steps, i), Waits(run, steps, i);
    // no assertion failed
    && !s.panic
    // a count is the initial count, plus the Vs called, less the Ps called, those aside that have yet to take effect
    && |s.count| == |init|
    && (forall n: nat :: n < |init| ==>
          && s.count[n] >= 0
          && s.count[n] == init[n] + (Called(steps, i, V(n)) - |OwingV(s.pc, n)|)
                                  - (Called(steps, i, P(n)) - |OwingP(s.pc, n)|))
    // a thread that has a lock is its holder, so no two have the same
    && (forall t, l :: (t, l) in has ==> l < |s.holder| && s.holder[l] == Some(t))
    && (forall t :: t in waits ==> WaitsFor(s, waits, t))
    && (forall t :: t in s.asleep ==> SleepsFor(s, waits, t))
    // no thread sleeps on a positive semaphore or on a free lock
    && (Open(s) ==> forall t, n: nat :: t in s.asleep && s.asleep[t] == SemAddr(n) && n < |s.count| ==> s.count[n] == 0)
    && (Open(s) ==>
          forall t, l: nat :: t in s.asleep && s.asleep[t] == LockAddr(l) && l < |s.holder| ==> s.holder[l] != None)
  }

  lemma SleeperCalled(s: State, init: seq<int>, t: Tid)
    requires Inv(s, init) && t in s.asleep
    ensures SleepsFor(s, s.waiting, t)
  {
    assert t in s.pc && ThreadOk(s, t);
    hide SemOk;
    hide LockOk;
    if s.asleep[t].LockAddr? {
      var pc := s.pc[t];
      assert pc.ret.Wait? ==> Busy(s, t, CvWait(pc.ret.c, s.asleep[t].n));
    }
  }

  lemma WaiterCalled(s: State, init: seq<int>, t: Tid)
    requires Inv(s, init) && t in s.waiting && t in s.pc && NotHolder(s, t)
    ensures WaitsFor(s, s.waiting, t)
  {
    assert ThreadOk(s, t);
    if s.cur != Some(t) {
      WaiterSleeps(s, init, t);
    }
    hide SemOk;
    hide LockOk;
    assert Busy(s, t, CvWait(s.waiting[t], s.pc[t].l));
  }

  /** Every run of any threads on any semaphores, locks and condition variables keeps what they promise. */
  lemma EveryRunKept(run: seq<State>, steps: seq<Step>, init: seq<int>, i: nat)
    requires Run(run, steps) && Initial(run[0], init) && i <= |steps|
    ensures Promises(run, steps, init, i)
  {
    hide Inv;
    hide Initial;
    hide NotHolder;
    var s := run[i];
    RunInv(run, steps, init, i);
    InvSafe(s, init);
    InsideHeld(s, init);
    RunLinked(run, steps, init, i);
    InPc(s, init);
    forall n: nat | n < |init|
      ensures s.vs[n] + |OwingV(s.pc, n)| == Called(steps, i, V(n))
      ensures s.ps[n] + |OwingP(s.pc, n)| == Called(steps, i, P(n))
    {
      Effects(run, steps, init, i, n);
    }
    forall t | t in s.waiting
      ensures WaitsFor(s, s.waiting, t)
    {
      WaiterCalled(s, init, t);
    }
    forall t | t in s.asleep
      ensures SleepsFor(s, s.waiting, t)
    {
      SleeperCalled(s, init, t);
    }
    hide WaitsFor;
    hide SleepsFor;
    hide Called;
  }

  lemma InsideHeld(s: State, init: seq<int>)
    requires Inv(s, init)
    ensures forall t, l :: (t, l) in s.inside ==> l < |s.holder| && s.holder[l] == Some(t)
  {
    hide ThreadOk;
    hide SemOk;
    hide LockOk;
  }

  /** While nobody is inside V, or inside P with the count already lowered, the count is the initial count plus
      the Vs that returned less the Ps that returned. */
  lemma QuietCount(run: seq<State>, steps: seq<Step>, init: seq<int>, i: nat, n: nat)
    requires Run(run, steps) && Initial(run[0], init) && i <= |steps| && n < |init|
    requires forall t :: !Busy(run[i], t, V(n)) && (Busy(run[i], t, P(n)) ==> t in OwingP(run[i].pc, n))
    ensures |run[i].count| == |init|
    ensures run[i].count[n] == init[n] + Returned(run, steps, i, V(n)) - Returned(run, steps, i, P(n))
  {
    EveryRunKept(run, steps, init, i);
    Accounts(run, steps, init, i, V(n));
    Accounts(run, steps, init, i, P(n));
    hide Promises;
    hide Busy;
    hide Run;
    hide Initial;
    QuietSets(run[i], n);
    QuietSum(run, steps, init, i, n);
  }

  lemma QuietSets(s: State, n: nat)
    requires forall t :: !Busy(s, t, V(n)) && (Busy(s, t, P(n)) ==> t in OwingP(s.pc, n))
    ensures BusyWith(s.pc, V(n)) == {} && OwingV(s.pc, n) == {} && BusyWith(s.pc, P(n)) == OwingP(s.pc, n)
  {
    forall t | t in s.pc
      ensures t !in BusyWith(s.pc, V(n)) && t !in OwingV(s.pc, n)
      ensures t in BusyWith(s.pc, P(n)) <==> t in OwingP(s.pc, n)
    {
      assert !Busy(s, t, V(n)) && (Busy(s, t, P(n)) ==> t in OwingP(s.pc, n));
    }
  }

  lemma QuietSum(run: seq<State>, steps: seq<Step>, init: seq<int>, i: nat, n: nat)
    requires i <= |steps| && |run| == |steps| + 1 && n < |init| && Promises(run, steps, init, i)
    ensures |run[i].count| == |init|
    ensures run[i].count[n] == init[n] + (Called(steps, i, V(n)) - |OwingV(run[i].pc, n)|)
                                      - (Called(steps, i, P(n)) - |OwingP(run[i].pc, n)|)
  {
  }

  /** What a call has done when it returns, beyond the counts. */
  lemma ReturnedLocks(run: seq<State>, steps: seq<Step>, init: seq<int>, i: nat, l: nat)
    requires Run(run, steps) && Initial(run[0], init) && i < |steps| && l < |run[i + 1].holder| && steps[i].Micro?
    ensures Returns(run[i], steps[i], run[i + 1], Acquire(l)) ==> run[i + 1].holder[l] == Some(steps[i].t)
    ensures Returns(run[i], steps[i], run[i + 1], Release(l)) ==> run[i + 1].holder[l] != Some(steps[i].t)
    ensures forall c :: Returns(run[i], steps[i], run[i + 1], CvWait(c, l)) ==> run[i + 1].holder[l] == Some(steps[i].t)
  {
    var s, t, x := run[i], steps[i].t, steps[i].x;
    EveryRunKept(run, steps, init, i + 1);
    RunLinked(run, steps, init, i);
    RunInv(run, steps, init, i);
    hide Inv;
    Own(s, init, t);
    ExecStays(s, t, x);
    HolderAtReturn(s, t, x);
    assert run[i + 1] == Apply(s, steps[i]);
    hide Exec;
    assert forall op :: Returns(s, steps[i], run[i + 1], op) && (op.Acquire? || op.CvWait?) ==>
        (t, op.l) in Has(run, steps, i + 1);
  }

  lemma HolderAtReturn(s: State, t: Tid, x: Tid)
    requires t in s.pc && s.pc[t] != Idle && InRange(s, s.pc[t]) && NotHolder(s, t)
    ensures t in Exec(s, t, x).pc
    ensures s.pc[t].InRelease? && Exec(s, t, x).pc[t] == Idle ==>
      LetGo(s.pc[t]) && Exec(s, t, x).holder == s.holder
  {
    ExecStays(s, t, x);
    hide Stays;
    hide ExecP;
    hide ExecV;
    hide ExecAcquire;
    hide ExecWait;
    hide ExecSignal;
    hide Wakeup;
  }

  // ------------------------------------------------------------ signals and waiting

  /** Thread t is in the same call of op from state j to state i. */
  ghost predicate Throughout(run: seq<State>, j: nat, i: nat, t: Tid, op: Op) {
    j <= i < |run| && forall m :: j <= m <= i ==> Busy(run[m], t, op)
  }

  lemma ThroughoutMore(run: seq<State>, j: nat, i: nat, t: Tid, op: Op)
    requires i > 0 && i < |run| && Throughout(run, j, i - 1, t, op) && Busy(run[i], t, op)
    ensures Throughout(run, j, i, t, op)
  {
  }

  /** A step that wakes every thread that waits on c, or one of them if there is one. */
  ghost predicate Wakes(s: State, waits: map<Tid, nat>, s': State, waits': map<Tid, nat>, c: nat, all: bool) {
    if all then forall y :: y in waits && waits[y] == c ==> y !in waits' && y !in s'.asleep
    else (exists y :: y in waits && waits[y] == c) ==>
      exists y :: y in waits && waits[y] == c && waits' == waits - {y} && y !in s'.asleep
  }

  ghost predicate WokeAt(run: seq<State>, steps: seq<Step>, k: nat, t: Tid, c: nat, all: bool)
    requires |run| == |steps| + 1 && k < |steps|
  {
    && steps[k].Micro? && steps[k].t == t
    && Wakes(run[k], Waits(run, steps, k), run[k + 1], Waits(run, steps, k + 1), c, all)
  }

  /** During its present call thread t has woken who it should. */
  ghost predicate HasWoken(run: seq<State>, steps: seq<Step>, i: nat, t: Tid, c: nat, l: nat, all: bool)
    requires |run| == |steps| + 1
  {
    exists k: nat ::
      k < i && k < |steps| && Throughout(run, k, i, t, CvSignal(c, l, all)) && WokeAt(run, steps, k, t, c, all)
  }

  lemma {:induction false} SignalPassed(run: seq<State>, steps: seq<Step>, init: seq<int>, i: nat,
                                        t: Tid, c: nat, l: nat, all: bool)
    requires Run(run, steps) && Initial(run[0], init) && i <= |steps|
    requires t in run[i].pc && run[i].pc[t] == InSignal(c, l, SSplx, all)
    ensures HasWoken(run, steps, i, t, c, l, all)
  {
    hide Inv;
    hide Apply;
    hide Enabled;
    hide WokeAt;
    hide Waits;
    assert i > 0;
    var k := i - 1;
    var s, step := run[k], steps[k];
    assert run[k + 1] == Apply(s, step) && Enabled(s, step);
    RunInv(run, steps, init, k);
    SignalBefore(s, init, step, t, c, l, all);
    if s.pc[t] == InSignal(c, l, SSplx, all) {
      SignalPassed(run, steps, init, k, t, c, l, all);
      var j: nat :| j < k && Throughout(run, j, k, t, CvSignal(c, l, all)) && WokeAt(run, steps, j, t, c, all);
      ThroughoutMore(run, j, i, t, CvSignal(c, l, all));
    } else {
      RunLinked(run, steps, init, k);
      RunLinked(run, steps, init, i);
      SignalWakes(s, init, step, t, c, l, all);
      assert WokeAt(run, steps, k, t, c, all) by {
        WokeHere(run, steps, k, t, c, all);
      }
      assert Throughout(run, k, i, t, CvSignal(c, l, all));
    }
  }

  lemma WokeHere(run: seq<State>, steps: seq<Step>, k: nat, t: Tid, c: nat, all: bool)
    requires |run| == |steps| + 1 && k < |steps| && steps[k].Micro? && steps[k].t == t
    requires Linked(run, steps, k) && Linked(run, steps, k + 1)
    requires Wakes(run[k], run[k].waiting, run[k + 1], run[k + 1].waiting, c, all)
    ensures WokeAt(run, steps, k, t, c, all)
  {
    hide Wakes;
    hide NotHolder;
  }

  /** Where a signal that is about to return was one step earlier. */
  lemma SignalBefore(s: State, init: seq<int>, step: Step, t: Tid, c: nat, l: nat, all: bool)
    requires Enabled(s, step) && Inv(s, init) && t in Apply(s, step).pc
    requires Apply(s, step).pc[t] == InSignal(c, l, SSplx, all)
    ensures t in s.pc && (s.pc[t] == InSignal(c, l, SSplx, all) || s.pc[t] == InSignal(c, l, SWake, all))
    ensures s.pc[t] == InSignal(c, l, SWake, all) ==> step.Micro? && step.t == t
  {
    hide Inv;
    hide ExecP;
    hide ExecV;
    hide ExecAcquire;
    hide ExecRelease;
    hide ExecWait;
    hide Wakeup;
    hide Unwait;
    hide Counts;
    KeysKept(s, step);
    if step.Micro? {
      ExecStays(s, step.t, step.x);
      Own(s, init, step.t);
    }
  }

  lemma SignalWakes(s: State, init: seq<int>, step: Step, t: Tid, c: nat, l: nat, all: bool)
    requires Enabled(s, step) && Inv(s, init) && step.Micro? && step.t == t && s.pc[t] == InSignal(c, l, SWake, all)
    ensures Wakes(s, s.waiting, Apply(s, step), Apply(s, step).waiting, c, all)
  {
    hide Inv;
    NoLostSignal(s, init, t, step.x, c, l, all);
  }

  /** A signal or broadcast that returns has woken who it should. */
  lemma SignalReturns(run: seq<State>, steps: seq<Step>, init: seq<int>, i: nat, c: nat, l: nat, all: bool)
    requires Run(run, steps) && Initial(run[0], init) && i < |steps|
    requires Returns(run[i], steps[i], run[i + 1], CvSignal(c, l, all))
    ensures HasWoken(run, steps, i, steps[i].t, c, l, all)
  {
    hide Inv;
    var s, t := run[i], steps[i].t;
    RunInv(run, steps, init, i);
    RunInv(run, steps, init, i + 1);
    Own(s, init, t);
    assert run[i + 1] == Apply(s, steps[i]);
    assert s.pc[t] == InSignal(c, l, SSplx, all) by {
      hide Wakeup;
      hide Unwait;
    }
    SignalPassed(run, steps, init, i, t, c, l, all);
  }

  /** Where a thread in cv_wait is after it fell asleep. */
  predicate AfterSleep(pc: Pc, c: nat, l: nat) {
    || pc == InWait(c, l, WWoken) || pc == InWait(c, l, WSplx)
    || (pc.InAcquire? && pc.l == l && pc.ret == Wait(c))
  }

  /** Another thread, in a signal or a broadcast on c, wakes t from its wait on c. */
  ghost predicate SignalledAt(run: seq<State>, steps: seq<Step>, k: nat, t: Tid, c: nat)
    requires |run| == |steps| + 1 && k < |steps|
  {
    && steps[k].Micro? && steps[k].t != t && (exists l, all :: Busy(run[k], steps[k].t, CvSignal(c, l, all)))
    && t in Waits(run, steps, k) && Waits(run, steps, k)[t] == c && t !in Waits(run, steps, k + 1)
  }

  ghost predicate WasSignalled(run: seq<State>, steps: seq<Step>, i: nat, t: Tid, c: nat, l: nat)
    requires |run| == |steps| + 1
  {
    exists k: nat ::
      k < i && k < |steps| && Throughout(run, k, i, t, CvWait(c, l)) && SignalledAt(run, steps, k, t, c)
  }

  lemma WaitBefore(s: State, init: seq<int>, step: Step, t: Tid, c: nat, l: nat)
    requires Enabled(s, step) && Inv(s, init) && t in Apply(s, step).pc
    requires AfterSleep(Apply(s, step).pc[t], c, l) && t !in Apply(s, step).waiting
    ensures t in s.pc && AfterSleep(s.pc[t], c, l)
    ensures t in s.waiting ==>
      step.Micro? && step.t != t && s.waiting[t] == c && exists k, all :: Busy(s, step.t, CvSignal(c, k, all))
  {
    hide Inv;
    hide Exec;
    hide Invoke;
    hide Counts;
    hide AfterSleep;
    hide Busy;
    hide InRange;
    hide MayCall;
    match step
    case Call(u, op) => CallWaitBefore(s, u, op, t, c, l);
    case Micro(u, x) => {
      ExecStays(s, u, x);
      if u == t {
        OwnWaitBefore(s, init, t, x, c, l);
      } else {
        OtherWaitBefore(s, init, u, x, t, c, l);
      }
    }
    case Preempt =>
    case Dispatch(u) =>
  }

  lemma CallWaitBefore(s: State, u: Tid, op: Op, t: Tid, c: nat, l: nat)
    requires u in s.pc && s.pc[u] == Idle
    ensures Invoke(s, u, op).waiting == s.waiting
    ensures t in Invoke(s, u, op).pc && AfterSleep(Invoke(s, u, op).pc[t], c, l) ==>
      t in s.pc && AfterSleep(s.pc[t], c, l)
  {
  }

  lemma OwnWaitBefore(s: State, init: seq<int>, t: Tid, x: Tid, c: nat, l: nat)
    requires Enabled(s, Micro(t, x)) && Inv(s, init)
    requires t in Exec(s, t, x).pc && AfterSleep(Exec(s, t, x).pc[t], c, l) && t !in Exec(s, t, x).waiting
    ensures AfterSleep(s.pc[t], c, l) && t !in s.waiting
  {
    hide Inv;
    hide ExecP;
    hide ExecV;
    hide ExecAcquire;
    hide ExecRelease;
    hide ExecWait;
    hide ExecSignal;
    hide Counts;
    Own(s, init, t);
    ExecStays(s, t, x);
    match s.pc[t]
    case InAcquire(l', q, ret) => AcquireBefore(s, t, l', q, ret, c, l);
    case InRelease(l', r, ret) => ReleaseBefore(s, t, l', r, ret, c, l);
    case InWait(c', l', w) => SleepBefore(s, t, c', l', w, c, l);
    case _ =>
  }

  lemma AcquireBefore(s: State, t: Tid, k: nat, q: APc, ret: Ret, c: nat, l: nat)
    requires t in s.pc && s.pc[t] == InAcquire(k, q, ret) && k < |s.holder| && t !in s.waiting
    requires var s' := ExecAcquire(s, t, k, q, ret);
      t in s'.pc && AfterSleep(s'.pc[t], c, l)
    ensures AfterSleep(s.pc[t], c, l)
  {
  }

  lemma ReleaseBefore(s: State, t: Tid, k: nat, r: RPc, ret: Ret, c: nat, l: nat)
    requires t in s.pc && s.pc[t] == InRelease(k, r, ret) && k < |s.holder|
    ensures var s' := ExecRelease(s, t, k, r, ret);
      t in s'.pc && !AfterSleep(s'.pc[t], c, l)
  {
    hide Wakeup;
  }

  lemma SleepBefore(s: State, t: Tid, d: nat, k: nat, w: WPc, c: nat, l: nat)
    requires t in s.pc && s.pc[t] == InWait(d, k, w) && (t in s.waiting <==> w == WSleep)
    requires var s' := ExecWait(s, t, d, k, w);
      t in s'.pc && AfterSleep(s'.pc[t], c, l) && t !in s'.waiting
    ensures AfterSleep(s.pc[t], c, l) && t !in s.waiting
  {
  }

  lemma OtherWaitBefore(s: State, init: seq<int>, u: Tid, x: Tid, t: Tid, c: nat, l: nat)
    requires Enabled(s, Micro(u, x)) && Inv(s, init) && t in s.pc && t != u && AfterSleep(s.pc[t], c, l)
    ensures t in s.waiting && t !in Exec(s, u, x).waiting ==>
      s.waiting[t] == c && exists k, all :: Busy(s, u, CvSignal(c, k, all))
  {
    hide Inv;
    Own(s, init, u);
    if t in s.waiting {
      WaiterSleeps(s, init, t);
      SleepsThere(s, init, t);
    }
    ExecStays(s, u, x);
    if s.pc[u].InSignal? {
      assert Busy(s, u, CvSignal(s.pc[u].c, s.pc[u].l, s.pc[u].all));
    } else {
      hide Exec;
    }
  }

  lemma SleepsThere(s: State, init: seq<int>, t: Tid)
    requires Inv(s, init) && t in s.asleep
    ensures t in s.pc && SleepsAt(s.pc[t], s.asleep[t])
  {
    assert ThreadOk(s, t);
    hide SemOk;
    hide LockOk;
  }

  lemma {:induction false} WaitPassed(run: seq<State>, steps: seq<Step>, init: seq<int>, i: nat, t: Tid, c: nat, l: nat)
    requires Run(run, steps) && Initial(run[0], init) && i <= |steps|
    requires t in run[i].pc && AfterSleep(run[i].pc[t], c, l) && t !in run[i].waiting
    ensures WasSignalled(run, steps, i, t, c, l)
  {
    hide Inv;
    hide Apply;
    hide Enabled;
    hide SignalledAt;
    hide Waits;
    assert i > 0;
    var k := i - 1;
    var s, step := run[k], steps[k];
    assert run[k + 1] == Apply(s, step) && Enabled(s, step);
    RunInv(run, steps, init, k);
    WaitBefore(s, init, step, t, c, l);
    if t !in s.waiting {
      WaitPassed(run, steps, init, k, t, c, l);
      var j: nat :| j < k && Throughout(run, j, k, t, CvWait(c, l)) && SignalledAt(run, steps, j, t, c);
      ThroughoutMore(run, j, i, t, CvWait(c, l));
    } else {
      RunLinked(run, steps, init, k);
      RunLinked(run, steps, init, i);
      SignalledHere(run, steps, k, t, c);
      assert Throughout(run, k, i, t, CvWait(c, l));
    }
  }

  lemma SignalledHere(run: seq<State>, steps: seq<Step>, k: nat, t: Tid, c: nat)
    requires |run| == |steps| + 1 && k < |steps| && Linked(run, steps, k) && Linked(run, steps, k + 1)
    requires steps[k].Micro? && steps[k].t != t && exists l, all :: Busy(run[k], steps[k].t, CvSignal(c, l, all))
    requires t in run[k].waiting && run[k].waiting[t] == c && t !in run[k + 1].waiting
    ensures SignalledAt(run, steps, k, t, c)
  {
    hide NotHolder;
  }

  /** A wait that returns let go of its lock and was woken by a signal or a broadcast on its condition variable. */
  lemma WaitReturns(run: seq<State>, steps: seq<Step>, init: seq<int>, i: nat, c: nat, l: nat)
    requires Run(run, steps) && Initial(run[0], init) && i < |steps|
    requires Returns(run[i], steps[i], run[i + 1], CvWait(c, l))
    ensures WasSignalled(run, steps, i, steps[i].t, c, l)
  {
    hide Inv;
    var s, t := run[i], steps[i].t;
    RunInv(run, steps, init, i);
    RunInv(run, steps, init, i + 1);
    Own(s, init, t);
    assert run[i + 1] == Apply(s, steps[i]);
    assert s.pc[t] == InWait(c, l, WSplx) by {
      hide Wakeup;
      hide Unwait;
    }
    WaitPassed(run, steps, init, i, t, c, l);
  }
}
