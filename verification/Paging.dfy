/** The virtual memory system: page faults, eviction and swapping (kern/vm). Kernel and
    swap file are used by one thread at a time, and swap reads and writes succeed. A
    physical address is named by its frame. */
module Paging {
  import opened Options
  import Layout
  import opened PagingState

  const NUM_TLB: nat := 64
  /** SWAP_SIZE / PAGE_SIZE */
  const SWAP_MAX: nat := 2304
  const USERSTACK: nat := 0x8000_0000

  /** A TLB entry: virtual page, frame, and whether stores are let through. */
  datatype Tlb = Tlb(valid: bool, hi: nat, frame: nat, dirty: bool)

  const INVALID: Tlb := Tlb(false, 0, 0, false)

  /** struct segdef */
  datatype Seg = Seg(base: nat, size: nat, writeable: bool)

  /** struct addrspace */
  datatype Space = Space(segs: seq<Seg>, stackb: nat, stackt: nat)

  datatype Kind = ReadOnly | Read | Write | OtherKind

  datatype Result = OK | EFAULT | EINVAL | PANIC

  const ZeroPage: Page := Layout.Zeros(PAGE_SIZE)

  /** No address space has anything at page 0: a page there would not survive being swapped out; see
      KeptUnlessZero. */
  predicate SpaceOk(a: Space) {
    a.stackb > 0 && forall i :: 0 <= i < |a.segs| ==> a.segs[i].base > 0
  }

  /** The counters of uw-vmstats.c. */
  const TLB_FAULT: nat := 0
  const FAULT_FREE: nat := 1
  const FAULT_REPLACE: nat := 2
  const TLB_INVALIDATE: nat := 3
  const TLB_RELOAD: nat := 4
  const FAULT_ZERO: nat := 5
  const FAULT_DISK: nat := 6
  const ELF_READ: nat := 7
  const SWAP_READ: nat := 8
  const SWAP_WRITE: nat := 9

  /** The three identities that vmstats_print checks. */
  predicate Balanced(stats: seq<nat>) {
    && |stats| == 10 && stats[0] == stats[1] + stats[2]
    && stats[0] == stats[4] + stats[5] + stats[6]
    && stats[6] == stats[7] + stats[8]
  }

  predicate FramesOk(s: State) {
    Sizes(s) && forall i :: 0 <= i < |s.pt| ==> FrameOk(s.pt[i], s.core[i])
  }

  /** Every valid TLB entry leads to the frame of a page of the process that runs, and lets stores through only if
      the page may be written or has slipped. */
  ghost predicate TlbOk(tlb: seq<Tlb>, s: State, pid: nat, slipped: set<Key>) {
    && |tlb| == NUM_TLB
    && forall n: nat :: n < |tlb| && tlb[n].valid ==>
         && InFrame(s, NONE, Key(pid, tlb[n].hi), tlb[n].frame)
         && (tlb[n].dirty ==> s.pt[tlb[n].frame].writeable || Key(pid, tlb[n].hi) in slipped)
  }

  /** No page has two valid entries. */
  ghost predicate TlbOnce(tlb: seq<Tlb>) {
    forall m: nat, n: nat :: m < |tlb| && n < |tlb| && tlb[m].valid && tlb[n].valid && tlb[m].hi == tlb[n].hi ==> m == n
  }

  predicate NoneValid(tlb: seq<Tlb>) {
    |tlb| == NUM_TLB && forall n :: 0 <= n < |tlb| ==> !tlb[n].valid
  }

  /** No frame of a process is stamped later than t. */
  predicate Stamped(s: State, t: Time) {
    forall i :: 0 <= i < |s.core| && s.core[i].inUse && !s.core[i].isKernel ==> Before(s.core[i].time, t)
  }

  predicate HasFree(tlb: seq<Tlb>) {
    exists n :: 0 <= n < |tlb| && !tlb[n].valid
  }

  predicate FirstFree(tlb: seq<Tlb>, loc: nat) {
    loc < |tlb| && !tlb[loc].valid && forall n :: 0 <= n < loc ==> tlb[n].valid
  }

  predicate AllUsed(core: seq<Core>) {
    forall i :: 0 <= i < |core| ==> core[i].inUse
  }

  /** The lowest free frame, or else the one of a process that was stamped first. */
  predicate Chosen(core: seq<Core>, r: nat) {
    && r < |core|
    && if AllUsed(core) then
         && !core[r].isKernel
         && forall i :: 0 <= i < |core| && !core[i].isKernel ==> Before(core[r].time, core[i].time)
       else !core[r].inUse && forall i :: 0 <= i < r ==> core[i].inUse
  }

  class Vm {
    var pt: seq<Entry>
    var core: seq<Core>
    var mem: seq<Page>
    var slots: seq<Slot>
    var disk: seq<Page>
    var kin: Page
    var kout: Page
    var tlb: seq<Tlb>
    var victim: nat
    var stats: seq<nat>
    /** The process that runs. */
    var pid: nat
    /** The flat memory of all processes. */
    ghost var view: map<Key, Page>
    /** The pages of it that may be written: they were writeable when they were first touched, or have been
        swapped in since. */
    ghost var rw: set<Key>
    /** The pages whose first touch was refused when they were already mapped: their TLB entry lets stores through
        as long as it lasts. */
    ghost var slipped: set<Key>
    /** The runs of frames the kernel was given and has not returned: first frame and length. */
    ghost var kruns: map<nat, nat>

    ghost function St(): State
      reads this
    {
      State(pt, core, mem, slots, disk)
    }

    ghost function Mem(): Flat
      reads this
    {
      Flat(view, rw, slipped)
    }

    ghost predicate Sound()
      reads this
    {
      && Inv(St()) && ViewIs(St(), view)
      && RwOk(St(), rw) && rw <= view.Keys && slipped <= view.Keys
      && |tlb| == NUM_TLB && TlbOk(tlb, St(), pid, slipped) && TlbOnce(tlb) && victim < NUM_TLB && pid != 0
    }

    ghost predicate Valid()
      reads this
    {
      Sound() && Balanced(stats)
    }

    /** The state coremap_bootstrap, pt_init, swap_bootstrap and vmstats_init leave: the kernel has the first
        boot frames, and no process has a page. */
    constructor (frames: nat, boot: nat, lo: nat, p: nat)
      requires boot <= frames && p != 0
      ensures Valid() && Mem() == Flat(map[], {}, {}) && kruns == map[] && pid == p && Stamped(St(), Time(0, 0))
      ensures |core| == |pt| == frames && |slots| == SWAP_MAX
      ensures forall i :: 0 <= i < frames ==> core[i].isKernel == (i < boot) && (i < boot ==> pt[i].vaddr == Kva(lo, i))
    {
      pt := seq(frames, i requires 0 <= i => Entry(if i < boot then Kva(lo, i) else 0, 0, 0, true, false));
      core := seq(frames, i => Core(i < boot, i < boot, Time(0, 0)));
      mem := seq(frames, _ => []);
      slots := seq(SWAP_MAX, _ => Slot(0, 0, 0));
      disk := seq(SWAP_MAX, _ => []);
      kin, kout := [], [];
      tlb := seq(NUM_TLB, _ => INVALID);
      victim := 0;
      stats := seq(10, _ => 0);
      pid := p;
      view := map[];
      rw, slipped := {}, {};
      kruns := map[];
    }

    /** vmstats_inc */
    method Inc(i: nat)
      requires |stats| == 10 && i < 10
      modifies this`stats
      ensures stats == old(stats)[i := old(stats[i]) + 1]
    {
      stats := stats[i := stats[i] + 1];
    }

    method IncBoth(i: nat, j: nat)
      requires |stats| == 10 && i < 10 && j < 10
      modifies this`stats
      ensures stats == Bumped(Bumped(old(stats), i), j)
    {
      Inc(i);
      Inc(j);
    }

    // -------------------------------------------------------------- coremap

    /** get_free_page: the lowest free frame. */
    method GetFreePage(t: Time) returns (r: int)
      modifies this`core
      ensures -1 <= r < |core| && |core| == |old(core)|
      ensures r == -1 ==> core == old(core) && forall i :: 0 <= i < |core| ==> core[i].inUse
      ensures r >= 0 ==> !old(core)[r].inUse && core == old(core)[r := Core(true, false, t)]
      ensures r >= 0 ==> forall i :: 0 <= i < r ==> old(core)[i].inUse
    {
      var i := 0;
      while i < |core|
        invariant 0 <= i <= |core| && core == old(core) && forall j :: 0 <= j < i ==> core[j].inUse
      {
        if !core[i].inUse {
          core := core[i := Core(true, false, t)];
          return i;
        }
        i := i + 1;
      }
      r := -1;
    }

    /** get_fifo_page: among the frames of processes, one stamped no later than any other. */
    method GetFifoPage(now: Time, later: Time) returns (r: nat)
      requires exists i :: 0 <= i < |core| && core[i].inUse && !core[i].isKernel
      requires forall i :: 0 <= i < |core| && core[i].inUse && !core[i].isKernel ==> Before(core[i].time, now)
      modifies this`core
      ensures r < |core| == |old(core)| && old(core)[r].inUse && !old(core)[r].isKernel
      ensures forall i :: 0 <= i < |core| && old(core)[i].inUse && !old(core)[i].isKernel ==>
        Before(old(core)[r].time, old(core)[i].time)
      ensures core == old(core)[r := old(core)[r].(time := later)]
    {
      var p, oldest := -1, now;
      var i := 0;
      while i < |core|
        invariant 0 <= i <= |core| && core == old(core) && -1 <= p < i
        invariant p == -1 ==> oldest == now && forall j :: 0 <= j < i ==> !(core[j].inUse && !core[j].isKernel)
        invariant p >= 0 ==> core[p].inUse && !core[p].isKernel && oldest == core[p].time
        invariant forall j :: 0 <= j < i && core[j].inUse && !core[j].isKernel ==> Before(oldest, core[j].time)
      {
        if core[i].inUse && !core[i].isKernel {
          if oldest.secs > core[i].time.secs
            || (oldest.secs == core[i].time.secs && oldest.nsecs >= core[i].time.nsecs) {
            p, oldest := i, core[i].time;
          }
        }
        i := i + 1;
      }
      assert p >= 0;
      core := core[p := core[p].(time := later)];
      r := p;
    }

    // ----------------------------------------------------------- page table

    /** pt_get_paddr: the frame of the page an address is in, -1 when it is in none. */
    method GetFrame(p: nat, va: nat) returns (r: int)
      requires FramesOk(St()) && p != 0
      ensures -1 <= r < |pt|
      ensures r >= 0 ==> InFrame(St(), NONE, Key(p, PageBase(va)), r)
      ensures r == -1 ==> forall i: nat :: !InFrame(St(), NONE, Key(p, PageBase(va)), i)
    {
      var i := 0;
      while i < |pt|
        invariant 0 <= i <= |pt| && forall j: nat :: j < i ==> !InFrame(St(), NONE, Key(p, PageBase(va)), j)
      {
        if pt[i].pid == p {
          assert FrameOk(pt[i], core[i]);
          var vbottom, vtop := pt[i].vaddr, pt[i].vaddr + PAGE_SIZE;
          if vbottom <= va < vtop {
            return i;
          }
        }
        i := i + 1;
      }
      r := -1;
    }

    // ------------------------------------------------------------- swapping

    /** swap_search */
    method SwapSearch(p: nat, va: nat) returns (r: int)
      requires p != 0
      ensures -1 <= r < |slots|
      ensures r >= 0 ==> slots[r].pid == p && slots[r].va == va
      ensures r == -1 ==> forall j :: 0 <= j < |slots| ==> !(slots[j].pid == p && slots[j].va == va)
    {
      var i := 0;
      while i < |slots|
        invariant 0 <= i <= |slots| && forall j :: 0 <= j < i ==> !(slots[j].pid == p && slots[j].va == va)
      {
        if slots[i].pid == p && slots[i].va == va {
          return i;
        }
        i := i + 1;
      }
      r := -1;
    }

    /** swap_find_free: a slot is free when its address is 0. */
    method SwapFindFree() returns (r: int)
      ensures -1 <= r < |slots|
      ensures r >= 0 ==> LowestFree(slots, r)
      ensures r == -1 ==> forall j :: 0 <= j < |slots| ==> slots[j].va != 0
    {
      var i := 0;
      while i < |slots|
        invariant 0 <= i <= |slots| && forall j :: 0 <= j < i ==> slots[j].va != 0
      {
        if slots[i].va == 0 {
          return i;
        }
        i := i + 1;
      }
      r := -1;
    }

    /** swap_out of frame i; false when it panics for want of a slot. */
    method SwapOut(i: nat) returns (ok: bool, ghost j: nat)
      requires Sizes(St()) && i < |pt| && |stats| == 10
      modifies this`stats, this`kout, this`slots, this`disk
      ensures stats == old(stats)[SWAP_WRITE := old(stats[SWAP_WRITE]) + 1]
      ensures !ok ==> slots == old(slots) && disk == old(disk) && forall j :: 0 <= j < |slots| ==> slots[j].va != 0
      ensures ok ==>
        LowestFree(old(slots), j) && St() == SwappedOut(old(St()), i, j)
    {
      Inc(SWAP_WRITE);
      kout := mem[i];
      var index := SwapFindFree();
      if index == -1 {
        ok, j := false, 0;
        return;
      }
      disk := disk[index := kout];
      slots := slots[index := Slot(pt[i].pid, pt[i].vaddr, index * PAGE_SIZE)];
      ok, j := true, index;
    }

    /** tlb_invalidate */
    method TlbInvalidate()
      requires |tlb| == NUM_TLB && |stats| == 10
      modifies this`tlb, this`victim, this`stats
      ensures NoneValid(tlb) && victim == 0
      ensures stats == old(stats)[TLB_INVALIDATE := old(stats[TLB_INVALIDATE]) + 1]
    {
      var i := 0;
      while i < NUM_TLB
        invariant 0 <= i <= NUM_TLB && |tlb| == NUM_TLB && stats == old(stats)
        invariant forall n :: 0 <= n < i ==> !tlb[n].valid
      {
        tlb := tlb[i := INVALID];
        i := i + 1;
      }
      victim := 0;
      Inc(TLB_INVALIDATE);
    }

    /** The part of alloc_page for when no frame is free: the oldest one, after its page is swapped out. */
    method TakeOldest(e: Entry, now: Time, ghost rw': set<Key>) returns (r: int)
      requires Inv(St()) && ViewIs(St(), view) && Stamped(St(), now) && RwOk(St(), rw) && |stats| == 10
      requires GoodKey(Key(e.pid, e.vaddr)) && |tlb| == NUM_TLB
      requires RwNext(St(), rw, rw', Key(e.pid, e.vaddr), e.writeable)
      requires forall i :: 0 <= i < |core| ==> core[i].inUse
      requires exists i :: 0 <= i < |core| && !core[i].isKernel
      modifies this`pt, this`core, this`slots, this`disk, this`tlb, this`victim, this`stats, this`kout
      ensures -1 <= r < |pt| && |stats| == 10
      ensures r == -1 <==> forall j :: 0 <= j < |old(slots)| ==> old(slots)[j].va != 0
      ensures r >= 0 ==> InvX(St(), r) && ViewX(St(), r, view) && User(St(), r) && pt[r] == e
      ensures r >= 0 ==> FramesOk(St()) && Stamped(St(), now) && RwOk(St(), rw') && KernelKept(old(St()), St())
      ensures r >= 0 ==> |tlb| == NUM_TLB && TlbOk(tlb, St(), pid, slipped) && NoneValid(tlb) && victim == 0
      ensures r >= 0 ==>
        forall k: Key, j: nat :: old(InSlot(St(), k, j)) ==> InSlot(St(), k, j) && disk[j] == old(disk)[j]
      ensures r >= 0 ==> Chosen(old(core), r) && Evicted(old(stats), stats, true)
    {
      hide Inv;
      hide InvX;
      hide ViewX;
      hide TlbOk;
      hide InSlot;
      hide InFrame;
      hide Stamped;
      hide FramesOk;
      hide GoodKey;
      hide RwOk;
      hide RwNext;
      hide KernelKept;
      ghost var s0 := St();
      SizesOf(s0);
      StampedMeans(s0, now);
      r := GetFifoPage(now, now);
      var ok;
      ghost var j;
      ok, j := SwapOut(r);
      if !ok {
        return -1;
      }
      TlbInvalidate();
      EvictOk(s0, view, r, j, now, e);
      pt := pt[r := e];
      EvictRest(s0, r, j, now, e, tlb, pid, slipped, rw, rw');
    }

    /** alloc_page: a free frame, or the oldest one after its page is swapped out. -1 is a panic. */
    method AllocPage(p: nat, va: nat, writeable: bool, dirty: bool, now: Time, ghost rw': set<Key>) returns (r: int)
      requires Valid() && Stamped(St(), now) && GoodKey(Key(p, va)) && RwNext(St(), rw, rw', Key(p, va), writeable)
      requires exists i :: 0 <= i < |core| && !core[i].isKernel
      modifies this`pt, this`core, this`slots, this`disk, this`tlb, this`victim, this`stats, this`kout
      ensures -1 <= r < |pt| && |stats| == 10
      ensures r == -1 <==> NoPlace(old(St()))
      ensures r >= 0 ==> InvX(St(), r) && ViewX(St(), r, view) && User(St(), r)
      ensures r >= 0 ==> pt[r] == Entry(va, p, 1, writeable, dirty) && FramesOk(St()) && Stamped(St(), now)
      ensures r >= 0 ==> |tlb| == NUM_TLB && TlbOk(tlb, St(), pid, slipped) && victim < NUM_TLB
      ensures r >= 0 ==> RwOk(St(), rw') && (if AllUsed(old(core)) then NoneValid(tlb) else tlb == old(tlb))
      ensures r >= 0 ==>
        forall k: Key, j: nat :: old(InSlot(St(), k, j)) ==> InSlot(St(), k, j) && disk[j] == old(disk)[j]
      ensures r >= 0 ==> Chosen(old(core), r) && Evicted(old(stats), stats, AllUsed(old(core)))
      ensures r >= 0 ==> KernelKept(old(St()), St())
    {
      hide Inv;
      hide InvX;
      hide ViewX;
      hide TlbOk;
      hide InSlot;
      hide InFrame;
      hide Stamped;
      hide FramesOk;
      hide GoodKey;
      hide RwOk;
      hide RwNext;
      hide TlbOnce;
      hide KernelKept;
      hide NoneValid;
      hide Balanced;
      hide Evicted;
      ghost var s0 := St();
      SizesOf(s0);
      BalancedSize(stats);
      var e := Entry(va, p, 1, writeable, dirty);
      r := GetFreePage(now);
      if r == -1 {
        r := TakeOldest(e, now, rw');
      } else {
        TakeFreeOk(s0, view, r, now, e);
        pt := pt[r := e];
        TakeFreeRest(s0, r, now, e, tlb, pid, slipped, rw, rw');
        EvictedNot(stats);
        assert !AllUsed(s0.core);
      }
    }

    /** swap_in: the frame the page is in now, -1 when it is not in the swap file, -2 for a panic. Making room may
        push another page out to another slot. The page may be written from now on. */
    method SwapIn(va: nat, now: Time) returns (r: int)
      requires Valid() && Stamped(St(), now) && va % PAGE_SIZE == 0
      requires exists i :: 0 <= i < |core| && !core[i].isKernel
      modifies this`pt, this`core, this`mem, this`slots, this`disk, this`tlb, this`victim, this`stats
      modifies this`kin, this`kout, this`rw
      ensures -2 <= r < |pt| && |stats| == 10
      ensures r == -2 ==> NoPlace(old(St())) && Key(pid, va) in old(view)
      ensures r >= 0 ==> !NoPlace(old(St()))
      ensures r == -1 <==> !Swapped(old(St()), Key(pid, va))
      ensures r == -1 ==> Valid() && St() == old(St()) && tlb == old(tlb) && stats == old(stats) && rw == old(rw)
      ensures r >= 0 ==> Inv(St()) && ViewIs(St(), view) && InFrame(St(), NONE, Key(pid, va), r)
      ensures r >= 0 ==> |tlb| == NUM_TLB && TlbOk(tlb, St(), pid, slipped) && victim < NUM_TLB && Stamped(St(), now)
      ensures r >= 0 ==> RwOk(St(), rw) && rw == old(rw) + {Key(pid, va)} && Key(pid, va) in view
      ensures r >= 0 ==> if AllUsed(old(core)) then NoneValid(tlb) else tlb == old(tlb)
      ensures r >= 0 ==> SwapCounted(old(stats), stats, AllUsed(old(core)))
      ensures r >= 0 ==> KernelKept(old(St()), St())
    {
      hide Inv;
      hide InvX;
      hide ViewX;
      hide TlbOk;
      hide InFrame;
      hide Stamped;
      hide FramesOk;
      hide RwOk;
      hide RwNext;
      hide TlbOnce;
      hide NoneValid;
      hide NoPlace;
      hide ViewIs;
      hide GoodKey;
      hide Used;
      hide InSlot;
      hide Swapped;
      hide AllUsed;
      hide Evicted;
      hide Bumped;
      hide SwapCounted;
      hide Balanced;
      hide Chosen;
      hide KernelKept;
      ghost var s0 := St();
      BalancedSize(stats);
      SizesOf(s0);
      var index := SwapSearch(pid, va);
      if index == -1 {
        NoSlot(s0, pid, va);
        return -1;
      }
      SlotUsed(s0, index);
      SlotPresent(s0, view, index);
      HasSlot(s0, Key(pid, va), index);
      kin := disk[slots[index].offset / PAGE_SIZE];
      RwSwapped(s0, rw, Key(pid, va), index);
      r := AllocPage(pid, va, true, true, now, rw + {Key(pid, va)});
      if r == -1 {
        return -2;
      }
      rw := rw + {Key(pid, va)};
      ghost var s1 := St();
      SizesX(s1, r);
      HasSlot(s1, Key(pid, va), index);
      CopyIn(r, index, va, now);
      KernelTrans(s0, s1, St());
      EvictedSize(old(stats), stats, AllUsed(s0.core));
      SwapBumped(old(stats), stats, AllUsed(s0.core));
      IncBoth(FAULT_DISK, SWAP_READ);
    }

    /** The end of swap_in: the page goes from the kernel's buffer to its frame, and its slot is free. */
    method CopyIn(r: nat, index: nat, ghost va: nat, ghost now: Time)
      requires InvX(St(), r) && ViewX(St(), r, view) && r < |pt| && r < |core| && User(St(), r)
      requires FrameKey(St(), r) == Key(pid, va) && InSlot(St(), Key(pid, va), index)
      requires index < |disk| && kin == disk[index]
      requires TlbOk(tlb, St(), pid, slipped) && Stamped(St(), now) && RwOk(St(), rw)
      modifies this`mem, this`slots
      ensures Inv(St()) && ViewIs(St(), view) && InFrame(St(), NONE, Key(pid, va), r)
      ensures TlbOk(tlb, St(), pid, slipped) && Stamped(St(), now) && RwOk(St(), rw) && KernelKept(old(St()), St())
    {
      hide InvX;
      hide ViewX;
      hide TlbOk;
      hide Stamped;
      hide RwOk;
      ghost var s1 := St();
      SizesX(s1, r);
      FrameHere(s1, r);
      RestoreOk(s1, view, r, index);
      mem := mem[r := kin];
      slots := slots[index := Slot(0, 0, 0)];
      RestoreRest(s1, r, index, tlb, pid, slipped, now, rw);
    }

    // ------------------------------------------------------------------ TLB

    /** tlb_write: the first invalid entry, or else the next victim. */
    method TlbWrite(va: nat, dirty: bool) returns (loc: nat, ghost f: nat)
      requires FramesOk(St()) && pid != 0 && va % PAGE_SIZE == 0
      requires (exists i: nat :: InFrame(St(), NONE, Key(pid, va), i))
      requires |tlb| == NUM_TLB && victim < NUM_TLB && |stats| == 10 && !Mapped(tlb, va)
      modifies this`tlb, this`victim, this`stats
      ensures loc < NUM_TLB && victim < NUM_TLB && InFrame(St(), NONE, Key(pid, va), f)
      ensures tlb == old(tlb)[loc := Tlb(true, va, f, dirty)]
      ensures if HasFree(old(tlb)) then FirstFree(old(tlb), loc) && victim == old(victim)
              else loc == old(victim) && victim == (old(victim) + 1) % NUM_TLB
      ensures old(TlbOnce(tlb)) ==> TlbOnce(tlb)
      ensures TlbCounted(old(stats), stats, HasFree(old(tlb)))
    {
      hide FramesOk;
      hide InFrame;
      assert PageBase(va) == va;
      ghost var there: nat :| InFrame(St(), NONE, Key(pid, va), there);
      var frame := GetFrame(pid, va);
      assert frame == -1 ==> !InFrame(St(), NONE, Key(pid, PageBase(va)), there);
      var i := 0;
      while i < NUM_TLB && tlb[i].valid
        invariant 0 <= i <= NUM_TLB && tlb == old(tlb) && stats == old(stats) && victim == old(victim)
        invariant forall n :: 0 <= n < i ==> tlb[n].valid
      {
        i := i + 1;
      }
      if i < NUM_TLB {
        Inc(FAULT_FREE);
      } else {
        i := victim;
        victim := (victim + 1) % NUM_TLB;
        Inc(FAULT_REPLACE);
      }
      tlb := tlb[i := Tlb(true, va, frame, dirty)];
      Inc(TLB_FAULT);
      loc, f := i, frame;
    }

    /** tlb_update */
    method TlbUpdate(va: nat, dirty: bool)
      requires FramesOk(St()) && pid != 0 && va % PAGE_SIZE == 0
      requires (exists i: nat :: InFrame(St(), NONE, Key(pid, va), i))
      requires dirty ==> forall i: nat :: InFrame(St(), NONE, Key(pid, va), i) ==> pt[i].writeable
      requires |tlb| == NUM_TLB && TlbOk(tlb, St(), pid, slipped)
      modifies this`tlb
      ensures |tlb| == NUM_TLB && TlbOk(tlb, St(), pid, slipped)
      ensures forall n :: 0 <= n < NUM_TLB ==> tlb[n].valid == old(tlb)[n].valid && tlb[n].hi == old(tlb)[n].hi
      ensures forall n :: 0 <= n < NUM_TLB && tlb[n].valid && tlb[n].hi == va ==> tlb[n].dirty == dirty
      ensures forall n :: 0 <= n < NUM_TLB && !(tlb[n].valid && tlb[n].hi == va) ==> tlb[n] == old(tlb)[n]
    {
      hide FramesOk;
      hide InFrame;
      assert PageBase(va) == va;
      var frame := GetFrame(pid, va);
      var i := 0;
      while i < NUM_TLB
        invariant 0 <= i <= NUM_TLB && |tlb| == NUM_TLB && TlbOk(tlb, St(), pid, slipped)
        invariant forall n :: 0 <= n < NUM_TLB ==> tlb[n].valid == old(tlb)[n].valid && tlb[n].hi == old(tlb)[n].hi
        invariant forall n :: 0 <= n < i && tlb[n].valid && tlb[n].hi == va ==> tlb[n].dirty == dirty
        invariant forall n :: 0 <= n < NUM_TLB && !(tlb[n].valid && tlb[n].hi == va) ==> tlb[n] == old(tlb)[n]
      {
        if tlb[i].valid && tlb[i].hi == va {
          tlb := tlb[i := Tlb(true, va, frame, dirty)];
        }
        i := i + 1;
      }
    }

    /** vm_fault for a store the TLB did not let through: pt_is_writeable, pt_set_dirty, tlb_update. */
    method ReadOnlyFault(va: nat) returns (res: Result)
      requires FramesOk(St()) && pid != 0 && va % PAGE_SIZE == 0
      requires (exists i: nat :: InFrame(St(), NONE, Key(pid, va), i))
      requires forall i: nat, j: nat ::
        InFrame(St(), NONE, Key(pid, va), i) && InFrame(St(), NONE, Key(pid, va), j) ==> i == j
      requires |tlb| == NUM_TLB && TlbOk(tlb, St(), pid, slipped)
      modifies this`pt, this`tlb
      ensures FramesOk(St()) && |tlb| == NUM_TLB && TlbOk(tlb, St(), pid, slipped) && |pt| == |old(pt)|
      ensures forall i :: 0 <= i < |pt| ==> pt[i] == old(pt)[i].(dirty := pt[i].dirty)
      ensures forall n :: 0 <= n < NUM_TLB ==> tlb[n].valid == old(tlb)[n].valid && tlb[n].hi == old(tlb)[n].hi
      ensures res == OK || res == EFAULT
      ensures exists f: nat ::
        old(InFrame(St(), NONE, Key(pid, va), f)) && (res == OK <==> old(pt)[f].writeable)
        && (res == OK ==> pt == old(pt)[f := old(pt)[f].(dirty := true)])
      ensures res == OK ==> forall n :: 0 <= n < NUM_TLB && tlb[n].valid && tlb[n].hi == va ==> tlb[n].dirty
      ensures forall n :: 0 <= n < NUM_TLB && !(tlb[n].valid && tlb[n].hi == va) ==> tlb[n] == old(tlb)[n]
      ensures res == EFAULT ==> pt == old(pt) && tlb == old(tlb)
      ensures KernelKept(old(St()), St())
    {
      ghost var s0 := St();
      ghost var g: nat :| InFrame(s0, NONE, Key(pid, va), g);
      assert PageBase(va) == va;
      var f := GetFrame(pid, va);
      assert St() == s0;
      assert f == -1 ==> forall i: nat :: !InFrame(s0, NONE, Key(pid, va), i);
      assert f == -1 ==> !InFrame(s0, NONE, Key(pid, va), g);
      if pt[f].writeable {
        pt := pt[f := pt[f].(dirty := true)];
        DirtyKeeps(s0, St(), tlb, pid, slipped);
        assert InFrame(St(), NONE, Key(pid, va), f);
        TlbUpdate(va, true);
        res := OK;
      } else {
        res := EFAULT;
      }
    }

    // --------------------------------------------------------------- faults

    /** sd_get_by_addr: the first segment that has the address, its end included. */
    method FindSeg(a: Space, va: nat) returns (seg: Option<Seg>)
      ensures seg == SegOf(a.segs, va)
      ensures seg != Owner(a.segs, va) <==> exists i: nat :: EndsAt(a.segs, va, i)
    {
      SegOfOwner(a.segs, va);
      var i := 0;
      while i < |a.segs|
        invariant 0 <= i <= |a.segs| && SegOf(a.segs, va) == SegOf(a.segs[i..], va)
      {
        if a.segs[i].base <= va <= a.segs[i].base + a.segs[i].size {
          return Some(a.segs[i]);
        }
        i := i + 1;
      }
      seg := None;
    }

    /** tlb_set_read_only */
    method SetReadOnly(seg: Seg, loc: nat) returns (res: Result)
      requires loc < |tlb|
      modifies this`tlb
      ensures |tlb| == |old(tlb)| && tlb == old(tlb)[loc := old(tlb)[loc].(dirty := tlb[loc].dirty)]
      ensures tlb[loc].dirty == (old(tlb)[loc].dirty && res == EFAULT)
      ensures res == if old(tlb)[loc].valid && seg.base <= old(tlb)[loc].hi < seg.base + seg.size then OK else EFAULT
    {
      res := EFAULT;
      if tlb[loc].valid && seg.base <= tlb[loc].hi < seg.base + seg.size {
        tlb := tlb[loc := tlb[loc].(dirty := false)];
        res := OK;
      }
    }

    /** A page touched for the first time: a frame is set aside for it, and TLB entry loc leads there. rw' and
        slipped' are the pages of either kind with this one. */
    method FreshPage(va: nat, writeable: bool, dirty: bool, now: Time, ghost rw': set<Key>, ghost slipped': set<Key>)
      returns (ok: bool, loc: nat, ghost i: nat)
      requires Valid() && Stamped(St(), now) && GoodKey(Key(pid, va)) && Key(pid, va) !in view
      requires rw' == rw + (if writeable then {Key(pid, va)} else {}) && slipped <= slipped'
      requires dirty ==> writeable || Key(pid, va) in slipped'
      requires exists i :: 0 <= i < |core| && !core[i].isKernel
      modifies this`pt, this`core, this`slots, this`disk, this`tlb, this`victim, this`stats, this`kout
      ensures !ok <==> NoPlace(old(St()))
      ensures ok ==> InvX(St(), i) && ViewX(St(), i, view) && FramesOk(St()) && Stamped(St(), now) && RwOk(St(), rw')
      ensures ok ==> i < |pt| && i < |core| && User(St(), i) && FrameKey(St(), i) == Key(pid, va)
      ensures ok ==> pt[i] == Entry(va, pid, 1, writeable, false)
      ensures ok ==> |tlb| == NUM_TLB && TlbOk(tlb, St(), pid, slipped') && TlbOnce(tlb) && victim < NUM_TLB
      ensures ok ==> loc < NUM_TLB && tlb[loc].valid && tlb[loc].hi == va && Mapped(tlb, va) && tlb[loc].dirty == dirty
      ensures ok ==> FreshCounted(old(stats), stats, AllUsed(old(core)), HasFree(old(tlb)))
      ensures ok ==> KernelKept(old(St()), St())
    {
      hide KernelKept;
      hide Inv;
      hide InvX;
      hide ViewX;
      hide TlbOk;
      hide FramesOk;
      hide Stamped;
      hide Mapped;
      hide NoPlace;
      hide RwOk;
      hide RwNext;
      hide TlbOnce;
      hide NoneValid;
      hide Chosen;
      hide AllUsed;
      hide HasFree;
      hide Evicted;
      hide TlbCounted;
      hide FreshCounted;
      hide FirstFree;
      hide Balanced;
      ghost var s0, tlb0 := St(), tlb;
      NotMapped(tlb, s0, pid, slipped, va, view);
      RwFresh(s0, view, rw, Key(pid, va), writeable);
      var frame := AllocPage(pid, va, writeable, false, now, rw');
      if frame == -1 {
        return false, 0, 0;
      }
      i := frame;
      ghost var s1, tlb1 := St(), tlb;
      StillOnce(tlb0, tlb1, va);
      FreeAfter(tlb0, tlb1, AllUsed(s0.core));
      SizesX(s1, i);
      FreshFrame(s1, view, i, []);
      ghost var f;
      EvictedSize(old(stats), stats, AllUsed(s0.core));
      ghost var stats1 := stats;
      loc, f := TlbWrite(va, dirty);
      FreshBumped(old(stats), stats1, stats, AllUsed(s0.core), HasFree(tlb0));
      TlbMore(tlb1, s1, pid, slipped, slipped');
      TlbAdded(tlb1, s1, pid, slipped', loc, va, i, dirty);
      ok := true;
    }

    /** Loading a page for the first time, up to the protection of a read-only one, which counts as slipped until
        then. */
    method LoadFresh(va: nat, writeable: bool, image: Page, now: Time) returns (ok: bool, loc: nat)
      requires Valid() && Stamped(St(), now) && GoodKey(Key(pid, va)) && Key(pid, va) !in view
      requires exists i :: 0 <= i < |core| && !core[i].isKernel
      modifies this`pt, this`core, this`slots, this`disk, this`tlb, this`victim, this`stats, this`kout
      modifies this`mem, this`view, this`rw, this`slipped
      ensures !ok <==> NoPlace(old(St()))
      ensures ok ==> Sound() && Stamped(St(), now) && view == old(view)[Key(pid, va) := image]
      ensures ok ==> rw == old(rw) + if writeable then {Key(pid, va)} else {}
      ensures ok ==> slipped == old(slipped) + if writeable then {} else {Key(pid, va)}
      ensures ok ==> loc < NUM_TLB && tlb[loc].valid && tlb[loc].hi == va && Mapped(tlb, va) && tlb[loc].dirty
      ensures ok ==> Counted(old(stats), stats, FromFile, AllUsed(old(core)), HasFree(old(tlb)))
      ensures ok ==> KernelKept(old(St()), St())
    {
      hide KernelKept;
      hide Inv;
      hide InvX;
      hide ViewX;
      hide TlbOk;
      hide FramesOk;
      hide Stamped;
      hide Mapped;
      hide NoPlace;
      hide RwOk;
      hide TlbOnce;
      hide GoodKey;
      hide InFrame;
      hide Sizes;
      hide AllUsed;
      hide HasFree;
      hide FreshCounted;
      hide Counted;
      hide User;
      hide FrameKey;
      hide Bumped;
      hide Balanced;
      ghost var s0, key := St(), Key(pid, va);
      ghost var i;
      ghost var rw', slipped' := rw + (if writeable then {key} else {}), slipped + if writeable then {} else {key};
      ok, loc, i := FreshPage(va, writeable, true, now, rw', slipped');
      if ok {
        ghost var s1 := St();
        FillFresh(va, loc, i, image, now, rw', slipped');
        KernelTrans(s0, s1, St());
        FreshSize(old(stats), stats, AllUsed(s0.core), HasFree(old(tlb)));
        LoadBumped(old(stats), stats, AllUsed(s0.core), HasFree(old(tlb)));
        IncBoth(FAULT_DISK, ELF_READ);
      }
    }

    /** The frame set aside gets its contents, and the page becomes part of flat memory. */
    method FillFresh(va: nat, loc: nat, ghost i: nat, image: Page, now: Time,
                     ghost rw': set<Key>, ghost slipped': set<Key>)
      requires InvX(St(), i) && ViewX(St(), i, view) && Stamped(St(), now) && RwOk(St(), rw') && i < |core|
      requires i < |pt| && User(St(), i) && FrameKey(St(), i) == Key(pid, va) && Key(pid, va) !in view && pid != 0
      requires GoodKey(Key(pid, va)) && rw' <= view.Keys + {Key(pid, va)} && slipped' <= view.Keys + {Key(pid, va)}
      requires |tlb| == NUM_TLB && TlbOk(tlb, St(), pid, slipped') && TlbOnce(tlb) && victim < NUM_TLB
      requires loc < NUM_TLB && tlb[loc].valid && tlb[loc].hi == va
      modifies this`mem, this`view, this`rw, this`slipped
      ensures Sound() && Stamped(St(), now) && KernelKept(old(St()), St())
      ensures Mem() == Flat(old(view)[Key(pid, va) := image], rw', slipped')
    {
      hide Inv;
      hide InvX;
      hide ViewX;
      hide TlbOk;
      hide Stamped;
      hide RwOk;
      hide TlbOnce;
      hide KernelKept;
      ghost var s1 := St();
      SizesX(s1, i);
      KernelSelf(s1);
      LoadThrough(va, loc, i, image, now, slipped');
      KernelMem(s1, s1, St());
      MemRw(s1, St(), rw');
      view, rw, slipped := view[Key(pid, va) := image], rw', slipped';
    }

    /** Loading a page of a segment for the first time; image is what load_segment reads. */
    method LoadPage(va: nat, seg: Seg, image: Page, now: Time) returns (res: Result)
      requires Valid() && Stamped(St(), now) && GoodKey(Key(pid, va)) && Key(pid, va) !in view
      requires exists i :: 0 <= i < |core| && !core[i].isKernel
      modifies this
      ensures pid == old(pid) && kruns == old(kruns) && res != EINVAL
      ensures res != PANIC ==> Sound() && Stamped(St(), now)
      ensures res != PANIC ==> view == old(view)[Key(pid, va) := image] && Mapped(tlb, va)
      ensures res != PANIC ==> rw == old(rw) + if seg.writeable then {Key(pid, va)} else {}
      ensures res != PANIC ==> slipped == old(slipped) + if res == EFAULT then {Key(pid, va)} else {}
      ensures res == EFAULT <==> res != PANIC && !seg.writeable && !(seg.base <= va < seg.base + seg.size)
      ensures res != PANIC ==> (LetsStores(tlb, va) <==> seg.writeable || res == EFAULT)
      ensures res == PANIC <==> NoPlace(old(St()))
      ensures res != PANIC ==> Counted(old(stats), stats, FromFile, AllUsed(old(core)), HasFree(old(tlb)))
      ensures res != PANIC ==> KernelKept(old(St()), St())
    {
      hide KernelKept;
      hide Inv;
      hide InvX;
      hide ViewX;
      hide TlbOk;
      hide Stamped;
      hide Mapped;
      hide NoPlace;
      hide RwOk;
      hide TlbOnce;
      hide Balanced;
      hide Counted;
      hide AllUsed;
      hide HasFree;
      hide LetsStores;
      var ok, storeloc := LoadFresh(va, seg.writeable, image, now);
      if !ok {
        return PANIC;
      }
      res := OK;
      LetsAt(tlb, storeloc);
      if !seg.writeable {
        ghost var tlb2 := tlb;
        res := SetReadOnly(seg, storeloc);
        TlbDirty(tlb2, tlb, St(), pid, slipped);
        MappedSame(tlb2, tlb, va);
        OnceSame(tlb2, tlb);
        LetsAt(tlb, storeloc);
        if res == OK {
          Protected(tlb, St(), pid, slipped, storeloc);
          slipped := slipped - {Key(pid, va)};
        }
      }
    }

    /** load_segment: the page is filled through TLB entry loc. */
    method LoadThrough(va: nat, loc: nat, ghost i: nat, image: Page, now: Time, ghost slipped': set<Key>)
      requires InvX(St(), i) && ViewX(St(), i, view) && i < |pt| && User(St(), i) && Stamped(St(), now)
      requires FrameKey(St(), i) == Key(pid, va) && Key(pid, va) !in view && GoodKey(Key(pid, va))
      requires |tlb| == NUM_TLB && TlbOk(tlb, St(), pid, slipped')
      requires loc < NUM_TLB && tlb[loc].valid && tlb[loc].hi == va
      modifies this`mem
      ensures Inv(St()) && ViewIs(St(), view[Key(pid, va) := image]) && Stamped(St(), now)
      ensures TlbOk(tlb, St(), pid, slipped')
    {
      hide Inv;
      hide InvX;
      hide ViewX;
      hide Stamped;
      ghost var s1 := St();
      FreshFrame(s1, view, i, image);
      assert tlb[loc].frame == i by {
        assert InFrame(s1, NONE, Key(pid, va), tlb[loc].frame);
      }
      SizesX(s1, i);
      mem := mem[tlb[loc].frame := image];
      MemAside(s1, St(), tlb, pid, slipped', now);
    }

    /** A new page of the stack. Clearing it through its TLB entry, which does not let stores through yet, takes
        a fault of its own. */
    method StackPage(va: nat, now: Time) returns (res: Result)
      requires Valid() && Stamped(St(), now) && GoodKey(Key(pid, va)) && Key(pid, va) !in view
      requires exists i :: 0 <= i < |core| && !core[i].isKernel
      modifies this
      ensures pid == old(pid) && kruns == old(kruns) && (res == OK || res == PANIC)
      ensures res == OK ==> Sound() && Stamped(St(), now)
      ensures res == OK ==> view == old(view)[Key(pid, va) := ZeroPage] && Mapped(tlb, va)
      ensures res == OK ==> rw == old(rw) + {Key(pid, va)} && slipped == old(slipped)
      ensures res == PANIC <==> NoPlace(old(St()))
      ensures res == OK ==> Counted(old(stats), stats, FromZero, AllUsed(old(core)), HasFree(old(tlb)))
      ensures res == OK ==> KernelKept(old(St()), St())
    {
      hide KernelKept;
      hide Inv;
      hide InvX;
      hide ViewX;
      hide TlbOk;
      hide FramesOk;
      hide Stamped;
      hide Mapped;
      hide MayWrite;
      hide NoPlace;
      hide RwOk;
      hide TlbOnce;
      hide NoneValid;
      hide AllUsed;
      hide HasFree;
      hide FreshCounted;
      hide Counted;
      hide Balanced;
      ghost var s0, key := St(), Key(pid, va);
      var ok, storeloc;
      ghost var i;
      ok, storeloc, i := FreshPage(va, true, false, now, rw + {key}, slipped);
      if !ok {
        return PANIC;
      }
      rw := rw + {key};
      ghost var s1 := St();
      res := ZeroThrough(va, storeloc, i, now);
      KernelTrans(s0, s1, St());
      FreshSize(old(stats), stats, AllUsed(s0.core), HasFree(old(tlb)));
      ZeroBumped(old(stats), stats, AllUsed(s0.core), HasFree(old(tlb)));
      Inc(FAULT_ZERO);
      view := view[key := ZeroPage];
    }

    /** bzero of a page through TLB entry loc. */
    method ZeroThrough(va: nat, loc: nat, ghost i: nat, now: Time) returns (res: Result)
      requires InvX(St(), i) && ViewX(St(), i, view) && i < |pt|
      requires User(St(), i) && FramesOk(St()) && Stamped(St(), now)
      requires FrameKey(St(), i) == Key(pid, va) && Key(pid, va) !in view && GoodKey(Key(pid, va)) && pt[i].writeable
      requires RwOk(St(), rw) && TlbOnce(tlb)
      requires |tlb| == NUM_TLB && TlbOk(tlb, St(), pid, slipped)
      requires loc < NUM_TLB && tlb[loc].valid && tlb[loc].hi == va
      modifies this`pt, this`tlb, this`mem
      ensures res == OK && Inv(St()) && ViewIs(St(), view[Key(pid, va) := ZeroPage]) && Stamped(St(), now)
      ensures |tlb| == NUM_TLB && TlbOk(tlb, St(), pid, slipped) && Mapped(tlb, va)
      ensures RwOk(St(), rw) && TlbOnce(tlb)
      ensures KernelKept(old(St()), St())
    {
      hide KernelKept;
      hide Inv;
      hide InvX;
      hide ViewX;
      hide FramesOk;
      hide Stamped;
      ghost var s1 := St();
      FreshFrame(s1, view, i, ZeroPage);
      res := ReadOnlyFault(va);
      ghost var s2 := St();
      DirtyInv(s1, s2, i, view, now);
      FreshFrame(s2, view, i, ZeroPage);
      assert tlb[loc].frame == i by {
        assert InFrame(s2, NONE, Key(pid, va), tlb[loc].frame);
      }
      SizesX(s2, i);
      mem := mem[tlb[loc].frame := ZeroPage];
      KernelMem(s1, s2, St());
      MemAside(s2, St(), tlb, pid, slipped, now);
    }

    /** The end of vm_fault for a page that is in a frame. */
    method Reload(va: nat, frame: nat, now: Time) returns (res: Result)
      requires Inv(St()) && ViewIs(St(), view) && InFrame(St(), NONE, Key(pid, va), frame) && va % PAGE_SIZE == 0
      requires RwOk(St(), rw) && rw <= view.Keys && slipped <= view.Keys && TlbOnce(tlb) && !Mapped(tlb, va)
      requires |tlb| == NUM_TLB && TlbOk(tlb, St(), pid, slipped) && victim < NUM_TLB && pid != 0 && |stats| == 10
      modifies this`tlb, this`victim, this`stats
      ensures res == OK && Sound() && Mapped(tlb, va) && Key(pid, va) in view
      ensures TlbCounted(old(stats), stats, HasFree(old(tlb)))
    {
      hide InvX;
      hide ViewX;
      hide TlbOk;
      hide FramesOk;
      hide Mapped;
      hide RwOk;
      hide TlbOnce;
      hide HasFree;
      hide FirstFree;
      InvFrames(St());
      ghost var tlb0 := tlb;
      var loc;
      ghost var f;
      loc, f := TlbWrite(va, false);
      TlbAdded(tlb0, St(), pid, slipped, loc, va, f, false);
      FrameView(St(), NONE, view, frame);
      res := OK;
    }

    /** vm_fault for a store to a page whose TLB entry does not let it through. */
    method StoreFault(va: nat, now: Time) returns (res: Result)
      requires Valid() && Stamped(St(), now) && Mapped(tlb, va) && va % PAGE_SIZE == 0
      modifies this`pt, this`tlb
      ensures Valid() && Stamped(St(), now) && (res == OK || res == EFAULT) && Mapped(tlb, va) && Key(pid, va) in view
      ensures res == OK ==> forall n :: 0 <= n < NUM_TLB && tlb[n].valid && tlb[n].hi == va ==> tlb[n].dirty
      ensures res == OK <==> old(MayWrite(St(), Key(pid, va)))
      ensures res == EFAULT ==> St() == old(St())
      ensures KernelKept(old(St()), St())
    {
      hide KernelKept;
      hide InvX;
      hide ViewX;
      hide TlbOk;
      hide FramesOk;
      hide Stamped;
      hide Mapped;
      hide InFrame;
      hide MayWrite;
      hide RwOk;
      hide TlbOnce;
      hide Balanced;
      ghost var s0, tlb0 := St(), tlb;
      InvFrames(s0);
      MappedFrame(tlb, s0, pid, slipped, va, view);
      OneFrame(s0, Key(pid, va));
      res := ReadOnlyFault(va);
      MayWriteIff(s0, Key(pid, va), res == OK);
      DirtyInv(s0, St(), NONE, view, now);
      MappedSame(tlb0, tlb, va);
      OnceSame(tlb0, tlb);
      DirtyRw(s0, St(), rw);
    }

    /** The part of vm_fault for a page that is neither in memory nor in the swap file. */
    method FirstTouch(va: nat, a: Space, image: Page, now: Time) returns (res: Result)
      requires Valid() && Stamped(St(), now) && SpaceOk(a) && va % PAGE_SIZE == 0 && Key(pid, va) !in view
      requires exists i :: 0 <= i < |core| && !core[i].isKernel
      modifies this
      ensures pid == old(pid) && kruns == old(kruns)
      ensures res != PANIC ==> Sound() && Stamped(St(), now)
      ensures res != PANIC ==> Mem() == After(old(Mem()), false, Key(pid, va), a, image)
      ensures res == OK ==> Key(pid, va) in view && Mapped(tlb, va)
      ensures res ==
        if NoPlace(old(St())) && Key(pid, va) in Faulted(old(view), Read, Key(pid, va), a, image) then PANIC
        else Answer(old(view), Key(pid, va), a)
      ensures res != PANIC ==> Counted(old(stats), stats, NewCause(a, va), AllUsed(old(core)), HasFree(old(tlb)))
      ensures res != PANIC ==> KernelKept(old(St()), St())
    {
      hide KernelKept;
      hide InvX;
      hide ViewX;
      hide TlbOk;
      hide Stamped;
      hide Mapped;
      hide SegOf;
      hide NoPlace;
      hide RwOk;
      hide TlbOnce;
      hide AllUsed;
      hide HasFree;
      hide Counted;
      SizesX(St(), NONE);
      KernelSelf(St());
      CountedNothing(stats, AllUsed(core), HasFree(tlb));
      if va > USERSTACK {
        return PANIC;
      }
      var seg := FindSeg(a, va);
      if seg.Some? {
        SegFound(a.segs, va);
        res := LoadPage(va, seg.value, image, now);
      } else if va < a.stackb || va > a.stackt {
        res := EFAULT;
      } else {
        res := StackPage(va, now);
      }
    }

    /** The part of vm_fault for a page that may be in the swap file: -1 when it is not, -2 for a panic. */
    method BackFromSwap(va: nat, now: Time) returns (r: int)
      requires Valid() && Stamped(St(), now) && va % PAGE_SIZE == 0 && !Mapped(tlb, va)
      requires exists i :: 0 <= i < |core| && !core[i].isKernel
      modifies this`pt, this`core, this`mem, this`slots, this`disk, this`tlb, this`victim, this`stats
      modifies this`kin, this`kout, this`rw
      ensures r >= -2 && (r == -1 <==> !Swapped(old(St()), Key(pid, va)))
      ensures r == -2 ==> NoPlace(old(St())) && Key(pid, va) in old(view)
      ensures r == -1 ==> Valid() && St() == old(St()) && tlb == old(tlb) && stats == old(stats) && rw == old(rw)
      ensures r >= 0 ==> !NoPlace(old(St())) && Sound() && Stamped(St(), now) && Mapped(tlb, va)
      ensures r >= 0 ==> rw == old(rw) + {Key(pid, va)} && Key(pid, va) in view && KernelKept(old(St()), St())
      ensures r >= 0 ==> Counted(old(stats), stats, FromSwap, AllUsed(old(core)), HasFree(old(tlb)))
    {
      hide KernelKept;
      hide InvX;
      hide ViewX;
      hide TlbOk;
      hide Stamped;
      hide Mapped;
      hide InFrame;
      hide NoPlace;
      hide RwOk;
      hide TlbOnce;
      hide NoneValid;
      hide Swapped;
      hide AllUsed;
      hide HasFree;
      hide Balanced;
      hide SwapCounted;
      hide TlbCounted;
      hide Counted;
      ghost var s0, tlb0 := St(), tlb;
      r := SwapIn(va, now);
      if r >= 0 {
        StillOnce(tlb0, tlb, va);
        FreeAfter(tlb0, tlb, AllUsed(s0.core));
        ghost var stats1 := stats;
        var res := Reload(va, r, now);
        CountedSwap(AllUsed(s0.core), HasFree(tlb0), old(stats), stats1, stats);
      }
    }

    /** vm_fault for a load or a store to a page without a TLB entry. */
    method Miss(kind: Kind, addr: nat, a: Space, image: Page, now: Time) returns (res: Result)
      requires Valid() && Stamped(St(), now) && SpaceOk(a) && (kind == Read || kind == Write)
      requires exists i :: 0 <= i < |core| && !core[i].isKernel
      requires !Mapped(tlb, PageBase(addr))
      modifies this
      ensures pid == old(pid) && kruns == old(kruns)
      ensures res != PANIC ==> Valid() && Stamped(St(), now) && KernelKept(old(St()), St())
      ensures FaultDone(old(St()), old(Mem()), Key(pid, PageBase(addr)), a, image, res, Mem())
      ensures res != PANIC ==>
        MissCounted(old(St()), Key(pid, PageBase(addr)), a, HasFree(old(tlb)), old(stats), stats)
      ensures res == OK ==> Mapped(tlb, PageBase(addr))
    {
      hide KernelKept;
      hide InvX;
      hide ViewX;
      hide TlbOk;
      hide FramesOk;
      hide Stamped;
      hide Mapped;
      hide InFrame;
      hide InSlot;
      hide SegOf;
      hide MayWrite;
      hide NoPlace;
      hide NeedsFrame;
      hide RwOk;
      hide TlbOnce;
      hide NoneValid;
      hide Faulted;
      hide FaultDone;
      hide NoRoomFor;
      hide Answer;
      hide After;
      hide Counted;
      hide SwapCounted;
      hide TlbCounted;
      hide MissCounted;
      hide Swapped;
      hide AllUsed;
      hide HasFree;
      hide Balanced;
      var va := addr / PAGE_SIZE * PAGE_SIZE;
      ghost var s0, tlb0, stats0, m0, k := St(), tlb, stats, Mem(), Key(pid, va);
      InvFrames(s0);
      KernelSelf(s0);
      BalancedSize(stats);
      assert PageBase(va) == va;
      var frame := GetFrame(pid, va);
      if frame != -1 {
        Resident(s0, view, k, a);
        NotSwapped(s0, k, frame);
        Inc(TLB_RELOAD);
        res := Reload(va, frame, now);
        FaultKnown(s0, m0, k, a, image);
        CountedReload(s0, k, a, HasFree(tlb0), stats0, stats, frame);
        return;
      }
      assert forall i: nat :: !InFrame(s0, NONE, k, i);
      NeedsIff(s0, view, k, a, image);
      frame := BackFromSwap(va, now);
      if frame == -2 {
        FaultPanic(s0, m0, k, a, image, Mem());
        return PANIC;
      }
      if frame >= 0 {
        RoomLeft(s0, m0.view, k, a);
        FaultKnown(s0, m0, k, a, image);
        CountedBack(s0, k, a, HasFree(tlb0), stats0, stats);
        return OK;
      }
      NotInSwap(s0, k);
      Absent(s0, view, k);
      res := FirstTouch(va, a, image, now);
      FaultFirst(s0, m0, k, a, image, res, Mem());
      if res != PANIC {
        CountedFirst(s0, k, a, HasFree(tlb0), stats0, stats);
      }
    }

    /** vm_fault. image is what the segment's file holds for the page, should it have to be loaded. A load or a
        store faults only if the TLB has no entry for its page. */
    method VmFault(kind: Kind, addr: nat, vmspace: Option<Space>, image: Page, now: Time) returns (res: Result)
      requires Valid() && Stamped(St(), now) && (vmspace.Some? ==> SpaceOk(vmspace.value))
      requires exists i :: 0 <= i < |core| && !core[i].isKernel
      requires kind == ReadOnly ==> Mapped(tlb, PageBase(addr))
      requires kind == Read || kind == Write ==> !Mapped(tlb, PageBase(addr))
      modifies this
      ensures pid == old(pid) && kruns == old(kruns)
      ensures res != PANIC ==> Valid() && Stamped(St(), now) && KernelKept(old(St()), St())
      ensures kind == ReadOnly ==> res == if old(MayWrite(St(), Key(pid, PageBase(addr)))) then OK else EFAULT
      ensures kind == OtherKind ==> res == EINVAL
      ensures (kind == Read || kind == Write) && vmspace == None ==> res == EFAULT
      ensures kind == ReadOnly || kind == OtherKind || vmspace == None ==> Mem() == old(Mem()) && stats == old(stats)
      ensures kind == ReadOnly ==> Mapped(tlb, PageBase(addr))
      ensures (kind == Read || kind == Write) && vmspace.Some? ==>
        FaultDone(old(St()), old(Mem()), Key(pid, PageBase(addr)), vmspace.value, image, res, Mem())
      ensures (kind == Read || kind == Write) && vmspace.Some? && res != PANIC ==>
        MissCounted(old(St()), Key(pid, PageBase(addr)), vmspace.value, HasFree(old(tlb)), old(stats), stats)
      ensures res == OK && kind != OtherKind ==> Mapped(tlb, PageBase(addr))
    {
      hide KernelKept;
      hide InvX;
      hide ViewX;
      hide TlbOk;
      hide FramesOk;
      hide Stamped;
      hide Mapped;
      hide InFrame;
      hide InSlot;
      hide MayWrite;
      hide RwOk;
      hide TlbOnce;
      hide FaultDone;
      hide MissCounted;
      hide HasFree;
      hide Balanced;
      var va := addr / PAGE_SIZE * PAGE_SIZE;
      if kind == ReadOnly {
        res := StoreFault(va, now);
        return;
      }
      SizesX(St(), NONE);
      KernelSelf(St());
      if kind == OtherKind {
        return EINVAL;
      }
      if vmspace == None {
        return EFAULT;
      }
      res := Miss(kind, addr, vmspace.value, image, now);
    }

    // ------------------------------------------------------ using the memory

    /** The TLB entry for a page, -1 for a miss. */
    method Probe(va: nat) returns (n: int)
      requires |tlb| == NUM_TLB
      ensures -1 <= n < NUM_TLB && (n >= 0 ==> tlb[n].valid && tlb[n].hi == va) && (n == -1 <==> !Mapped(tlb, va))
    {
      var i := 0;
      while i < NUM_TLB
        invariant 0 <= i <= NUM_TLB && forall j :: 0 <= j < i ==> !(tlb[j].valid && tlb[j].hi == va)
      {
        if tlb[i].valid && tlb[i].hi == va {
          return i;
        }
        i := i + 1;
      }
      n := -1;
    }

    /** The TLB entry through which a process reaches a page, after a fault if there was none. */
    method Reach(kind: Kind, addr: nat, a: Space, image: Page, now: Time) returns (res: Result, n: nat)
      requires Valid() && Stamped(St(), now) && SpaceOk(a) && (kind == Read || kind == Write)
      requires exists i :: 0 <= i < |core| && !core[i].isKernel
      modifies this
      ensures pid == old(pid) && kruns == old(kruns)
      ensures res != PANIC ==> Valid() && Stamped(St(), now) && KernelKept(old(St()), St())
      ensures FaultDone(old(St()), old(Mem()), Key(pid, PageBase(addr)), a, image, res, Mem())
      ensures res == OK ==> n < NUM_TLB && tlb[n].valid && tlb[n].hi == PageBase(addr)
    {
      hide KernelKept;
      hide InvX;
      hide ViewX;
      hide TlbOk;
      hide FramesOk;
      hide Stamped;
      hide SegOf;
      hide MayWrite;
      hide NoPlace;
      hide NeedsFrame;
      hide RwOk;
      hide TlbOnce;
      hide Faulted;
      hide Answer;
      hide After;
      hide Mapped;
      hide MissCounted;
      hide HasFree;
      hide Balanced;
      SizesX(St(), NONE);
      KernelSelf(St());
      var va := addr / PAGE_SIZE * PAGE_SIZE;
      var entry := Probe(va);
      res := OK;
      if entry == -1 {
        res := VmFault(kind, addr, Some(a), image, now);
        if res != OK {
          return res, 0;
        }
        entry := Probe(va);
      } else {
        MappedFrame(tlb, St(), pid, slipped, va, view);
        Resident(St(), view, Key(pid, va), a);
        ghost var f: nat :| InFrame(St(), NONE, Key(pid, va), f);
        NotSwapped(St(), Key(pid, va), f);
        KnownPage(Mem(), Key(pid, va), a, image);
      }
      n := entry;
    }

    /** A process reads a page: after a fault on a TLB miss it reads through the TLB. */
    method UserRead(addr: nat, a: Space, image: Page, now: Time) returns (res: Result, p: Page)
      requires Valid() && Stamped(St(), now) && SpaceOk(a)
      requires exists i :: 0 <= i < |core| && !core[i].isKernel
      modifies this
      ensures pid == old(pid) && kruns == old(kruns)
      ensures res != PANIC ==> Valid() && Stamped(St(), now) && KernelKept(old(St()), St())
      ensures FaultDone(old(St()), old(Mem()), Key(pid, PageBase(addr)), a, image, res, Mem())
      ensures res == OK ==> Key(pid, PageBase(addr)) in view && p == view[Key(pid, PageBase(addr))]
    {
      hide KernelKept;
      hide InvX;
      hide ViewX;
      hide FramesOk;
      hide Stamped;
      hide FaultDone;
      hide RwOk;
      hide TlbOnce;
      hide Balanced;
      p := [];
      var n;
      res, n := Reach(Read, addr, a, image, now);
      if res == OK {
        assert InFrame(St(), NONE, Key(pid, tlb[n].hi), tlb[n].frame);
        FrameView(St(), NONE, view, tlb[n].frame);
        SizesX(St(), NONE);
        p := mem[tlb[n].frame];
      }
    }

    /** A process writes a page. The store goes through if and only if the page may be written, except that it may
        also go through for a page that slipped; otherwise the fault fails and memory stays as it is. */
    method UserWrite(addr: nat, p: Page, a: Space, image: Page, now: Time) returns (res: Result)
      requires Valid() && Stamped(St(), now) && SpaceOk(a)
      requires exists i :: 0 <= i < |core| && !core[i].isKernel
      modifies this
      ensures pid == old(pid) && kruns == old(kruns)
      ensures res != PANIC ==> Valid() && Stamped(St(), now) && KernelKept(old(St()), St())
      ensures StoreDone(old(St()), old(Mem()), Key(pid, PageBase(addr)), a, p, image, res, Mem())
    {
      hide KernelKept;
      hide InvX;
      hide ViewX;
      hide TlbOk;
      hide FramesOk;
      hide Stamped;
      hide SegOf;
      hide Mapped;
      hide MayWrite;
      hide NoRoomFor;
      hide Answer;
      hide After;
      hide Swapped;
      hide RwOk;
      hide TlbOnce;
      hide Balanced;
      ghost var s0 := St();
      var n;
      res, n := Reach(Write, addr, a, image, now);
      if res != OK {
        return;
      }
      var va := tlb[n].hi;
      ghost var s1 := St();
      IsMapped(tlb, n);
      MappedFrame(tlb, s1, pid, slipped, va, view);
      RwMayWrite(s1, rw, Key(pid, va));
      if tlb[n].dirty {
        DirtyMay(tlb, s1, pid, slipped, rw, n);
      }
      if !tlb[n].dirty {
        res := StoreFault(va, now);
        KernelTrans(s0, s1, St());
        if res != OK {
          return;
        }
        // the store is tried again
        var entry := Probe(va);
        n := entry;
      }
      assert tlb[n].dirty;
      ghost var s2 := St();
      StoreThrough(n, p, now);
      KernelMem(s0, s2, St());
    }

    method StoreThrough(n: nat, p: Page, now: Time)
      requires Valid() && Stamped(St(), now) && n < NUM_TLB && tlb[n].valid
      modifies this`mem, this`view
      ensures Valid() && Stamped(St(), now) && view == old(view)[Key(pid, tlb[n].hi) := p]
    {
      hide InvX;
      hide ViewX;
      hide Stamped;
      hide RwOk;
      hide TlbOnce;
      ghost var s0 := St();
      assert InFrame(s0, NONE, Key(pid, tlb[n].hi), tlb[n].frame);
      StoreOk(s0, view, tlb[n].frame, p);
      SizesX(s0, NONE);
      mem := mem[tlb[n].frame := p];
      MemAside(s0, St(), tlb, pid, slipped, now);
      MemRw(s0, St(), rw);
      view := view[Key(pid, tlb[n].hi) := p];
    }

    /** as_activate on a switch to another process. */
    method Activate(next: nat, ghost now: Time)
      requires Valid() && next != 0 && Stamped(St(), now)
      modifies this`pid, this`tlb, this`victim, this`stats
      ensures Valid() && pid == next && Stamped(St(), now) && (next != old(pid) ==> NoneValid(tlb))
    {
      hide InvX;
      hide ViewX;
      hide Stamped;
      hide RwOk;
      if pid != next {
        pid := next;
        TlbInvalidate();
      }
    }
  }

  /** The first segment that has the address. */
  function SegOf(segs: seq<Seg>, va: nat): Option<Seg> {
    if segs == [] then None
    else if segs[0].base <= va <= segs[0].base + segs[0].size then Some(segs[0])
    else SegOf(segs[1..], va)
  }

  // ------------------------------------------- which segment has an address

  predicate Has(seg: Seg, va: nat) {
    seg.base <= va < seg.base + seg.size
  }

  /** The segment an address belongs to: a segment extends up to, but not including, its end. */
  function Owner(segs: seq<Seg>, va: nat): (seg: Option<Seg>)
    ensures seg.Some? ==> Has(seg.value, va)
  {
    if segs == [] then None
    else if Has(segs[0], va) then Some(segs[0])
    else Owner(segs[1..], va)
  }

  /** Segment i ends at the address, and no segment before it has the address. */
  predicate EndsAt(segs: seq<Seg>, va: nat, i: nat) {
    i < |segs| && segs[i].base + segs[i].size == va && forall j :: 0 <= j < i ==> !Has(segs[j], va)
  }

  /** The same, and no segment before it ends there either. */
  predicate EndsFirst(segs: seq<Seg>, va: nat, i: nat) {
    EndsAt(segs, va, i) && forall j :: 0 <= j < i ==> segs[j].base + segs[j].size != va
  }

  /** sd_get_by_addr goes wrong exactly at the end of a segment that comes before the one that has the address. */
  lemma {:induction false} SegOfOwner(segs: seq<Seg>, va: nat)
    ensures SegOf(segs, va) != Owner(segs, va) <==> exists i: nat :: EndsAt(segs, va, i)
    ensures SegOf(segs, va) == Owner(segs, va) <==> SegOf(segs, va).Some? ==> Has(SegOf(segs, va).value, va)
  {
    if segs != [] && !Has(segs[0], va) {
      SegOfOwner(segs[1..], va);
      if segs[0].base + segs[0].size == va {
        assert EndsAt(segs, va, 0);
      } else {
        forall i: nat
          ensures EndsAt(segs, va, i + 1) <==> EndsAt(segs[1..], va, i)
        {
          if EndsAt(segs[1..], va, i) {
            forall j | 0 <= j < i + 1
              ensures !Has(segs[j], va)
            {
              assert j > 0 ==> segs[j] == segs[1..][j - 1];
            }
          }
          if EndsAt(segs, va, i + 1) {
            forall j | 0 <= j < i
              ensures !Has(segs[1..][j], va)
            {
              assert segs[1..][j] == segs[j + 1];
            }
          }
        }
        if i: nat :| EndsAt(segs, va, i) {
          assert EndsAt(segs[1..], va, i - 1);
        }
        if i: nat :| EndsAt(segs[1..], va, i) {
          assert EndsAt(segs, va, i + 1);
        }
      }
    }
  }

  /** What it finds there is the first segment that ends there. */
  lemma {:induction false} SegOfEnd(segs: seq<Seg>, va: nat, i: nat)
    requires EndsFirst(segs, va, i)
    ensures SegOf(segs, va) == Some(segs[i])
  {
    assert i > 0 ==> !Has(segs[0], va) && segs[0].base + segs[0].size != va;
    if i > 0 {
      forall j | 0 <= j < i - 1
        ensures !Has(segs[1..][j], va) && segs[1..][j].base + segs[1..][j].size != va
      {
        assert segs[1..][j] == segs[j + 1];
      }
      SegOfEnd(segs[1..], va, i - 1);
    }
  }

  lemma {:induction false} SegOfAtEnd(segs: seq<Seg>, va: nat) returns (i: nat)
    requires SegOf(segs, va).Some? && !Has(SegOf(segs, va).value, va)
    ensures EndsFirst(segs, va, i)
  {
    if !Has(segs[0], va) && segs[0].base + segs[0].size == va {
      i := 0;
    } else {
      var k := SegOfAtEnd(segs[1..], va);
      i := k + 1;
      forall j | 0 <= j < i
        ensures !Has(segs[j], va) && segs[j].base + segs[j].size != va
      {
        assert j > 0 ==> segs[j] == segs[1..][j - 1];
      }
    }
  }

  /** What the address space promises: pages of its segments and of its stack can be used, others cannot. */
  predicate Belongs(a: Space, va: nat) {
    Owner(a.segs, va).Some? || a.stackb <= va <= a.stackt
  }

  /** vm_fault treats a page that is touched for the first time as the address space promises, except at the
      end of a read-only segment if the page belongs to another segment or the stack, and at the end of a
      writeable one if the page belongs to nothing. */
  lemma AnswerMeant(view: map<Key, Page>, k: Key, a: Space)
    requires k !in view && k.va <= USERSTACK
    ensures Answer(view, k, a) != (if Belongs(a, k.va) then OK else EFAULT) <==>
      exists i: nat :: EndsFirst(a.segs, k.va, i) && (a.segs[i].writeable <==> !Belongs(a, k.va))
  {
    var found := SegOf(a.segs, k.va);
    SegOfOwner(a.segs, k.va);
    if i: nat :| EndsFirst(a.segs, k.va, i) {
      SegOfEnd(a.segs, k.va, i);
    }
    if found.Some? && !Has(found.value, k.va) {
      var i := SegOfAtEnd(a.segs, k.va);
      SegOfEnd(a.segs, k.va, i);
    } else {
      assert found == Owner(a.segs, k.va);
    }
  }

  /** A page of a writeable segment is refused on its first touch exactly when the first segment to end at its
      address, with none before it that has the page, is read-only. */
  lemma RefusedAtEnd(view: map<Key, Page>, k: Key, a: Space)
    requires k !in view && k.va <= USERSTACK
    requires Owner(a.segs, k.va).Some? && Owner(a.segs, k.va).value.writeable
    ensures Answer(view, k, a) == EFAULT <==> exists i: nat :: EndsFirst(a.segs, k.va, i) && !a.segs[i].writeable
  {
    AnswerMeant(view, k, a);
  }

  /** Data right after read-only text: its first page is refused. */
  lemma DataAfterText(view: map<Key, Page>, pid: nat)
    requires Key(pid, 0x401000) !in view
    ensures var text, data := Seg(0x400000, 0x1000, false), Seg(0x401000, 0x1000, true);
      var a := Space([text, data], 0x7ff00000, USERSTACK);
      && SegOf(a.segs, 0x401000) == Some(text) && Owner(a.segs, 0x401000) == Some(data)
      && Answer(view, Key(pid, 0x401000), a) == EFAULT
  {
    var text, data := Seg(0x400000, 0x1000, false), Seg(0x401000, 0x1000, true);
    var segs := [text, data];
    assert segs[1..] == [data];
    assert Owner(segs, 0x401000) == Owner([data], 0x401000);
  }

  function PageBase(addr: nat): nat {
    addr / PAGE_SIZE * PAGE_SIZE
  }

  /** Flat memory after a fault: a page touched for the first time comes from its segment or is cleared. */
  function Faulted(view: map<Key, Page>, kind: Kind, k: Key, a: Space, image: Page): map<Key, Page> {
    if kind == ReadOnly || kind == OtherKind || k in view then view
    else if SegOf(a.segs, k.va).Some? then view[k := image]
    else if a.stackb <= k.va <= a.stackt then view[k := ZeroPage]
    else view
  }

  /** What vm_fault answers to a load or a store, unless there is no place for the page. */
  function Answer(view: map<Key, Page>, k: Key, a: Space): (r: Result)
    ensures r != EINVAL
  {
    if k in view then OK
    else if k.va > USERSTACK then PANIC
    else
      match SegOf(a.segs, k.va)
      case Some(seg) => if !seg.writeable && !(seg.base <= k.va < seg.base + seg.size) then EFAULT else OK
      case None => if a.stackb <= k.va <= a.stackt then OK else EFAULT
  }

  /** The flat memory of all processes: the contents of their pages, those that may be written, and those that
      slipped. */
  datatype Flat = Flat(view: map<Key, Page>, rw: set<Key>, slipped: set<Key>)

  /** Flat memory after a load or a store of page k. A page touched for the first time may be written if its
      segment says so; one that comes back from the swap file may be written from then on. */
  function After(m: Flat, back: bool, k: Key, a: Space, image: Page): Flat {
    if k in m.view then (if back then m.(rw := m.rw + {k}) else m)
    else if k !in Faulted(m.view, Read, k, a, image) then m
    else
      Flat(Faulted(m.view, Read, k, a, image), if WriteableAt(a, k.va) then m.rw + {k} else m.rw,
           if Answer(m.view, k, a) == EFAULT then m.slipped + {k} else m.slipped)
  }

  lemma KnownPage(m: Flat, k: Key, a: Space, image: Page)
    requires k in m.view
    ensures Answer(m.view, k, a) == OK
    ensures After(m, false, k, a, image) == m && After(m, true, k, a, image) == m.(rw := m.rw + {k})
  {
  }

  /** A page slips on its first touch if and only if it starts at the end of the read-only segment that answers for
      it: the answer is EFAULT, and the page is there, mapped and unprotected. */
  lemma SlipsIff(m: Flat, k: Key, a: Space, image: Page)
    requires k !in m.view && k !in m.slipped && k.va <= USERSTACK
    ensures k in After(m, false, k, a, image).slipped <==>
      var seg := SegOf(a.segs, k.va);
      seg.Some? && !seg.value.writeable && k.va == seg.value.base + seg.value.size
  {
    SegHas(a.segs, k.va);
  }

  lemma {:induction false} SegHas(segs: seq<Seg>, va: nat)
    ensures var seg := SegOf(segs, va);
      seg.Some? ==> seg.value.base <= va <= seg.value.base + seg.value.size
  {
    if segs != [] {
      SegHas(segs[1..], va);
    }
  }

  ghost predicate Swapped(s: State, k: Key) {
    exists j: nat :: InSlot(s, k, j)
  }

  lemma HasSlot(s: State, k: Key, j: nat)
    requires InSlot(s, k, j)
    ensures Swapped(s, k) && j < |s.slots|
  {
  }

  lemma NoSlot(s: State, pid: nat, va: nat)
    requires forall j :: 0 <= j < |s.slots| ==> !(s.slots[j].pid == pid && s.slots[j].va == va)
    ensures !Swapped(s, Key(pid, va)) && forall j: nat :: !InSlot(s, Key(pid, va), j)
  {
  }

  lemma RoomLeft(s: State, view: map<Key, Page>, k: Key, a: Space)
    requires !NoPlace(s)
    ensures !NoRoomFor(s, view, k, a)
  {
  }

  lemma NotInSwap(s: State, k: Key)
    requires !Swapped(s, k)
    ensures forall j: nat :: !InSlot(s, k, j)
  {
  }

  lemma NotSwapped(s: State, k: Key, f: nat)
    requires Inv(s) && InFrame(s, NONE, k, f)
    ensures !Swapped(s, k)
  {
  }

  /** A load or a store of page k in state s faulted, and m' is flat memory after it. */
  ghost predicate FaultDone(s: State, m: Flat, k: Key, a: Space, image: Page, res: Result, m': Flat) {
    if NoRoomFor(s, m.view, k, a) then res == PANIC
    else
      && res == Answer(m.view, k, a)
      && (res != PANIC ==> m' == After(m, Swapped(s, k), k, a, image))
      && (res == OK ==> k in m'.view)
  }

  lemma FaultKnown(s: State, m: Flat, k: Key, a: Space, image: Page)
    requires k in m.view && !NoRoomFor(s, m.view, k, a)
    ensures FaultDone(s, m, k, a, image, OK, if Swapped(s, k) then m.(rw := m.rw + {k}) else m)
  {
    KnownPage(m, k, a, image);
  }

  lemma FaultPanic(s: State, m: Flat, k: Key, a: Space, image: Page, m': Flat)
    requires k in m.view && NoPlace(s) && (k in m.view ==> NeedsFrame(s, m.view, k, a))
    ensures FaultDone(s, m, k, a, image, PANIC, m')
  {
  }

  lemma FaultFirst(s: State, m: Flat, k: Key, a: Space, image: Page, res: Result, m': Flat)
    requires !Swapped(s, k) && (NeedsFrame(s, m.view, k, a) <==> k in Faulted(m.view, Read, k, a, image))
    requires res == if NoPlace(s) && k in Faulted(m.view, Read, k, a, image) then PANIC else Answer(m.view, k, a)
    requires res != PANIC ==> m' == After(m, false, k, a, image)
    requires res == OK ==> k in m'.view
    ensures FaultDone(s, m, k, a, image, res, m')
  {
    hide Faulted;
    hide After;
    hide Answer;
  }

  /** A store of p to page k: it goes through exactly if the page may be written, and either way if it slipped. */
  ghost predicate StoreDone(s: State, m: Flat, k: Key, a: Space, p: Page, image: Page, res: Result, m': Flat) {
    var answer, n := Answer(m.view, k, a), After(m, Swapped(s, k), k, a, image);
    if NoRoomFor(s, m.view, k, a) then res == PANIC
    else if answer != OK then res == answer && (res != PANIC ==> m' == n)
    else if k in n.rw then res == OK && m' == n.(view := n.view[k := p])
    else if k !in n.slipped then res == EFAULT && m' == n
    else (res == OK && m' == n.(view := n.view[k := p])) || (res == EFAULT && m' == n)
  }

  // ------------------------------------------------------------------- counting

  /** Where the page of a fault comes from. */
  datatype Cause = Reloaded | FromSwap | FromFile | FromZero | NoPage

  function NewCause(a: Space, va: nat): Cause {
    if SegOf(a.segs, va).Some? then FromFile
    else if a.stackb <= va <= a.stackt then FromZero
    else NoPage
  }

  ghost function CauseOf(s: State, k: Key, a: Space): Cause {
    if exists i: nat :: InFrame(s, NONE, k, i) then Reloaded
    else if Swapped(s, k) then FromSwap
    else NewCause(a, k.va)
  }

  predicate TakesFrame(cause: Cause) {
    cause == FromSwap || cause == FromFile || cause == FromZero
  }

  function One(b: bool): nat {
    if b then 1 else 0
  }

  /** A page was swapped out for another. */
  predicate Evicted(st: seq<nat>, st': seq<nat>, evicts: bool) {
    && |st| == |st'| == 10
    && forall n :: 0 <= n < 10 ==> st'[n] == st[n] + One(evicts && (n == TLB_INVALIDATE || n == SWAP_WRITE))
  }

  /** A TLB entry was written. */
  predicate TlbCounted(st: seq<nat>, st': seq<nat>, free: bool) {
    && |st| == |st'| == 10
    && forall n :: 0 <= n < 10 ==>
         st'[n] == st[n] + One(n == TLB_FAULT || n == if free then FAULT_FREE else FAULT_REPLACE)
  }

  predicate SwapCounted(st: seq<nat>, st': seq<nat>, evicts: bool) {
    && |st| == |st'| == 10
    && forall n :: 0 <= n < 10 ==> st'[n] == st[n] + One(n == FAULT_DISK || n == SWAP_READ)
                                                 + One(evicts && (n == TLB_INVALIDATE || n == SWAP_WRITE))
  }

  predicate FreshCounted(st: seq<nat>, st': seq<nat>, evicts: bool, free: bool) {
    && |st| == |st'| == 10
    && forall n :: 0 <= n < 10 ==>
         st'[n] == st[n] + One(n == TLB_FAULT || n == if free || evicts then FAULT_FREE else FAULT_REPLACE)
                         + One(evicts && (n == TLB_INVALIDATE || n == SWAP_WRITE))
  }

  /** The counters that a fault raises: used says that no frame was free, free that a TLB entry was. */
  predicate Counts(n: nat, cause: Cause, used: bool, free: bool) {
    var evicts := used && TakesFrame(cause);
    || (n == TLB_FAULT && cause != NoPage)
    || (n == FAULT_FREE && cause != NoPage && (free || evicts))
    || (n == FAULT_REPLACE && cause != NoPage && !(free || evicts))
    || (n == TLB_INVALIDATE && evicts)
    || (n == TLB_RELOAD && cause == Reloaded)
    || (n == FAULT_ZERO && cause == FromZero)
    || (n == FAULT_DISK && (cause == FromFile || cause == FromSwap))
    || (n == ELF_READ && cause == FromFile)
    || (n == SWAP_READ && cause == FromSwap)
    || (n == SWAP_WRITE && evicts)
  }

  predicate Counted(st: seq<nat>, st': seq<nat>, cause: Cause, used: bool, free: bool) {
    |st| == |st'| == 10 && forall n :: 0 <= n < 10 ==> st'[n] == st[n] + One(Counts(n, cause, used, free))
  }

  ghost predicate MissCounted(s: State, k: Key, a: Space, free: bool, st: seq<nat>, st': seq<nat>) {
    Counted(st, st', CauseOf(s, k, a), AllUsed(s.core), free)
  }

  lemma EvictedSize(st: seq<nat>, st': seq<nat>, evicts: bool)
    requires Evicted(st, st', evicts)
    ensures |st'| == 10
  {
  }

  lemma FreshSize(st: seq<nat>, st': seq<nat>, evicts: bool, free: bool)
    requires FreshCounted(st, st', evicts, free)
    ensures |st'| == 10
  {
  }

  lemma EvictedNot(st: seq<nat>)
    requires |st| == 10
    ensures Evicted(st, st, false)
  {
    assert One(false) == 0;
  }

  function Bumped(st: seq<nat>, n: nat): seq<nat>
    requires n < |st|
  {
    st[n := st[n] + 1]
  }

  lemma SwapBumped(st: seq<nat>, st': seq<nat>, evicts: bool)
    requires Evicted(st, st', evicts)
    ensures SwapCounted(st, Bumped(Bumped(st', FAULT_DISK), SWAP_READ), evicts)
  {
  }

  lemma LoadBumped(st: seq<nat>, st': seq<nat>, used: bool, free: bool)
    requires FreshCounted(st, st', used, free)
    ensures Counted(st, Bumped(Bumped(st', FAULT_DISK), ELF_READ), FromFile, used, free)
  {
  }

  lemma ZeroBumped(st: seq<nat>, st': seq<nat>, used: bool, free: bool)
    requires FreshCounted(st, st', used, free)
    ensures Counted(st, Bumped(st', FAULT_ZERO), FromZero, used, free)
  {
  }

  lemma FreshBumped(st: seq<nat>, st1: seq<nat>, st': seq<nat>, used: bool, free: bool)
    requires Evicted(st, st1, used) && TlbCounted(st1, st', free || used)
    ensures FreshCounted(st, st', used, free)
  {
  }

  lemma BalancedSize(st: seq<nat>)
    requires Balanced(st)
    ensures |st| == 10
  {
  }

  lemma BalancedAfter(st: seq<nat>, st': seq<nat>, cause: Cause, used: bool, free: bool)
    requires Balanced(st) && Counted(st, st', cause, used, free)
    ensures Balanced(st')
  {
  }

  lemma CountedNothing(st: seq<nat>, used: bool, free: bool)
    requires Balanced(st)
    ensures Counted(st, st, NoPage, used, free)
  {
  }

  lemma CountedReload(s: State, k: Key, a: Space, free: bool, st: seq<nat>, st': seq<nat>, f: nat)
    requires Balanced(st) && InFrame(s, NONE, k, f)
    requires TlbCounted(st[TLB_RELOAD := st[TLB_RELOAD] + 1], st', free)
    ensures MissCounted(s, k, a, free, st, st') && Balanced(st')
  {
    assert Counted(st, st', Reloaded, AllUsed(s.core), free);
    BalancedAfter(st, st', Reloaded, AllUsed(s.core), free);
  }

  lemma CountedSwap(used: bool, free: bool, st: seq<nat>, st1: seq<nat>, st': seq<nat>)
    requires SwapCounted(st, st1, used) && TlbCounted(st1, st', free || used)
    ensures Counted(st, st', FromSwap, used, free)
  {
  }

  lemma CountedBack(s: State, k: Key, a: Space, free: bool, st: seq<nat>, st': seq<nat>)
    requires Balanced(st) && (forall i: nat :: !InFrame(s, NONE, k, i)) && Swapped(s, k)
    requires Counted(st, st', FromSwap, AllUsed(s.core), free)
    ensures MissCounted(s, k, a, free, st, st') && Balanced(st')
  {
    BalancedAfter(st, st', FromSwap, AllUsed(s.core), free);
  }

  lemma CountedFirst(s: State, k: Key, a: Space, free: bool, st: seq<nat>, st': seq<nat>)
    requires Balanced(st) && (forall i: nat :: !InFrame(s, NONE, k, i)) && !Swapped(s, k)
    requires Counted(st, st', NewCause(a, k.va), AllUsed(s.core), free)
    ensures MissCounted(s, k, a, free, st, st') && Balanced(st')
  {
    BalancedAfter(st, st', NewCause(a, k.va), AllUsed(s.core), free);
  }

  lemma FreeAfter(tlb: seq<Tlb>, tlb': seq<Tlb>, used: bool)
    requires if used then NoneValid(tlb') else tlb' == tlb
    ensures HasFree(tlb') <==> HasFree(tlb) || used
  {
    assert used ==> !tlb'[0].valid;
  }

  /** May a page be written once it has been touched for the first time? */
  predicate WriteableAt(a: Space, va: nat) {
    SegOf(a.segs, va).Some? ==> SegOf(a.segs, va).value.writeable
  }

  /** Page k is in a frame, and its entry lets stores through. */
  ghost predicate MayWrite(s: State, k: Key) {
    exists f: nat :: InFrame(s, NONE, k, f) && s.pt[f].writeable
  }

  lemma MayWriteAt(s: State, f: nat)
    requires Inv(s) && f < |s.pt| && f < |s.core| && User(s, f)
    ensures MayWrite(s, FrameKey(s, f)) <==> s.pt[f].writeable
  {
    assert InFrame(s, NONE, FrameKey(s, f), f);
  }

  lemma MayWriteIff(s: State, k: Key, ok: bool)
    requires Inv(s) && exists f: nat :: InFrame(s, NONE, k, f) && (ok <==> s.pt[f].writeable)
    ensures ok <==> MayWrite(s, k)
  {
    var f: nat :| InFrame(s, NONE, k, f) && (ok <==> s.pt[f].writeable);
    MayWriteAt(s, f);
  }

  /** A frame lets stores through if and only if its page is one of rw. */
  ghost predicate RwOk(s: State, rw: set<Key>) {
    forall i: nat :: i < |s.pt| && i < |s.core| && User(s, i) ==> (s.pt[i].writeable <==> FrameKey(s, i) in rw)
  }

  /** rw' is right once page k, which is in no frame, has one that lets stores through as told. */
  ghost predicate RwNext(s: State, rw: set<Key>, rw': set<Key>, k: Key, writeable: bool) {
    && (forall i: nat :: !InFrame(s, NONE, k, i)) && (writeable <==> k in rw')
    && forall x :: x != k ==> (x in rw <==> x in rw')
  }

  lemma RwFresh(s: State, view: map<Key, Page>, rw: set<Key>, k: Key, writeable: bool)
    requires Inv(s) && ViewIs(s, view) && k !in view && rw <= view.Keys
    ensures RwNext(s, rw, rw + (if writeable then {k} else {}), k, writeable)
  {
    NotHeld(s, NONE, view, k);
  }

  lemma RwSwapped(s: State, rw: set<Key>, k: Key, j: nat)
    requires Inv(s) && InSlot(s, k, j)
    ensures RwNext(s, rw, rw + {k}, k, true)
  {
  }

  /** A page that is in a frame may be written if and only if it is one of rw. */
  lemma RwMayWrite(s: State, rw: set<Key>, k: Key)
    requires Inv(s) && RwOk(s, rw) && (exists i: nat :: InFrame(s, NONE, k, i))
    ensures k in rw <==> MayWrite(s, k)
  {
    var i: nat :| InFrame(s, NONE, k, i);
    MayWriteAt(s, i);
  }

  /** A TLB entry that lets stores through leads to a page that may be written or has slipped. */
  lemma DirtyMay(tlb: seq<Tlb>, s: State, pid: nat, slipped: set<Key>, rw: set<Key>, n: nat)
    requires TlbOk(tlb, s, pid, slipped) && RwOk(s, rw) && n < |tlb| && tlb[n].valid && tlb[n].dirty
    ensures Key(pid, tlb[n].hi) in rw || Key(pid, tlb[n].hi) in slipped
  {
    assert InFrame(s, NONE, Key(pid, tlb[n].hi), tlb[n].frame);
  }

  lemma OneFrame(s: State, k: Key)
    requires Inv(s)
    ensures forall i: nat, j: nat :: InFrame(s, NONE, k, i) && InFrame(s, NONE, k, j) ==> i == j
  {
  }

  lemma TlbMore(tlb: seq<Tlb>, s: State, pid: nat, slipped: set<Key>, slipped': set<Key>)
    requires TlbOk(tlb, s, pid, slipped) && slipped <= slipped'
    ensures TlbOk(tlb, s, pid, slipped')
  {
  }

  /** Once its only TLB entry lets no store through, a page has not slipped. */
  lemma Protected(tlb: seq<Tlb>, s: State, pid: nat, slipped: set<Key>, loc: nat)
    requires TlbOk(tlb, s, pid, slipped) && TlbOnce(tlb) && loc < |tlb| && tlb[loc].valid && !tlb[loc].dirty
    ensures TlbOk(tlb, s, pid, slipped - {Key(pid, tlb[loc].hi)})
  {
    assert forall n: nat :: n < |tlb| && tlb[n].valid && tlb[n].hi == tlb[loc].hi ==> n == loc;
  }

  lemma MemRw(s: State, s': State, rw: set<Key>)
    requires s' == s.(mem := s'.mem) && RwOk(s, rw)
    ensures RwOk(s', rw)
  {
  }

  lemma DirtyRw(s: State, s': State, rw: set<Key>)
    requires s' == s.(pt := s'.pt) && |s'.pt| == |s.pt| && RwOk(s, rw)
    requires forall i :: 0 <= i < |s.pt| ==> s'.pt[i] == s.pt[i].(dirty := s'.pt[i].dirty)
    ensures RwOk(s', rw)
  {
    forall i: nat | i < |s'.pt| && i < |s'.core| && User(s', i)
      ensures s'.pt[i].writeable <==> FrameKey(s', i) in rw
    {
      assert User(s, i) && FrameKey(s', i) == FrameKey(s, i);
    }
  }

  /** A page that does not exist has no TLB entry. */
  lemma NotMapped(tlb: seq<Tlb>, s: State, pid: nat, slipped: set<Key>, va: nat, view: map<Key, Page>)
    requires TlbOk(tlb, s, pid, slipped) && Inv(s) && ViewIs(s, view) && Key(pid, va) !in view
    ensures !Mapped(tlb, va)
  {
    if Mapped(tlb, va) {
      MappedFrame(tlb, s, pid, slipped, va, view);
    }
  }

  lemma IsMapped(tlb: seq<Tlb>, n: nat)
    requires n < |tlb| && tlb[n].valid
    ensures Mapped(tlb, tlb[n].hi)
  {
  }

  /** After an eviction, or without one, the TLB has nothing it did not have. */
  lemma StillOnce(tlb: seq<Tlb>, tlb': seq<Tlb>, va: nat)
    requires TlbOnce(tlb) && !Mapped(tlb, va) && (tlb' == tlb || NoneValid(tlb'))
    ensures TlbOnce(tlb') && !Mapped(tlb', va)
  {
  }

  lemma OnceSame(tlb: seq<Tlb>, tlb': seq<Tlb>)
    requires TlbOnce(tlb) && |tlb'| == |tlb|
    requires forall n :: 0 <= n < |tlb| ==> tlb'[n].valid == tlb[n].valid && tlb'[n].hi == tlb[n].hi
    ensures TlbOnce(tlb')
  {
    forall m: nat, n: nat | m < |tlb'| && n < |tlb'| && tlb'[m].valid && tlb'[n].valid && tlb'[m].hi == tlb'[n].hi
      ensures m == n
    {
      assert tlb[m].valid && tlb[n].valid && tlb[m].hi == tlb[n].hi;
    }
  }

  /** Every frame is in use, and so is every slot of the swap file. */
  predicate NoPlace(s: State) {
    && (forall i :: 0 <= i < |s.core| ==> s.core[i].inUse)
    && (forall j :: 0 <= j < |s.slots| ==> s.slots[j].va != 0)
  }

  /** Page k has to be given a frame: it is in none, and it exists or would exist from now on. */
  ghost predicate NeedsFrame(s: State, view: map<Key, Page>, k: Key, a: Space) {
    (forall i: nat :: !InFrame(s, NONE, k, i)) && k in Faulted(view, Read, k, a, [])
  }

  ghost predicate NoRoomFor(s: State, view: map<Key, Page>, k: Key, a: Space) {
    NoPlace(s) && NeedsFrame(s, view, k, a)
  }

  lemma NeedsIff(s: State, view: map<Key, Page>, k: Key, a: Space, image: Page)
    requires forall i: nat :: !InFrame(s, NONE, k, i)
    ensures NeedsFrame(s, view, k, a) <==> k in Faulted(view, Read, k, a, image)
    ensures k in view ==> NeedsFrame(s, view, k, a)
  {
  }

  lemma Resident(s: State, view: map<Key, Page>, k: Key, a: Space)
    requires exists i: nat :: InFrame(s, NONE, k, i)
    ensures !NeedsFrame(s, view, k, a) && !NoRoomFor(s, view, k, a)
  {
  }

  /** The TLB lets stores to the page through. */
  predicate LetsStores(tlb: seq<Tlb>, va: nat) {
    exists n :: 0 <= n < |tlb| && tlb[n].valid && tlb[n].hi == va && tlb[n].dirty
  }

  lemma LetsAt(tlb: seq<Tlb>, n: nat)
    requires TlbOnce(tlb) && n < |tlb| && tlb[n].valid
    ensures LetsStores(tlb, tlb[n].hi) <==> tlb[n].dirty
  {
  }

  predicate Mapped(tlb: seq<Tlb>, va: nat) {
    exists n :: 0 <= n < |tlb| && tlb[n].valid && tlb[n].hi == va
  }

  /** The frame set aside for a page that does not exist yet is the only one that names it. */
  lemma FreshFrame(s: State, view: map<Key, Page>, i: nat, p: Page)
    requires InvX(s, i) && ViewX(s, i, view) && i < |s.pt| && User(s, i)
    requires FrameKey(s, i) !in view && GoodKey(FrameKey(s, i))
    ensures InFrame(s, NONE, FrameKey(s, i), i)
    ensures forall f: nat :: InFrame(s, NONE, FrameKey(s, i), f) ==> f == i
    ensures Inv(s.(mem := s.mem[i := p])) && ViewIs(s.(mem := s.mem[i := p]), view[FrameKey(s, i) := p])
  {
    var k := FrameKey(s, i);
    NotHeld(s, i, view, k);
    forall f: nat | InFrame(s, NONE, k, f)
      ensures f == i
    {
      assert f != i ==> InFrame(s, i, k, f);
    }
    FillOk(s, view, i, p);
  }

  lemma TlbAdded(tlb: seq<Tlb>, s: State, pid: nat, slipped: set<Key>, loc: nat, va: nat, f: nat, dirty: bool)
    requires TlbOk(tlb, s, pid, slipped) && loc < |tlb| && InFrame(s, NONE, Key(pid, va), f)
    requires dirty ==> s.pt[f].writeable || Key(pid, va) in slipped
    ensures var tlb' := tlb[loc := Tlb(true, va, f, dirty)];
      TlbOk(tlb', s, pid, slipped) && Mapped(tlb', va)
  {
    assert tlb[loc := Tlb(true, va, f, dirty)][loc].hi == va;
  }

  /** The contents of memory say nothing about where pages are. */
  lemma MemAside(s: State, s': State, tlb: seq<Tlb>, pid: nat, slipped: set<Key>, t: Time)
    requires s' == s.(mem := s'.mem)
    ensures TlbOk(tlb, s, pid, slipped) ==> TlbOk(tlb, s', pid, slipped)
    ensures Stamped(s, t) ==> Stamped(s', t)
  {
  }

  /** Dirty bits say nothing about where pages are. */
  lemma DirtyKeeps(s: State, s': State, tlb: seq<Tlb>, pid: nat, slipped: set<Key>)
    requires s' == s.(pt := s'.pt) && |s'.pt| == |s.pt|
    requires forall i :: 0 <= i < |s.pt| ==> s'.pt[i] == s.pt[i].(dirty := s'.pt[i].dirty)
    ensures forall x: int, k: Key, i: nat :: InFrame(s', x, k, i) <==> InFrame(s, x, k, i)
    ensures forall k: Key, j: nat :: InSlot(s', k, j) <==> InSlot(s, k, j)
    ensures FramesOk(s) ==> FramesOk(s')
    ensures TlbOk(tlb, s, pid, slipped) ==> TlbOk(tlb, s', pid, slipped)
  {
  }

  lemma DirtyInv(s: State, s': State, x: int, view: map<Key, Page>, t: Time)
    requires s' == s.(pt := s'.pt) && |s'.pt| == |s.pt|
    requires forall i :: 0 <= i < |s.pt| ==> s'.pt[i] == s.pt[i].(dirty := s'.pt[i].dirty)
    requires InvX(s, x) && ViewX(s, x, view) && Stamped(s, t)
    ensures InvX(s', x) && ViewX(s', x, view) && Stamped(s', t)
  {
    DirtyKeeps(s, s', [], 0, {});
    forall i: nat | i < |s'.pt| && i != x
      ensures FrameOk(s'.pt[i], s'.core[i])
    {
      assert FrameOk(s.pt[i], s.core[i]);
    }
    SameHolds(s, x, s', x);
  }

  lemma InvFrames(s: State)
    requires Inv(s)
    ensures FramesOk(s) && Sizes(s)
  {
  }

  lemma MappedFrame(tlb: seq<Tlb>, s: State, pid: nat, slipped: set<Key>, va: nat, view: map<Key, Page>)
    requires Mapped(tlb, va) && TlbOk(tlb, s, pid, slipped) && Inv(s) && ViewIs(s, view)
    ensures (exists i: nat :: InFrame(s, NONE, Key(pid, va), i)) && Key(pid, va) in view
  {
    var n: nat :| n < |tlb| && tlb[n].valid && tlb[n].hi == va;
    assert InFrame(s, NONE, Key(pid, va), tlb[n].frame);
    FrameView(s, NONE, view, tlb[n].frame);
  }

  lemma TlbDirty(tlb: seq<Tlb>, tlb': seq<Tlb>, s: State, pid: nat, slipped: set<Key>)
    requires TlbOk(tlb, s, pid, slipped) && |tlb'| == |tlb|
    requires forall n :: 0 <= n < |tlb| ==>
      tlb'[n] == tlb[n].(dirty := tlb'[n].dirty) && (tlb'[n].dirty ==> tlb[n].dirty)
    ensures TlbOk(tlb', s, pid, slipped)
  {
  }

  lemma KernelMem(s: State, s': State, s'': State)
    requires KernelKept(s, s') && s'' == s'.(mem := s''.mem)
    ensures KernelKept(s, s'')
  {
  }

  lemma KernelSelf(s: State)
    requires |s.pt| == |s.core|
    ensures KernelKept(s, s)
  {
  }

  lemma MappedSame(tlb: seq<Tlb>, tlb': seq<Tlb>, va: nat)
    requires |tlb'| == |tlb| && forall n :: 0 <= n < |tlb| ==> tlb'[n].valid == tlb[n].valid && tlb'[n].hi == tlb[n].hi
    ensures Mapped(tlb', va) <==> Mapped(tlb, va)
  {
  }

  lemma {:induction false} SegFound(segs: seq<Seg>, va: nat)
    requires (forall i :: 0 <= i < |segs| ==> segs[i].base > 0) && SegOf(segs, va).Some?
    ensures va > 0
  {
    if !(segs[0].base <= va <= segs[0].base + segs[0].size) {
      SegFound(segs[1..], va);
    }
  }

  lemma SizesX(s: State, x: int)
    requires InvX(s, x)
    ensures Sizes(s)
  {
  }

  lemma FrameHere(s: State, i: nat)
    requires i < |s.pt| && i < |s.core| && User(s, i)
    ensures InFrame(s, NONE, FrameKey(s, i), i)
  {
  }

  lemma SlotUsed(s: State, j: nat)
    requires Inv(s) && j < |s.slots| && s.slots[j].pid != 0
    ensures Used(s, j) && GoodKey(SlotKey(s, j)) && s.slots[j].offset / PAGE_SIZE == j && j < |s.disk|
    ensures InSlot(s, SlotKey(s, j), j)
  {
    assert SlotOk(s.slots[j], j);
  }

  lemma SlotPresent(s: State, view: map<Key, Page>, j: nat)
    requires Inv(s) && ViewIs(s, view) && j < |s.slots| && s.slots[j].pid != 0
    ensures SlotKey(s, j) in view
  {
    SlotUsed(s, j);
    SlotView(s, NONE, view, j);
  }

  lemma RestoreRest(s: State, i: nat, y: nat, tlb: seq<Tlb>, pid: nat, slipped: set<Key>, t: Time, rw: set<Key>)
    requires i < |s.mem| && y < |s.slots| && y < |s.disk| && TlbOk(tlb, s, pid, slipped) && Stamped(s, t) && RwOk(s, rw)
    ensures TlbOk(tlb, Restore(s, i, y), pid, slipped) && Stamped(Restore(s, i, y), t) && RwOk(Restore(s, i, y), rw)
    ensures forall s0 :: KernelKept(s0, s) ==> KernelKept(s0, Restore(s, i, y))
    ensures forall k: Key :: InFrame(s, NONE, k, i) ==> InFrame(Restore(s, i, y), NONE, k, i)
  {
  }

  lemma SizesOf(s: State)
    requires Inv(s)
    ensures Sizes(s)
  {
  }

  lemma StampedMeans(s: State, t: Time)
    requires Stamped(s, t)
    ensures forall i :: 0 <= i < |s.core| && s.core[i].inUse && !s.core[i].isKernel ==> Before(s.core[i].time, t)
  {
  }

  /** A free frame is taken: the TLB, the slots and the stamps stay right. */
  lemma TakeFreeRest(s: State, i: nat, t: Time, e: Entry, tlb: seq<Tlb>, pid: nat,
                     slipped: set<Key>, rw: set<Key>, rw': set<Key>)
    requires Inv(s) && i < |s.pt| && !s.core[i].inUse
    requires GoodKey(Key(e.pid, e.vaddr)) && TlbOk(tlb, s, pid, slipped) && Stamped(s, t)
    requires RwOk(s, rw) && RwNext(s, rw, rw', Key(e.pid, e.vaddr), e.writeable)
    ensures RwOk(TakeFree(s, i, t, e), rw')
    ensures var s' := TakeFree(s, i, t, e);
      && FramesOk(s') && Stamped(s', t) && TlbOk(tlb, s', pid, slipped) && KernelKept(s, s')
      && forall k: Key, j: nat :: InSlot(s, k, j) ==> InSlot(s', k, j)
  {
    assert FrameOk(s.pt[i], s.core[i]);
    var k := Key(e.pid, e.vaddr);
    assert forall f: nat ::
      f < |s.pt| && f < |s.core| && User(s, f) && !InFrame(s, NONE, k, f) ==> FrameKey(s, f) != k;
  }

  lemma EvictRest(s: State, i: nat, j: nat, t: Time, e: Entry, tlb: seq<Tlb>, pid: nat,
                     slipped: set<Key>, rw: set<Key>, rw': set<Key>)
    requires Inv(s) && i < |s.pt| && User(s, i) && j < |s.slots| && !Used(s, j)
    requires GoodKey(Key(e.pid, e.vaddr)) && NoneValid(tlb) && Stamped(s, t)
    requires RwOk(s, rw) && RwNext(s, rw, rw', Key(e.pid, e.vaddr), e.writeable)
    ensures RwOk(Evict(s, i, j, t, e), rw')
    ensures var s' := Evict(s, i, j, t, e);
      && FramesOk(s') && Stamped(s', t) && TlbOk(tlb, s', pid, slipped) && KernelKept(s, s')
      && forall k: Key, y: nat :: InSlot(s, k, y) ==> InSlot(s', k, y) && y < |s.disk| && s'.disk[y] == s.disk[y]
  {
    EvictPlaces(s, i, j, t, e);
    var k := Key(e.pid, e.vaddr);
    assert forall f: nat ::
      f < |s.pt| && f < |s.core| && User(s, f) && !InFrame(s, NONE, k, f) ==> FrameKey(s, f) != k;
  }
}
