/** Frames for the kernel: alloc_kpages and free_kpages (kern/vm/pt.c, kern/vm/coremap.c). */
module PagingKernel {
  import opened Options
  import opened PagingState
  import opened Paging

  /** Frames r up to r + n are free. */
  predicate FreeRun(core: seq<Core>, r: nat, n: nat) {
    r + n <= |core| && forall i :: r <= i < r + n ==> !core[i].inUse
  }

  /** The kernel's frames carry their own addresses, and its runs do not overlap. */
  ghost predicate RunsOk(s: State, kruns: map<nat, nat>, lo: nat) {
    && |s.pt| == |s.core|
    && (forall i: nat :: i < |s.core| && s.core[i].isKernel ==> s.pt[i].vaddr == Kva(lo, i))
    && (forall a: nat :: a in kruns ==> kruns[a] > 0 && a + kruns[a] <= |s.pt| && s.pt[a].npages == kruns[a])
    && (forall a: nat, i: nat :: a in kruns && a <= i < a + kruns[a] && i < |s.core| ==> s.core[i].isKernel)
    && (forall a: nat, c: nat :: a in kruns && c in kruns && a != c ==> a + kruns[a] <= c || c + kruns[c] <= a)
  }

  ghost predicate InRun(kruns: map<nat, nat>, i: nat) {
    exists a: nat :: a in kruns && a <= i < a + kruns[a]
  }

  /** The kernel's frames are the first boot frames and those of its runs. */
  ghost predicate KernelIs(s: State, kruns: map<nat, nat>, boot: nat) {
    && boot <= |s.core| && (forall a: nat :: a in kruns ==> boot <= a)
    && forall i: nat :: i < |s.core| ==> (s.core[i].isKernel <==> i < boot || InRun(kruns, i))
  }

  /** Page faults leave the kernel's runs alone. */
  lemma RunsKept(s: State, s': State, kruns: map<nat, nat>, lo: nat, boot: nat)
    requires RunsOk(s, kruns, lo) && KernelIs(s, kruns, boot) && KernelKept(s, s')
    ensures RunsOk(s', kruns, lo) && KernelIs(s', kruns, boot)
    ensures |s'.core| == |s.core| && |s'.slots| == |s.slots|
  {
    forall a: nat | a in kruns
      ensures s'.pt[a].npages == kruns[a]
    {
      assert s.core[a].isKernel;
    }
  }

  /** At boot the kernel holds no run it could free. */
  lemma RunsAtBoot(s: State, lo: nat, boot: nat)
    requires |s.pt| == |s.core| && forall i :: 0 <= i < |s.core| && s.core[i].isKernel ==> s.pt[i].vaddr == Kva(lo, i)
    requires boot <= |s.core| && forall i :: 0 <= i < |s.core| ==> (s.core[i].isKernel <==> i < boot)
    ensures RunsOk(s, map[], lo) && KernelIs(s, map[], boot)
  {
  }

  // ---------------------------------------------------------------- allocating

  /** The last stretch of free frames below n starts at r. */
  predicate LastStretch(core: seq<Core>, n: nat, r: int) {
    && 0 <= r < n <= |core| && !core[r].inUse && (r > 0 ==> core[r - 1].inUse)
    && forall j :: r < j < n && !core[j].inUse ==> !core[j - 1].inUse
  }

  /** The search loop of get_free_kpages: the first run of n free frames, -1 if there is none. For n == 0 it is the
      start of the last stretch of free frames, or else junk, a variable that was never set. */
  method FindRun(core: seq<Core>, n: nat, junk: int) returns (r: int)
    ensures n > 0 ==> -1 <= r
    ensures n > 0 && r >= 0 ==> FreeRun(core, r, n) && forall st: nat :: st < r ==> !FreeRun(core, st, n)
    ensures n > 0 && r == -1 ==> forall st: nat :: !FreeRun(core, st, n)
    ensures n == 0 ==> LastStretch(core, |core|, r) || (AllUsed(core) && r == junk)
  {
    var count, pageIndex, i := 0, junk, 0;
    while i < |core|
      invariant 0 <= count <= i <= |core| && (n > 0 ==> count < n)
      invariant count > 0 ==> pageIndex == i - count
      invariant forall j :: i - count <= j < i ==> !core[j].inUse
      invariant i - count > 0 ==> core[i - count - 1].inUse
      invariant n > 0 ==> forall st: nat :: st < i - count ==> !FreeRun(core, st, n)
      invariant LastStretch(core, i, pageIndex) || (pageIndex == junk && AllUsed(core[..i]))
    {
      if !core[i].inUse {
        if count == 0 {
          pageIndex := i;
        }
        count := count + 1;
        if count == n {
          return pageIndex;
        }
      } else {
        forall st: nat | n > 0 && st < i + 1
          ensures !FreeRun(core, st, n)
        {
          assert i - count <= st ==> st <= i < st + n;
        }
        count := 0;
      }
      i := i + 1;
    }
    if count < n {
      return -1;
    }
    assert core[..i] == core;
    r := pageIndex;
  }

  /** The coremap and the page table after frames r up to r + m of a run of n went to the kernel. */
  ghost predicate Marked(core: seq<Core>, core': seq<Core>, r: nat, m: nat, t: Time) {
    && |core'| == |core|
    && forall i :: 0 <= i < |core| ==> core'[i] == if r <= i < r + m then Core(true, true, t) else core[i]
  }

  ghost predicate Entered(pt: seq<Entry>, pt': seq<Entry>, r: nat, m: nat, n: nat, lo: nat)
    requires m <= n
  {
    |pt'| == |pt| && forall i :: 0 <= i < |pt| ==>
      pt'[i] == if r <= i < r + m then pt[i].(vaddr := Kva(lo, i), pid := 0, npages := r + n - i) else pt[i]
  }

  /** alloc_kpages: n frames in a row that nobody uses, or -1 when there is no such run. Asked for no frames it
      answers with a frame all the same and sets nothing aside. */
  method AllocKpages(vm: Vm, n: nat, lo: nat, now: Time, junk: int) returns (r: int)
    requires vm.Valid() && RunsOk(vm.St(), vm.kruns, lo)
    modifies vm`core, vm`pt, vm`kruns
    ensures vm.Valid() && RunsOk(vm.St(), vm.kruns, lo) && |vm.core| == |old(vm.core)|
    ensures n > 0 ==> -1 <= r
    ensures n > 0 && r == -1 ==> forall st: nat :: !FreeRun(vm.core, st, n)
    ensures n == 0 || r == -1 ==> vm.St() == old(vm.St()) && vm.kruns == old(vm.kruns)
    ensures n == 0 ==> LastStretch(vm.core, |vm.core|, r) || (AllUsed(vm.core) && r == junk)
    ensures n > 0 && r >= 0 ==> old(FreeRun(vm.core, r, n)) && r !in old(vm.kruns) && vm.kruns == old(vm.kruns)[r := n]
    ensures n > 0 && r >= 0 ==> forall a: nat :: a in old(vm.kruns) ==> a + old(vm.kruns)[a] <= r || r + n <= a
    ensures n > 0 && r >= 0 ==> forall st: nat :: st < r ==> !FreeRun(old(vm.core), st, n)
    ensures |vm.slots| == |old(vm.slots)|
    ensures forall boot: nat :: old(KernelIs(vm.St(), vm.kruns, boot)) ==> KernelIs(vm.St(), vm.kruns, boot)
    ensures forall t: Time :: old(Stamped(vm.St(), t)) ==> Stamped(vm.St(), t)
  {
    hide TlbOk;
    hide InvX;
    hide ViewX;
    hide Marked;
    hide Entered;
    hide RunsOk;
    hide RwOk;
    hide TlbOnce;
    hide Stamped;
    hide FreeRun;
    hide LastStretch;
    hide KernelIs;
    r := FindRun(vm.core, n, junk);
    if n == 0 || r == -1 {
      return;
    }
    ghost var s0, kruns := vm.St(), vm.kruns;
    SizesX(s0, NONE);
    RunFits(vm.core, r, n);
    MarkRun(vm, r, n, now);
    EnterRun(vm, r, n, lo);
    RunTaken(s0, vm.St(), vm.view, vm.rw, vm.tlb, vm.pid, vm.slipped, r, n, lo, now);
    RunAdded(s0, vm.St(), kruns, r, n, lo, now);
    FramesAdded(s0, vm.St(), kruns, r, n, now);
    vm.kruns := kruns[r := n];
  }

  lemma RunFits(core: seq<Core>, r: nat, n: nat)
    requires FreeRun(core, r, n)
    ensures r + n <= |core|
  {
  }

  /** The marking loop of get_free_kpages. */
  method MarkRun(vm: Vm, r: nat, n: nat, now: Time)
    requires r + n <= |vm.core|
    modifies vm`core
    ensures Marked(old(vm.core), vm.core, r, n, now)
  {
    ghost var core0 := vm.core;
    var i := 0;
    while i < n
      invariant 0 <= i <= n && Marked(core0, vm.core, r, i, now)
    {
      vm.core := vm.core[r + i := Core(true, true, now)];
      i := i + 1;
    }
  }

  /** The loop of pt_alloc_kpages. */
  method EnterRun(vm: Vm, r: nat, n: nat, lo: nat)
    requires r + n <= |vm.pt|
    modifies vm`pt
    ensures Entered(old(vm.pt), vm.pt, r, n, n, lo)
  {
    ghost var pt0 := vm.pt;
    var i := 0;
    while i < n
      invariant 0 <= i <= n && Entered(pt0, vm.pt, r, i, n, lo)
    {
      vm.pt := vm.pt[r + i := vm.pt[r + i].(vaddr := Kva(lo, r + i), pid := 0, npages := n - i)];
      i := i + 1;
    }
  }

  lemma RunTaken(s: State, s': State, view: map<Key, Page>, rw: set<Key>, tlb: seq<Tlb>, pid: nat, slipped: set<Key>,
                 r: nat, n: nat, lo: nat, t: Time)
    requires Inv(s) && ViewIs(s, view) && TlbOk(tlb, s, pid, slipped) && RwOk(s, rw) && FreeRun(s.core, r, n)
    requires s' == s.(core := s'.core, pt := s'.pt)
    requires Marked(s.core, s'.core, r, n, t) && Entered(s.pt, s'.pt, r, n, n, lo)
    ensures Inv(s') && ViewIs(s', view) && TlbOk(tlb, s', pid, slipped) && RwOk(s', rw)
    ensures forall u: Time :: Stamped(s, u) ==> Stamped(s', u)
  {
    forall i: nat | i < |s.pt|
      ensures User(s', i) == User(s, i) && (User(s, i) ==> s'.pt[i] == s.pt[i])
      ensures !User(s, i) ==> s'.pt[i].pid == 0 && (s'.core[i].isKernel ==> s'.core[i].inUse)
    {
      assert FrameOk(s.pt[i], s.core[i]);
    }
    KernelOk(s, s', view);
  }

  lemma RunAdded(s: State, s': State, kruns: map<nat, nat>, r: nat, n: nat, lo: nat, t: Time)
    requires Inv(s) && RunsOk(s, kruns, lo) && FreeRun(s.core, r, n) && n > 0
    requires s' == s.(core := s'.core, pt := s'.pt)
    requires Marked(s.core, s'.core, r, n, t) && Entered(s.pt, s'.pt, r, n, n, lo)
    ensures RunsOk(s', kruns[r := n], lo) && r !in kruns
    ensures forall a: nat :: a in kruns ==> a + kruns[a] <= r || r + n <= a
  {
    forall a: nat | a in kruns
      ensures a + kruns[a] <= r || r + n <= a
    {
      RunApart(s, kruns, a, r, n, lo);
    }
    assert r !in kruns;
    hide InvX;
    hide FreeRun;
    RunMarked(s, s', kruns, r, n, lo, t);
  }

  lemma RunMarked(s: State, s': State, kruns: map<nat, nat>, r: nat, n: nat, lo: nat, t: Time)
    requires RunsOk(s, kruns, lo) && r + n <= |s.core| && n > 0 && r !in kruns && |s'.pt| == |s.pt|
    requires forall a: nat :: a in kruns ==> a + kruns[a] <= r || r + n <= a
    requires Marked(s.core, s'.core, r, n, t) && Entered(s.pt, s'.pt, r, n, n, lo)
    ensures RunsOk(s', kruns[r := n], lo)
  {
    var kruns' := kruns[r := n];
    forall a: nat | a in kruns'
      ensures kruns'[a] > 0 && a + kruns'[a] <= |s'.pt| && s'.pt[a].npages == kruns'[a]
      ensures forall i: nat :: a <= i < a + kruns'[a] && i < |s'.core| ==> s'.core[i].isKernel
    {
      assert a != r ==> a in kruns && kruns'[a] == kruns[a];
    }
    forall a: nat, c: nat | a in kruns' && c in kruns' && a != c
      ensures a + kruns'[a] <= c || c + kruns'[c] <= a
    {
      assert a != r ==> a in kruns;
      assert c != r ==> c in kruns;
    }
  }

  lemma FramesAdded(s: State, s': State, kruns: map<nat, nat>, r: nat, n: nat, t: Time)
    requires Inv(s) && FreeRun(s.core, r, n) && n > 0 && Marked(s.core, s'.core, r, n, t) && r !in kruns
    ensures forall boot: nat :: KernelIs(s, kruns, boot) ==> KernelIs(s', kruns[r := n], boot)
  {
    KernelBusy(s, r);
    forall i: nat
      ensures InRun(kruns[r := n], i) <==> InRun(kruns, i) || r <= i < r + n
    {
      InRunAdded(kruns, r, n, i);
    }
  }

  lemma InRunAdded(kruns: map<nat, nat>, r: nat, n: nat, i: nat)
    requires r !in kruns
    ensures InRun(kruns[r := n], i) <==> InRun(kruns, i) || r <= i < r + n
  {
    var kruns' := kruns[r := n];
    if a: nat :| a in kruns && a <= i < a + kruns[a] {
      assert a in kruns' && kruns'[a] == kruns[a];
    }
    if r <= i < r + n {
      assert r in kruns' && kruns'[r] == n;
    }
    if a: nat :| a in kruns' && a <= i < a + kruns'[a] {
      assert a != r ==> a in kruns && kruns'[a] == kruns[a];
    }
  }

  lemma RunApart(s: State, kruns: map<nat, nat>, a: nat, r: nat, n: nat, lo: nat)
    requires Inv(s) && RunsOk(s, kruns, lo) && FreeRun(s.core, r, n) && n > 0 && a in kruns
    ensures a + kruns[a] <= r || r + n <= a
  {
    var i := if a <= r then r else a;
    if i < |s.pt| {
      KernelBusy(s, i);
    }
    assert i < a + kruns[a] ==> s.core[i].isKernel;
  }

  lemma KernelBusy(s: State, i: nat)
    requires Inv(s) && i < |s.pt|
    ensures s.core[i].isKernel ==> s.core[i].inUse
  {
    assert FrameOk(s.pt[i], s.core[i]);
  }

  // ------------------------------------------------------------------- freeing

  /** pt_free_kpage: the run that starts at the given address is free again, if there is one. */
  method FreeKpage(vm: Vm, vaddr: nat, lo: nat) returns (ghost freed: Option<nat>)
    requires vm.Valid() && RunsOk(vm.St(), vm.kruns, lo)
    requires forall i: nat :: i < |vm.core| && vm.core[i].isKernel && vaddr == Kva(lo, i) ==> i in vm.kruns
    modifies vm`core, vm`pt, vm`kruns
    ensures vm.Valid() && RunsOk(vm.St(), vm.kruns, lo) && |vm.core| == |old(vm.core)|
    ensures freed.Some? ==> freed.value in old(vm.kruns) && vaddr == Kva(lo, freed.value)
    ensures freed.Some? ==> vm.kruns == old(vm.kruns) - {freed.value}
    ensures freed.Some? ==> FreeRun(vm.core, freed.value, old(vm.kruns)[freed.value])
    ensures freed == None ==> vm.St() == old(vm.St()) && vm.kruns == old(vm.kruns)
    ensures freed == None ==> forall a: nat :: a in vm.kruns ==> vaddr != Kva(lo, a)
    ensures |vm.slots| == |old(vm.slots)|
    ensures forall boot: nat :: old(KernelIs(vm.St(), vm.kruns, boot)) ==> KernelIs(vm.St(), vm.kruns, boot)
    ensures forall t: Time :: old(Stamped(vm.St(), t)) ==> Stamped(vm.St(), t)
  {
    hide TlbOk;
    hide InvX;
    hide ViewX;
    hide Stamped;
    hide RwOk;
    hide TlbOnce;
    hide KernelIs;
    ghost var s0, kruns := vm.St(), vm.kruns;
    var i := FindKernel(vm, vaddr, lo);
    if i == |vm.core| {
      return None;
    }
    var npages := vm.pt[i].npages;
    ClearRun(vm, i, npages);
    RunFreed(s0, vm.St(), vm.view, vm.rw, vm.tlb, vm.pid, vm.slipped, kruns, i, lo);
    FramesFreed(s0, vm.St(), kruns, i, lo);
    vm.kruns := kruns - {i};
    freed := Some(i);
  }

  /** The search loop of pt_free_kpage. */
  method FindKernel(vm: Vm, vaddr: nat, lo: nat) returns (i: nat)
    requires RunsOk(vm.St(), vm.kruns, lo)
    requires forall i: nat :: i < |vm.core| && vm.core[i].isKernel && vaddr == Kva(lo, i) ==> i in vm.kruns
    ensures i <= |vm.core| && (i < |vm.core| ==> i in vm.kruns && vaddr == Kva(lo, i))
    ensures i == |vm.core| ==> forall a: nat :: a in vm.kruns ==> vaddr != Kva(lo, a)
  {
    i := 0;
    while i < |vm.core| && !(vm.core[i].isKernel && vaddr == vm.pt[i].vaddr)
      invariant 0 <= i <= |vm.core|
      invariant forall j :: 0 <= j < i && vm.core[j].isKernel ==> vaddr != Kva(lo, j)
    {
      i := i + 1;
    }
  }

  ghost predicate Cleared(s: State, s': State, r: nat, m: nat) {
    && s' == s.(core := s'.core, pt := s'.pt) && |s'.core| == |s.core| == |s.pt| == |s'.pt|
    && forall i :: 0 <= i < |s.pt| ==>
         if r <= i < r + m
         then s'.pt[i] == s.pt[i].(vaddr := 0, pid := 0, npages := 0) && !s'.core[i].inUse && !s'.core[i].isKernel
         else s'.pt[i] == s.pt[i] && s'.core[i] == s.core[i]
  }

  method ClearRun(vm: Vm, r: nat, n: nat)
    requires |vm.core| == |vm.pt| && r + n <= |vm.pt|
    modifies vm`core, vm`pt
    ensures Cleared(old(vm.St()), vm.St(), r, n)
  {
    ghost var s0 := vm.St();
    var j := 0;
    while j < n
      invariant 0 <= j <= n && Cleared(s0, vm.St(), r, j)
    {
      vm.pt := vm.pt[r + j := vm.pt[r + j].(vaddr := 0, pid := 0, npages := 0)];
      vm.core := vm.core[r + j := vm.core[r + j].(inUse := false, isKernel := false)];
      j := j + 1;
    }
  }

  lemma RunFreed(s: State, s': State, view: map<Key, Page>, rw: set<Key>, tlb: seq<Tlb>, pid: nat, slipped: set<Key>,
                 kruns: map<nat, nat>, a: nat, lo: nat)
    requires Inv(s) && ViewIs(s, view) && TlbOk(tlb, s, pid, slipped) && RwOk(s, rw)
    requires RunsOk(s, kruns, lo) && a in kruns
    requires Cleared(s, s', a, kruns[a])
    ensures Inv(s') && ViewIs(s', view) && TlbOk(tlb, s', pid, slipped) && RwOk(s', rw)
    ensures RunsOk(s', kruns - {a}, lo)
    ensures FreeRun(s'.core, a, kruns[a]) && forall t: Time :: Stamped(s, t) ==> Stamped(s', t)
  {
    forall i: nat | i < |s.pt|
      ensures User(s', i) == User(s, i) && (User(s, i) ==> s'.pt[i] == s.pt[i])
      ensures !User(s, i) ==> s'.pt[i].pid == 0 && (s'.core[i].isKernel ==> s'.core[i].inUse)
    {
      assert FrameOk(s.pt[i], s.core[i]);
    }
    KernelOk(s, s', view);
    hide InvX;
    hide ViewX;
    hide TlbOk;
    RunCleared(s, s', kruns, a, lo);
  }

  lemma RunCleared(s: State, s': State, kruns: map<nat, nat>, a: nat, lo: nat)
    requires RunsOk(s, kruns, lo) && a in kruns && Cleared(s, s', a, kruns[a])
    ensures RunsOk(s', kruns - {a}, lo) && FreeRun(s'.core, a, kruns[a])
  {
  }

  lemma FramesFreed(s: State, s': State, kruns: map<nat, nat>, a: nat, lo: nat)
    requires RunsOk(s, kruns, lo) && a in kruns && Cleared(s, s', a, kruns[a])
    ensures forall boot: nat :: KernelIs(s, kruns, boot) ==> KernelIs(s', kruns - {a}, boot)
  {
    hide InRun;
    forall i: nat
      ensures InRun(kruns - {a}, i) <==> InRun(kruns, i) && !(a <= i < a + kruns[a])
    {
      hide Cleared;
      InRunLess(kruns, a, i);
    }
    hide RunsOk;
  }

  lemma InRunLess(kruns: map<nat, nat>, a: nat, i: nat)
    requires a in kruns
    requires forall c: nat :: c in kruns && c != a ==> a + kruns[a] <= c || c + kruns[c] <= a
    ensures InRun(kruns - {a}, i) <==> InRun(kruns, i) && !(a <= i < a + kruns[a])
  {
    var kruns' := kruns - {a};
    if c: nat :| c in kruns' && c <= i < c + kruns'[c] {
      assert c in kruns && kruns[c] == kruns'[c];
    }
    if c: nat :| c in kruns && c <= i < c + kruns[c] {
      assert c != a ==> c in kruns' && kruns'[c] == kruns[c];
    }
  }
}
