/** The kernel heap on top of the page allocator: kmalloc and kfree (kern/lib/kheap.c)
    get their pages from alloc_kpages and return them to free_kpages (kern/vm/pt.c). */
module Kmem {
  import opened Options
  import S = KheapState
  import U = KheapUpdate
  import T = KheapSteps
  import H = Kheap
  import P = PagingState
  import V = Paging
  import K = PagingKernel

  /** The heap holds exactly the runs of frames the page allocator has given out, at the kernel's addresses. */
  ghost predicate SameRuns(held: map<nat, nat>, kruns: map<nat, nat>, lo: nat) {
    && (forall a: nat :: a in kruns ==> P.Kva(lo, a) in held && held[P.Kva(lo, a)] == kruns[a])
    && (forall p: nat :: p in held ==> exists a: nat :: a in kruns && p == P.Kva(lo, a))
  }

  /** Both in order, and memory reaches as far as the last frame. */
  ghost predicate Joined(heap: H.KernelHeap, vm: V.Vm, lo: nat)
    reads heap, vm
  {
    && heap.Valid() && vm.Valid() && K.RunsOk(vm.St(), vm.kruns, lo)
    && lo % P.PAGE_SIZE == 0 && P.Kva(lo, |vm.core|) <= 4 * |heap.ram|
    && SameRuns(heap.held, vm.kruns, lo)
  }

  /** A run that is apart from every run given out is apart from every page the heap holds. */
  lemma RunUnheld(held: map<nat, nat>, kruns: map<nat, nat>, lo: nat, r: nat, n: nat)
    requires SameRuns(held, kruns, lo) && lo % P.PAGE_SIZE == 0 && n > 0
    requires forall a: nat :: a in kruns ==> a + kruns[a] <= r || r + n <= a
    ensures U.Unheld(held, P.Kva(lo, r), n)
  {
    forall p: nat | p in held
      ensures S.RunsApart(p, held[p], P.Kva(lo, r), n)
    {
      var a: nat :| a in kruns && p == P.Kva(lo, a);
    }
  }

  lemma RunJoins(held: map<nat, nat>, kruns: map<nat, nat>, lo: nat, r: nat, n: nat)
    requires SameRuns(held, kruns, lo)
    ensures SameRuns(held[P.Kva(lo, r) := n], kruns[r := n], lo)
  {
    var held', kruns' := held[P.Kva(lo, r) := n], kruns[r := n];
    forall p: nat | p in held'
      ensures exists a: nat :: a in kruns' && p == P.Kva(lo, a)
    {
      if p in held {
        var a: nat :| a in kruns && p == P.Kva(lo, a);
        assert a in kruns';
      } else {
        assert r in kruns';
      }
    }
  }

  lemma RunLeaves(held: map<nat, nat>, kruns: map<nat, nat>, lo: nat, r: nat)
    requires SameRuns(held, kruns, lo)
    ensures SameRuns(held - {P.Kva(lo, r)}, kruns - {r}, lo)
  {
    var held', kruns' := held - {P.Kva(lo, r)}, kruns - {r};
    forall p: nat | p in held'
      ensures exists a: nat :: a in kruns' && p == P.Kva(lo, a)
    {
      var a: nat :| a in kruns && p == P.Kva(lo, a);
      assert a in kruns';
    }
  }

  /** At boot the heap holds nothing and no run has been given out. */
  method Start(frames: nat, boot: nat, lo: nat, pid: nat, ram: seq<nat>) returns (heap: H.KernelHeap, vm: V.Vm)
    requires boot <= frames && pid != 0 && lo % P.PAGE_SIZE == 0 && P.Kva(lo, frames) <= 4 * |ram|
    ensures Joined(heap, vm, lo) && heap.live == map[] && vm.kruns == map[] && vm.view == map[]
  {
    hide S.HeapOk;
    hide U.LiveIs;
    hide U.HeldIs;
    heap := new H.KernelHeap(ram);
    vm := new V.Vm(frames, boot, lo, pid);
    K.RunsAtBoot(vm.St(), lo, boot);
  }

  /** alloc_kpages as the heap sees it: an address, 0 for none. wild is what an index past the table leads to. */
  method GetPages(vm: V.Vm, n: nat, lo: nat, now: P.Time, junk: int, wild: nat) returns (page: nat, ghost r: int)
    requires vm.Valid() && K.RunsOk(vm.St(), vm.kruns, lo)
    modifies vm`core, vm`pt, vm`kruns
    ensures vm.Valid() && K.RunsOk(vm.St(), vm.kruns, lo) && |vm.core| == |old(vm.core)|
    ensures n == 0 || page == 0 ==> vm.St() == old(vm.St()) && vm.kruns == old(vm.kruns)
    ensures n > 0 && page == 0 ==> forall st: nat :: !K.FreeRun(vm.core, st, n)
    ensures n > 0 && page != 0 ==> r >= 0 && page == P.Kva(lo, r) && r + n <= |vm.core|
    ensures n > 0 && page != 0 ==> r !in old(vm.kruns) && vm.kruns == old(vm.kruns)[r := n]
    ensures n > 0 && page != 0 ==> forall a: nat :: a in old(vm.kruns) ==> a + old(vm.kruns)[a] <= r || r + n <= a
    ensures n == 0 && !V.AllUsed(vm.core) ==> 0 <= r < |vm.core| && !vm.core[r].inUse && page == P.Kva(lo, r)
    ensures page == if r == -1 then 0 else if 0 <= r < |vm.pt| then P.Kva(lo, r) else wild
  {
    hide K.RunsOk;
    hide V.TlbOk;
    hide V.TlbOnce;
    hide V.RwOk;
    hide P.InvX;
    hide P.ViewX;
    ghost var s0 := vm.St();
    V.SizesOf(s0);
    var i := K.AllocKpages(vm, n, lo, now, junk);
    V.SizesOf(vm.St());
    r := i;
    if i == -1 {
      page := 0;
    } else if 0 <= i < |vm.pt| {
      page := P.Kva(lo, i);
    } else {
      page := wild;
    }
  }

  /** kmalloc; given is the number of bytes that belong to the caller from then on. */
  method Kmalloc(heap: H.KernelHeap, vm: V.Vm, sz: nat, lo: nat, now: P.Time, junk: int, wild: nat)
    returns (ptr: nat, ghost given: nat)
    requires Joined(heap, vm, lo) && sz < 0x1_0000_0000
    modifies heap, vm`core, vm`pt, vm`kruns
    ensures Joined(heap, vm, lo) && U.SameIn(old(heap.ram), heap.ram, old(heap.live))
    ensures heap.live == if given > 0 then old(heap.live)[ptr := given] else old(heap.live)
    ensures given > 0 ==> ptr != 0 && ptr !in old(heap.live)
    ensures ptr != 0 ==> (sz <= given <==> sz + P.PAGE_SIZE - 1 < 0x1_0000_0000)
    ensures ptr == 0 ==> vm.kruns == old(vm.kruns)
    ensures ptr == 0 && T.Asked(sz) > 0 ==>
      old(T.AllInUse(heap.inuse)) || forall st: nat :: !K.FreeRun(vm.core, st, T.Asked(sz))
    ensures ptr != 0 && given == 0 ==> T.Asked(sz) == 0
    ensures T.Asked(sz) == 0 ==> given == 0 && vm.St() == old(vm.St()) && vm.kruns == old(vm.kruns)
    ensures T.Asked(sz) == 0 && !V.AllUsed(vm.core) ==>
      exists r: nat :: r < |vm.core| && !vm.core[r].inUse && ptr == P.Kva(lo, r)
  {
    hide K.RunsOk;
    hide V.TlbOk;
    hide V.TlbOnce;
    hide V.RwOk;
    hide P.InvX;
    hide P.ViewX;
    hide T.AllInUse;
    hide T.NoRoom;
    hide S.HeapOk;
    hide U.LiveIs;
    hide U.HeldIs;
    hide U.Unheld;
    hide U.SameIn;
    hide H.Fits;
    hide SameRuns;
    ghost var kruns, held, n := vm.kruns, heap.held, T.Asked(sz);
    var need: bool := true;
    ghost var k: nat;
    if sz < S.LARGEST_SUBPAGE_SIZE {
      need, k := heap.NeedsPage(sz);
    }
    var page: nat, used: bool := 0, false;
    ghost var r: int := 0;
    if need {
      page, r := GetPages(vm, if sz < S.LARGEST_SUBPAGE_SIZE then 1 else T.PagesFor(sz), lo, now, junk, wild);
      if page != 0 && n > 0 {
        RunUnheld(held, kruns, lo, r, n);
        RunJoins(held, kruns, lo, r, n);
      }
    }
    ptr, used, given := heap.Kmalloc(sz, page);
    if sz < S.LARGEST_SUBPAGE_SIZE {
      forall k': nat | H.Fits(sz, k')
        ensures k' == k
      {
        H.FitsOnce(sz, k, k');
      }
    }
  }

  /** kfree */
  method Kfree(heap: H.KernelHeap, vm: V.Vm, ptr: nat, lo: nat)
    requires Joined(heap, vm, lo) && (ptr == 0 || ptr in heap.live)
    modifies heap, vm`core, vm`pt, vm`kruns
    ensures Joined(heap, vm, lo) && U.SameIn(old(heap.ram), heap.ram, heap.live)
    ensures heap.live == old(heap.live) - {ptr}
  {
    hide K.RunsOk;
    hide V.TlbOk;
    hide V.TlbOnce;
    hide V.RwOk;
    hide P.InvX;
    hide P.ViewX;
    hide S.HeapOk;
    hide U.LiveIs;
    hide U.HeldIs;
    ghost var held, kruns := heap.held, vm.kruns;
    var freed := heap.Kfree(ptr);
    if freed != 0 {
      ghost var a: nat :| a in kruns && freed == P.Kva(lo, a);
      RunLeaves(held, kruns, lo, a);
      ghost var gone := K.FreeKpage(vm, freed, lo);
      assert gone == Some(a);
    }
  }

  /** Once every piece has been freed, every frame is back with the page allocator. */
  lemma AllReturned(heap: H.KernelHeap, vm: V.Vm, lo: nat)
    requires Joined(heap, vm, lo) && heap.live == map[]
    ensures vm.kruns == map[]
  {
    hide K.RunsOk;
    hide S.HeapOk;
    hide U.LiveIs;
    hide U.HeldIs;
    heap.Drained();
    assert forall a: nat :: a !in vm.kruns;
  }

  /** Just below 2^32 kmalloc answers with the address of a frame that stays free. */
  method WrapsToFreeMemory(heap: H.KernelHeap, vm: V.Vm, lo: nat, now: P.Time, junk: int, wild: nat) returns (ptr: nat)
    requires Joined(heap, vm, lo) && !V.AllUsed(vm.core)
    modifies heap, vm`core, vm`pt, vm`kruns
    ensures Joined(heap, vm, lo) && ptr != 0 && heap.live == old(heap.live) && vm.kruns == old(vm.kruns)
    ensures exists r: nat :: r < |vm.core| && !vm.core[r].inUse && ptr == P.Kva(lo, r)
  {
    hide Joined;
    T.WrapsAround();
    ghost var given;
    ptr, given := Kmalloc(heap, vm, 0xffff_f001, lo, now, junk, wild);
  }
}
