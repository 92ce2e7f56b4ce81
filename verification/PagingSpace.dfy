/** Where the pages are: every frame and every slot of the swap file holds a page, belongs to the kernel, or is
    free, and no page is in two of them. */
module PagingSpace {
  import opened Paging
  import opened PagingKernel
  import opened PagingState
  import opened Sums

  ghost function UserFrames(s: State): set<nat> {
    set i | i in Range(0, |s.core|) && User(s, i)
  }

  ghost function KernelFrames(s: State): set<nat> {
    set i | i in Range(0, |s.core|) && s.core[i].isKernel
  }

  ghost function FreeFrames(s: State): set<nat> {
    set i | i in Range(0, |s.core|) && !s.core[i].inUse
  }

  ghost function UsedSlots(s: State): set<nat> {
    set j | j in Range(0, |s.slots|) && Used(s, j)
  }

  ghost function FreeSlots(s: State): set<nat> {
    set j | j in Range(0, |s.slots|) && !Used(s, j)
  }

  lemma FrameCount(s: State)
    requires Inv(s)
    ensures |UserFrames(s)| + |KernelFrames(s)| + |FreeFrames(s)| == |s.core|
  {
    forall i: nat | i < |s.core|
      ensures s.core[i].isKernel ==> s.core[i].inUse
    {
      KernelBusy(s, i);
    }
    var all := Range(0, |s.core|);
    CardSplit(UserFrames(s), all);
    CardSplit(KernelFrames(s), all - UserFrames(s));
    assert all - UserFrames(s) - KernelFrames(s) == FreeFrames(s);
  }

  lemma SlotCount(s: State)
    ensures |UsedSlots(s)| + |FreeSlots(s)| == |s.slots|
  {
    CardSplit(UsedSlots(s), Range(0, |s.slots|));
    assert Range(0, |s.slots|) - UsedSlots(s) == FreeSlots(s);
  }

  // ------------------------------------------------------------- kernel frames

  ghost function Covered(kruns: map<nat, nat>, frames: nat): set<nat> {
    set i | i in Range(0, frames) && InRun(kruns, i)
  }

  ghost predicate Apart(kruns: map<nat, nat>, frames: nat) {
    && (forall a: nat :: a in kruns ==> a + kruns[a] <= frames)
    && (forall a: nat, c: nat :: a in kruns && c in kruns && a != c ==> a + kruns[a] <= c || c + kruns[c] <= a)
  }

  /** Runs that do not overlap cover as many frames as they have together. */
  lemma {:induction false} RunCount(kruns: map<nat, nat>, frames: nat)
    requires Apart(kruns, frames)
    ensures |Covered(kruns, frames)| == Sum(kruns)
    decreases |kruns|
  {
    if kruns == map[] {
      assert Covered(kruns, frames) == {};
    } else {
      var a :| a in kruns;
      var kruns' := kruns - {a};
      SumLess(kruns, a);
      RunCount(kruns', frames);
      CoveredLess(kruns, frames, a);
      CardSplit(Range(a, kruns[a]), Covered(kruns, frames));
    }
  }

  lemma CoveredLess(kruns: map<nat, nat>, frames: nat, a: nat)
    requires Apart(kruns, frames) && a in kruns
    ensures Range(a, kruns[a]) <= Covered(kruns, frames)
    ensures Covered(kruns, frames) - Range(a, kruns[a]) == Covered(kruns - {a}, frames)
  {
    hide InRun;
    hide Range;
    forall i: nat
      ensures InRun(kruns - {a}, i) <==> InRun(kruns, i) && !(a <= i < a + kruns[a])
    {
      InRunLess(kruns, a, i);
    }
    forall i: nat | a <= i < a + kruns[a]
      ensures InRun(kruns, i)
    {
      InRunAt(kruns, a, i);
    }
  }

  lemma InRunAt(kruns: map<nat, nat>, a: nat, i: nat)
    requires a in kruns && a <= i < a + kruns[a]
    ensures InRun(kruns, i)
  {
  }

  lemma BootApart(kruns: map<nat, nat>, boot: nat)
    requires forall a: nat :: a in kruns ==> boot <= a
    ensures forall i: nat :: i < boot ==> !InRun(kruns, i)
  {
  }

  lemma KernelCount(s: State, kruns: map<nat, nat>, boot: nat, lo: nat)
    requires RunsOk(s, kruns, lo) && KernelIs(s, kruns, boot)
    ensures |KernelFrames(s)| == boot + Sum(kruns)
  {
    hide InRun;
    hide Range;
    RunCount(kruns, |s.core|);
    BootApart(kruns, boot);
    CardSplit(Range(0, boot), KernelFrames(s));
    assert KernelFrames(s) - Range(0, boot) == Covered(kruns, |s.core|);
  }

  // -------------------------------------------------------------------- pages

  ghost function InFrames(s: State): set<Key>
    requires |s.pt| == |s.core|
  {
    set i | i in UserFrames(s) :: FrameKey(s, i)
  }

  ghost function InSlots(s: State): set<Key> {
    set j | j in UsedSlots(s) :: SlotKey(s, j)
  }

  lemma FramePages(s: State)
    requires Inv(s)
    ensures |InFrames(s)| == |UserFrames(s)|
  {
    var m := map i | i in UserFrames(s) :: FrameKey(s, i);
    forall i, i' | i in m && i' in m && m[i] == m[i']
      ensures i == i'
    {
      assert InFrame(s, NONE, m[i], i) && InFrame(s, NONE, m[i], i');
    }
    assert m.Keys == UserFrames(s) && InFrames(s) == m.Values;
    OneToOne(m);
  }

  lemma SlotPages(s: State)
    requires Inv(s)
    ensures |InSlots(s)| == |UsedSlots(s)|
  {
    var m := map j | j in UsedSlots(s) :: SlotKey(s, j);
    forall j, j' | j in m && j' in m && m[j] == m[j']
      ensures j == j'
    {
      assert InSlot(s, m[j], j) && InSlot(s, m[j], j');
    }
    assert m.Keys == UsedSlots(s) && InSlots(s) == m.Values;
    OneToOne(m);
  }

  lemma PagesApart(s: State, view: map<Key, Page>)
    requires Inv(s) && ViewIs(s, view)
    ensures InFrames(s) !! InSlots(s) && view.Keys == InFrames(s) + InSlots(s)
  {
    forall k: Key
      ensures k in InFrames(s) <==> exists i: nat :: InFrame(s, NONE, k, i)
      ensures k in InSlots(s) <==> exists j: nat :: InSlot(s, k, j)
      ensures k in view <==> (exists i: nat :: InFrame(s, NONE, k, i)) || (exists j: nat :: InSlot(s, k, j))
    {
      InPlaces(s, k);
      Present(s, view, k);
    }
    hide InFrame;
    hide InSlot;
    hide InFrames;
    hide InSlots;
    hide ViewX;
  }

  lemma InPlaces(s: State, k: Key)
    requires |s.pt| == |s.core|
    ensures k in InFrames(s) <==> exists i: nat :: InFrame(s, NONE, k, i)
    ensures k in InSlots(s) <==> exists j: nat :: InSlot(s, k, j)
  {
    hide Range;
    if i: nat :| InFrame(s, NONE, k, i) {
      assert i in UserFrames(s);
    }
    if j: nat :| InSlot(s, k, j) {
      assert j in UsedSlots(s);
    }
    if k in InFrames(s) {
      var i :| i in UserFrames(s) && FrameKey(s, i) == k;
      assert InFrame(s, NONE, k, i);
    }
    if k in InSlots(s) {
      var j :| j in UsedSlots(s) && SlotKey(s, j) == k;
      assert InSlot(s, k, j);
    }
  }

  lemma Present(s: State, view: map<Key, Page>, k: Key)
    requires Inv(s) && ViewIs(s, view)
    ensures k in view <==> (exists i: nat :: InFrame(s, NONE, k, i)) || (exists j: nat :: InSlot(s, k, j))
  {
    if k in view {
      assert HoldsX(s, NONE, k, view[k]);
    } else {
      NotHeld(s, NONE, view, k);
    }
  }

  /** Frames and slots are neither lost nor shared: the pages that exist, the kernel's frames, the free frames
      and the free slots make up the whole machine. */
  lemma Conservation(s: State, view: map<Key, Page>, kruns: map<nat, nat>, boot: nat, lo: nat)
    requires Inv(s) && ViewIs(s, view) && RunsOk(s, kruns, lo) && KernelIs(s, kruns, boot)
    ensures |view| + boot + Sum(kruns) + |FreeFrames(s)| + |FreeSlots(s)| == |s.core| + |s.slots|
  {
    FrameCount(s);
    SlotCount(s);
    KernelCount(s, kruns, boot, lo);
    FramePages(s);
    SlotPages(s);
    PagesApart(s, view);
    assert |view| == |view.Keys|;
  }

  /** There is no place for another page if and only if pages and kernel frames fill the machine. */
  lemma FullIff(s: State, view: map<Key, Page>, kruns: map<nat, nat>, boot: nat, lo: nat)
    requires Inv(s) && ViewIs(s, view) && RunsOk(s, kruns, lo) && KernelIs(s, kruns, boot)
    ensures NoPlace(s) <==> |view| + boot + Sum(kruns) == |s.core| + |s.slots|
  {
    hide RunsOk;
    hide KernelIs;
    hide InvX;
    hide ViewX;
    hide Range;
    Conservation(s, view, kruns, boot, lo);
    NoneFree(s);
  }

  lemma NoneFree(s: State)
    ensures NoPlace(s) <==> |FreeFrames(s)| == 0 && |FreeSlots(s)| == 0
  {
    hide Range;
    if NoPlace(s) {
      assert FreeFrames(s) == {} && FreeSlots(s) == {};
    } else if i :| 0 <= i < |s.core| && !s.core[i].inUse {
      assert i in FreeFrames(s);
    } else {
      var j :| 0 <= j < |s.slots| && s.slots[j].va == 0;
      assert j in FreeSlots(s);
    }
  }

  /** No frame is left to the processes if and only if the kernel's runs fill memory. */
  lemma AllKernelIff(s: State, kruns: map<nat, nat>, boot: nat, lo: nat)
    requires RunsOk(s, kruns, lo) && KernelIs(s, kruns, boot)
    ensures (forall i :: 0 <= i < |s.core| ==> s.core[i].isKernel) <==> boot + Sum(kruns) == |s.core|
  {
    hide RunsOk;
    hide KernelIs;
    hide Range;
    KernelCount(s, kruns, boot, lo);
    var all := Range(0, |s.core|);
    CardSplit(KernelFrames(s), all);
    if forall i :: 0 <= i < |s.core| ==> s.core[i].isKernel {
      assert all - KernelFrames(s) == {};
    } else {
      var i :| 0 <= i < |s.core| && !s.core[i].isKernel;
      assert i in all - KernelFrames(s);
    }
  }
}
