/** Paging as values: an inverted page table (kern/vm/pt.c), the coremap of physical
    frames (kern/vm/coremap.c), the slots of the swap file (kern/vm/swapfile.c), and
    the flat memory they stand for. */
module PagingState {

  const PAGE_SIZE: nat := 4096

  const KSEG0: nat := 0x8000_0000

  /** The kernel's address of frame i, when frame 0 is at physical address lo. */
  function Kva(lo: nat, i: nat): nat {
    KSEG0 + lo + i * PAGE_SIZE
  }

  /** The contents of a page. */
  type Page = seq<nat>

  /** A page of a process: its pid and its page address. */
  datatype Key = Key(pid: nat, va: nat)

  /** struct page_table_entry; the frame's physical address is its index. */
  datatype Entry = Entry(vaddr: nat, pid: nat, npages: nat, writeable: bool, dirty: bool)

  datatype Time = Time(secs: nat, nsecs: nat)

  /** struct coremap_entry */
  datatype Core = Core(inUse: bool, isKernel: bool, time: Time)

  /** struct swap_entry */
  datatype Slot = Slot(pid: nat, va: nat, offset: nat)

  /** Memory and swap: mem and disk hold what the frames and the swap file hold. */
  datatype State = State(pt: seq<Entry>, core: seq<Core>, mem: seq<Page>, slots: seq<Slot>, disk: seq<Page>)

  predicate Before(a: Time, b: Time) {
    a.secs < b.secs || (a.secs == b.secs && a.nsecs <= b.nsecs)
  }

  /** Frame i is in use by a process. */
  predicate User(s: State, i: nat)
    requires i < |s.core|
  {
    s.core[i].inUse && !s.core[i].isKernel
  }

  predicate Used(s: State, j: nat)
    requires j < |s.slots|
  {
    s.slots[j].va != 0
  }

  function FrameKey(s: State, i: nat): Key
    requires i < |s.pt|
  {
    Key(s.pt[i].pid, s.pt[i].vaddr)
  }

  function SlotKey(s: State, j: nat): Key
    requires j < |s.slots|
  {
    Key(s.slots[j].pid, s.slots[j].va)
  }

  predicate GoodKey(k: Key) {
    k.pid != 0 && k.va != 0 && k.va % PAGE_SIZE == 0
  }

  predicate Sizes(s: State) {
    |s.pt| == |s.core| == |s.mem| && |s.slots| == |s.disk|
  }

  /** A frame of a process names the page it holds; no other frame names a process. */
  predicate FrameOk(e: Entry, c: Core) {
    (if c.inUse && !c.isKernel then GoodKey(Key(e.pid, e.vaddr)) else e.pid == 0) && (c.isKernel ==> c.inUse)
  }

  predicate SlotOk(slot: Slot, j: nat) {
    if slot.va != 0 then GoodKey(Key(slot.pid, slot.va)) && slot.offset == j * PAGE_SIZE else slot.pid == 0
  }

  /** Frame i, other than frame x, holds page k. */
  ghost predicate InFrame(s: State, x: int, k: Key, i: nat) {
    i != x && i < |s.pt| && i < |s.core| && User(s, i) && FrameKey(s, i) == k
  }

  ghost predicate InSlot(s: State, k: Key, j: nat) {
    j < |s.slots| && Used(s, j) && SlotKey(s, j) == k
  }

  /** Everything is in order, frame x aside: each page of a process is in exactly one place. */
  ghost predicate InvX(s: State, x: int) {
    && Sizes(s)
    && (forall i: nat :: i < |s.pt| && i != x ==> FrameOk(s.pt[i], s.core[i]))
    && (forall j: nat :: j < |s.slots| ==> SlotOk(s.slots[j], j))
    && (forall k: Key, i: nat, i': nat :: InFrame(s, x, k, i) && InFrame(s, x, k, i') ==> i == i')
    && (forall k: Key, j: nat, j': nat :: InSlot(s, k, j) && InSlot(s, k, j') ==> j == j')
    && (forall k: Key, i: nat, j: nat :: !(InFrame(s, x, k, i) && InSlot(s, k, j)))
  }

  /** Page k, looked for outside frame x, has contents p. */
  ghost predicate HoldsX(s: State, x: int, k: Key, p: Page)
    requires Sizes(s)
  {
    || (exists i: nat :: InFrame(s, x, k, i) && s.mem[i] == p)
    || (exists j: nat :: InSlot(s, k, j) && s.disk[j] == p)
  }

  /** view is the flat memory the state stands for, frame x aside. */
  ghost predicate ViewX(s: State, x: int, view: map<Key, Page>)
    requires Sizes(s)
  {
    forall k: Key, p: Page :: k in view && view[k] == p <==> HoldsX(s, x, k, p)
  }

  const NONE: int := -1

  ghost predicate Inv(s: State) {
    InvX(s, NONE)
  }

  ghost predicate ViewIs(s: State, view: map<Key, Page>)
    requires Sizes(s)
  {
    ViewX(s, NONE, view)
  }

  // ---------------------------------------------------------- reading the view

  lemma FrameView(s: State, x: int, view: map<Key, Page>, i: nat)
    requires InvX(s, x) && ViewX(s, x, view) && i < |s.pt| && i != x && User(s, i)
    ensures FrameKey(s, i) in view && view[FrameKey(s, i)] == s.mem[i]
  {
    assert InFrame(s, x, FrameKey(s, i), i);
    assert HoldsX(s, x, FrameKey(s, i), s.mem[i]);
  }

  lemma SlotView(s: State, x: int, view: map<Key, Page>, j: nat)
    requires InvX(s, x) && ViewX(s, x, view) && j < |s.slots| && Used(s, j)
    ensures SlotKey(s, j) in view && view[SlotKey(s, j)] == s.disk[j]
  {
    assert InSlot(s, SlotKey(s, j), j);
    assert HoldsX(s, x, SlotKey(s, j), s.disk[j]);
  }

  /** A page that is in no frame and in no slot does not exist. */
  lemma Absent(s: State, view: map<Key, Page>, k: Key)
    requires Inv(s) && ViewIs(s, view)
    requires (forall i: nat :: !InFrame(s, NONE, k, i)) && (forall j: nat :: !InSlot(s, k, j))
    ensures k !in view
  {
    assert k in view ==> HoldsX(s, NONE, k, view[k]);
  }

  // ------------------------------------------------------------ taking a frame

  /** A free frame is given to page k; its contents are still to be filled in. */
  function TakeFree(s: State, i: nat, t: Time, e: Entry): State
    requires i < |s.pt| && i < |s.core|
  {
    s.(core := s.core[i := Core(true, false, t)], pt := s.pt[i := e])
  }

  lemma TakeFreeOk(s: State, view: map<Key, Page>, i: nat, t: Time, e: Entry)
    requires Inv(s) && ViewIs(s, view) && i < |s.pt| && !s.core[i].inUse
    ensures InvX(TakeFree(s, i, t, e), i) && ViewX(TakeFree(s, i, t, e), i, view)
  {
    var s' := TakeFree(s, i, t, e);
    forall k: Key, f: nat
      ensures InFrame(s', i, k, f) <==> InFrame(s, NONE, k, f)
    {
    }
    forall k: Key, j: nat
      ensures InSlot(s', k, j) <==> InSlot(s, k, j)
    {
    }
    SameHolds(s, NONE, s', i);
  }

  lemma SameHolds(s: State, x: int, s': State, x': int)
    requires Sizes(s) && Sizes(s') && s'.mem == s.mem && s'.disk == s.disk
    requires |s'.slots| == |s.slots| && |s'.pt| == |s.pt|
    requires forall k: Key, f: nat :: InFrame(s', x', k, f) <==> InFrame(s, x, k, f)
    requires forall k: Key, j: nat :: InSlot(s', k, j) <==> InSlot(s, k, j)
    ensures forall k: Key, p: Page :: HoldsX(s', x', k, p) <==> HoldsX(s, x, k, p)
  {
    forall k: Key, p: Page
      ensures HoldsX(s', x', k, p) <==> HoldsX(s, x, k, p)
    {
      if f: nat :| InFrame(s', x', k, f) && s'.mem[f] == p {
        assert InFrame(s, x, k, f);
      }
      if f: nat :| InFrame(s, x, k, f) && s.mem[f] == p {
        assert InFrame(s', x', k, f);
      }
    }
  }

  // ------------------------------------------------------------------ evicting

  /** swap_out of frame i to slot j, and the frame given to another page. */
  function Evict(s: State, i: nat, j: nat, t: Time, e: Entry): State
    requires i < |s.pt| && i < |s.core| && i < |s.mem| && j < |s.slots| && j < |s.disk|
  {
    State(s.pt[i := e], s.core[i := s.core[i].(time := t)], s.mem,
          s.slots[j := Slot(s.pt[i].pid, s.pt[i].vaddr, j * PAGE_SIZE)], s.disk[j := s.mem[i]])
  }

  lemma EvictPlaces(s: State, i: nat, j: nat, t: Time, e: Entry)
    requires Inv(s) && i < |s.pt| && User(s, i) && j < |s.slots| && !Used(s, j)
    ensures var s', k0 := Evict(s, i, j, t, e), FrameKey(s, i);
      && (forall k: Key, f: nat :: InFrame(s', i, k, f) <==> InFrame(s, NONE, k, f) && f != i)
      && (forall k: Key, y: nat :: InSlot(s', k, y) <==> InSlot(s, k, y) || (y == j && k == k0))
      && InFrame(s, NONE, k0, i)
  {
    assert GoodKey(FrameKey(s, i)) by {
      assert FrameOk(s.pt[i], s.core[i]);
    }
  }

  lemma EvictOk(s: State, view: map<Key, Page>, i: nat, j: nat, t: Time, e: Entry)
    requires Inv(s) && ViewIs(s, view) && i < |s.pt| && User(s, i) && j < |s.slots| && !Used(s, j)
    ensures InvX(Evict(s, i, j, t, e), i) && ViewX(Evict(s, i, j, t, e), i, view)
  {
    var s', k0 := Evict(s, i, j, t, e), FrameKey(s, i);
    EvictPlaces(s, i, j, t, e);
    assert FrameOk(s.pt[i], s.core[i]);
    hide InFrame;
    hide InSlot;
    forall k: Key, p: Page
      ensures HoldsX(s', i, k, p) <==> HoldsX(s, NONE, k, p)
    {
      EvictHolds(s, i, j, t, e, k, p);
    }
  }

  lemma EvictHolds(s: State, i: nat, j: nat, t: Time, e: Entry, k: Key, p: Page)
    requires Inv(s) && i < |s.pt| && User(s, i) && j < |s.slots| && !Used(s, j)
    ensures HoldsX(Evict(s, i, j, t, e), i, k, p) <==> HoldsX(s, NONE, k, p)
  {
    var s', k0 := Evict(s, i, j, t, e), FrameKey(s, i);
    EvictPlaces(s, i, j, t, e);
    assert !InSlot(s, k, j);
    if f: nat :| InFrame(s, NONE, k, f) && s.mem[f] == p {
      assert if f == i then InSlot(s', k, j) && s'.disk[j] == p else InFrame(s', i, k, f) && s'.mem[f] == p;
    }
    if y: nat :| InSlot(s, k, y) && s.disk[y] == p {
      assert InSlot(s', k, y) && s'.disk[y] == p;
    }
    if f: nat :| InFrame(s', i, k, f) && s'.mem[f] == p {
      assert InFrame(s, NONE, k, f) && s.mem[f] == p;
    }
    if y: nat :| InSlot(s', k, y) && s'.disk[y] == p {
      assert if y == j then InFrame(s, NONE, k, i) && s.mem[i] == p else InSlot(s, k, y) && s.disk[y] == p;
    }
  }

  /** The slot swap_find_free finds. */
  predicate LowestFree(slots: seq<Slot>, j: nat) {
    j < |slots| && slots[j].va == 0 && forall y :: 0 <= y < j ==> slots[y].va != 0
  }

  /** swap_out of frame i to slot j. */
  function SwappedOut(s: State, i: nat, j: nat): State
    requires i < |s.pt| && i < |s.mem| && j < |s.slots| && j < |s.disk|
  {
    s.(slots := s.slots[j := Slot(s.pt[i].pid, s.pt[i].vaddr, j * PAGE_SIZE)], disk := s.disk[j := s.mem[i]])
  }

  /** A page that is swapped out is still in the swap file after the next one has been if and only if its
      address is not 0: address 0 is what marks a slot as free. */
  lemma KeptUnlessZero(s: State, i: nat, j: nat, i': nat, j': nat)
    requires Sizes(s) && i < |s.pt| && i' < |s.pt| && FrameKey(s, i) != FrameKey(s, i')
    requires LowestFree(s.slots, j) && LowestFree(SwappedOut(s, i, j).slots, j')
    requires forall y: nat :: y < |s.slots| ==> SlotKey(s, y) != FrameKey(s, i)
    ensures var s' := SwappedOut(SwappedOut(s, i, j), i', j');
      (exists y: nat :: y < |s'.slots| && SlotKey(s', y) == FrameKey(s, i)) <==> s.pt[i].vaddr != 0
  {
    var s1 := SwappedOut(s, i, j);
    var s' := SwappedOut(s1, i', j');
    assert SlotKey(s1, j) == FrameKey(s, i);
    if s.pt[i].vaddr != 0 {
      assert j' != j;
      assert SlotKey(s', j) == FrameKey(s, i);
    } else {
      assert j' == j;
      assert forall y: nat :: y < |s.slots| && y != j ==> SlotKey(s', y) == SlotKey(s, y);
    }
  }

  // ------------------------------------------------------------------- filling

  /** The frame that was set aside gets the contents of a page that did not exist. */
  lemma FillOk(s: State, view: map<Key, Page>, i: nat, p: Page)
    requires InvX(s, i) && ViewX(s, i, view) && i < |s.pt| && User(s, i)
    requires GoodKey(FrameKey(s, i)) && FrameKey(s, i) !in view
    ensures var s' := s.(mem := s.mem[i := p]);
      Inv(s') && ViewIs(s', view[FrameKey(s, i) := p])
  {
    var s', k' := s.(mem := s.mem[i := p]), FrameKey(s, i);
    NotHeld(s, i, view, k');
    forall k: Key, f: nat
      ensures InFrame(s', NONE, k, f) <==> InFrame(s, i, k, f) || (f == i && k == k')
    {
    }
    forall k: Key, j: nat
      ensures InSlot(s', k, j) <==> InSlot(s, k, j)
    {
    }
    hide InFrame;
    hide InSlot;
    forall k: Key, q: Page
      ensures HoldsX(s', NONE, k, q) <==> HoldsX(s, i, k, q) || (k == k' && q == p)
    {
      FillHolds(s, i, p, k, q);
    }
    hide HoldsX;
  }

  lemma NotHeld(s: State, x: int, view: map<Key, Page>, k: Key)
    requires InvX(s, x) && ViewX(s, x, view) && k !in view
    ensures forall i: nat :: !InFrame(s, x, k, i)
    ensures forall j: nat :: !InSlot(s, k, j)
    ensures forall p: Page :: !HoldsX(s, x, k, p)
  {
    forall i: nat
      ensures !InFrame(s, x, k, i)
    {
      if InFrame(s, x, k, i) {
        FrameView(s, x, view, i);
      }
    }
    forall j: nat
      ensures !InSlot(s, k, j)
    {
      if InSlot(s, k, j) {
        SlotView(s, x, view, j);
      }
    }
  }

  lemma FillHolds(s: State, i: nat, p: Page, k: Key, q: Page)
    requires Sizes(s) && i < |s.pt| && User(s, i)
    ensures HoldsX(s.(mem := s.mem[i := p]), NONE, k, q) <==> HoldsX(s, i, k, q) || (k == FrameKey(s, i) && q == p)
  {
    var s' := s.(mem := s.mem[i := p]);
    if f: nat :| InFrame(s, i, k, f) && s.mem[f] == q {
      assert InFrame(s', NONE, k, f) && s'.mem[f] == q;
    }
    if y: nat :| InSlot(s, k, y) && s.disk[y] == q {
      assert InSlot(s', k, y) && s'.disk[y] == q;
    }
    if k == FrameKey(s, i) && q == p {
      assert InFrame(s', NONE, k, i) && s'.mem[i] == q;
    }
    if f: nat :| InFrame(s', NONE, k, f) && s'.mem[f] == q {
      assert f != i ==> InFrame(s, i, k, f) && s.mem[f] == q;
    }
    if y: nat :| InSlot(s', k, y) && s'.disk[y] == q {
      assert InSlot(s, k, y) && s.disk[y] == q;
    }
  }

  // --------------------------------------------------------------- swapping in

  /** The frame that was set aside for the page of slot y gets its contents, and the slot is freed. */
  function Restore(s: State, i: nat, y: nat): State
    requires i < |s.mem| && y < |s.slots| && y < |s.disk|
  {
    s.(mem := s.mem[i := s.disk[y]], slots := s.slots[y := Slot(0, 0, 0)])
  }

  lemma RestoreOk(s: State, view: map<Key, Page>, i: nat, y: nat)
    requires InvX(s, i) && ViewX(s, i, view) && i < |s.pt| && User(s, i)
    requires y < |s.slots| && Used(s, y) && FrameKey(s, i) == SlotKey(s, y)
    ensures Inv(Restore(s, i, y)) && ViewIs(Restore(s, i, y), view)
  {
    var s', k' := Restore(s, i, y), FrameKey(s, i);
    assert SlotOk(s.slots[y], y);
    assert InSlot(s, k', y);
    forall k: Key, f: nat
      ensures InFrame(s', NONE, k, f) <==> InFrame(s, i, k, f) || (f == i && k == k')
    {
    }
    forall k: Key, j: nat
      ensures InSlot(s', k, j) <==> InSlot(s, k, j) && j != y
    {
    }
    hide InFrame;
    hide InSlot;
    forall k: Key, q: Page
      ensures HoldsX(s', NONE, k, q) <==> HoldsX(s, i, k, q)
    {
      RestoreHolds(s, i, y, k, q);
    }
  }

  lemma RestoreHolds(s: State, i: nat, y: nat, k: Key, q: Page)
    requires Sizes(s) && i < |s.pt| && User(s, i) && y < |s.slots| && Used(s, y) && FrameKey(s, i) == SlotKey(s, y)
    ensures HoldsX(Restore(s, i, y), NONE, k, q) <==> HoldsX(s, i, k, q)
  {
    var s', k' := Restore(s, i, y), FrameKey(s, i);
    assert InSlot(s, k', y);
    assert InFrame(s', NONE, k', i);
    if f: nat :| InFrame(s, i, k, f) && s.mem[f] == q {
      assert InFrame(s', NONE, k, f) && s'.mem[f] == q;
    }
    if j: nat :| InSlot(s, k, j) && s.disk[j] == q {
      assert if j == y then s'.mem[i] == q && InFrame(s', NONE, k, i) else InSlot(s', k, j) && s'.disk[j] == q;
    }
    if f: nat :| InFrame(s', NONE, k, f) && s'.mem[f] == q {
      assert if f == i then InSlot(s, k, y) && s.disk[y] == q else InFrame(s, i, k, f) && s.mem[f] == q;
    }
    if j: nat :| InSlot(s', k, j) && s'.disk[j] == q {
      assert InSlot(s, k, j) && s.disk[j] == q;
    }
  }

  // ---------------------------------------------------- storing, kernel frames

  /** A process writes one of its pages. */
  lemma StoreOk(s: State, view: map<Key, Page>, i: nat, p: Page)
    requires Inv(s) && ViewIs(s, view) && i < |s.pt| && User(s, i)
    ensures var s' := s.(mem := s.mem[i := p]);
      FrameKey(s, i) in view && Inv(s') && ViewIs(s', view[FrameKey(s, i) := p])
  {
    FrameView(s, NONE, view, i);
    SetAside(s, view, i);
    FillOk(s, view - {FrameKey(s, i)}, i, p);
    assert view[FrameKey(s, i) := p] == (view - {FrameKey(s, i)})[FrameKey(s, i) := p];
  }

  /** Leaving a frame out of account takes its page out of the view. */
  lemma SetAside(s: State, view: map<Key, Page>, i: nat)
    requires Inv(s) && ViewIs(s, view) && i < |s.pt| && User(s, i)
    ensures InvX(s, i) && ViewX(s, i, view - {FrameKey(s, i)}) && GoodKey(FrameKey(s, i))
  {
    assert FrameOk(s.pt[i], s.core[i]);
    var k' := FrameKey(s, i);
    assert InFrame(s, NONE, k', i);
    forall k: Key, f: nat
      ensures InFrame(s, i, k, f) <==> InFrame(s, NONE, k, f) && f != i
    {
    }
    forall k: Key, q: Page
      ensures HoldsX(s, i, k, q) <==> HoldsX(s, NONE, k, q) && k != k'
    {
      if f: nat :| InFrame(s, NONE, k, f) && s.mem[f] == q && k != k' {
        assert InFrame(s, i, k, f);
      }
      if f: nat :| InFrame(s, i, k, f) && s.mem[f] == q {
        assert InFrame(s, NONE, k, f);
      }
    }
  }

  /** Frames that hold no page of a process change hands. */
  lemma KernelOk(s: State, s': State, view: map<Key, Page>)
    requires Inv(s) && ViewIs(s, view) && Sizes(s') && |s'.pt| == |s.pt| && s'.slots == s.slots && s'.disk == s.disk
    requires forall i: nat :: i < |s.pt| && User(s, i) ==> User(s', i) && s'.pt[i] == s.pt[i] && s'.mem[i] == s.mem[i]
    requires forall i: nat :: i < |s.pt| && !User(s, i) ==>
      !User(s', i) && s'.pt[i].pid == 0 && (s'.core[i].isKernel ==> s'.core[i].inUse)
    ensures Inv(s') && ViewIs(s', view)
  {
    forall k: Key, f: nat
      ensures InFrame(s', NONE, k, f) <==> InFrame(s, NONE, k, f)
    {
    }
    forall k: Key, j: nat
      ensures InSlot(s', k, j) <==> InSlot(s, k, j)
    {
    }
    forall k: Key, q: Page
      ensures HoldsX(s', NONE, k, q) <==> HoldsX(s, NONE, k, q)
    {
      if f: nat :| InFrame(s, NONE, k, f) && s.mem[f] == q {
        assert InFrame(s', NONE, k, f) && s'.mem[f] == q;
      }
      if f: nat :| InFrame(s', NONE, k, f) && s'.mem[f] == q {
        assert InFrame(s, NONE, k, f) && s.mem[f] == q;
      }
    }
  }

  /** The frames of the kernel are as they were, and it has no others. */
  ghost predicate KernelKept(s: State, s': State) {
    && |s'.pt| == |s.pt| && |s'.core| == |s.core| && |s.pt| == |s.core| && |s'.slots| == |s.slots|
    && forall i: nat :: i < |s.core| ==>
         if s.core[i].isKernel then s'.core[i] == s.core[i] && s'.pt[i] == s.pt[i] else !s'.core[i].isKernel
  }

  lemma KernelTrans(s: State, s': State, s'': State)
    requires KernelKept(s, s') && KernelKept(s', s'')
    ensures KernelKept(s, s'')
  {
  }
}
