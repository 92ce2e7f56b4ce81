/** The kernel heap (kern/lib/kheap.c) as values: pages cut into equal blocks,
    free lists threaded through the pages, page records on two linked lists and
    in a bitmap. */
module KheapState {
  import opened Bits

  const PAGE_SIZE: nat := 4096
  const NPAGEREFS: nat := 256
  const NSIZES: nat := 8
  const INVALID_OFFSET: nat := 0xffff
  const LARGEST_SUBPAGE_SIZE: nat := 2048

  /** The null pointer of a list of page records. */
  const NIL: int := -1

  // ------------------------------------------------------ blocks of a page

  /** sizes[k] */
  function Size(k: nat): (s: nat)
    requires k < NSIZES
    ensures 16 <= s <= 2048
  {
    if k == 0 then 16 else if k == 1 then 32 else if k == 2 then 64 else if k == 3 then 128
    else if k == 4 then 256 else if k == 5 then 512 else if k == 6 then 1024 else 2048
  }

  /** PAGE_SIZE / sizes[k] */
  function Blocks(k: nat): (n: nat)
    requires k < NSIZES
    ensures 2 <= n <= 256
  {
    if k == 0 then 256 else if k == 1 then 128 else if k == 2 then 64 else if k == 3 then 32
    else if k == 4 then 16 else if k == 5 then 8 else if k == 6 then 4 else 2
  }

  /** The offset in its page of block n of size class k. */
  function Off(k: nat, n: nat): nat
    requires k < NSIZES
  {
    if k == 0 then 16 * n else if k == 1 then 32 * n else if k == 2 then 64 * n else if k == 3 then 128 * n
    else if k == 4 then 256 * n else if k == 5 then 512 * n else if k == 6 then 1024 * n else 2048 * n
  }

  lemma OffsetFits(k: nat, n: nat)
    requires k < NSIZES && n < Blocks(k)
    ensures Off(k, n) + Size(k) <= PAGE_SIZE && Off(k, n) % 4 == 0
  {
  }

  lemma OffsetsApart(k: nat, m: nat, n: nat)
    requires k < NSIZES
    ensures m < n ==> Off(k, m) + Size(k) <= Off(k, n)
    ensures Off(k, m) == Off(k, n) ==> m == n
  {
  }

  lemma BlockOffset(k: nat, n: nat)
    requires k < NSIZES && n < Blocks(k)
    ensures Off(k, n) % Size(k) == 0
  {
  }

  lemma SizesMultiply(k: nat)
    requires k < NSIZES
    ensures Off(k, Blocks(k)) == PAGE_SIZE && Blocks(k) == PAGE_SIZE / Size(k)
  {
  }

  // --------------------------------------------------------- page records

  /** struct pageref: pageaddr_and_blocktype is kept packed. */
  datatype PageRef = PageRef(nextSame: int, nextAll: int, pab: nat, freeOff: nat, nfree: nat)

  /** PR_PAGEADDR */
  function Page(pr: PageRef): nat {
    pr.pab / PAGE_SIZE * PAGE_SIZE
  }

  /** PR_BLOCKTYPE */
  function Blk(pr: PageRef): nat {
    pr.pab % PAGE_SIZE
  }

  lemma SamePab(pr: PageRef, pr': PageRef)
    requires pr'.pab == pr.pab
    ensures Page(pr') == Page(pr) && Blk(pr') == Blk(pr)
  {
  }

  function Mkpab(page: nat, blk: nat): nat {
    page / PAGE_SIZE * PAGE_SIZE + blk % PAGE_SIZE
  }

  function Next(pr: PageRef, same: bool): int {
    if same then pr.nextSame else pr.nextAll
  }

  /** list is what following the links from base visits. */
  ghost predicate Chain(prs: seq<PageRef>, same: bool, base: int, list: seq<nat>) {
    && (forall k: nat :: k < |list| ==> list[k] < |prs|)
    && base == Head(list)
    && (forall k: nat :: k < |list| ==> Next(prs[list[k]], same) == Head(list[k + 1..]))
  }

  lemma ChainStart(prs: seq<PageRef>, same: bool, base: int, list: seq<nat>)
    requires Chain(prs, same, base, list)
    ensures base == (if list == [] then NIL else list[0]) && forall k: nat :: k < |list| ==> list[k] < |prs|
  {
  }

  /** One step along a list. */
  lemma ChainAt(prs: seq<PageRef>, same: bool, base: int, list: seq<nat>, k: nat)
    requires Chain(prs, same, base, list) && k < |list|
    ensures base == list[0] && list[k] < |prs|
    ensures Next(prs[list[k]], same) == if k + 1 < |list| then list[k + 1] else NIL
  {
    assert Next(prs[list[k]], same) == Head(list[k + 1..]);
  }

  function Head(list: seq<nat>): int {
    if list == [] then NIL else list[0]
  }

  ghost predicate Distinct(list: seq<nat>) {
    forall i: nat, j: nat :: i < |list| && j < |list| && list[i] == list[j] ==> i == j
  }

  lemma DistinctCons(n: nat, list: seq<nat>)
    requires Distinct(list) && n !in list
    ensures Distinct([n] + list)
  {
  }

  /** list without the element at position k. */
  function Without(list: seq<nat>, k: nat): seq<nat>
    requires k < |list|
  {
    list[..k] + list[k + 1..]
  }

  lemma DistinctWithout(list: seq<nat>, k: nat)
    requires Distinct(list) && k < |list|
    ensures Distinct(Without(list, k))
    ensures forall x :: x in Without(list, k) <==> x in list && x != list[k]
  {
    var r := Without(list, k);
    forall x | x in list && x != list[k]
      ensures x in r
    {
      var j :| 0 <= j < |list| && list[j] == x;
      assert r[if j < k then j else j - 1] == x;
    }
  }

  lemma ChainKept(prs: seq<PageRef>, prs': seq<PageRef>, same: bool, base: int, list: seq<nat>)
    requires Chain(prs, same, base, list) && |prs'| == |prs|
    requires forall i: nat :: i < |prs| && i in list ==> Next(prs'[i], same) == Next(prs[i], same)
    ensures Chain(prs', same, base, list)
  {
    assert forall k: nat :: k < |list| ==> list[k] in list;
  }

  /** A record linked in front. */
  lemma ChainCons(prs: seq<PageRef>, same: bool, base: int, list: seq<nat>, i: nat)
    requires Chain(prs, same, base, list) && i < |prs| && Next(prs[i], same) == base
    ensures Chain(prs, same, i, [i] + list)
  {
    var more := [i] + list;
    forall k: nat | k < |more|
      ensures Next(prs[more[k]], same) == Head(more[k + 1..])
    {
      assert more[k + 1..] == list[k..];
      assert k > 0 ==> list[k - 1 + 1..] == list[k..];
    }
  }

  /** The record at position k spliced out. */
  lemma ChainSplice(prs: seq<PageRef>, prs': seq<PageRef>, same: bool, base: int, list: seq<nat>, k: nat)
    requires Chain(prs, same, base, list) && Distinct(list) && k < |list| && |prs'| == |prs|
    requires forall i: nat :: i < |prs| ==>
      Next(prs'[i], same) == if k > 0 && i == list[k - 1] then Next(prs[list[k]], same) else Next(prs[i], same)
    ensures Chain(prs', same, if k == 0 then Next(prs[list[0]], same) else base, Without(list, k))
  {
    var r := Without(list, k);
    forall j: nat | j < |r|
      ensures Next(prs'[r[j]], same) == Head(r[j + 1..])
    {
      WithoutAt(list, k, j);
      var i := if j < k then j else j + 1;
      assert Next(prs[list[i]], same) == Head(list[i + 1..]);
      assert Next(prs[list[k]], same) == Head(list[k + 1..]);
    }
    assert r != [] ==> r[0] == list[if k == 0 then 1 else 0];
  }

  /** What follows position j of a list with one element spliced out. */
  lemma WithoutAt(list: seq<nat>, k: nat, j: nat)
    requires k < |list| && j < |list| - 1
    ensures var r, i := Without(list, k), if j < k then j else j + 1;
      r[j] == list[i] && Head(r[j + 1..]) == if j + 1 == k then Head(list[k + 1..]) else Head(list[i + 1..])
  {
    var r := Without(list, k);
    if j + 1 == k {
      assert r[j + 1..] == list[k + 1..];
    } else if j >= k {
      assert r[j + 1..] == list[j + 2..];
    }
  }

  // ---------------------------------------------------------- a whole page

  /** The free list of a page record is threaded through the blocks fl. */
  ghost predicate FreeList(ram: seq<nat>, pr: PageRef, fl: seq<nat>)
    requires Blk(pr) < NSIZES && Page(pr) + PAGE_SIZE <= 4 * |ram|
    requires forall k: nat :: k < |fl| ==> fl[k] < Blocks(Blk(pr))
  {
    && pr.freeOff == (if fl == [] then INVALID_OFFSET else Off(Blk(pr), fl[0]))
    && forall k: nat :: k < |fl| ==> CellOf(ram, pr, fl[k]) == NextCell(pr, fl[k + 1..])
  }

  /** The first word of block n. */
  function CellOf(ram: seq<nat>, pr: PageRef, n: nat): nat
    requires Blk(pr) < NSIZES && Page(pr) + PAGE_SIZE <= 4 * |ram| && n < Blocks(Blk(pr))
  {
    OffsetFits(Blk(pr), n);
    ram[(Page(pr) + Off(Blk(pr), n)) / 4]
  }

  function NextCell(pr: PageRef, rest: seq<nat>): nat
    requires Blk(pr) < NSIZES
  {
    if rest == [] then 0 else Page(pr) + Off(Blk(pr), rest[0])
  }

  /** checksubpage, made exact. */
  ghost predicate PageOk(ram: seq<nat>, pr: PageRef, fl: seq<nat>) {
    && Blk(pr) < NSIZES && 0 < Page(pr) && Page(pr) + PAGE_SIZE <= 4 * |ram|
    && Distinct(fl) && (forall k: nat :: k < |fl| ==> fl[k] < Blocks(Blk(pr)))
    && pr.nfree == |fl|
    && FreeList(ram, pr, fl)
  }

  lemma CellsKept(ram: seq<nat>, ram': seq<nat>, pr: PageRef, fl: seq<nat>)
    requires PageOk(ram, pr, fl) && |ram'| == |ram|
    requires forall k: nat :: k < |fl| ==> CellOf(ram', pr, fl[k]) == CellOf(ram, pr, fl[k])
    ensures PageOk(ram', pr, fl)
  {
    hide Off;
    hide Size;
    hide Blocks;
  }

  /** The address of block n of a page. */
  function BlockAddr(pr: PageRef, n: nat): nat
    requires Blk(pr) < NSIZES
  {
    Page(pr) + Off(Blk(pr), n)
  }

  /** Taking the first block off the free list. */
  function Pop(ram: seq<nat>, pr: PageRef, n: nat): PageRef
    requires Blk(pr) < NSIZES && Page(pr) + PAGE_SIZE <= 4 * |ram| && n < Blocks(Blk(pr)) && pr.nfree > 0
  {
    var next := CellOf(ram, pr, n);
    pr.(nfree := pr.nfree - 1,
        freeOff := if next == 0 then INVALID_OFFSET else if next >= Page(pr) then next - Page(pr) else 0)
  }

  lemma PopOk(ram: seq<nat>, pr: PageRef, fl: seq<nat>)
    requires PageOk(ram, pr, fl) && fl != []
    ensures PageOk(ram, Pop(ram, pr, fl[0]), fl[1..])
  {
    hide Off;
    hide Blocks;
    hide Size;
    hide Page;
    hide Blk;
    var pr', rest := Pop(ram, pr, fl[0]), fl[1..];
    SamePab(pr, pr');
    forall k: nat | k < |rest|
      ensures CellOf(ram, pr', rest[k]) == NextCell(pr', rest[k + 1..])
    {
      assert rest[k + 1..] == fl[k + 2..];
      assert CellOf(ram, pr, fl[k + 1]) == NextCell(pr, fl[k + 2..]);
    }
    assert CellOf(ram, pr, fl[0]) == NextCell(pr, fl[1..]);
  }

  /** Putting a block in front of the free list; its first word becomes the link. */
  function Push(pr: PageRef, n: nat): PageRef
    requires Blk(pr) < NSIZES
  {
    pr.(nfree := pr.nfree + 1, freeOff := Off(Blk(pr), n))
  }

  lemma PushOk(ram: seq<nat>, ram': seq<nat>, pr: PageRef, fl: seq<nat>, n: nat)
    requires PageOk(ram, pr, fl) && n < Blocks(Blk(pr)) && n !in fl && |ram'| == |ram|
    requires CellOf(ram', pr, n) == NextCell(pr, fl)
    requires forall k: nat :: k < |fl| ==> CellOf(ram', pr, fl[k]) == CellOf(ram, pr, fl[k])
    ensures PageOk(ram', Push(pr, n), [n] + fl)
  {
    hide Off;
    hide Blocks;
    hide Size;
    hide Page;
    hide Blk;
    hide Distinct;
    var pr', more := Push(pr, n), [n] + fl;
    SamePab(pr, pr');
    DistinctCons(n, fl);
    forall k: nat | k < |more|
      ensures more[k] < Blocks(Blk(pr)) && CellOf(ram', pr', more[k]) == NextCell(pr', more[k + 1..])
    {
      if k == 0 {
        assert more[1..] == fl;
      } else {
        assert more[k + 1..] == fl[k..];
        assert CellOf(ram, pr, fl[k - 1]) == NextCell(pr, fl[k - 1 + 1..]);
      }
    }
    hide CellOf;
    hide NextCell;
  }

  // --------------------------------------------------------------- the heap

  datatype Heap = Heap(prs: seq<PageRef>, inuse: seq<nat>, sizebases: seq<int>, allbase: int, ram: seq<nat>)

  /** What the linked structures of a heap amount to: the records in use, those of
      each size class, the free blocks of each, and the multi-page allocations. */
  datatype Book = Book(all: seq<nat>, same: seq<seq<nat>>, fl: map<nat, seq<nat>>, big: map<nat, nat>)

  predicate InUse(inuse: seq<nat>, i: nat)
    requires i < 32 * |inuse|
  {
    BitOf(inuse[i / 32], i % 32)
  }

  ghost predicate Shape(h: Heap) {
    && |h.prs| == NPAGEREFS && |h.inuse| == NPAGEREFS / 32 && |h.sizebases| == NSIZES
    && forall x :: 0 <= x < |h.inuse| ==> h.inuse[x] < 0x1_0000_0000
  }

  /** Both lists and the bitmap agree on which records are in use. */
  ghost predicate ListsOk(h: Heap, b: Book) {
    && Shape(h) && |b.same| == NSIZES
    && Distinct(b.all) && Chain(h.prs, false, h.allbase, b.all)
    && (forall i: nat :: i < NPAGEREFS ==> (InUse(h.inuse, i) <==> i in b.all))
    && (forall k: nat :: k < NSIZES ==> Distinct(b.same[k]) && Chain(h.prs, true, h.sizebases[k], b.same[k]))
    && (forall k: nat, i: nat :: k < NSIZES && i < NPAGEREFS ==>
         (i in b.same[k] <==> i in b.all && Blk(h.prs[i]) == k))
  }

  ghost predicate PagesOk(h: Heap, b: Book) {
    && (forall i: nat :: i in b.fl <==> i in b.all)
    && (forall i: nat :: i in b.fl ==> i < |h.prs| && PageOk(h.ram, h.prs[i], b.fl[i]))
  }

  /** No page is kept that is entirely free. */
  ghost predicate NoFreePage(h: Heap, b: Book) {
    forall i: nat :: i in b.fl && i < |h.prs| && Blk(h.prs[i]) < NSIZES ==> |b.fl[i]| < Blocks(Blk(h.prs[i]))
  }

  ghost predicate RunsApart(a: nat, m: nat, c: nat, n: nat) {
    a + PAGE_SIZE * m <= c || c + PAGE_SIZE * n <= a
  }

  /** Every page and every multi-page allocation has its own addresses. */
  ghost predicate Apart(h: Heap, b: Book) {
    && (forall i: nat, j: nat :: i in b.fl && j in b.fl && i < |h.prs| && j < |h.prs| && i != j ==>
         Page(h.prs[i]) != Page(h.prs[j]))
    && (forall a: nat :: a in b.big ==> a > 0 && a % PAGE_SIZE == 0 && b.big[a] > 0)
    && (forall i: nat, a: nat :: i in b.fl && i < |h.prs| && a in b.big ==>
         RunsApart(Page(h.prs[i]), 1, a, b.big[a]))
    && (forall a: nat, c: nat :: a in b.big && c in b.big && a != c ==> RunsApart(a, b.big[a], c, b.big[c]))
  }

  ghost predicate HeapOk(h: Heap, b: Book) {
    ListsOk(h, b) && PagesOk(h, b) && NoFreePage(h, b) && Apart(h, b)
  }

  /** Block n of page record i is allocated. */
  ghost predicate Taken(h: Heap, b: Book, i: nat, n: nat) {
    i in b.fl && i < |h.prs| && Blk(h.prs[i]) < NSIZES && n < Blocks(Blk(h.prs[i])) && n !in b.fl[i]
  }

  ghost predicate IsBlock(h: Heap, b: Book, p: nat, size: nat, i: nat, n: nat) {
    Taken(h, b, i, n) && p == BlockAddr(h.prs[i], n) && size == Size(Blk(h.prs[i]))
  }

  /** An allocated piece of memory: its address and size. */
  ghost predicate IsLive(h: Heap, b: Book, p: nat, size: nat) {
    || (exists i: nat, n: nat :: IsBlock(h, b, p, size, i, n))
    || (p in b.big && size == PAGE_SIZE * b.big[p])
  }

  lemma PagesAligned(pr: PageRef, pr': PageRef)
    ensures Page(pr) < Page(pr') ==> Page(pr) + PAGE_SIZE <= Page(pr')
  {
  }

  /** Two different blocks of heap pages, free or not, do not overlap. */
  lemma BlocksApart(h: Heap, b: Book, i: nat, x: nat, j: nat, y: nat)
    requires Apart(h, b) && i in b.fl && i < |h.prs| && Blk(h.prs[i]) < NSIZES && x < Blocks(Blk(h.prs[i]))
    requires j in b.fl && j < |h.prs| && Blk(h.prs[j]) < NSIZES && y < Blocks(Blk(h.prs[j])) && (i != j || x != y)
    ensures var p, q := BlockAddr(h.prs[i], x), BlockAddr(h.prs[j], y);
      p + Size(Blk(h.prs[i])) <= q || q + Size(Blk(h.prs[j])) <= p
  {
    hide Off;
    hide Size;
    hide Blocks;
    hide Page;
    hide Blk;
    OffsetFits(Blk(h.prs[i]), x);
    OffsetFits(Blk(h.prs[j]), y);
    PagesAligned(h.prs[i], h.prs[j]);
    PagesAligned(h.prs[j], h.prs[i]);
    OffsetsApart(Blk(h.prs[i]), x, y);
    OffsetsApart(Blk(h.prs[i]), y, x);
  }

  lemma BlockNotBig(h: Heap, b: Book, i: nat, x: nat, a: nat)
    requires Apart(h, b) && i in b.fl && i < |h.prs| && Blk(h.prs[i]) < NSIZES
    requires x < Blocks(Blk(h.prs[i])) && a in b.big
    ensures var p := BlockAddr(h.prs[i], x);
      p + Size(Blk(h.prs[i])) <= a || a + PAGE_SIZE * b.big[a] <= p
  {
    hide Off;
    hide Size;
    hide Blocks;
    hide Page;
    hide Blk;
    OffsetFits(Blk(h.prs[i]), x);
    assert RunsApart(Page(h.prs[i]), 1, a, b.big[a]);
  }

  /** Allocated pieces never overlap. */
  lemma LiveDisjoint(h: Heap, b: Book, p: nat, m: nat, q: nat, n: nat)
    requires HeapOk(h, b) && IsLive(h, b, p, m) && IsLive(h, b, q, n)
    ensures (p == q && m == n) || p + m <= q || q + n <= p
  {
    hide ListsOk;
    hide PagesOk;
    hide NoFreePage;
    hide BlockAddr;
    hide Size;
    hide Blocks;
    hide Blk;
    if i: nat, x: nat :| IsBlock(h, b, p, m, i, x) {
      if j: nat, y: nat :| IsBlock(h, b, q, n, j, y) {
        if i != j || x != y {
          BlocksApart(h, b, i, x, j, y);
        }
      } else {
        BlockNotBig(h, b, i, x, q);
      }
    } else if j: nat, y: nat :| IsBlock(h, b, q, n, j, y) {
      BlockNotBig(h, b, j, y, p);
    } else if p != q {
      assert RunsApart(p, b.big[p], q, b.big[q]);
    }
  }

  /** A free-list cell, though it lies in a heap page, is in no allocated piece. */
  lemma CellsNotLive(h: Heap, b: Book, i: nat, k: nat, p: nat, size: nat)
    requires HeapOk(h, b) && i in b.fl && k < |b.fl[i]| && IsLive(h, b, p, size)
    ensures i < |h.prs| && Blk(h.prs[i]) < NSIZES
    ensures var c := BlockAddr(h.prs[i], b.fl[i][k]);
      c + 4 <= p || p + size <= c
  {
    hide ListsOk;
    hide NoFreePage;
    hide BlockAddr;
    hide Size;
    hide Blocks;
    hide Blk;
    hide FreeList;
    var x := b.fl[i][k];
    if j: nat, y: nat :| IsBlock(h, b, p, size, j, y) {
      BlocksApart(h, b, i, x, j, y);
    } else {
      BlockNotBig(h, b, i, x, p);
    }
  }

  lemma {:induction false} Pigeonhole(list: seq<nat>, n: nat)
    requires Distinct(list) && |list| < n
    ensures exists x: nat :: x < n && x !in list
  {
    if forall x: nat :: x < n ==> x in list {
      var s := set x: nat | x < n && x in list;
      InitialSize(n, s);
      ListSize(list, s);
    }
  }

  lemma {:induction false} InitialSize(n: nat, s: set<nat>)
    requires forall x: nat :: x in s <==> x < n
    ensures |s| == n
  {
    if n > 0 {
      InitialSize(n - 1, s - {n - 1});
    } else {
      assert s == {};
    }
  }

  lemma {:induction false} ListSize(list: seq<nat>, s: set<nat>)
    requires forall x :: x in s ==> x in list
    ensures |s| <= |list|
  {
    if list == [] {
      assert s == {};
    } else {
      ListSize(list[1..], s - {list[0]});
    }
  }

  /** When nothing is allocated the heap holds no page at all. */
  lemma NothingLiveNoPages(h: Heap, b: Book)
    requires HeapOk(h, b) && forall p: nat, size: nat :: !IsLive(h, b, p, size)
    ensures b.all == [] && b.big == map[] && forall i: nat :: i < NPAGEREFS ==> !InUse(h.inuse, i)
  {
    if b.all != [] {
      var i := b.all[0];
      assert i in b.fl;
      Pigeonhole(b.fl[i], Blocks(Blk(h.prs[i])));
      var n: nat :| n < Blocks(Blk(h.prs[i])) && n !in b.fl[i];
      assert IsBlock(h, b, BlockAddr(h.prs[i], n), Size(Blk(h.prs[i])), i, n);
      assert IsLive(h, b, BlockAddr(h.prs[i], n), Size(Blk(h.prs[i])));
    }
    if b.big != map[] {
      var a :| a in b.big;
      assert IsLive(h, b, a, PAGE_SIZE * b.big[a]);
    }
  }
}
