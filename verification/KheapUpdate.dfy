/** The elementary updates of the kernel heap, each with its exact effect on what
    is allocated. */
module KheapUpdate {
  import opened Bits
  import opened KheapState

  /** In order, except that page record x may be entirely free. */
  ghost predicate AlmostOk(h: Heap, b: Book, x: nat) {
    && ListsOk(h, b) && PagesOk(h, b) && Apart(h, b)
    && forall i: nat :: i in b.fl && i != x && i < |h.prs| && Blk(h.prs[i]) < NSIZES ==>
         |b.fl[i]| < Blocks(Blk(h.prs[i]))
  }

  /** Only words of the bytes lo..hi may differ. */
  ghost predicate SameOutside(ram: seq<nat>, ram': seq<nat>, lo: nat, hi: nat) {
    |ram'| == |ram| && forall w: nat :: w < |ram| && !(lo <= 4 * w < hi) ==> ram'[w] == ram[w]
  }

  /** One page record changes, but neither its page nor its links. */
  ghost predicate SamePlace(pr: PageRef, pr': PageRef) {
    pr'.pab == pr.pab && pr'.nextSame == pr.nextSame && pr'.nextAll == pr.nextAll
  }

  lemma ListsKept(h: Heap, b: Book, i: nat, pr: PageRef, fl: seq<nat>, ram: seq<nat>)
    requires ListsOk(h, b) && i < |h.prs| && SamePlace(h.prs[i], pr) && i in b.all
    ensures ListsOk(h.(prs := h.prs[i := pr], ram := ram), b.(fl := b.fl[i := fl]))
  {
    hide InUse;
    hide Distinct;
    hide Chain;
    var prs' := h.prs[i := pr];
    assert Blk(pr) == Blk(h.prs[i]);
    hide Blk;
    ChainKept(h.prs, prs', false, h.allbase, b.all);
    forall k: nat | k < NSIZES
      ensures Chain(prs', true, h.sizebases[k], b.same[k])
    {
      ChainKept(h.prs, prs', true, h.sizebases[k], b.same[k]);
    }
  }

  lemma ApartKept(h: Heap, b: Book, i: nat, pr: PageRef, fl: seq<nat>, ram: seq<nat>)
    requires Apart(h, b) && i < |h.prs| && SamePlace(h.prs[i], pr) && i in b.fl
    ensures Apart(h.(prs := h.prs[i := pr], ram := ram), b.(fl := b.fl[i := fl]))
  {
    assert Page(pr) == Page(h.prs[i]);
    hide Page;
  }

  // ---------------------------------------------------- taking a free block

  function TakeFirst(h: Heap, i: nat, n: nat): Heap
    requires i < |h.prs| && Blk(h.prs[i]) < NSIZES && Page(h.prs[i]) + PAGE_SIZE <= 4 * |h.ram|
    requires n < Blocks(Blk(h.prs[i])) && h.prs[i].nfree > 0
  {
    h.(prs := h.prs[i := Pop(h.ram, h.prs[i], n)])
  }

  lemma TakeBlock(h: Heap, b: Book, i: nat)
    requires AlmostOk(h, b, i) && i in b.fl && b.fl[i] != []
    ensures i < |h.prs| && PageOk(h.ram, h.prs[i], b.fl[i])
    ensures HeapOk(TakeFirst(h, i, b.fl[i][0]), b.(fl := b.fl[i := b.fl[i][1..]]))
  {
    hide ListsOk;
    hide Apart;
    hide Blocks;
    hide Size;
    hide FreeList;
    hide Off;
    hide Distinct;
    hide Page;
    hide CellOf;
    var pr, fl := h.prs[i], b.fl[i];
    PopOk(h.ram, pr, fl);
    var pr' := Pop(h.ram, pr, fl[0]);
    var h', b' := TakeFirst(h, i, fl[0]), b.(fl := b.fl[i := fl[1..]]);
    InAll(h, b, i);
    ListsKept(h, b, i, pr', fl[1..], h.ram);
    ApartKept(h, b, i, pr', fl[1..], h.ram);
    ListBound(fl, Blocks(Blk(pr)));
  }

  lemma InAll(h: Heap, b: Book, i: nat)
    requires PagesOk(h, b) && i in b.fl
    ensures i in b.all && i < |h.prs|
  {
  }

  lemma ListBound(list: seq<nat>, n: nat)
    requires Distinct(list) && forall k: nat :: k < |list| ==> list[k] < n
    ensures |list| <= n
  {
    if |list| > n {
      var s := set x: nat | x < n && x in list;
      DistinctSize(list, s);
      assert forall x :: x in s ==> x < n;
      BelowSize(n, s);
    }
  }

  lemma {:induction false} DistinctSize(list: seq<nat>, s: set<nat>)
    requires Distinct(list) && forall x :: x in list <==> x in s
    ensures |s| == |list|
  {
    if list == [] {
      assert s == {};
    } else {
      var rest := list[1..];
      forall x
        ensures x in rest <==> x in s - {list[0]}
      {
        if x in rest {
          var j :| 0 <= j < |rest| && rest[j] == x;
          assert list[j + 1] == x;
        }
        if x in s && x != list[0] {
          var j :| 0 <= j < |list| && list[j] == x;
          assert rest[j - 1] == x;
        }
      }
      assert Distinct(rest) by {
        forall p: nat, q: nat | p < |rest| && q < |rest| && rest[p] == rest[q]
          ensures p == q
        {
          assert list[p + 1] == list[q + 1];
        }
      }
      DistinctSize(rest, s - {list[0]});
    }
  }

  lemma {:induction false} BelowSize(n: nat, s: set<nat>)
    requires forall x: nat :: x in s ==> x < n
    ensures |s| <= n
  {
    if n > 0 {
      BelowSize(n - 1, s - {n - 1});
    } else {
      assert s == {};
    }
  }

  /** Block n of record i changes hands: every other block is as it was. */
  ghost predicate OneBlock(h: Heap, b: Book, h': Heap, b': Book, i: nat, n: nat) {
    && |h'.prs| == |h.prs| && b'.big == b.big && i in b.fl && i < |h.prs|
    && (forall j: nat :: j in b'.fl <==> j in b.fl)
    && (forall j: nat :: j < |h.prs| ==> h'.prs[j].pab == h.prs[j].pab)
    && (forall j: nat, m: nat :: j in b.fl && (j != i || m != n) ==> (m in b'.fl[j] <==> m in b.fl[j]))
  }

  lemma LiveAfterTake(h: Heap, b: Book, h': Heap, b': Book, i: nat, n: nat, p: nat, size: nat)
    requires OneBlock(h, b, h', b', i, n) && Blk(h.prs[i]) < NSIZES && n < Blocks(Blk(h.prs[i]))
    requires n in b.fl[i] && n !in b'.fl[i]
    ensures IsLive(h', b', p, size) <==>
      IsLive(h, b, p, size) || (p == BlockAddr(h.prs[i], n) && size == Size(Blk(h.prs[i])))
  {
    hide Off;
    hide Size;
    hide Blocks;
    assert forall j: nat, m: nat :: Taken(h', b', j, m) <==> Taken(h, b, j, m) || (j == i && m == n);
    assert forall j: nat, m: nat :: Taken(h', b', j, m) ==> BlockAddr(h'.prs[j], m) == BlockAddr(h.prs[j], m);
    if IsLive(h, b, p, size) {
      if j: nat, m: nat :| IsBlock(h, b, p, size, j, m) {
        assert IsBlock(h', b', p, size, j, m);
      }
    }
    if p == BlockAddr(h.prs[i], n) && size == Size(Blk(h.prs[i])) {
      assert IsBlock(h', b', p, size, i, n);
    }
    if IsLive(h', b', p, size) {
      if j: nat, m: nat :| IsBlock(h', b', p, size, j, m) {
        assert j != i || m != n ==> IsBlock(h, b, p, size, j, m);
      }
    }
  }

  // -------------------------------------------------------- freeing a block

  /** What is in the pages is not disturbed by writing inside a taken block. */
  lemma PagesKept(h: Heap, b: Book, i: nat, n: nat, ram': seq<nat>)
    requires PagesOk(h, b) && Apart(h, b) && Taken(h, b, i, n)
    requires SameOutside(h.ram, ram', BlockAddr(h.prs[i], n), BlockAddr(h.prs[i], n) + Size(Blk(h.prs[i])))
    ensures forall j: nat :: j in b.fl ==> PageOk(ram', h.prs[j], b.fl[j])
    ensures forall j: nat, k: nat :: j in b.fl && k < |b.fl[j]| ==>
      CellOf(ram', h.prs[j], b.fl[j][k]) == CellOf(h.ram, h.prs[j], b.fl[j][k])
  {
    hide Off;
    hide Size;
    hide Blocks;
    forall j: nat, k: nat | j in b.fl && k < |b.fl[j]|
      ensures CellOf(ram', h.prs[j], b.fl[j][k]) == CellOf(h.ram, h.prs[j], b.fl[j][k])
    {
      OneCellKept(h, b, i, n, ram', j, k);
    }
    forall j: nat | j in b.fl
      ensures PageOk(ram', h.prs[j], b.fl[j])
    {
      CellsKept(h.ram, ram', h.prs[j], b.fl[j]);
    }
  }

  lemma OneCellKept(h: Heap, b: Book, i: nat, n: nat, ram': seq<nat>, j: nat, k: nat)
    requires PagesOk(h, b) && Apart(h, b) && Taken(h, b, i, n) && j in b.fl && k < |b.fl[j]|
    requires SameOutside(h.ram, ram', BlockAddr(h.prs[i], n), BlockAddr(h.prs[i], n) + Size(Blk(h.prs[i])))
    ensures CellOf(ram', h.prs[j], b.fl[j][k]) == CellOf(h.ram, h.prs[j], b.fl[j][k])
  {
    hide Off;
    hide Size;
    hide Blocks;
    hide FreeList;
    hide Apart;
    hide Page;
    hide Blk;
    var m := b.fl[j][k];
    assert PageOk(h.ram, h.prs[j], b.fl[j]);
    BlocksApart(h, b, i, n, j, m);
    OffsetFits(Blk(h.prs[j]), m);
    PageWordAligned(h.prs[j]);
    var a := BlockAddr(h.prs[j], m);
    assert 4 * (a / 4) == a;
  }

  lemma PageWordAligned(pr: PageRef)
    ensures Page(pr) % 4 == 0
  {
  }

  function GiveFirst(h: Heap, i: nat, n: nat, ram: seq<nat>): Heap
    requires i < |h.prs| && Blk(h.prs[i]) < NSIZES
  {
    h.(prs := h.prs[i := Push(h.prs[i], n)], ram := ram)
  }

  lemma GiveBlock(h: Heap, b: Book, i: nat, n: nat, ram': seq<nat>)
    requires HeapOk(h, b) && Taken(h, b, i, n)
    requires SameOutside(h.ram, ram', BlockAddr(h.prs[i], n), BlockAddr(h.prs[i], n) + Size(Blk(h.prs[i])))
    requires PageOk(h.ram, h.prs[i], b.fl[i]) && CellOf(ram', h.prs[i], n) == NextCell(h.prs[i], b.fl[i])
    ensures AlmostOk(GiveFirst(h, i, n, ram'), b.(fl := b.fl[i := [n] + b.fl[i]]), i)
  {
    hide ListsOk;
    hide Apart;
    hide Blocks;
    hide FreeList;
    hide Off;
    hide Size;
    var pr, fl := h.prs[i], b.fl[i];
    PagesKept(h, b, i, n, ram');
    PushOk(h.ram, ram', pr, fl, n);
    InAll(h, b, i);
    ListsKept(h, b, i, Push(pr, n), [n] + fl, ram');
    ApartKept(h, b, i, Push(pr, n), [n] + fl, ram');
  }

  lemma LiveAfterGive(h: Heap, b: Book, h': Heap, b': Book, i: nat, n: nat, p: nat, size: nat)
    requires OneBlock(h, b, h', b', i, n) && Taken(h, b, i, n) && n in b'.fl[i]
    requires Apart(h, b)
    ensures IsLive(h', b', p, size) <==>
      IsLive(h, b, p, size) && !(p == BlockAddr(h.prs[i], n) && size == Size(Blk(h.prs[i])))
  {
    hide Off;
    hide Size;
    hide Blocks;
    hide Apart;
    assert forall j: nat, m: nat :: Taken(h', b', j, m) <==> Taken(h, b, j, m) && (j != i || m != n);
    assert forall j: nat, m: nat :: Taken(h', b', j, m) ==> BlockAddr(h'.prs[j], m) == BlockAddr(h.prs[j], m);
    if IsLive(h', b', p, size) {
      if j: nat, m: nat :| IsBlock(h', b', p, size, j, m) {
        assert IsBlock(h, b, p, size, j, m);
        BlocksApart(h, b, i, n, j, m);
      } else {
        BlockNotBig(h, b, i, n, p);
      }
    }
    if IsLive(h, b, p, size) && !(p == BlockAddr(h.prs[i], n) && size == Size(Blk(h.prs[i]))) {
      if j: nat, m: nat :| IsBlock(h, b, p, size, j, m) {
        assert IsBlock(h', b', p, size, j, m);
      }
    }
  }

  // ------------------------------------------------------- pages come and go

  /** A page-aligned run of m pages that nothing in the heap touches. */
  ghost predicate FreshRun(h: Heap, b: Book, page: nat, m: nat) {
    && page > 0 && page % PAGE_SIZE == 0 && m > 0
    && (forall j: nat :: j in b.fl && j < |h.prs| ==> RunsApart(Page(h.prs[j]), 1, page, m))
    && (forall a: nat :: a in b.big ==> RunsApart(a, b.big[a], page, m))
  }

  /** The blocks n - 1, ..., 1, 0. */
  function Descending(n: nat): (list: seq<nat>)
    ensures |list| == n && forall k: nat :: k < n ==> list[k] == n - 1 - k
  {
    seq(n, k requires 0 <= k < n => n - 1 - k)
  }

  /** The record of a new page, put in front of both lists. */
  function NewRecord(h: Heap, page: nat, k: nat): PageRef
    requires k < NSIZES && |h.sizebases| == NSIZES
  {
    PageRef(h.sizebases[k], h.allbase, Mkpab(page, k), Off(k, Blocks(k) - 1), Blocks(k))
  }

  function WithPage(h: Heap, i: nat, page: nat, k: nat, inuse: seq<nat>, ram: seq<nat>): Heap
    requires k < NSIZES && |h.sizebases| == NSIZES && i < |h.prs|
  {
    Heap(h.prs[i := NewRecord(h, page, k)], inuse, h.sizebases[k := i], i, ram)
  }

  function WithPageBook(b: Book, i: nat, k: nat): Book
    requires k < |b.same| && k < NSIZES
  {
    Book([i] + b.all, b.same[k := [i] + b.same[k]], b.fl[i := Descending(Blocks(k))], b.big)
  }

  lemma NewPageOk(ram: seq<nat>, pr: PageRef)
    requires Blk(pr) < NSIZES && 0 < Page(pr) && Page(pr) + PAGE_SIZE <= 4 * |ram|
    requires pr.nfree == Blocks(Blk(pr)) && pr.freeOff == Off(Blk(pr), Blocks(Blk(pr)) - 1)
    requires forall m: nat :: m < Blocks(Blk(pr)) ==>
      CellOf(ram, pr, m) == if m == 0 then 0 else BlockAddr(pr, m - 1)
    ensures PageOk(ram, pr, Descending(Blocks(Blk(pr))))
  {
    hide Off;
    hide Page;
    hide Blk;
    var n := Blocks(Blk(pr));
    hide Blocks;
    var fl := Descending(n);
    forall k: nat | k < |fl|
      ensures CellOf(ram, pr, fl[k]) == NextCell(pr, fl[k + 1..])
    {
      assert k + 1 < n ==> fl[k + 1..][0] == n - 2 - k;
    }
  }

  lemma AddPageLists(h: Heap, b: Book, i: nat, page: nat, k: nat, inuse: seq<nat>, ram: seq<nat>)
    requires ListsOk(h, b) && i < NPAGEREFS && i !in b.all && k < NSIZES && page % PAGE_SIZE == 0
    requires |inuse| == NPAGEREFS / 32 && (forall x :: 0 <= x < |inuse| ==> inuse[x] < 0x1_0000_0000)
    requires forall j: nat :: j < NPAGEREFS ==> (InUse(inuse, j) <==> InUse(h.inuse, j) || j == i)
    ensures ListsOk(WithPage(h, i, page, k, inuse, ram), WithPageBook(b, i, k))
  {
    hide InUse;
    hide Chain;
    hide Distinct;
    hide Off;
    hide Blocks;
    var h', b' := WithPage(h, i, page, k, inuse, ram), WithPageBook(b, i, k);
    assert Blk(h'.prs[i]) == k;
    hide Blk;
    hide Mkpab;
    ChainKept(h.prs, h'.prs, false, h.allbase, b.all);
    ChainCons(h'.prs, false, h.allbase, b.all, i);
    DistinctCons(i, b.all);
    assert forall m: nat :: m < NSIZES ==> i !in b.same[m];
    forall m: nat | m < NSIZES
      ensures Distinct(b'.same[m]) && Chain(h'.prs, true, h'.sizebases[m], b'.same[m])
    {
      ChainKept(h.prs, h'.prs, true, h.sizebases[m], b.same[m]);
      if m == k {
        ChainCons(h'.prs, true, h.sizebases[k], b.same[k], i);
        DistinctCons(i, b.same[k]);
      }
    }
  }

  lemma AddPageApart(h: Heap, b: Book, i: nat, page: nat, k: nat, inuse: seq<nat>, ram: seq<nat>)
    requires Apart(h, b) && i !in b.fl && i < |h.prs| && |h.sizebases| == NSIZES && k < NSIZES && k < |b.same|
    requires FreshRun(h, b, page, 1)
    ensures Apart(WithPage(h, i, page, k, inuse, ram), WithPageBook(b, i, k))
  {
    var h', b' := WithPage(h, i, page, k, inuse, ram), WithPageBook(b, i, k);
    assert Page(h'.prs[i]) == page;
    hide Page;
    hide Mkpab;
    hide Off;
    hide Blocks;
  }

  lemma AddPagePages(h: Heap, b: Book, i: nat, page: nat, k: nat, inuse: seq<nat>, ram: seq<nat>)
    requires PagesOk(h, b) && i !in b.fl && i < |h.prs| && |h.sizebases| == NSIZES && k < NSIZES && k < |b.same|
    requires FreshRun(h, b, page, 1) && page + PAGE_SIZE <= 4 * |h.ram|
    requires SameOutside(h.ram, ram, page, page + PAGE_SIZE)
    requires var pr := NewRecord(h, page, k);
      Blk(pr) == k && Page(pr) == page && forall m: nat :: m < Blocks(k) ==>
        CellOf(ram, pr, m) == if m == 0 then 0 else BlockAddr(pr, m - 1)
    ensures PagesOk(WithPage(h, i, page, k, inuse, ram), WithPageBook(b, i, k))
  {
    hide Off;
    hide Blocks;
    hide Mkpab;
    hide FreeList;
    hide Descending;
    var h' := WithPage(h, i, page, k, inuse, ram);
    NewPageOk(ram, h'.prs[i]);
    forall j: nat | j in b.fl
      ensures PageOk(ram, h.prs[j], b.fl[j])
    {
      OtherPageKept(h, b, page, ram, j);
    }
  }

  lemma OtherPageKept(h: Heap, b: Book, page: nat, ram: seq<nat>, j: nat)
    requires PagesOk(h, b) && j in b.fl && RunsApart(Page(h.prs[j]), 1, page, 1)
    requires SameOutside(h.ram, ram, page, page + PAGE_SIZE)
    ensures PageOk(ram, h.prs[j], b.fl[j])
  {
    hide Off;
    hide Blocks;
    hide Size;
    hide Page;
    hide Blk;
    hide FreeList;
    var pr, fl := h.prs[j], b.fl[j];
    assert PageOk(h.ram, pr, fl);
    forall x: nat | x < |fl|
      ensures CellOf(ram, pr, fl[x]) == CellOf(h.ram, pr, fl[x])
    {
      OffsetFits(Blk(pr), fl[x]);
      PageWordAligned(pr);
      var a := BlockAddr(pr, fl[x]);
      assert 4 * (a / 4) == a;
    }
    CellsKept(h.ram, ram, pr, fl);
  }

  lemma LiveAfterAdd(h: Heap, b: Book, i: nat, page: nat, k: nat, inuse: seq<nat>, ram: seq<nat>, p: nat, size: nat)
    requires i !in b.fl && i < |h.prs| && |h.sizebases| == NSIZES && k < NSIZES && k < |b.same| && page % PAGE_SIZE == 0
    ensures IsLive(WithPage(h, i, page, k, inuse, ram), WithPageBook(b, i, k), p, size) <==> IsLive(h, b, p, size)
  {
    hide Off;
    hide Size;
    hide Blocks;
    var h', b' := WithPage(h, i, page, k, inuse, ram), WithPageBook(b, i, k);
    assert Blk(h'.prs[i]) == k;
    hide Blk;
    hide Mkpab;
    forall n: nat | n < Blocks(k)
      ensures n in b'.fl[i]
    {
      assert b'.fl[i][Blocks(k) - 1 - n] == n;
    }
    assert forall j: nat, m: nat :: Taken(h', b', j, m) <==> Taken(h, b, j, m);
    if j: nat, m: nat :| IsBlock(h', b', p, size, j, m) {
      assert IsBlock(h, b, p, size, j, m);
    }
    if j: nat, m: nat :| IsBlock(h, b, p, size, j, m) {
      assert IsBlock(h', b', p, size, j, m);
    }
  }

  /** Records differ in their links only. */
  ghost predicate SameButLinks(prs: seq<PageRef>, prs': seq<PageRef>) {
    |prs'| == |prs| && forall j: nat :: j < |prs| ==>
      prs'[j] == prs[j].(nextSame := prs'[j].nextSame, nextAll := prs'[j].nextAll)
  }

  function WithoutPageBook(b: Book, i: nat, k: nat, x: nat, y: nat): Book
    requires k < |b.same| && x < |b.all| && y < |b.same[k]|
  {
    Book(Without(b.all, x), b.same[k := Without(b.same[k], y)], b.fl - {i}, b.big)
  }

  lemma DropPageLists(h: Heap, h': Heap, b: Book, i: nat, k: nat, x: nat, y: nat)
    requires |b.same| == NSIZES && k < NSIZES && x < |b.all| && y < |b.same[k]| && b.all[x] == i == b.same[k][y]
    requires Shape(h) && Shape(h') && SameButLinks(h.prs, h'.prs)
    requires Chain(h'.prs, false, h'.allbase, Without(b.all, x))
    requires Chain(h'.prs, true, h'.sizebases[k], Without(b.same[k], y))
    requires forall m: nat :: m < NSIZES && m != k ==> Chain(h'.prs, true, h'.sizebases[m], b.same[m])
    requires forall j: nat :: j < NPAGEREFS ==> (InUse(h'.inuse, j) <==> InUse(h.inuse, j) && j != i)
    requires ListsOk(h, b)
    ensures ListsOk(h', WithoutPageBook(b, i, k, x, y))
  {
    hide InUse;
    hide Chain;
    hide Distinct;
    hide Without;
    var b' := WithoutPageBook(b, i, k, x, y);
    DistinctWithout(b.all, x);
    DistinctWithout(b.same[k], y);
    assert i in b.all && i in b.same[k];
    forall j: nat | j < NPAGEREFS
      ensures Blk(h'.prs[j]) == Blk(h.prs[j])
    {
      assert h'.prs[j].pab == h.prs[j].pab;
    }
    hide Blk;
  }

  lemma DropPageRest(h: Heap, h': Heap, b: Book, i: nat, k: nat, x: nat, y: nat)
    requires AlmostOk(h, b, i) && k < NSIZES && x < |b.all| && y < |b.same[k]| && b.all[x] == i
    requires SameButLinks(h.prs, h'.prs) && h'.ram == h.ram
    ensures PagesOk(h', WithoutPageBook(b, i, k, x, y)) && Apart(h', WithoutPageBook(b, i, k, x, y))
    ensures NoFreePage(h', WithoutPageBook(b, i, k, x, y))
  {
    hide Chain;
    hide InUse;
    hide Without;
    hide Off;
    hide Blocks;
    hide Blk;
    hide Page;
    hide PageOk;
    var b' := WithoutPageBook(b, i, k, x, y);
    DistinctWithout(b.all, x);
    forall j: nat | j < |h.prs|
      ensures Blk(h'.prs[j]) == Blk(h.prs[j]) && Page(h'.prs[j]) == Page(h.prs[j])
    {
      SamePab(h.prs[j], h'.prs[j]);
    }
    forall j: nat | j in b'.fl
      ensures PageOk(h'.ram, h'.prs[j], b'.fl[j])
    {
      assert PageOk(h.ram, h.prs[j], b.fl[j]);
      LinksAside(h.ram, h.prs[j], h'.prs[j], b.fl[j]);
    }
  }

  lemma LinksAside(ram: seq<nat>, pr: PageRef, pr': PageRef, fl: seq<nat>)
    requires PageOk(ram, pr, fl) && pr' == pr.(nextSame := pr'.nextSame, nextAll := pr'.nextAll)
    ensures PageOk(ram, pr', fl)
  {
    hide Off;
    hide Blocks;
    hide Size;
    assert Page(pr') == Page(pr) && Blk(pr') == Blk(pr);
    hide Page;
    hide Blk;
    assert forall k: nat :: k < |fl| ==> CellOf(ram, pr', fl[k]) == CellOf(ram, pr, fl[k]);
  }

  lemma LiveAfterDrop(h: Heap, h': Heap, b: Book, i: nat, k: nat, x: nat, y: nat, p: nat, size: nat)
    requires k < |b.same| && x < |b.all| && y < |b.same[k]|
    requires i in b.fl && i < |h.prs| && Blk(h.prs[i]) < NSIZES && SameButLinks(h.prs, h'.prs)
    requires forall n: nat :: n < Blocks(Blk(h.prs[i])) ==> n in b.fl[i]
    ensures IsLive(h', WithoutPageBook(b, i, k, x, y), p, size) <==> IsLive(h, b, p, size)
  {
    hide Off;
    hide Size;
    hide Blocks;
    hide Without;
    var b' := WithoutPageBook(b, i, k, x, y);
    assert forall j: nat :: j < |h.prs| ==> Blk(h'.prs[j]) == Blk(h.prs[j]) && Page(h'.prs[j]) == Page(h.prs[j]);
    hide Blk;
    hide Page;
    assert forall j: nat, m: nat :: Taken(h', b', j, m) <==> Taken(h, b, j, m);
    if j: nat, m: nat :| IsBlock(h', b', p, size, j, m) {
      assert IsBlock(h, b, p, size, j, m);
    }
    if j: nat, m: nat :| IsBlock(h, b, p, size, j, m) {
      assert IsBlock(h', b', p, size, j, m);
    }
  }

  /** A page with as many free blocks as it has blocks has no other. */
  lemma AllFree(fl: seq<nat>, n: nat)
    requires Distinct(fl) && |fl| == n && forall k: nat :: k < |fl| ==> fl[k] < n
    ensures forall x: nat :: x < n ==> x in fl
  {
    forall x: nat | x < n
      ensures x in fl
    {
      if x !in fl {
        DistinctCons(x, fl);
        ListBound([x] + fl, n);
      }
    }
  }

  // ------------------------------------------------- what the heap accounts for

  /** A run of pages the heap holds: one page of blocks, or a multi-page piece. */
  ghost predicate IsRun(h: Heap, b: Book, a: nat, m: nat) {
    || (m == 1 && exists i: nat :: i in b.fl && i < |h.prs| && Page(h.prs[i]) == a)
    || (a in b.big && m == b.big[a])
  }

  ghost predicate LiveIs(h: Heap, b: Book, live: map<nat, nat>) {
    forall p: nat, size: nat :: p in live && live[p] == size <==> IsLive(h, b, p, size)
  }

  ghost predicate HeldIs(h: Heap, b: Book, held: map<nat, nat>) {
    forall a: nat, m: nat :: a in held && held[a] == m <==> IsRun(h, b, a, m)
  }

  /** A page-aligned run of m pages that touches no run of held. */
  ghost predicate Unheld(held: map<nat, nat>, page: nat, m: nat) {
    && page > 0 && page % PAGE_SIZE == 0 && m > 0
    && forall a: nat :: a in held ==> RunsApart(a, held[a], page, m)
  }

  lemma UnheldFresh(h: Heap, b: Book, held: map<nat, nat>, page: nat, m: nat)
    requires HeldIs(h, b, held) && Unheld(held, page, m)
    ensures FreshRun(h, b, page, m)
  {
    hide Page;
    forall j: nat | j in b.fl && j < |h.prs|
      ensures RunsApart(Page(h.prs[j]), 1, page, m)
    {
      assert IsRun(h, b, Page(h.prs[j]), 1);
    }
    forall a: nat | a in b.big
      ensures RunsApart(a, b.big[a], page, m)
    {
      assert IsRun(h, b, a, b.big[a]);
    }
  }

  /** No word inside a piece of live differs. */
  ghost predicate SameIn(ram: seq<nat>, ram': seq<nat>, live: map<nat, nat>) {
    |ram'| == |ram| && forall p: nat, w: nat :: p in live && w < |ram| && p <= 4 * w < p + live[p] ==> ram'[w] == ram[w]
  }

  /** A live piece lies inside a run that is held. */
  lemma LiveInRun(h: Heap, b: Book, p: nat, size: nat, page: nat, m: nat)
    requires IsLive(h, b, p, size) && FreshRun(h, b, page, m)
    ensures p + size <= page || page + PAGE_SIZE * m <= p
  {
    hide Off;
    hide Size;
    hide Blocks;
    hide Page;
    hide Blk;
    if i: nat, n: nat :| IsBlock(h, b, p, size, i, n) {
      OffsetFits(Blk(h.prs[i]), n);
      assert RunsApart(Page(h.prs[i]), 1, page, m);
    } else {
      assert RunsApart(p, b.big[p], page, m);
    }
  }

  lemma FreshWrites(h: Heap, b: Book, live: map<nat, nat>, page: nat, ram: seq<nat>)
    requires LiveIs(h, b, live) && FreshRun(h, b, page, 1) && SameOutside(h.ram, ram, page, page + PAGE_SIZE)
    ensures SameIn(h.ram, ram, live)
  {
    hide IsLive;
    hide FreshRun;
    forall p: nat, w: nat | p in live && w < |ram| && p <= 4 * w < p + live[p]
      ensures ram[w] == h.ram[w]
    {
      LiveInRun(h, b, p, live[p], page, 1);
    }
  }

  /** The next piece to be given back is the only one its words belong to. */
  lemma BlockWrites(h: Heap, b: Book, live: map<nat, nat>, q: nat, ram: seq<nat>)
    requires q in live && SameOutside(h.ram, ram, q, q + live[q]) && LiveIs(h, b, live) && HeapOk(h, b)
    ensures SameIn(h.ram, ram, live - {q})
  {
    hide IsLive;
    hide HeapOk;
    forall p: nat, w: nat | p in live - {q} && w < |ram| && p <= 4 * w < p + live[p]
      ensures ram[w] == h.ram[w]
    {
      LiveDisjoint(h, b, p, live[p], q, live[q]);
    }
  }

  lemma HeldSame(h: Heap, b: Book, h': Heap, b': Book, held: map<nat, nat>)
    requires |h'.prs| == |h.prs| && b'.big == b.big && (forall j: nat :: j in b'.fl <==> j in b.fl)
    requires forall j: nat :: j < |h.prs| ==> h'.prs[j].pab == h.prs[j].pab
    requires HeldIs(h, b, held)
    ensures HeldIs(h', b', held)
  {
    forall a: nat, m: nat
      ensures IsRun(h', b', a, m) <==> IsRun(h, b, a, m)
    {
      if i: nat :| i in b.fl && i < |h.prs| && Page(h.prs[i]) == a {
        assert Page(h'.prs[i]) == a;
      }
      if i: nat :| i in b'.fl && i < |h'.prs| && Page(h'.prs[i]) == a {
        assert Page(h.prs[i]) == a;
      }
    }
  }

  /** A run that touches nothing held is not itself held. */
  lemma UnheldNotHeld(held: map<nat, nat>, page: nat, m: nat)
    requires Unheld(held, page, m) && forall a: nat :: a in held ==> held[a] > 0
    ensures page !in held
  {
    assert page in held ==> RunsApart(page, held[page], page, m);
  }

  lemma HeldPositive(h: Heap, b: Book, held: map<nat, nat>)
    requires HeldIs(h, b, held) && Apart(h, b)
    ensures forall a: nat :: a in held ==> held[a] > 0
  {
    forall a: nat | a in held
      ensures held[a] > 0
    {
      assert IsRun(h, b, a, held[a]);
    }
  }

  lemma NotHeldNoRun(h: Heap, b: Book, held: map<nat, nat>, a: nat, m: nat)
    requires HeldIs(h, b, held) && a !in held
    ensures !IsRun(h, b, a, m)
  {
  }

  lemma HeldAfterAdd(h: Heap, b: Book, held: map<nat, nat>, i: nat, page: nat, k: nat, inuse: seq<nat>, ram: seq<nat>)
    requires i !in b.fl && i < |h.prs| && |h.sizebases| == NSIZES && k < NSIZES && k < |b.same|
    requires HeldIs(h, b, held) && Unheld(held, page, 1) && Apart(h, b)
    ensures HeldIs(WithPage(h, i, page, k, inuse, ram), WithPageBook(b, i, k), held[page := 1])
  {
    hide Off;
    hide Blocks;
    hide Descending;
    var h', b' := WithPage(h, i, page, k, inuse, ram), WithPageBook(b, i, k);
    assert Page(h'.prs[i]) == page;
    hide Page;
    hide Mkpab;
    HeldPositive(h, b, held);
    UnheldNotHeld(held, page, 1);
    hide Apart;
    hide Unheld;
    forall a: nat, m: nat
      ensures IsRun(h', b', a, m) <==> IsRun(h, b, a, m) || (a == page && m == 1)
    {
      if j: nat :| j in b.fl && j < |h.prs| && Page(h.prs[j]) == a {
        assert Page(h'.prs[j]) == a;
      }
      if j: nat :| j in b'.fl && j < |h'.prs| && Page(h'.prs[j]) == a {
        assert j != i ==> Page(h.prs[j]) == a;
      }
    }
    forall m: nat
      ensures !IsRun(h, b, page, m)
    {
      NotHeldNoRun(h, b, held, page, m);
    }
  }

  lemma HeldAfterDrop(h: Heap, h': Heap, b: Book, b': Book, held: map<nat, nat>, i: nat)
    requires b'.fl == b.fl - {i} && b'.big == b.big && Apart(h, b)
    requires i in b.fl && i < |h.prs| && SameButLinks(h.prs, h'.prs)
    requires HeldIs(h, b, held)
    ensures HeldIs(h', b', held - {Page(h.prs[i])})
  {
    assert forall j: nat :: j < |h.prs| ==> Page(h'.prs[j]) == Page(h.prs[j]);
    hide Page;
    var page := Page(h.prs[i]);
    assert page !in b.big by {
      assert page in b.big ==> RunsApart(page, 1, page, b.big[page]);
    }
    forall a: nat, m: nat
      ensures IsRun(h', b', a, m) <==> IsRun(h, b, a, m) && a != page
    {
      if j: nat :| j in b.fl && j < |h.prs| && Page(h.prs[j]) == a && a != page {
        assert Page(h'.prs[j]) == a && j in b'.fl;
      }
      if j: nat :| j in b'.fl && j < |h'.prs| && Page(h'.prs[j]) == a {
        assert Page(h.prs[j]) == a;
      }
    }
  }

  // --------------------------------------------------------- multi-page pieces

  lemma BigAdded(h: Heap, b: Book, live: map<nat, nat>, held: map<nat, nat>, page: nat, m: nat)
    requires HeapOk(h, b) && LiveIs(h, b, live) && HeldIs(h, b, held) && Unheld(held, page, m)
    ensures page !in live && page !in held
    ensures var b' := b.(big := b.big[page := m]);
      HeapOk(h, b') && LiveIs(h, b', live[page := PAGE_SIZE * m]) && HeldIs(h, b', held[page := m])
  {
    assert Apart(h, b);
    hide Apart;
    hide HeapOk;
    hide LiveIs;
    hide HeldIs;
    hide FreshRun;
    hide IsLive;
    hide Unheld;
    UnheldFresh(h, b, held, page, m);
    HeldPositive(h, b, held);
    UnheldNotHeld(held, page, m);
    FreshNotLive(h, b, live, page, m);
    BigLive(h, b, live, page, m);
    BigHeld(h, b, held, page, m);
    BigApart(h, b, page, m);
  }

  lemma BigApart(h: Heap, b: Book, page: nat, m: nat)
    requires HeapOk(h, b) && FreshRun(h, b, page, m)
    ensures HeapOk(h, b.(big := b.big[page := m]))
  {
    hide Chain;
    hide PageOk;
    hide InUse;
    hide Page;
    hide Blk;
  }

  lemma FreshNotLive(h: Heap, b: Book, live: map<nat, nat>, page: nat, m: nat)
    requires FreshRun(h, b, page, m) && LiveIs(h, b, live) && Apart(h, b)
    ensures page !in live && page !in b.big && forall size: nat :: !IsLive(h, b, page, size)
  {
    hide Off;
    hide Size;
    hide Blocks;
    hide Page;
    hide Blk;
    assert page in live ==> IsLive(h, b, page, live[page]);
    assert page in b.big ==> IsLive(h, b, page, PAGE_SIZE * b.big[page]);
    forall size: nat
      ensures !IsLive(h, b, page, size)
    {
      if IsLive(h, b, page, size) {
        LivePositive(h, b, page, size);
        LiveInRun(h, b, page, size, page, m);
      }
    }
  }

  lemma LivePositive(h: Heap, b: Book, p: nat, size: nat)
    requires IsLive(h, b, p, size) && Apart(h, b)
    ensures size > 0
  {
  }

  lemma BigLive(h: Heap, b: Book, live: map<nat, nat>, page: nat, m: nat)
    requires LiveIs(h, b, live) && page !in live && page !in b.big && forall size: nat :: !IsLive(h, b, page, size)
    ensures LiveIs(h, b.(big := b.big[page := m]), live[page := PAGE_SIZE * m])
  {
    var b' := b.(big := b.big[page := m]);
    forall i: nat, n: nat
      ensures Taken(h, b', i, n) <==> Taken(h, b, i, n)
    {
    }
    hide Taken;
    hide BlockAddr;
    hide Size;
    hide Blk;
    forall p: nat, size: nat
      ensures IsLive(h, b', p, size) <==> IsLive(h, b, p, size) || (p == page && size == PAGE_SIZE * m)
    {
      if i: nat, n: nat :| IsBlock(h, b, p, size, i, n) {
        assert IsBlock(h, b', p, size, i, n);
      }
      if i: nat, n: nat :| IsBlock(h, b', p, size, i, n) {
        assert IsBlock(h, b, p, size, i, n);
      }
    }
    hide IsLive;
  }

  lemma BigHeld(h: Heap, b: Book, held: map<nat, nat>, page: nat, m: nat)
    requires HeldIs(h, b, held) && page !in held
    ensures HeldIs(h, b.(big := b.big[page := m]), held[page := m])
  {
    var b' := b.(big := b.big[page := m]);
    hide Page;
    forall a: nat, n: nat
      ensures IsRun(h, b', a, n) <==> (a != page && IsRun(h, b, a, n)) || (a == page && n == m)
    {
      NotHeldNoRun(h, b, held, page, n);
    }
  }

  lemma BigRemoved(h: Heap, b: Book, live: map<nat, nat>, held: map<nat, nat>, page: nat)
    requires HeapOk(h, b) && LiveIs(h, b, live) && HeldIs(h, b, held) && page in b.big
    ensures var b' := b.(big := b.big - {page});
      HeapOk(h, b') && LiveIs(h, b', live - {page}) && HeldIs(h, b', held - {page})
  {
    BigOutside(h, b, page);
    BigUnlive(h, b, live, page);
    BigUnheld(h, b, held, page);
  }

  lemma BigOutside(h: Heap, b: Book, page: nat)
    requires HeapOk(h, b) && page in b.big
    ensures HeapOk(h, b.(big := b.big - {page}))
  {
    hide Chain;
    hide PageOk;
    hide InUse;
    hide Page;
    hide Blk;
  }

  lemma BigUnlive(h: Heap, b: Book, live: map<nat, nat>, page: nat)
    requires LiveIs(h, b, live) && page in b.big && Apart(h, b)
    ensures LiveIs(h, b.(big := b.big - {page}), live - {page})
  {
    var b' := b.(big := b.big - {page});
    assert forall i: nat, n: nat :: Taken(h, b', i, n) <==> Taken(h, b, i, n);
    hide BlockAddr;
    hide Size;
    hide Blk;
    assert b.big[page] > 0;
    hide Apart;
    forall p: nat, size: nat
      ensures IsLive(h, b', p, size) <==> IsLive(h, b, p, size) && p != page
    {
      if i: nat, n: nat :| IsBlock(h, b, p, size, i, n) {
        assert IsBlock(h, b', p, size, i, n);
        BlockNotBig(h, b, i, n, page);
      }
      if i: nat, n: nat :| IsBlock(h, b', p, size, i, n) {
        assert IsBlock(h, b, p, size, i, n);
        BlockNotBig(h, b, i, n, page);
      }
    }
    hide IsLive;
  }

  lemma BigUnheld(h: Heap, b: Book, held: map<nat, nat>, page: nat)
    requires HeldIs(h, b, held) && page in b.big && Apart(h, b)
    ensures HeldIs(h, b.(big := b.big - {page}), held - {page})
  {
    var b' := b.(big := b.big - {page});
    hide Page;
    forall a: nat, n: nat
      ensures IsRun(h, b', a, n) <==> IsRun(h, b, a, n) && a != page
    {
      if i: nat :| i in b.fl && i < |h.prs| && Page(h.prs[i]) == page {
        assert RunsApart(page, 1, page, b.big[page]);
      }
    }
  }
}
