/** Each step of the allocator as a whole: what it does to the heap's structure, to
    the pieces that are allocated and to the pages that are held. */
module KheapSteps {
  import opened Bits
  import opened KheapState
  import opened KheapUpdate

  lemma BitSetInUse(inuse: seq<nat>, i: nat)
    requires |inuse| == NPAGEREFS / 32 && i < NPAGEREFS && forall x :: 0 <= x < |inuse| ==> inuse[x] < 0x1_0000_0000
    ensures var inuse' := inuse[i / 32 := WithBit(inuse[i / 32], i % 32)];
      (forall x :: 0 <= x < |inuse'| ==> inuse'[x] < 0x1_0000_0000)
      && forall j: nat :: j < NPAGEREFS ==> (InUse(inuse', j) <==> InUse(inuse, j) || j == i)
  {
    hide BitOf;
    hide WithBit;
    Pow2of32();
    WidthKept(inuse[i / 32], i % 32, 32);
    var inuse' := inuse[i / 32 := WithBit(inuse[i / 32], i % 32)];
    forall j: nat | j < NPAGEREFS
      ensures InUse(inuse', j) <==> InUse(inuse, j) || j == i
    {
      WithBitBits(inuse[i / 32], i % 32, j % 32);
    }
  }

  /** The same for bit j of word i. */
  lemma WordSetInUse(inuse: seq<nat>, i: nat, j: nat)
    requires |inuse| == NPAGEREFS / 32 && i < |inuse| && j < 32
    requires forall x :: 0 <= x < |inuse| ==> inuse[x] < 0x1_0000_0000
    ensures var inuse', r := inuse[i := WithBit(inuse[i], j)], 32 * i + j;
      && r < NPAGEREFS && (InUse(inuse, r) <==> BitOf(inuse[i], j))
      && (forall x :: 0 <= x < |inuse'| ==> inuse'[x] < 0x1_0000_0000)
      && forall y: nat :: y < NPAGEREFS ==> (InUse(inuse', y) <==> InUse(inuse, y) || y == r)
  {
    hide BitOf;
    hide WithBit;
    var r := 32 * i + j;
    assert r / 32 == i && r % 32 == j;
    BitSetInUse(inuse, r);
  }

  lemma BitClearInUse(inuse: seq<nat>, i: nat)
    requires |inuse| == NPAGEREFS / 32 && i < NPAGEREFS && forall x :: 0 <= x < |inuse| ==> inuse[x] < 0x1_0000_0000
    ensures var inuse' := inuse[i / 32 := WithoutBit(inuse[i / 32], i % 32)];
      (forall x :: 0 <= x < |inuse'| ==> inuse'[x] < 0x1_0000_0000)
      && forall j: nat :: j < NPAGEREFS ==> (InUse(inuse', j) <==> InUse(inuse, j) && j != i)
  {
    hide BitOf;
    hide WithoutBit;
    Pow2of32();
    WidthKept(inuse[i / 32], i % 32, 32);
    var inuse' := inuse[i / 32 := WithoutBit(inuse[i / 32], i % 32)];
    forall j: nat | j < NPAGEREFS
      ensures InUse(inuse', j) <==> InUse(inuse, j) && j != i
    {
      WithoutBitBits(inuse[i / 32], i % 32, j % 32);
    }
  }

  /** The number of pages kmalloc computes, in 32-bit arithmetic. */
  function PagesFor(sz: nat): nat {
    (sz + PAGE_SIZE - 1) % 0x1_0000_0000 / PAGE_SIZE
  }

  function Asked(sz: nat): nat {
    if sz >= LARGEST_SUBPAGE_SIZE then PagesFor(sz) else 1
  }

  /** kmalloc asks for enough pages exactly when rounding up does not wrap around. */
  lemma PagesEnough(sz: nat)
    requires sz < 0x1_0000_0000
    ensures sz <= PAGE_SIZE * PagesFor(sz) <==> sz + PAGE_SIZE - 1 < 0x1_0000_0000
  {
    if sz + PAGE_SIZE - 1 >= 0x1_0000_0000 {
      assert (sz + PAGE_SIZE - 1) % 0x1_0000_0000 == sz + PAGE_SIZE - 1 - 0x1_0000_0000;
    }
  }

  /** For the last 4095 sizes it asks for no page at all. */
  lemma NoPages(sz: nat)
    requires sz < 0x1_0000_0000
    ensures PagesFor(sz) == 0 <==> sz == 0 || sz + PAGE_SIZE - 1 >= 0x1_0000_0000
  {
    if sz + PAGE_SIZE - 1 >= 0x1_0000_0000 {
      assert (sz + PAGE_SIZE - 1) % 0x1_0000_0000 == sz + PAGE_SIZE - 1 - 0x1_0000_0000;
    }
  }

  /** The first of them. */
  lemma WrapsAround()
    ensures PagesFor(0xffff_f001) == 0 && Asked(0xffff_f001) == 0 && PagesFor(0xffff_f000) == 0xf_ffff
  {
    NoPages(0xffff_f001);
  }

  lemma SameInSelf(ram: seq<nat>, live: map<nat, nat>)
    ensures SameIn(ram, ram, live)
  {
  }

  lemma SameInLess(ram: seq<nat>, live: map<nat, nat>, p: nat)
    ensures SameIn(ram, ram, live - {p})
  {
  }

  lemma ZeroNotLive(h: Heap, b: Book, live: map<nat, nat>)
    requires HeapOk(h, b) && LiveIs(h, b, live)
    ensures 0 !in live
  {
    hide HeapOk;
    hide IsLive;
    if 0 in live {
      LiveNonzero(h, b, 0, live[0]);
    }
  }

  lemma LiveNonzero(h: Heap, b: Book, p: nat, size: nat)
    requires HeapOk(h, b) && IsLive(h, b, p, size)
    ensures p > 0
  {
    hide ListsOk;
    hide NoFreePage;
    hide FreeList;
    hide Page;
    hide Blk;
    hide Off;
    hide Size;
    hide Blocks;
    if i: nat, n: nat :| IsBlock(h, b, p, size, i, n) {
      assert PageOk(h.ram, h.prs[i], b.fl[i]);
    }
  }

  lemma HeldRuns(h: Heap, b: Book, held: map<nat, nat>)
    requires HeldIs(h, b, held)
    ensures forall a: nat :: a in held ==> IsRun(h, b, a, held[a])
  {
  }

  lemma BigAligned(h: Heap, b: Book, held: map<nat, nat>, a: nat)
    requires HeapOk(h, b) && HeldIs(h, b, held) && a in b.big
    ensures a > 0 && a % PAGE_SIZE == 0 && a in held
  {
    hide ListsOk;
    hide PagesOk;
    hide NoFreePage;
    assert IsRun(h, b, a, b.big[a]);
  }

  lemma Stored(h: Heap, b: Book, live: map<nat, nat>, held: map<nat, nat>, p: nat, ram: seq<nat>)
    requires p in live && SameOutside(h.ram, ram, p, p + live[p])
    requires HeapOk(h, b) && LiveIs(h, b, live) && HeldIs(h, b, held)
    ensures var h' := h.(ram := ram);
      HeapOk(h', b) && LiveIs(h', b, live) && HeldIs(h', b, held)
  {
    hide ListsOk;
    hide NoFreePage;
    hide Apart;
    hide IsLive;
    hide PageOk;
    hide SameOutside;
    var h' := h.(ram := ram);
    forall i: nat | i in b.fl
      ensures PageOk(ram, h.prs[i], b.fl[i])
    {
      StoreKeepsPage(h, b, p, live[p], ram, i);
    }
    LinksKept(h, h', b);
    HeldSame(h, b, h', b, held);
    forall q: nat, size: nat
      ensures IsLive(h', b, q, size) <==> IsLive(h, b, q, size)
    {
      SameLive(h, h', b, q, size);
    }
  }

  lemma LinksKept(h: Heap, h': Heap, b: Book)
    requires h' == h.(ram := h'.ram) && ListsOk(h, b) && NoFreePage(h, b) && Apart(h, b)
    ensures ListsOk(h', b) && NoFreePage(h', b) && Apart(h', b)
  {
    hide Chain;
    hide InUse;
    hide Distinct;
    hide Page;
    hide Blk;
    hide Blocks;
  }

  lemma StoreKeepsPage(h: Heap, b: Book, p: nat, size: nat, ram: seq<nat>, i: nat)
    requires HeapOk(h, b) && IsLive(h, b, p, size) && SameOutside(h.ram, ram, p, p + size) && i in b.fl
    ensures i < |h.prs| && PageOk(ram, h.prs[i], b.fl[i])
  {
    hide ListsOk;
    hide NoFreePage;
    hide Apart;
    hide IsLive;
    hide FreeList;
    hide Distinct;
    hide Page;
    hide Blk;
    hide Off;
    hide Blocks;
    hide Size;
    var pr, fl := h.prs[i], b.fl[i];
    assert PageOk(h.ram, pr, fl);
    forall k: nat | k < |fl|
      ensures CellOf(ram, pr, fl[k]) == CellOf(h.ram, pr, fl[k])
    {
      CellsNotLive(h, b, i, k, p, size);
      LinkWord(h.ram, pr, fl, fl[k]);
    }
    CellsKept(h.ram, ram, pr, fl);
  }

  lemma NotSubpage(h: Heap, b: Book, live: map<nat, nat>, p: nat)
    requires HeapOk(h, b) && LiveIs(h, b, live) && p in live
    requires forall i :: i in b.fl && i < |h.prs| ==> !(Page(h.prs[i]) <= p < Page(h.prs[i]) + PAGE_SIZE)
    ensures p in b.big
  {
    hide HeapOk;
    hide Page;
    hide Blk;
    hide Off;
    hide Blocks;
    hide Size;
    assert IsLive(h, b, p, live[p]);
    if i: nat, n: nat :| IsBlock(h, b, p, live[p], i, n) {
      OffsetFits(Blk(h.prs[i]), n);
    }
  }

  /** The page that holds a live address holds it as a block. */
  lemma WhichBlock(h: Heap, b: Book, live: map<nat, nat>, p: nat, i: nat) returns (n: nat)
    requires Apart(h, b) && LiveIs(h, b, live) && p in live
    requires i in b.fl && i < |h.prs| && Page(h.prs[i]) <= p < Page(h.prs[i]) + PAGE_SIZE && Blk(h.prs[i]) < NSIZES
    ensures Taken(h, b, i, n) && p == BlockAddr(h.prs[i], n) && p !in b.big && live[p] == Size(Blk(h.prs[i]))
  {
    hide Page;
    hide Blk;
    hide Off;
    hide Blocks;
    hide Size;
    assert p !in b.big by {
      assert p in b.big ==> RunsApart(Page(h.prs[i]), 1, p, b.big[p]);
    }
    assert IsLive(h, b, p, live[p]);
    var j: nat, m: nat :| IsBlock(h, b, p, live[p], j, m);
    OffsetFits(Blk(h.prs[j]), m);
    PagesAligned(h.prs[i], h.prs[j]);
    PagesAligned(h.prs[j], h.prs[i]);
    assert Page(h.prs[j]) == Page(h.prs[i]);
    n := m;
  }

  lemma BlockNumbers(pr: PageRef, n: nat)
    requires Blk(pr) < NSIZES && n < Blocks(Blk(pr))
    ensures BlockAddr(pr, n) % 4 == 0 && Size(Blk(pr)) % 4 == 0
    ensures BlockAddr(pr, n) + Size(Blk(pr)) <= Page(pr) + PAGE_SIZE
    ensures (BlockAddr(pr, n) - Page(pr)) % Size(Blk(pr)) == 0
  {
    hide Blk;
    hide Page;
    hide Off;
    hide Blocks;
    hide Size;
    OffsetFits(Blk(pr), n);
    BlockOffset(Blk(pr), n);
    PageWordAligned(pr);
    SizeInWords(Blk(pr));
  }

  lemma SizeInWords(k: nat)
    requires k < NSIZES
    ensures Size(k) % 4 == 0
  {
  }

  /** The alignment check of subpage_kfree passes for every live address. */
  lemma FreedBlock(h: Heap, b: Book, live: map<nat, nat>, p: nat, i: nat) returns (n: nat)
    requires i in b.fl && i < |h.prs| && Page(h.prs[i]) <= p < Page(h.prs[i]) + PAGE_SIZE && Blk(h.prs[i]) < NSIZES
    requires HeapOk(h, b) && LiveIs(h, b, live) && p in live
    ensures Taken(h, b, i, n) && p == BlockAddr(h.prs[i], n) && p !in b.big && live[p] == Size(Blk(h.prs[i]))
    ensures PageOk(h.ram, h.prs[i], b.fl[i])
    ensures p % 4 == 0 && Size(Blk(h.prs[i])) % 4 == 0 && p + Size(Blk(h.prs[i])) <= 4 * |h.ram|
    ensures (p - Page(h.prs[i])) % Size(Blk(h.prs[i])) == 0 && Page(h.prs[i]) > 0
  {
    hide ListsOk;
    hide NoFreePage;
    hide Apart;
    hide FreeList;
    hide Distinct;
    hide LiveIs;
    hide Page;
    hide Blk;
    hide Off;
    hide Blocks;
    hide Size;
    assert PageOk(h.ram, h.prs[i], b.fl[i]);
    hide PagesOk;
    n := WhichBlock(h, b, live, p, i);
    BlockNumbers(h.prs[i], n);
  }

  lemma BlockGiven(h: Heap, b: Book, live: map<nat, nat>, held: map<nat, nat>, i: nat, n: nat, ram: seq<nat>)
    requires |ram| == |h.ram| && Taken(h, b, i, n) && BlockAddr(h.prs[i], n) / 4 < |ram|
    requires ram[BlockAddr(h.prs[i], n) / 4] ==
      if h.prs[i].freeOff == INVALID_OFFSET then 0 else Page(h.prs[i]) + h.prs[i].freeOff
    requires var p, s := BlockAddr(h.prs[i], n), Size(Blk(h.prs[i]));
      p in live && live[p] == s && SameOutside(h.ram, ram, p, p + s)
    requires PageOk(h.ram, h.prs[i], b.fl[i])
    requires HeapOk(h, b) && LiveIs(h, b, live) && HeldIs(h, b, held)
    ensures var h', b' := GiveFirst(h, i, n, ram), b.(fl := b.fl[i := [n] + b.fl[i]]);
      && AlmostOk(h', b', i) && LiveIs(h', b', live - {BlockAddr(h.prs[i], n)}) && HeldIs(h', b', held)
      && SameIn(h.ram, ram, live - {BlockAddr(h.prs[i], n)})
  {
    hide LiveIs;
    hide HeldIs;
    hide Off;
    hide Size;
    hide Blocks;
    hide ListsOk;
    hide NoFreePage;
    hide PagesOk;
    hide Distinct;
    var pr, fl, p := h.prs[i], b.fl[i], BlockAddr(h.prs[i], n);
    LinkWord(h.ram, pr, fl, n);
    hide SameOutside;
    assert CellOf(ram, pr, n) == NextCell(pr, fl);
    BlockWrites(h, b, live, p, ram);
    GiveBlock(h, b, i, n, ram);
    hide PageOk;
    hide AlmostOk;
    hide CellOf;
    hide NextCell;
    GivenOne(h, b, i, n, ram);
    var h', b' := GiveFirst(h, i, n, ram), b.(fl := b.fl[i := [n] + b.fl[i]]);
    HeldSame(h, b, h', b', held);
    hide HeapOk;
    GivenLive(h, b, h', b', live, i, n);
  }

  lemma LinkWord(ram: seq<nat>, pr: PageRef, fl: seq<nat>, n: nat)
    requires PageOk(ram, pr, fl) && n < Blocks(Blk(pr))
    ensures 4 * (BlockAddr(pr, n) / 4) == BlockAddr(pr, n) && BlockAddr(pr, n) / 4 < |ram|
    ensures NextCell(pr, fl) == if pr.freeOff == INVALID_OFFSET then 0 else Page(pr) + pr.freeOff
  {
    hide Off;
    hide Size;
    hide Blocks;
    hide Distinct;
    BlockWord(pr, n, |ram|);
    hide Page;
    hide Blk;
    if fl != [] {
      OffsetFits(Blk(pr), fl[0]);
    }
  }

  lemma GivenOne(h: Heap, b: Book, i: nat, n: nat, ram: seq<nat>)
    requires Taken(h, b, i, n)
    ensures var h', b' := GiveFirst(h, i, n, ram), b.(fl := b.fl[i := [n] + b.fl[i]]);
      OneBlock(h, b, h', b', i, n) && n in b'.fl[i]
  {
    hide Off;
    hide Blk;
    var fl := b.fl[i];
    assert ([n] + fl)[0] == n;
  }

  lemma GivenLive(h: Heap, b: Book, h': Heap, b': Book, live: map<nat, nat>, i: nat, n: nat)
    requires OneBlock(h, b, h', b', i, n) && Taken(h, b, i, n) && n in b'.fl[i] && Apart(h, b) && LiveIs(h, b, live)
    ensures LiveIs(h', b', live - {BlockAddr(h.prs[i], n)})
  {
    hide IsLive;
    hide Apart;
    hide OneBlock;
    hide Off;
    hide Size;
    hide Blk;
    hide Page;
    var p := BlockAddr(h.prs[i], n);
    assert IsLive(h, b, p, Size(Blk(h.prs[i]))) by {
      BlockIsLive(h, b, i, n);
    }
    forall q: nat, size: nat
      ensures IsLive(h', b', q, size) <==> IsLive(h, b, q, size) && q != p
    {
      LiveAfterGive(h, b, h', b', i, n, q, size);
    }
  }

  lemma BlockIsLive(h: Heap, b: Book, i: nat, n: nat)
    requires Taken(h, b, i, n)
    ensures IsLive(h, b, BlockAddr(h.prs[i], n), Size(Blk(h.prs[i])))
  {
    assert IsBlock(h, b, BlockAddr(h.prs[i], n), Size(Blk(h.prs[i])), i, n);
  }

  /** A page never has more free blocks than blocks; short of that nothing is amiss. */
  lemma PageFilled(h: Heap, b: Book, i: nat)
    requires AlmostOk(h, b, i) && i in b.fl
    ensures i < |h.prs| && Blk(h.prs[i]) < NSIZES && h.prs[i].nfree <= Blocks(Blk(h.prs[i]))
    ensures h.prs[i].nfree < Blocks(Blk(h.prs[i])) ==> HeapOk(h, b)
  {
    hide ListsOk;
    hide Apart;
    hide FreeList;
    hide Blocks;
    hide Blk;
    hide Distinct;
    assert PageOk(h.ram, h.prs[i], b.fl[i]);
    ListBound(b.fl[i], Blocks(Blk(h.prs[i])));
  }

  lemma HeldPage(h: Heap, b: Book, held: map<nat, nat>, i: nat)
    requires HeldIs(h, b, held) && i in b.fl && i < |h.prs|
    ensures Page(h.prs[i]) in held && held[Page(h.prs[i])] == 1
  {
    assert IsRun(h, b, Page(h.prs[i]), 1);
  }

  ghost predicate OnLists(h: Heap, b: Book, i: nat, k: nat) {
    && Shape(h) && |b.same| == NSIZES && i < NPAGEREFS && k < NSIZES
    && i in b.all && i in b.same[k] && InUse(h.inuse, i)
    && Distinct(b.all) && Chain(h.prs, false, h.allbase, b.all)
    && Distinct(b.same[k]) && Chain(h.prs, true, h.sizebases[k], b.same[k])
  }

  lemma DropReady(h: Heap, b: Book, i: nat, k: nat)
    requires i in b.fl && i < |h.prs| && k < NSIZES && Blk(h.prs[i]) == k && AlmostOk(h, b, i)
    ensures ListsOk(h, b) && OnLists(h, b, i, k)
  {
    hide InUse;
    hide Distinct;
    hide Chain;
    hide Blk;
    hide PageOk;
    hide Apart;
  }

  /** Unlinking from one size class leaves the other lists alone. */
  lemma SameAside(h: Heap, b: Book, prs: seq<PageRef>, sizebases: seq<int>, k: nat)
    requires ListsOk(h, b) && k < NSIZES && |prs| == |h.prs| && |sizebases| == NSIZES
    requires forall m: nat :: m < NSIZES && m != k ==> sizebases[m] == h.sizebases[m]
    requires forall j: nat :: j < |prs| ==> prs[j] == h.prs[j].(nextSame := prs[j].nextSame)
    requires forall j: nat :: j < |prs| && j !in b.same[k] ==> prs[j] == h.prs[j]
    ensures Chain(prs, false, h.allbase, b.all)
    ensures forall m: nat :: m < NSIZES && m != k ==> Chain(prs, true, sizebases[m], b.same[m])
  {
    hide InUse;
    hide Distinct;
    hide Chain;
    hide Blk;
    forall j: nat | j < |prs|
      ensures Next(prs[j], false) == Next(h.prs[j], false)
    {
      assert prs[j] == h.prs[j].(nextSame := prs[j].nextSame);
    }
    ChainKept(h.prs, prs, false, h.allbase, b.all);
    forall m: nat | m < NSIZES && m != k
      ensures Chain(prs, true, sizebases[m], b.same[m])
    {
      forall j: nat | j < NPAGEREFS && j in b.same[m]
        ensures j !in b.same[k]
      {
        assert Blk(h.prs[j]) == m;
      }
      ChainKept(h.prs, prs, true, h.sizebases[m], b.same[m]);
    }
  }

  /** Unlinking from the list of all records leaves the lists by size alone. */
  lemma AllAside(b: Book, prs: seq<PageRef>, prs': seq<PageRef>, sizebases: seq<int>, k: nat, list: seq<nat>)
    requires k < NSIZES && |b.same| == NSIZES && |prs'| == |prs| && |sizebases| == NSIZES
    requires Chain(prs, true, sizebases[k], list)
    requires forall m: nat :: m < NSIZES && m != k ==> Chain(prs, true, sizebases[m], b.same[m])
    requires forall j: nat :: j < |prs'| ==> prs'[j] == prs[j].(nextAll := prs'[j].nextAll)
    ensures Chain(prs', true, sizebases[k], list)
    ensures forall m: nat :: m < NSIZES && m != k ==> Chain(prs', true, sizebases[m], b.same[m])
  {
    hide Chain;
    forall j: nat | j < |prs|
      ensures Next(prs'[j], true) == Next(prs[j], true)
    {
      assert prs'[j] == prs[j].(nextAll := prs'[j].nextAll);
    }
    ChainKept(prs, prs', true, sizebases[k], list);
    forall m: nat | m < NSIZES && m != k
      ensures Chain(prs', true, sizebases[m], b.same[m])
    {
      ChainKept(prs, prs', true, sizebases[m], b.same[m]);
    }
  }

  lemma PageDropped(h: Heap, h': Heap, b: Book, live: map<nat, nat>, held: map<nat, nat>,
                    i: nat, k: nat, x: nat, y: nat)
    requires |b.same| == NSIZES && k < NSIZES && x < |b.all| && y < |b.same[k]| && b.all[x] == i == b.same[k][y]
    requires Shape(h) && Shape(h') && SameButLinks(h.prs, h'.prs) && h'.ram == h.ram
    requires Chain(h'.prs, false, h'.allbase, Without(b.all, x))
    requires Chain(h'.prs, true, h'.sizebases[k], Without(b.same[k], y))
    requires forall m: nat :: m < NSIZES && m != k ==> Chain(h'.prs, true, h'.sizebases[m], b.same[m])
    requires forall j: nat :: j < NPAGEREFS ==> (InUse(h'.inuse, j) <==> InUse(h.inuse, j) && j != i)
    requires i in b.fl && i < |h.prs| && Blk(h.prs[i]) == k && h.prs[i].nfree == Blocks(k)
    requires AlmostOk(h, b, i) && LiveIs(h, b, live) && HeldIs(h, b, held)
    ensures var b' := WithoutPageBook(b, i, k, x, y);
      HeapOk(h', b') && LiveIs(h', b', live) && HeldIs(h', b', held - {Page(h.prs[i])})
  {
    hide InUse;
    hide Chain;
    hide Off;
    hide Blocks;
    hide Page;
    hide Blk;
    hide LiveIs;
    hide HeldIs;
    hide ListsOk;
    hide SameButLinks;
    assert PageOk(h.ram, h.prs[i], b.fl[i]);
    AllFree(b.fl[i], Blocks(k));
    hide PagesOk;
    hide PageOk;
    hide Distinct;
    DropPageLists(h, h', b, i, k, x, y);
    DropPageRest(h, h', b, i, k, x, y);
    hide AlmostOk;
    hide NoFreePage;
    var b' := WithoutPageBook(b, i, k, x, y);
    HeldAfterDrop(h, h', b, b', held, i);
    DroppedLive(h, h', b, live, i, k, x, y);
  }

  lemma DroppedLive(h: Heap, h': Heap, b: Book, live: map<nat, nat>, i: nat, k: nat, x: nat, y: nat)
    requires k < |b.same| && x < |b.all| && y < |b.same[k]|
    requires i in b.fl && i < |h.prs| && Blk(h.prs[i]) < NSIZES && SameButLinks(h.prs, h'.prs)
    requires forall n: nat :: n < Blocks(Blk(h.prs[i])) ==> n in b.fl[i]
    requires LiveIs(h, b, live)
    ensures LiveIs(h', WithoutPageBook(b, i, k, x, y), live)
  {
    hide IsLive;
    hide Without;
    hide SameButLinks;
    hide Blk;
    hide Blocks;
    var b' := WithoutPageBook(b, i, k, x, y);
    forall p: nat, size: nat
      ensures IsLive(h', b', p, size) <==> IsLive(h, b, p, size)
    {
      LiveAfterDrop(h, h', b, i, k, x, y, p, size);
    }
  }

  lemma UnheldAligned(held: map<nat, nat>, page: nat, m: nat)
    requires Unheld(held, page, m)
    ensures page % PAGE_SIZE == 0
  {
  }

  lemma RecordUsable(h: Heap, b: Book, k: nat, i: nat)
    requires HeapOk(h, b) && k < |b.same| && i in b.same[k] && i < NPAGEREFS
    ensures AlmostOk(h, b, i) && i in b.fl && i < |h.prs| && Blk(h.prs[i]) == k < NSIZES
  {
    hide Chain;
    hide PageOk;
    hide InUse;
    hide Apart;
    hide Distinct;
    hide Blk;
    assert i in b.all;
  }

  lemma RefsUsable(h: Heap, b: Book)
    requires HeapOk(h, b)
    ensures Shape(h) && |b.same| == NSIZES
  {
  }

  /** Bitmaps with the same bits serve alike. */
  lemma SameRefs(h: Heap, b: Book, inuse: seq<nat>, live: map<nat, nat>, held: map<nat, nat>)
    requires HeapOk(h, b) && LiveIs(h, b, live) && HeldIs(h, b, held) && Shape(h.(inuse := inuse))
    requires forall j: nat :: j < NPAGEREFS ==> (InUse(inuse, j) <==> InUse(h.inuse, j))
    ensures var h' := h.(inuse := inuse);
      HeapOk(h', b) && LiveIs(h', b, live) && HeldIs(h', b, held)
  {
    hide Chain;
    hide PageOk;
    hide InUse;
    hide Distinct;
    hide Blk;
    hide Page;
    var h' := h.(inuse := inuse);
    assert ListsOk(h', b);
    assert Apart(h', b);
    hide ListsOk;
    hide Apart;
    forall p: nat, size: nat
      ensures IsLive(h', b, p, size) <==> IsLive(h, b, p, size)
    {
      SameLive(h, h', b, p, size);
    }
    hide IsLive;
    forall a: nat, m: nat
      ensures IsRun(h', b, a, m) <==> IsRun(h, b, a, m)
    {
    }
  }

  lemma SameLive(h: Heap, h': Heap, b: Book, p: nat, size: nat)
    requires h'.prs == h.prs
    ensures IsLive(h', b, p, size) <==> IsLive(h, b, p, size)
  {
    hide Blk;
    hide BlockAddr;
    hide Size;
    hide Blocks;
    if i: nat, n: nat :| IsBlock(h, b, p, size, i, n) {
      assert IsBlock(h', b, p, size, i, n);
    }
    if i: nat, n: nat :| IsBlock(h', b, p, size, i, n) {
      assert IsBlock(h, b, p, size, i, n);
    }
  }

  lemma PageAdded(h: Heap, b: Book, live: map<nat, nat>, held: map<nat, nat>,
                  i: nat, page: nat, k: nat, inuse: seq<nat>, ram: seq<nat>)
    requires k < NSIZES && i < NPAGEREFS && |inuse| == |h.inuse| == NPAGEREFS / 32 && !InUse(h.inuse, i)
    requires forall x :: 0 <= x < |inuse| ==> inuse[x] < 0x1_0000_0000
    requires forall j: nat :: j < NPAGEREFS ==> (InUse(inuse, j) <==> InUse(h.inuse, j) || j == i)
    requires Unheld(held, page, 1) && page + PAGE_SIZE <= 4 * |h.ram|
    requires SameOutside(h.ram, ram, page, page + PAGE_SIZE) && Threaded(ram, page, k, Blocks(k))
    requires HeapOk(h, b) && LiveIs(h, b, live) && HeldIs(h, b, held)
    ensures |h.sizebases| == NSIZES && |b.same| == NSIZES && |h.prs| == NPAGEREFS
    ensures var h', b' := WithPage(h, i, page, k, inuse, ram), WithPageBook(b, i, k);
      && i in b'.fl && h'.prs[i].nfree > 0 && Blk(h'.prs[i]) == k
      && AlmostOk(h', b', i) && LiveIs(h', b', live) && HeldIs(h', b', held[page := 1])
      && SameIn(h.ram, ram, live)
  {
    hide LiveIs;
    hide HeldIs;
    hide Off;
    hide Blocks;
    hide InUse;
    hide Chain;
    hide Distinct;
    hide Apart;
    hide PageOk;
    hide Descending;
    assert i !in b.all && i !in b.fl;
    assert page % PAGE_SIZE == 0;
    hide Unheld;
    UnheldFresh(h, b, held, page, 1);
    FreshWrites(h, b, live, page, ram);
    AddPageLists(h, b, i, page, k, inuse, ram);
    hide ListsOk;
    AddPageApart(h, b, i, page, k, inuse, ram);
    NewRecordReads(h, page, k, ram);
    hide FreshRun;
    hide SameOutside;
    AddPagePages(h, b, i, page, k, inuse, ram);
    hide Threaded;
    HeldAfterAdd(h, b, held, i, page, k, inuse, ram);
    AddedLive(h, b, live, i, page, k, inuse, ram);
    hide PagesOk;
    AddedFull(h, b, i, page, k, inuse, ram);
  }

  lemma AddedFull(h: Heap, b: Book, i: nat, page: nat, k: nat, inuse: seq<nat>, ram: seq<nat>)
    requires NoFreePage(h, b) && k < NSIZES && k < |b.same| && |h.sizebases| == NSIZES && i < |h.prs|
    ensures var h', b' := WithPage(h, i, page, k, inuse, ram), WithPageBook(b, i, k);
      forall j: nat :: j in b'.fl && j != i && j < |h'.prs| && Blk(h'.prs[j]) < NSIZES ==>
        |b'.fl[j]| < Blocks(Blk(h'.prs[j]))
  {
    hide Blk;
    hide Blocks;
    hide Off;
    hide Mkpab;
    hide Descending;
  }

  lemma AddedLive(h: Heap, b: Book, live: map<nat, nat>, i: nat, page: nat, k: nat, inuse: seq<nat>, ram: seq<nat>)
    requires i !in b.fl && i < |h.prs| && |h.sizebases| == NSIZES && k < NSIZES && k < |b.same| && page % PAGE_SIZE == 0
    requires LiveIs(h, b, live)
    ensures LiveIs(WithPage(h, i, page, k, inuse, ram), WithPageBook(b, i, k), live)
  {
    hide IsLive;
    hide Off;
    hide Blocks;
    hide Mkpab;
    hide Descending;
    forall p: nat, size: nat
      ensures IsLive(WithPage(h, i, page, k, inuse, ram), WithPageBook(b, i, k), p, size) <==> IsLive(h, b, p, size)
    {
      LiveAfterAdd(h, b, i, page, k, inuse, ram, p, size);
    }
  }

  /** The record of a new page says where its threaded blocks are. */
  lemma NewRecordReads(h: Heap, page: nat, k: nat, ram: seq<nat>)
    requires k < NSIZES && |h.sizebases| == NSIZES && page % PAGE_SIZE == 0
    requires page + PAGE_SIZE <= 4 * |ram| && Threaded(ram, page, k, Blocks(k))
    ensures var pr := NewRecord(h, page, k);
      Blk(pr) == k && Page(pr) == page && forall m: nat :: m < Blocks(k) ==>
        CellOf(ram, pr, m) == if m == 0 then 0 else BlockAddr(pr, m - 1)
  {
    hide Off;
    hide Blocks;
    var pr := NewRecord(h, page, k);
    assert Blk(pr) == k && Page(pr) == page;
    hide Blk;
    hide Page;
  }

  /** Every page of size class k is full. */
  ghost predicate NoRoom(h: Heap, b: Book, k: nat) {
    k < |b.same| && forall i :: i in b.same[k] ==> i < |h.prs| && h.prs[i].nfree == 0
  }

  ghost predicate AllInUse(inuse: seq<nat>) {
    |inuse| == NPAGEREFS / 32 && forall i: nat :: i < NPAGEREFS ==> InUse(inuse, i)
  }

  /** The first words of the first n blocks each point to the block before. */
  ghost predicate Threaded(ram: seq<nat>, page: nat, k: nat, n: nat)
    requires k < NSIZES
  {
    forall m: nat :: m < n ==>
      (page + Off(k, m)) / 4 < |ram| && ram[(page + Off(k, m)) / 4] == if m == 0 then 0 else page + Off(k, m - 1)
  }

  lemma WordIndex(page: nat, a: nat)
    requires page % PAGE_SIZE == 0 && a % 4 == 0
    ensures 4 * ((page + a) / 4) == page + a
  {
    var p, x := page / PAGE_SIZE, a / 4;
    assert page + a == 4 * (1024 * p + x);
  }

  lemma OffsetZero(k: nat)
    requires k < NSIZES
    ensures Off(k, 0) == 0
  {
  }

  lemma CellIndex(page: nat, k: nat, m: nat, n: nat)
    requires k < NSIZES && page % PAGE_SIZE == 0 && m <= n < Blocks(k)
    ensures Off(k, 0) == 0 && 4 * ((page + Off(k, n)) / 4) == page + Off(k, n) && Off(k, n) < PAGE_SIZE
    ensures m < n ==> Off(k, m) < Off(k, n) && (page + Off(k, m)) / 4 < (page + Off(k, n)) / 4
  {
    hide Off;
    hide Size;
    hide Blocks;
    OffsetZero(k);
    OffsetFits(k, n);
    OffsetFits(k, m);
    OffsetsApart(k, m, n);
    WordIndex(page, Off(k, m));
    WordIndex(page, Off(k, n));
  }

  ghost predicate Threading(ram0: seq<nat>, ram: seq<nat>, page: nat, k: nat, n: nat)
    requires k < NSIZES
  {
    && page % PAGE_SIZE == 0 && page + PAGE_SIZE <= 4 * |ram|
    && SameOutside(ram0, ram, page, page + PAGE_SIZE) && Threaded(ram, page, k, n)
  }

  lemma ThreadStart(ram: seq<nat>, page: nat, k: nat)
    requires k < NSIZES && page % PAGE_SIZE == 0 && page + PAGE_SIZE <= 4 * |ram|
    ensures Off(k, 0) == 0 && page / 4 < |ram| && Threading(ram, ram[page / 4 := 0], page, k, 1)
  {
    ThreadStep(ram, ram, page, k, 0);
  }

  lemma ThreadDone(ram0: seq<nat>, ram: seq<nat>, page: nat, k: nat)
    requires k < NSIZES && Threading(ram0, ram, page, k, Blocks(k))
    ensures SameOutside(ram0, ram, page, page + PAGE_SIZE) && Threaded(ram, page, k, Blocks(k))
  {
  }

  lemma ThreadStep(ram0: seq<nat>, ram: seq<nat>, page: nat, k: nat, n: nat)
    requires k < NSIZES && n < Blocks(k) && Threading(ram0, ram, page, k, n)
    ensures (page + Off(k, n)) / 4 < |ram| && Off(k, 0) == 0 && (n > 0 ==> Off(k, n) != Off(k, n - 1))
    ensures Threading(ram0, ram[(page + Off(k, n)) / 4 := if n == 0 then 0 else page + Off(k, n - 1)], page, k, n + 1)
  {
    hide Off;
    hide Size;
    hide Blocks;
    CellIndex(page, k, if n > 0 then n - 1 else 0, n);
    var ram' := ram[(page + Off(k, n)) / 4 := if n == 0 then 0 else page + Off(k, n - 1)];
    forall m: nat | m < n + 1
      ensures (page + Off(k, m)) / 4 < |ram'|
      ensures ram'[(page + Off(k, m)) / 4] == if m == 0 then 0 else page + Off(k, m - 1)
    {
      CellIndex(page, k, m, m);
      CellIndex(page, k, m, n);
    }
  }

  function Popped(pr: PageRef, next: nat): PageRef
    requires pr.nfree > 0
  {
    pr.(nfree := pr.nfree - 1,
        freeOff := if next == 0 then INVALID_OFFSET else if next >= Page(pr) then next - Page(pr) else 0)
  }

  lemma PageMultiple(pr: PageRef, off: nat)
    requires off < PAGE_SIZE
    ensures Page(pr) % PAGE_SIZE == 0 && (Page(pr) + off) % PAGE_SIZE == off
  {
  }

  lemma WordOffset(page: nat, off: nat, words: nat)
    requires page % PAGE_SIZE == 0 && off % 4 == 0 && off < PAGE_SIZE && page + PAGE_SIZE <= 4 * words
    ensures (page + off) % 4 == 0 && (page + off) / 4 < words
  {
    var p, x := page / PAGE_SIZE, off / 4;
    assert page + off == 4 * (1024 * p + x);
  }

  lemma BlockWord(pr: PageRef, n: nat, words: nat)
    requires Blk(pr) < NSIZES && n < Blocks(Blk(pr)) && Page(pr) + PAGE_SIZE <= 4 * words
    ensures Off(Blk(pr), n) < PAGE_SIZE && BlockAddr(pr, n) % PAGE_SIZE % Size(Blk(pr)) == 0
    ensures BlockAddr(pr, n) % 4 == 0 && BlockAddr(pr, n) / 4 < words
  {
    hide Page;
    hide Blk;
    hide Off;
    hide Size;
    hide Blocks;
    OffsetFits(Blk(pr), n);
    BlockOffset(Blk(pr), n);
    PageMultiple(pr, Off(Blk(pr), n));
    WordOffset(Page(pr), Off(Blk(pr), n), words);
  }

  /** What the first free block of a page and the word in it say. */
  lemma FirstCell(ram: seq<nat>, pr: PageRef, fl: seq<nat>)
    requires PageOk(ram, pr, fl) && pr.nfree > 0
    ensures fl != [] && pr.freeOff < PAGE_SIZE
    ensures var ptr := Page(pr) + pr.freeOff;
      && ptr == BlockAddr(pr, fl[0])
      && 0 < ptr && ptr % 4 == 0 && ptr / 4 < |ram| && ptr % PAGE_SIZE % Size(Blk(pr)) == 0
      && ram[ptr / 4] == CellOf(ram, pr, fl[0])
      && (if ram[ptr / 4] == 0 then pr.nfree == 1
          else pr.nfree > 1 && Page(pr) <= ram[ptr / 4] < Page(pr) + PAGE_SIZE)
  {
    hide Off;
    hide Blocks;
    hide Size;
    hide Distinct;
    hide Page;
    hide Blk;
    var n := fl[0];
    BlockWord(pr, n, |ram|);
    assert CellOf(ram, pr, n) == NextCell(pr, fl[1..]);
    if |fl| > 1 {
      OffsetFits(Blk(pr), fl[1]);
    }
  }

  /** What taking that block does. */
  lemma FirstFree(h: Heap, b: Book, live: map<nat, nat>, held: map<nat, nat>, i: nat)
    requires AlmostOk(h, b, i) && LiveIs(h, b, live) && HeldIs(h, b, held)
    requires i in b.fl && i < |h.prs| && h.prs[i].nfree > 0 && Blk(h.prs[i]) < NSIZES
    ensures b.fl[i] != [] && h.prs[i].freeOff < PAGE_SIZE
    ensures var pr := h.prs[i];
      var ptr := Page(pr) + pr.freeOff;
      && 0 < ptr && ptr % 4 == 0 && ptr / 4 < |h.ram| && ptr % PAGE_SIZE % Size(Blk(pr)) == 0 && ptr !in live
      && (if h.ram[ptr / 4] == 0 then pr.nfree == 1
          else pr.nfree > 1 && Page(pr) <= h.ram[ptr / 4] < Page(pr) + PAGE_SIZE)
      && var h', b' := h.(prs := h.prs[i := Popped(pr, h.ram[ptr / 4])]), b.(fl := b.fl[i := b.fl[i][1..]]);
      HeapOk(h', b') && LiveIs(h', b', live[ptr := Size(Blk(pr))]) && HeldIs(h', b', held)
  {
    hide ListsOk;
    hide Apart;
    hide Off;
    hide Blocks;
    hide Size;
    hide LiveIs;
    hide HeapOk;
    hide Page;
    hide Blk;
    hide HeldIs;
    var pr, fl := h.prs[i], b.fl[i];
    assert PageOk(h.ram, pr, fl);
    assert fl[0] in fl;
    TakenOne(h, b, i);
    hide PageOk;
    hide PagesOk;
    hide BlockAddr;
    FirstCell(h.ram, pr, fl);
    TakeBlock(h, b, i);
    hide CellOf;
    HeldSame(h, b, TakeFirst(h, i, fl[0]), b.(fl := b.fl[i := fl[1..]]), held);
    hide OneBlock;
    TakenLive(h, b, TakeFirst(h, i, fl[0]), b.(fl := b.fl[i := fl[1..]]), live, i, fl[0]);
    assert TakeFirst(h, i, fl[0]).prs[i] == Popped(pr, h.ram[(Page(pr) + pr.freeOff) / 4]);
  }

  lemma TakenOne(h: Heap, b: Book, i: nat)
    requires PagesOk(h, b) && i in b.fl && b.fl[i] != []
    ensures PageOk(h.ram, h.prs[i], b.fl[i])
    ensures var n := b.fl[i][0];
      var h', b' := TakeFirst(h, i, n), b.(fl := b.fl[i := b.fl[i][1..]]);
      OneBlock(h, b, h', b', i, n) && n !in b'.fl[i]
  {
    hide Off;
    hide Blocks;
    hide Size;
    hide FreeList;
    var fl := b.fl[i];
    assert PageOk(h.ram, h.prs[i], fl);
    assert forall m :: m in fl[1..] <==> m in fl && m != fl[0] by {
      assert fl[1..] == Without(fl, 0);
      DistinctWithout(fl, 0);
    }
  }

  lemma TakenLive(h: Heap, b: Book, h': Heap, b': Book, live: map<nat, nat>, i: nat, n: nat)
    requires LiveIs(h, b, live) && OneBlock(h, b, h', b', i, n) && Apart(h, b)
    requires Blk(h.prs[i]) < NSIZES && n < Blocks(Blk(h.prs[i])) && n in b.fl[i] && n !in b'.fl[i]
    ensures BlockAddr(h.prs[i], n) !in live
    ensures LiveIs(h', b', live[BlockAddr(h.prs[i], n) := Size(Blk(h.prs[i]))])
  {
    hide Off;
    hide Size;
    hide Blocks;
    hide Apart;
    hide IsLive;
    var p := BlockAddr(h.prs[i], n);
    assert p in live ==> IsLive(h, b, p, live[p]);
    FreeNotLive(h, b, i, n);
    var live' := live[p := Size(Blk(h.prs[i]))];
    forall q: nat, size: nat
      ensures q in live' && live'[q] == size <==> IsLive(h', b', q, size)
    {
      LiveAfterTake(h, b, h', b', i, n, q, size);
      assert IsLive(h, b, p, size) ==> p in live;
    }
  }

  lemma FreeNotLive(h: Heap, b: Book, i: nat, n: nat)
    requires Apart(h, b) && i in b.fl && i < |h.prs| && Blk(h.prs[i]) < NSIZES
    requires n < Blocks(Blk(h.prs[i])) && n in b.fl[i]
    ensures forall size: nat :: !IsLive(h, b, BlockAddr(h.prs[i], n), size)
  {
    hide Off;
    hide Size;
    hide Blocks;
    assert forall a: nat :: a in b.big ==> b.big[a] > 0;
    hide Apart;
    var p := BlockAddr(h.prs[i], n);
    forall size: nat
      ensures !IsLive(h, b, p, size)
    {
      if IsLive(h, b, p, size) {
        if j: nat, m: nat :| IsBlock(h, b, p, size, j, m) {
          BlocksApart(h, b, i, n, j, m);
        } else {
          BlockNotBig(h, b, i, n, p);
        }
      }
    }
  }
}
