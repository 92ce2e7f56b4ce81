/** The kernel heap allocator (kern/lib/kheap.c). The page allocator underneath is
    the caller's: `page` is what alloc_kpages would return, 0 when it has none. */
module Kheap {
  import opened Bits
  import opened KheapState
  import opened KheapUpdate
  import opened KheapSteps

  /** Class k is the smallest that holds sz bytes. */
  predicate Fits(sz: nat, k: nat) {
    k < NSIZES && sz <= Size(k) && forall j: nat :: j < k ==> Size(j) < sz
  }

  lemma FitsOnce(sz: nat, k: nat, k': nat)
    requires Fits(sz, k) && Fits(sz, k')
    ensures k == k'
  {
  }

  /** The size class of a request, blocktype(). */
  method BlockType(sz: nat) returns (k: nat)
    requires sz <= LARGEST_SUBPAGE_SIZE
    ensures Fits(sz, k)
  {
    k := 0;
    while sz > Size(k)
      invariant 0 <= k < NSIZES && forall j: nat :: j < k ==> Size(j) < sz
      decreases NSIZES - k
    {
      k := k + 1;
    }
  }

  class KernelHeap {
    var prs: seq<PageRef>
    var inuse: seq<nat>
    var sizebases: seq<int>
    var allbase: int
    var ram: seq<nat>
    ghost var book: Book
    /** The size of each allocated piece, by address. */
    ghost var live: map<nat, nat>
    /** The runs of pages obtained from the page allocator and not returned. */
    ghost var held: map<nat, nat>

    ghost function H(): Heap
      reads this
    {
      Heap(prs, inuse, sizebases, allbase, ram)
    }

    ghost predicate Valid()
      reads this
    {
      HeapOk(H(), book) && LiveIs(H(), book, live) && HeldIs(H(), book, held)
    }

    constructor (ram: seq<nat>)
      ensures Valid() && live == map[] && held == map[] && this.ram == ram
    {
      prs := seq(NPAGEREFS, _ => PageRef(NIL, NIL, 0, 0, 0));
      inuse := seq(NPAGEREFS / 32, _ => 0);
      sizebases := seq(NSIZES, _ => NIL);
      allbase := NIL;
      this.ram := ram;
      book := Book([], seq(NSIZES, _ => []), map[], map[]);
      live := map[];
      held := map[];
      new;
      forall i: nat | i < NPAGEREFS
        ensures !InUse(inuse, i)
      {
        NoBits(i % 32);
      }
      assert ListsOk(H(), book);
    }

    /** allocpageref: the first clear bit. */
    method AllocPageRef() returns (r: int)
      requires Shape(H())
      modifies this`inuse
      ensures Shape(H()) && NIL <= r < NPAGEREFS
      ensures r == NIL ==> inuse == old(inuse) && forall i: nat :: i < NPAGEREFS ==> InUse(inuse, i)
      ensures r != NIL ==> !InUse(old(inuse), r)
      ensures r != NIL ==> forall j: nat :: j < NPAGEREFS ==> (InUse(inuse, j) <==> InUse(old(inuse), j) || j == r)
    {
      hide BitOf;
      hide WithBit;
      var i := 0;
      while i < NPAGEREFS / 32
        invariant 0 <= i <= NPAGEREFS / 32 && inuse == old(inuse)
        invariant forall j: nat :: j < 32 * i ==> InUse(inuse, j)
      {
        if inuse[i] != 0xffff_ffff {
          Pow2of32();
          HasClearBit(inuse[i], 32);
          var j := 0;
          while BitOf(inuse[i], j)
            invariant 0 <= j < 32 && inuse == old(inuse)
            invariant exists k :: j <= k < 32 && !BitOf(inuse[i], k)
            decreases 32 - j
          {
            j := j + 1;
          }
          r := 32 * i + j;
          WordSetInUse(inuse, i, j);
          inuse := inuse[i := WithBit(inuse[i], j)];
          return;
        }
        Pow2of32();
        forall j: nat | 32 * i <= j < 32 * i + 32
          ensures InUse(inuse, j)
        {
          AllOnes(32, j % 32);
        }
        i := i + 1;
      }
      r := NIL;
    }

    /** freepageref */
    method FreePageRef(i: nat)
      requires Shape(H()) && i < NPAGEREFS && InUse(inuse, i)
      modifies this`inuse
      ensures Shape(H())
      ensures forall j: nat :: j < NPAGEREFS ==> (InUse(inuse, j) <==> InUse(old(inuse), j) && j != i)
    {
      hide BitOf;
      hide WithoutBit;
      BitClearInUse(inuse, i);
      inuse := inuse[i / 32 := WithoutBit(inuse[i / 32], i % 32)];
    }

    // ----------------------------------------------------------- allocating

    /** The loop of subpage_kmalloc over the pages of one size class. */
    method FirstWithRoom(k: nat) returns (r: int)
      requires Valid() && k < NSIZES
      ensures NIL <= r < NPAGEREFS
      ensures r != NIL ==> r in book.same[k] && prs[r].nfree > 0
      ensures r == NIL ==> forall i :: i in book.same[k] ==> i < NPAGEREFS && prs[i].nfree == 0
    {
      hide PagesOk;
      hide NoFreePage;
      hide Apart;
      hide LiveIs;
      hide InUse;
      hide Chain;
      hide Distinct;
      hide Blk;
      ghost var list := book.same[k];
      ChainStart(prs, true, sizebases[k], list);
      ghost var x := 0;
      r := sizebases[k];
      while r != NIL && prs[r].nfree == 0
        invariant 0 <= x <= |list| && r == (if x < |list| then list[x] else NIL)
        invariant forall y: nat :: y < x ==> prs[list[y]].nfree == 0
        decreases |list| - x
      {
        ChainAt(prs, true, sizebases[k], list, x);
        assert list[x] in list && Blk(prs[r]) == k;
        r := prs[r].nextSame;
        x := x + 1;
      }
      if r != NIL {
        assert list[x] in list;
      }
    }

    /** The doalloc part of subpage_kmalloc: the first free block of page record i. */
    method DoAlloc(i: nat) returns (ptr: nat)
      requires AlmostOk(H(), book, i) && LiveIs(H(), book, live) && HeldIs(H(), book, held)
      requires i in book.fl && i < |prs| && prs[i].nfree > 0 && Blk(prs[i]) < NSIZES
      modifies this`prs, this`book, this`live
      ensures Valid() && ptr != 0 && ptr !in old(live) && ptr % PAGE_SIZE % Size(Blk(old(prs[i]))) == 0
      ensures live == old(live)[ptr := Size(Blk(old(prs[i])))]
    {
      hide HeapOk;
      hide AlmostOk;
      hide LiveIs;
      hide HeldIs;
      hide Size;
      hide Page;
      hide Blk;
      ghost var h0, b0 := H(), book;
      FirstFree(h0, b0, live, held, i);
      assert prs[i].freeOff < PAGE_SIZE;
      ptr := Page(prs[i]) + prs[i].freeOff;
      var next := ram[ptr / 4];
      var left := prs[i].nfree - 1;
      if next != 0 {
        assert left > 0;
        assert next - Page(prs[i]) < PAGE_SIZE;
        prs := prs[i := prs[i].(nfree := left, freeOff := next - Page(prs[i]))];
      } else {
        assert left == 0;
        prs := prs[i := prs[i].(nfree := left, freeOff := INVALID_OFFSET)];
      }
      book := book.(fl := book.fl[i := book.fl[i][1..]]);
      live := live[ptr := Size(Blk(h0.prs[i]))];
    }

    /** The free list of a fresh page, linked from the last block down to the first. */
    method ThreadPage(page: nat, k: nat) returns (fla: nat)
      requires k < NSIZES && page % PAGE_SIZE == 0 && page + PAGE_SIZE <= 4 * |ram|
      modifies this`ram
      ensures SameOutside(old(ram), ram, page, page + PAGE_SIZE)
      ensures Threaded(ram, page, k, Blocks(k)) && fla == page + Off(k, Blocks(k) - 1)
    {
      hide Off;
      hide Blocks;
      hide Threading;
      ghost var ram0 := ram;
      ThreadStart(ram, page, k);
      fla := page;
      ram := ram[fla / 4 := 0];
      var i := 1;
      while i < Blocks(k)
        invariant 1 <= i <= Blocks(k) && fla == page + Off(k, i - 1)
        invariant Threading(ram0, ram, page, k, i)
      {
        ThreadStep(ram0, ram, page, k, i);
        fla := page + Off(k, i);
        assert fla != page + Off(k, i - 1);
        ram := ram[fla / 4 := page + Off(k, i - 1)];
        i := i + 1;
      }
      ThreadDone(ram0, ram, page, k);
    }

    /** The part of subpage_kmalloc that sets up record i for a new page. */
    method AddPage(i: nat, page: nat, k: nat, ghost inuse0: seq<nat>)
      requires k < NSIZES && i < NPAGEREFS && |inuse0| == |inuse| == NPAGEREFS / 32 && !InUse(inuse0, i)
      requires forall x :: 0 <= x < |inuse| ==> inuse[x] < 0x1_0000_0000
      requires forall j: nat :: j < NPAGEREFS ==> (InUse(inuse, j) <==> InUse(inuse0, j) || j == i)
      requires Unheld(held, page, 1) && page + PAGE_SIZE <= 4 * |ram|
      requires var h := H().(inuse := inuse0);
        HeapOk(h, book) && LiveIs(h, book, live) && HeldIs(h, book, held)
      modifies this`prs, this`sizebases, this`allbase, this`ram, this`book, this`held
      ensures i in book.fl && i < |prs| && prs[i].nfree > 0 && Blk(prs[i]) == k
      ensures AlmostOk(H(), book, i) && LiveIs(H(), book, live) && HeldIs(H(), book, held)
      ensures held == old(held)[page := 1] && SameIn(old(ram), ram, live)
    {
      hide HeapOk;
      hide LiveIs;
      hide HeldIs;
      hide Blocks;
      hide Off;
      hide Page;
      hide Blk;
      hide InUse;
      hide Unheld;
      hide AlmostOk;
      hide Threaded;
      hide Mkpab;
      ghost var h0, b0 := H().(inuse := inuse0), book;
      RefsUsable(h0, b0);
      assert page % PAGE_SIZE == 0 by {
        UnheldAligned(held, page, 1);
      }
      var pab, n := Mkpab(page, k), Blocks(k);
      var fla := ThreadPage(page, k);
      prs := prs[i := PageRef(sizebases[k], allbase, pab, fla - page, n)];
      sizebases := sizebases[k := i];
      allbase := i;
      PageAdded(h0, b0, live, held, i, page, k, inuse, ram);
      book := WithPageBook(book, i, k);
      held := held[page := 1];
    }

    /** subpage_kmalloc; used tells whether the page was taken from the page allocator. */
    method SubpageKmalloc(sz: nat, page: nat) returns (ptr: nat, used: bool, ghost k: nat)
      requires Valid() && sz <= LARGEST_SUBPAGE_SIZE
      requires page != 0 ==> Unheld(held, page, 1) && page + PAGE_SIZE <= 4 * |ram|
      modifies this
      ensures Fits(sz, k)
      ensures Valid() && SameIn(old(ram), ram, old(live)) && |ram| == |old(ram)|
      ensures ptr == 0 <==> old(NoRoom(H(), book, k)) && (page == 0 || old(AllInUse(inuse)))
      ensures ptr == 0 ==> live == old(live)
      ensures ptr != 0 ==> ptr !in old(live) && live == old(live)[ptr := Size(k)] && ptr % PAGE_SIZE % Size(k) == 0
      ensures used <==> ptr != 0 && old(NoRoom(H(), book, k))
      ensures held == if used then old(held)[page := 1] else old(held)
    {
      hide HeapOk;
      hide LiveIs;
      hide HeldIs;
      hide Size;
      hide Page;
      hide Blk;
      hide InUse;
      ghost var h0, b0 := H(), book;
      RefsUsable(h0, b0);
      var t := BlockType(sz);
      k := t;
      used := false;
      var i := FirstWithRoom(t);
      if i != NIL {
        RecordUsable(h0, b0, t, i);
        ptr := DoAlloc(i);
        return;
      }
      i := AllocPageRef();
      if i == NIL {
        ptr := 0;
        return;
      }
      if page == 0 {
        FreePageRef(i);
        SameRefs(h0, b0, inuse, live, held);
        ptr := 0;
        return;
      }
      used := true;
      AddPage(i, page, t, h0.inuse);
      ptr := DoAlloc(i);
    }

    // -------------------------------------------------------------- freeing

    /** The loop of subpage_kfree over all pages. */
    method FindPage(ptr: nat) returns (r: int)
      requires HeapOk(H(), book)
      ensures NIL <= r < NPAGEREFS
      ensures r != NIL ==> r in book.fl && r < |prs|
      ensures r != NIL ==> Page(prs[r]) <= ptr < Page(prs[r]) + PAGE_SIZE && Blk(prs[r]) < NSIZES
      ensures r == NIL ==> forall i :: i in book.fl && i < |prs| ==> !(Page(prs[i]) <= ptr < Page(prs[i]) + PAGE_SIZE)
    {
      hide NoFreePage;
      hide Apart;
      hide InUse;
      hide FreeList;
      hide Page;
      hide Blk;
      hide Distinct;
      hide Chain;
      ghost var list := book.all;
      ChainStart(prs, false, allbase, list);
      ghost var x := 0;
      r := allbase;
      while r != NIL && !(Page(prs[r]) <= ptr < Page(prs[r]) + PAGE_SIZE)
        invariant 0 <= x <= |list| && r == (if x < |list| then list[x] else NIL)
        invariant forall y: nat :: y < x ==> !(Page(prs[list[y]]) <= ptr < Page(prs[list[y]]) + PAGE_SIZE)
        decreases |list| - x
      {
        ChainAt(prs, false, allbase, list, x);
        r := prs[r].nextAll;
        x := x + 1;
      }
      if r != NIL {
        assert list[x] in list;
        assert r in book.fl;
      }
    }

    method FillDeadbeef(ptr: nat, len: nat)
      requires ptr % 4 == 0 && len % 4 == 0 && ptr + len <= 4 * |ram|
      modifies this`ram
      ensures SameOutside(old(ram), ram, ptr, ptr + len)
      ensures forall w: nat :: ptr <= 4 * w < ptr + len ==> ram[w] == 0xdeadbeef
    {
      var i := 0;
      while i < len / 4
        invariant 0 <= i <= len / 4 && |ram| == |old(ram)|
        invariant SameOutside(old(ram), ram, ptr, ptr + 4 * i)
        invariant forall w: nat :: ptr <= 4 * w < ptr + 4 * i ==> ram[w] == 0xdeadbeef
      {
        ram := ram[ptr / 4 + i := 0xdeadbeef];
        i := i + 1;
      }
    }

    method ClearAndLink(ptr: nat, len: nat, next: nat)
      requires ptr % 4 == 0 && len % 4 == 0 && len > 0 && ptr + len <= 4 * |ram|
      modifies this`ram
      ensures SameOutside(old(ram), ram, ptr, ptr + len) && ptr / 4 < |ram| && ram[ptr / 4] == next
      ensures forall w: nat :: w < |ram| && ptr + 4 <= 4 * w < ptr + len ==> ram[w] == 0xdeadbeef
    {
      FillDeadbeef(ptr, len);
      ram := ram[ptr / 4 := next];
    }

    /** Both loops of remove_lists: the record before i on a list, NIL when i is the first. */
    method FindBefore(same: bool, base: int, i: nat, ghost list: seq<nat>) returns (prev: int, ghost y: nat)
      requires Chain(prs, same, base, list) && i in list
      ensures y < |list| && list[y] == i && prev == if y == 0 then NIL else list[y - 1]
    {
      hide Chain;
      ghost var t: nat :| t < |list| && list[t] == i;
      ChainAt(prs, same, base, list, 0);
      y := 0;
      prev := NIL;
      var guy := base;
      while guy != NIL && guy != i
        invariant 0 <= y <= t && guy == list[y] && prev == (if y == 0 then NIL else list[y - 1])
        decreases t - y
      {
        ChainAt(prs, same, base, list, y);
        prev, guy := guy, Next(prs[guy], same);
        y := y + 1;
      }
    }

    method RemoveSame(i: nat, k: nat) returns (ghost y: nat)
      requires |sizebases| == NSIZES && k < NSIZES && |book.same| == NSIZES && i in book.same[k] && i < |prs|
      requires Distinct(book.same[k]) && Chain(prs, true, sizebases[k], book.same[k])
      modifies this`prs, this`sizebases
      ensures y < |book.same[k]| && book.same[k][y] == i && |sizebases| == NSIZES && |prs| == |old(prs)|
      ensures Chain(prs, true, sizebases[k], Without(book.same[k], y))
      ensures forall m: nat :: m < NSIZES && m != k ==> sizebases[m] == old(sizebases[m])
      ensures forall j: nat :: j < |prs| ==> prs[j] == old(prs[j]).(nextSame := prs[j].nextSame)
      ensures forall j: nat :: j < |prs| && j !in book.same[k] ==> prs[j] == old(prs[j])
    {
      hide Distinct;
      ghost var list, base, prs0 := book.same[k], sizebases[k], prs;
      var prev;
      prev, y := FindBefore(true, sizebases[k], i, list);
      if prev == NIL {
        hide Chain;
        sizebases := sizebases[k := prs[i].nextSame];
        ChainSplice(prs0, prs, true, base, list, y);
      } else {
        assert prev in list && prev < |prs|;
        hide Chain;
        prs := prs[prev := prs[prev].(nextSame := prs[i].nextSame)];
        ChainSplice(prs0, prs, true, base, list, y);
      }
    }

    method RemoveAll(i: nat) returns (ghost x: nat)
      requires i in book.all && i < |prs| && Distinct(book.all) && Chain(prs, false, allbase, book.all)
      modifies this`prs, this`allbase
      ensures x < |book.all| && book.all[x] == i && |prs| == |old(prs)|
      ensures Chain(prs, false, allbase, Without(book.all, x))
      ensures forall j: nat :: j < |prs| ==> prs[j] == old(prs[j]).(nextAll := prs[j].nextAll)
    {
      hide Distinct;
      ghost var list, base, prs0 := book.all, allbase, prs;
      var prev;
      prev, x := FindBefore(false, allbase, i, list);
      if prev == NIL {
        hide Chain;
        allbase := prs[i].nextAll;
        ChainSplice(prs0, prs, false, base, list, x);
      } else {
        assert prev in list && prev < |prs|;
        hide Chain;
        prs := prs[prev := prs[prev].(nextAll := prs[i].nextAll)];
        ChainSplice(prs0, prs, false, base, list, x);
      }
    }

    /** What subpage_kfree does with a page that has become entirely free. */
    method DropPage(i: nat, k: nat)
      requires i in book.fl && i < |prs| && k < NSIZES && Blk(prs[i]) == k && prs[i].nfree == Blocks(k)
      requires AlmostOk(H(), book, i) && LiveIs(H(), book, live) && HeldIs(H(), book, held)
      modifies this`prs, this`sizebases, this`allbase, this`inuse, this`book, this`held
      ensures Valid() && held == old(held) - {Page(old(prs[i]))}
    {
      hide AlmostOk;
      hide HeapOk;
      hide LiveIs;
      hide HeldIs;
      hide Blocks;
      hide Page;
      hide Blk;
      hide InUse;
      hide Distinct;
      hide Chain;
      hide ListsOk;
      ghost var h0, b0 := H(), book;
      DropReady(h0, b0, i, k);
      ghost var y := RemoveSame(i, k);
      ghost var prs1 := prs;
      SameAside(h0, b0, prs1, sizebases, k);
      ghost var x := RemoveAll(i);
      AllAside(b0, prs1, prs, sizebases, k, Without(b0.same[k], y));
      FreePageRef(i);
      PageDropped(h0, H(), b0, live, held, i, k, x, y);
      book := WithoutPageBook(book, i, k, x, y);
      held := held - {Page(h0.prs[i])};
    }

    /** The part of subpage_kfree that clears block n of record r and puts it on the free list. */
    method PushBlock(ptr: nat, r: nat, ghost n: nat)
      requires Taken(H(), book, r, n) && ptr == BlockAddr(prs[r], n) && ptr in live && live[ptr] == Size(Blk(prs[r]))
      requires ptr % 4 == 0 && Size(Blk(prs[r])) % 4 == 0 && ptr + Size(Blk(prs[r])) <= 4 * |ram| && Page(prs[r]) <= ptr
      requires PageOk(ram, prs[r], book.fl[r]) && Valid()
      modifies this`prs, this`ram, this`book, this`live
      ensures r in book.fl && |prs| == |old(prs)| && Blk(prs[r]) == old(Blk(prs[r]))
      ensures Page(prs[r]) == old(Page(prs[r]))
      ensures AlmostOk(H(), book, r) && LiveIs(H(), book, live) && HeldIs(H(), book, held)
      ensures live == old(live) - {ptr} && SameIn(old(ram), ram, live) && |ram| == |old(ram)|
      ensures forall w: nat :: w < |ram| && ptr + 4 <= 4 * w < ptr + old(live[ptr]) ==> ram[w] == 0xdeadbeef
    {
      hide HeapOk;
      hide AlmostOk;
      hide LiveIs;
      hide HeldIs;
      hide PageOk;
      hide SameIn;
      hide Size;
      hide Off;
      hide Blocks;
      hide Page;
      hide Blk;
      ghost var h0, b0 := H(), book;
      var page, k := Page(prs[r]), Blk(prs[r]);
      var offset := ptr - page;
      ClearAndLink(ptr, Size(k), if prs[r].freeOff == INVALID_OFFSET then 0 else page + prs[r].freeOff);
      BlockGiven(h0, b0, live, held, r, n, ram);
      prs := prs[r := prs[r].(freeOff := offset, nfree := prs[r].nfree + 1)];
      book := book.(fl := book.fl[r := [n] + book.fl[r]]);
      live := live - {ptr};
      SamePab(h0.prs[r], prs[r]);
      assert H() == GiveFirst(h0, r, n, ram);
    }

    /** subpage_kfree; freed is the page given back to the page allocator, 0 for none. */
    method SubpageKfree(ptr: nat) returns (res: int, freed: nat)
      requires Valid() && ptr in live
      modifies this
      ensures Valid() && (res == 0 || res == -1) && (res == -1 <==> ptr in old(book.big))
      ensures res == -1 ==> H() == old(H()) && book == old(book) && live == old(live) && held == old(held) && freed == 0
      ensures res == 0 ==> live == old(live) - {ptr} && SameIn(old(ram), ram, live)
      ensures freed != 0 ==> freed in old(held) && old(held[freed]) == 1 && freed <= ptr < freed + PAGE_SIZE
      ensures held == if freed != 0 then old(held) - {freed} else old(held)
      ensures |ram| == |old(ram)|
      ensures res == 0 ==>
        forall w: nat :: w < |ram| && ptr + 4 <= 4 * w < ptr + old(live[ptr]) ==> ram[w] == 0xdeadbeef
    {
      hide AlmostOk;
      hide HeapOk;
      hide LiveIs;
      hide HeldIs;
      hide PageOk;
      hide Taken;
      hide SameIn;
      hide Blocks;
      hide Size;
      hide Page;
      hide Blk;
      ghost var h0, b0 := H(), book;
      freed := 0;
      var r := FindPage(ptr);
      if r == NIL {
        NotSubpage(h0, b0, live, ptr);
        res := -1;
        return;
      }
      ghost var n := FreedBlock(h0, b0, live, ptr, r);
      var page, k := Page(prs[r]), Blk(prs[r]);
      assert ptr - page < PAGE_SIZE && (ptr - page) % Size(k) == 0;
      PushBlock(ptr, r, n);
      res := 0;
      SizesMultiply(k);
      PageFilled(H(), book, r);
      assert prs[r].nfree <= PAGE_SIZE / Size(k);
      if prs[r].nfree == PAGE_SIZE / Size(k) {
        freed := page;
        HeldPage(H(), book, held, r);
        DropPage(r, k);
      }
    }

    // ------------------------------------------------------ the entry points

    /** kmalloc. page is what alloc_kpages answers should it be asked, 0 when out of memory; given is the number of
        bytes that belong to the caller from then on. Asked for no pages, alloc_kpages may answer anything. */
    method Kmalloc(sz: nat, page: nat) returns (ptr: nat, used: bool, ghost given: nat)
      requires Valid() && sz < 0x1_0000_0000
      requires page != 0 && Asked(sz) > 0 ==> Unheld(held, page, Asked(sz))
      requires page != 0 && sz < LARGEST_SUBPAGE_SIZE ==> page + PAGE_SIZE <= 4 * |ram|
      modifies this
      ensures Valid() && SameIn(old(ram), ram, old(live)) && |ram| == |old(ram)|
      ensures live == if given > 0 then old(live)[ptr := given] else old(live)
      ensures given > 0 ==> ptr != 0 && ptr !in old(live)
      ensures given > 0 ==> if sz < LARGEST_SUBPAGE_SIZE then ptr % PAGE_SIZE % given == 0 else ptr % PAGE_SIZE == 0
      ensures ptr != 0 ==> (sz <= given <==> sz + PAGE_SIZE - 1 < 0x1_0000_0000)
      ensures ptr == 0 ==> page == 0 || (sz < LARGEST_SUBPAGE_SIZE && old(AllInUse(inuse)))
      ensures sz >= LARGEST_SUBPAGE_SIZE ==> H() == old(H()) && given == if page == 0 then 0 else PAGE_SIZE * Asked(sz)
      ensures sz < LARGEST_SUBPAGE_SIZE && ptr != 0 ==> given > 0
      ensures sz >= LARGEST_SUBPAGE_SIZE ==> (used <==> page != 0 && Asked(sz) > 0) && ptr == page
      ensures sz < LARGEST_SUBPAGE_SIZE ==> exists k: nat ::
        Fits(sz, k) && (used <==> ptr != 0 && old(NoRoom(H(), book, k)))
        && (ptr == 0 <==> old(NoRoom(H(), book, k)) && (page == 0 || old(AllInUse(inuse))))
      ensures held == if used then old(held)[page := Asked(sz)] else old(held)
    {
      hide HeapOk;
      hide LiveIs;
      hide HeldIs;
      hide Unheld;
      hide NoRoom;
      hide AllInUse;
      hide Size;
      PagesEnough(sz);
      if sz >= LARGEST_SUBPAGE_SIZE {
        var npages := PagesFor(sz);
        SameInSelf(ram, live);
        ptr, used, given := page, false, 0;
        if page == 0 || npages == 0 {
          return;
        }
        UnheldAligned(held, page, npages);
        BigAdded(H(), book, live, held, page, npages);
        book := book.(big := book.big[page := npages]);
        live := live[page := PAGE_SIZE * npages];
        held := held[page := npages];
        used, given := true, PAGE_SIZE * npages;
      } else {
        ghost var k;
        ptr, used, k := SubpageKmalloc(sz, page);
        given := if ptr == 0 then 0 else Size(k);
        assert Fits(sz, k);
      }
    }

    /** Does a request of this size take a page? It does if no page of its class has room and a record is left. */
    method NeedsPage(sz: nat) returns (need: bool, ghost k: nat)
      requires Valid() && sz < LARGEST_SUBPAGE_SIZE
      modifies this`inuse
      ensures Valid() && Fits(sz, k)
      ensures AllInUse(inuse) <==> old(AllInUse(inuse))
      ensures need <==> NoRoom(H(), book, k) && !AllInUse(inuse)
    {
      hide HeapOk;
      hide LiveIs;
      hide HeldIs;
      hide Size;
      hide Page;
      hide Blk;
      hide InUse;
      ghost var h0, b0 := H(), book;
      RefsUsable(h0, b0);
      var t := BlockType(sz);
      k := t;
      need := false;
      var i := FirstWithRoom(t);
      if i == NIL {
        i := AllocPageRef();
        if i != NIL {
          FreePageRef(i);
          SameRefs(h0, b0, inuse, live, held);
          need := true;
        }
      }
    }

    /** kfree; freed is the first page of the run given back, 0 for none. */
    method Kfree(ptr: nat) returns (freed: nat)
      requires Valid() && (ptr == 0 || ptr in live)
      modifies this
      ensures Valid() && SameIn(old(ram), ram, live)
      ensures live == old(live) - {ptr}
      ensures freed != 0 ==> freed in old(held)
      ensures held == if freed != 0 then old(held) - {freed} else old(held)
    {
      hide HeapOk;
      hide LiveIs;
      hide HeldIs;
      hide SameIn;
      SameInSelf(ram, live);
      ZeroNotLive(H(), book, live);
      if ptr == 0 {
        freed := 0;
        assert live == live - {0};
      } else {
        var res;
        res, freed := SubpageKfree(ptr);
        if res != 0 {
          BigAligned(H(), book, held, ptr);
          assert ptr % PAGE_SIZE == 0;
          BigRemoved(H(), book, live, held, ptr);
          book := book.(big := book.big - {ptr});
          live := live - {ptr};
          held := held - {ptr};
          SameInLess(ram, old(live), ptr);
          freed := ptr;
        }
      }
    }

    /** A client writes a word of a piece it was given. */
    method Store(p: nat, off: nat, v: nat)
      requires Valid() && p in live && p % 4 == 0 && off % 4 == 0 && off + 4 <= live[p] && (p + off) / 4 < |ram|
      modifies this`ram
      ensures Valid() && ram == old(ram)[(p + off) / 4 := v]
    {
      hide HeapOk;
      hide LiveIs;
      hide HeldIs;
      ghost var h0 := H();
      ram := ram[(p + off) / 4 := v];
      assert 4 * ((p + off) / 4) == p + off;
      Stored(h0, book, live, held, p, ram);
    }

    /** Allocated pieces never overlap and never start at 0. */
    lemma PiecesApart()
      requires Valid()
      ensures forall p, q :: p in live && q in live && p != q ==> p + live[p] <= q || q + live[q] <= p
      ensures 0 !in live
    {
      hide HeapOk;
      hide IsLive;
      ZeroNotLive(H(), book, live);
      forall p, q | p in live && q in live && p != q
        ensures p + live[p] <= q || q + live[q] <= p
      {
        LiveDisjoint(H(), book, p, live[p], q, live[q]);
      }
    }

    /** Freeing everything gives every page back. */
    lemma Drained()
      requires Valid() && live == map[]
      ensures held == map[] && allbase == NIL && |inuse| == NPAGEREFS / 32
      ensures forall i: nat :: i < NPAGEREFS ==> !InUse(inuse, i)
    {
      hide InUse;
      hide PageOk;
      forall p: nat, size: nat
        ensures !IsLive(H(), book, p, size)
      {
        assert p !in live;
      }
      NothingLiveNoPages(H(), book);
      HeldRuns(H(), book, held);
    }
  }
}
