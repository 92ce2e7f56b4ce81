/** The ring buffer of kern/lib/queue.c. */
module Queues {

  datatype Errno = OK | ENOMEM

  /** The elements of a ring from position r up to position w, going round at the end. */
  function Ring(data: seq<nat>, r: nat, w: nat): seq<nat>
    requires r <= |data| && w <= |data|
  {
    if r <= w then data[r..w] else data[r..] + data[..w]
  }

  /** The position after i in a ring of n. */
  function After(i: nat, n: nat): nat
    requires i < n
  {
    (i + 1) % n
  }

  lemma AfterIs(i: nat, n: nat)
    requires i < n
    ensures After(i, n) == if i + 1 == n then 0 else i + 1
  {
  }

  lemma RingAt(data: seq<nat>, r: nat, w: nat, k: nat)
    requires r < |data| && w < |data| && k <= |Ring(data, r, w)|
    ensures |Ring(data, r, w)| == (if r <= w then w - r else |data| - r + w)
    ensures var i := if r + k < |data| then r + k else r + k - |data|;
      i < |data| && (k < |Ring(data, r, w)| ==> Ring(data, r, w)[k] == data[i])
      && (k == |Ring(data, r, w)| <==> i == w)
  {
  }

  /** A ring is full when it holds one element less than its size. */
  lemma RingFull(data: seq<nat>, r: nat, w: nat)
    requires r < |data| && w < |data|
    ensures |Ring(data, r, w)| <= |data| - 1
    ensures After(w, |data|) == r <==> |Ring(data, r, w)| == |data| - 1
    ensures r == w <==> Ring(data, r, w) == []
  {
    AfterIs(w, |data|);
  }

  lemma RingPush(data: seq<nat>, r: nat, w: nat, x: nat)
    requires r < |data| && w < |data| && After(w, |data|) != r
    ensures Ring(data[w := x], r, After(w, |data|)) == Ring(data, r, w) + [x]
  {
    AfterIs(w, |data|);
  }

  lemma RingPop(data: seq<nat>, r: nat, w: nat)
    requires r < |data| && w < |data| && r != w
    ensures Ring(data, r, w) == [data[r]] + Ring(data, After(r, |data|), w)
  {
    AfterIs(r, |data|);
  }

  class Queue {
    var size: nat
    var nextwrite: nat
    var nextread: nat
    var data: array<nat>

    ghost predicate Valid()
      reads this
    {
      0 < size == data.Length && nextread < size && nextwrite < size
    }

    /** The queue, from the next element to be read. */
    ghost function Contents(): seq<nat>
      requires Valid()
      reads this, data
    {
      Ring(data[..], nextread, nextwrite)
    }

    /** q_create */
    constructor (size: nat)
      requires size > 0
      ensures Valid() && fresh(data) && this.size == size && Contents() == []
    {
      this.size := size;
      data := new nat[size];
      nextread, nextwrite := 0, 0;
    }

    /** q_empty */
    method Empty() returns (e: bool)
      requires Valid()
      ensures e <==> Contents() == []
    {
      e := nextwrite == nextread;
    }

    /** The doubling loop of q_grow. */
    static method NewSize(size: nat, targetsize: nat) returns (nsize: nat)
      requires 0 < size < targetsize
      ensures targetsize <= nsize < 2 * targetsize
      ensures targetsize <= 2 * size ==> nsize == 2 * size
    {
      nsize := size;
      while nsize < targetsize
        invariant size <= nsize < 2 * targetsize && (nsize == size || nsize >= 2 * size)
        invariant targetsize <= 2 * size ==> nsize <= 2 * size
      {
        nsize := nsize * 2;
      }
    }

    /** q_grow; mem tells whether kmalloc finds the memory. */
    method Grow(targetsize: nat, mem: bool) returns (res: Errno)
      requires Valid() && targetsize > size
      modifies this
      ensures Valid() && Contents() == old(Contents())
      ensures res == if mem then OK else ENOMEM
      ensures res == ENOMEM ==> size == old(size) && data == old(data)
      ensures res == OK ==> fresh(data) && targetsize <= size < 2 * targetsize
      ensures res == OK && targetsize <= 2 * old(size) ==> size == 2 * old(size)
      decreases 1, 1
    {
      hide Ring;
      var olddata, onr, onw, osize := data, nextread, nextwrite, size;
      var nsize := NewSize(size, targetsize);
      if !mem {
        return ENOMEM;
      }
      size := nsize;
      data := new nat[nsize];
      nextread, nextwrite := 0, 0;
      RingFull(data[..], 0, 0);
      RingFull(olddata[..], onr, onw);
      CopyRing(olddata, onr, onw, osize);
      res := OK;
    }

    /** The copying loop of q_grow. */
    method CopyRing(olddata: array<nat>, onr: nat, onw: nat, osize: nat)
      requires Valid() && Contents() == [] && olddata != data
      requires olddata.Length == osize && onr < osize && onw < osize < size
      modifies this, data
      ensures Valid() && size == old(size) && data == old(data) && Contents() == Ring(olddata[..], onr, onw)
      decreases 1, 0
    {
      hide Ring;
      ghost var all := Ring(olddata[..], onr, onw);
      var i := onr;
      ghost var k := 0;
      RingFull(olddata[..], onr, onw);
      RingAt(olddata[..], onr, onw, 0);
      while i != onw
        invariant Valid() && size == old(size) && data == old(data) && olddata[..] == old(olddata[..])
        invariant 0 <= k <= |all| < size - 1 && i == (if onr + k < osize then onr + k else onr + k - osize)
        invariant Contents() == all[..k] && (k == |all| <==> i == onw)
        decreases |all| - k
      {
        RingAt(olddata[..], onr, onw, k);
        assert all[..k + 1] == all[..k] + [olddata[i]];
        var r := AddTail(olddata[i], true);
        assert r == OK;
        AfterIs(i, osize);
        k := k + 1;
        i := (i + 1) % osize;
        RingAt(olddata[..], onr, onw, k);
      }
    }

    /** q_addtail; a full ring, one that holds size - 1 elements, grows. */
    method AddTail(x: nat, mem: bool) returns (res: Errno)
      requires Valid()
      modifies this, data
      ensures Valid()
      ensures res == if old(|Contents()| < size - 1) || mem then OK else ENOMEM
      ensures res == OK ==> Contents() == old(Contents()) + [x]
      ensures res == ENOMEM ==> Contents() == old(Contents())
      ensures if res == OK && old(|Contents()| == size - 1) then fresh(data) && size == 2 * old(size)
              else data == old(data) && size == old(size)
      decreases if |Contents()| == size - 1 then 2 else 0, 0
    {
      hide Ring;
      RingFull(data[..], nextread, nextwrite);
      var nextnext := (nextwrite + 1) % size;
      if nextnext == nextread {
        res := Grow(size + 1, mem);
        if res != OK {
          return;
        }
        RingFull(data[..], nextread, nextwrite);
        nextnext := (nextwrite + 1) % size;
      }
      RingPush(data[..], nextread, nextwrite, x);
      ghost var before := data[..];
      data[nextwrite] := x;
      assert data[..] == before[nextwrite := x];
      nextwrite := nextnext;
      res := OK;
    }

    /** q_preallocate */
    method Preallocate(target: nat, mem: bool) returns (res: Errno)
      requires Valid()
      modifies this
      ensures Valid() && Contents() == old(Contents()) && (res == OK ==> target <= size) && size >= old(size)
      ensures res == if old(size) >= target || mem then OK else ENOMEM
      ensures data == old(data) || fresh(data)
      ensures old(size) >= target ==> size == old(size)
    {
      res := OK;
      if target > size {
        res := Grow(target, mem);
      }
    }

    /** q_remhead */
    method RemHead() returns (x: nat)
      requires Valid() && Contents() != []
      modifies this`nextread
      ensures Valid() && old(Contents()) == [x] + Contents()
    {
      RingFull(data[..], nextread, nextwrite);
      RingPop(data[..], nextread, nextwrite);
      x := data[nextread];
      nextread := (nextread + 1) % size;
    }
  }
}
