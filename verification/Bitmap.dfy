/** Bit arrays packed into bytes (kern/lib/bitmap.c). Bit k is bit k % 8 of
    byte k / 8. */
module Bitmaps {
  import opened Options
  import opened Layout
  import opened Bits

  function OrMask(b: Byte, k: nat): Byte
    requires k < 8
  {
    Pow2of8();
    WidthKept(b, k, 8);
    WithBit(b, k)
  }

  function AndNotMask(b: Byte, k: nat): Byte
    requires k < 8
  {
    Pow2of8();
    WidthKept(b, k, 8);
    WithoutBit(b, k)
  }

  predicate IsSet(v: seq<Byte>, k: nat)
    requires k < 8 * |v|
  {
    BitOf(v[k / 8], k % 8)
  }

  ghost function Marked(v: seq<Byte>): set<nat> {
    set k: nat | k < 8 * |v| && IsSet(v, k)
  }

  function SetBit(v: seq<Byte>, k: nat): (w: seq<Byte>)
    requires k < 8 * |v|
    ensures |w| == |v|
  {
    v[k / 8 := OrMask(v[k / 8], k % 8)]
  }

  function ClearBit(v: seq<Byte>, k: nat): (w: seq<Byte>)
    requires k < 8 * |v|
    ensures |w| == |v|
  {
    v[k / 8 := AndNotMask(v[k / 8], k % 8)]
  }

  /** Setting one bit adds exactly that bit to the marked set. */
  lemma SetBitMarks(v: seq<Byte>, k: nat)
    requires k < 8 * |v|
    ensures Marked(SetBit(v, k)) == Marked(v) + {k}
  {
    hide WithBit;
    hide BitOf;
    var w := SetBit(v, k);
    forall j: nat | j < 8 * |v|
      ensures IsSet(w, j) == (IsSet(v, j) || j == k)
    {
      WithBitBits(v[k / 8], k % 8, j % 8);
    }
  }

  /** Clearing one bit removes exactly that bit from the marked set. */
  lemma ClearBitUnmarks(v: seq<Byte>, k: nat)
    requires k < 8 * |v|
    ensures Marked(ClearBit(v, k)) == Marked(v) - {k}
  {
    hide WithoutBit;
    hide BitOf;
    var w := ClearBit(v, k);
    forall j: nat | j < 8 * |v|
      ensures IsSet(w, j) == (IsSet(v, j) && j != k)
    {
      WithoutBitBits(v[k / 8], k % 8, j % 8);
    }
  }

  /** Two bitmaps of the same length with the same marked bits are the same
      bytes. */
  lemma MarkedDetermines(v: seq<Byte>, w: seq<Byte>)
    requires |v| == |w| && Marked(v) == Marked(w)
    ensures v == w
  {
    hide BitOf;
    Pow2of8();
    forall i | 0 <= i < |v|
      ensures v[i] == w[i]
    {
      forall k | 0 <= k < 8
        ensures BitOf(v[i], k) == BitOf(w[i], k)
      {
        var n := 8 * i + k;
        assert n / 8 == i && n % 8 == k;
        assert n in Marked(v) <==> n in Marked(w);
      }
      SameBits(v[i], w[i], 8);
    }
  }

  lemma NothingMarked(v: seq<Byte>)
    requires forall i :: 0 <= i < |v| ==> v[i] == 0
    ensures Marked(v) == {}
  {
    forall k: nat | k < 8 * |v|
      ensures !IsSet(v, k)
    {
      NoBits(k % 8);
    }
  }

  class Bitmap {
    const nbits: nat
    const v: array<Byte>

    ghost function Used(): set<nat>
      reads v
    {
      Marked(v[..])
    }

    /** Bits past the end of the map are permanently in use. */
    ghost predicate Valid()
      reads v
    {
      v.Length == (nbits + 7) / 8
      && forall k: nat :: nbits <= k < 8 * v.Length ==> k in Marked(v[..])
    }

    constructor (nbits: nat)
      ensures this.nbits == nbits && Valid() && fresh(v)
      ensures forall k: nat :: k < nbits ==> k !in Used()
    {
      this.nbits := nbits;
      v := new Byte[(nbits + 7) / 8](_ => 0);
      new;
      hide Marked;
      NothingMarked(v[..]);
      var j := nbits;
      while j < 8 * v.Length
        invariant nbits <= j <= 8 * v.Length
        invariant forall k: nat :: k in Marked(v[..]) <==> nbits <= k < j
      {
        ghost var before := v[..];
        SetBitMarks(before, j);
        v[j / 8] := OrMask(v[j / 8], j % 8);
        assert v[..] == SetBit(before, j);
        j := j + 1;
      }
    }

    /** Finds the first byte that is not 0xff, and in it the first clear bit. */
    method Alloc() returns (r: Option<nat>)
      requires Valid()
      modifies v
      ensures Valid()
      ensures r.None? ==> v[..] == old(v[..]) && forall k: nat :: k < nbits ==> k in Used()
      ensures r.Some? ==> r.value < nbits && r.value !in old(Used())
      ensures r.Some? ==> forall k: nat :: k < r.value ==> k in old(Used())
      ensures r.Some? ==> v[..] == SetBit(old(v[..]), r.value) && Used() == old(Used()) + {r.value}
    {
      hide BitOf;
      hide OrMask;
      ghost var v0 := v[..];
      assert forall k: nat :: nbits <= k < 8 * |v0| ==> k in Marked(v0);
      var ix := 0;
      while ix < v.Length
        invariant 0 <= ix <= v.Length && v[..] == v0
        invariant forall k: nat :: k < 8 * ix ==> k in Marked(v0)
      {
        Pow2of8();
        if v[ix] != 0xff {
          HasClearBit(v[ix], 8);
          var offset := 0;
          while BitOf(v[ix], offset)
            invariant 0 <= offset < 8
            invariant exists k :: offset <= k < 8 && !BitOf(v[ix], k)
            invariant forall j :: 0 <= j < offset ==> BitOf(v[ix], j)
            invariant v[..] == v0
            decreases 8 - offset
          {
            offset := offset + 1;
          }
          var index := 8 * ix + offset;
          assert index / 8 == ix && index % 8 == offset;
          assert index !in Marked(v0);
          assert index < nbits;
          SetBitMarks(v0, index);
          v[ix] := OrMask(v[ix], offset);
          assert v[..] == SetBit(v0, index);
          return Some(index);
        }
        forall k: nat | 8 * ix <= k < 8 * ix + 8
          ensures k in Marked(v0)
        {
          AllOnes(8, k % 8);
        }
        ix := ix + 1;
      }
      r := None;
    }

    method Mark(index: nat)
      requires Valid() && index < nbits
      requires index !in Used()
      modifies v
      ensures Valid() && v[..] == SetBit(old(v[..]), index) && Used() == old(Used()) + {index}
    {
      hide OrMask;
      SetBitMarks(v[..], index);
      v[index / 8] := OrMask(v[index / 8], index % 8);
      assert v[..] == SetBit(old(v[..]), index);
    }

    /** The C code asserts that the bit was in use. */
    method Unmark(index: nat)
      requires Valid() && index < nbits
      requires index in Used()
      modifies v
      ensures Valid() && v[..] == ClearBit(old(v[..]), index) && Used() == old(Used()) - {index}
    {
      hide AndNotMask;
      ClearBitUnmarks(v[..], index);
      v[index / 8] := AndNotMask(v[index / 8], index % 8);
      assert v[..] == ClearBit(old(v[..]), index);
    }

    method IsMarked(index: nat) returns (r: bool)
      requires Valid() && index < nbits
      ensures r == (index in Used())
    {
      r := BitOf(v[index / 8], index % 8);
    }
  }
}
