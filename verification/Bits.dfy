/** Bit operations on unsigned words of any width, defined a bit at a time. */
module Bits {

  function Pow2(n: nat): (p: nat)
    ensures p > 0
  {
    if n == 0 then 1 else 2 * Pow2(n - 1)
  }

  /** (w & (1 << k)) != 0 */
  predicate BitOf(w: nat, k: nat) {
    if k == 0 then w % 2 == 1 else BitOf(w / 2, k - 1)
  }

  /** w | (1 << k) */
  function WithBit(w: nat, k: nat): nat {
    if k == 0 then w / 2 * 2 + 1 else 2 * WithBit(w / 2, k - 1) + w % 2
  }

  /** w & ~(1 << k) */
  function WithoutBit(w: nat, k: nat): nat {
    if k == 0 then w / 2 * 2 else 2 * WithoutBit(w / 2, k - 1) + w % 2
  }

  lemma {:induction false} WithBitBits(w: nat, k: nat, j: nat)
    ensures BitOf(WithBit(w, k), j) == (BitOf(w, j) || j == k)
  {
    if k > 0 && j > 0 {
      WithBitBits(w / 2, k - 1, j - 1);
    }
  }

  lemma {:induction false} WithoutBitBits(w: nat, k: nat, j: nat)
    ensures BitOf(WithoutBit(w, k), j) == (BitOf(w, j) && j != k)
  {
    if k > 0 && j > 0 {
      WithoutBitBits(w / 2, k - 1, j - 1);
    }
  }

  /** Setting or clearing a bit within the width stays within the width. */
  lemma {:induction false} WidthKept(w: nat, k: nat, n: nat)
    requires w < Pow2(n) && k < n
    ensures WithBit(w, k) < Pow2(n)
    ensures WithoutBit(w, k) < Pow2(n)
    decreases k
  {
    hide WithBit;
    hide WithoutBit;
    hide Pow2;
    Pow2Step(n);
    BitStep(w, k);
    if k > 0 {
      WidthKept(w / 2, k - 1, n - 1);
    }
  }

  lemma Pow2Step(n: nat)
    requires n > 0
    ensures Pow2(n) == 2 * Pow2(n - 1)
  {
  }

  lemma BitStep(w: nat, k: nat)
    ensures WithBit(w, k) == if k == 0 then w / 2 * 2 + 1 else 2 * WithBit(w / 2, k - 1) + w % 2
    ensures WithoutBit(w, k) == if k == 0 then w / 2 * 2 else 2 * WithoutBit(w / 2, k - 1) + w % 2
  {
  }

  /** The all-ones word has every bit set... */
  lemma {:induction false} AllOnes(n: nat, k: nat)
    requires k < n
    ensures BitOf(Pow2(n) - 1, k)
  {
    var w := Pow2(n) - 1;
    assert w / 2 == Pow2(n - 1) - 1;
    if k > 0 {
      AllOnes(n - 1, k - 1);
    }
  }

  /** Words that agree on every bit of the width are equal. */
  lemma {:induction false} SameBits(w: nat, u: nat, n: nat)
    requires w < Pow2(n) && u < Pow2(n)
    requires forall k :: 0 <= k < n ==> BitOf(w, k) == BitOf(u, k)
    ensures w == u
  {
    if n > 0 {
      assert BitOf(w, 0) == BitOf(u, 0);
      forall k | 0 <= k < n - 1
        ensures BitOf(w / 2, k) == BitOf(u / 2, k)
      {
        assert BitOf(w, k + 1) == BitOf(u, k + 1);
      }
      SameBits(w / 2, u / 2, n - 1);
    }
  }

  /** ...and a word that is not all ones has a clear bit. */
  lemma HasClearBit(w: nat, n: nat)
    requires w < Pow2(n) && w != Pow2(n) - 1
    ensures exists k :: 0 <= k < n && !BitOf(w, k)
  {
    if forall k :: 0 <= k < n ==> BitOf(w, k) {
      forall k | 0 <= k < n
        ensures BitOf(w, k) == BitOf(Pow2(n) - 1, k)
      {
        AllOnes(n, k);
      }
      SameBits(w, Pow2(n) - 1, n);
    }
  }

  lemma {:induction false} NoBits(k: nat)
    ensures !BitOf(0, k)
  {
    if k > 0 {
      NoBits(k - 1);
    }
  }

  lemma Pow2of8()
    ensures Pow2(8) == 256
  {
    assert Pow2(4) == 16;
  }

  lemma Pow2of32()
    ensures Pow2(32) == 0x1_0000_0000
  {
    assert Pow2(4) == 16 && Pow2(8) == 256 && Pow2(12) == 0x1000 && Pow2(16) == 0x1_0000;
    assert Pow2(20) == 0x10_0000 && Pow2(24) == 0x100_0000 && Pow2(28) == 0x1000_0000;
  }
}
