/** The pseudorandom generator of kern/dev/generic/pseudorand.c. */
module Pseudorand {

  const MULTIPLIER: int := 16807
  const MODULUS: int := 0x7fff_ffff
  const K1: int := 127773
  const K2: int := 2836
  /** The inverse of MULTIPLIER: INVERSE * MULTIPLIER == QUOTIENT * MODULUS + 1. */
  const INVERSE: int := 1407677000
  const QUOTIENT: int := 11017

  /** A seed: never 0 and never the modulus. */
  predicate Seed(s: int) {
    1 <= s < MODULUS
  }

  /** What fits a signed 32-bit integer. */
  predicate Fits(x: int) {
    -0x8000_0000 <= x <= 0x7fff_ffff
  }

  /** The Park-Miller generator, in exact arithmetic. */
  function Next(s: int): int {
    MULTIPLIER * s % MODULUS
  }

  /** Multiplying by MULTIPLIER splits into a multiple of the modulus and what the code computes. */
  lemma Split(s: int)
    requires Seed(s)
    ensures MULTIPLIER * s == MODULUS * (s / K1) + (MULTIPLIER * (s % K1) - K2 * (s / K1))
    ensures 0 <= s / K1 <= 16807 && 0 <= s % K1 < K1
  {
    assert s == K1 * (s / K1) + s % K1;
  }

  /** A number whose product with MULTIPLIER is a multiple of the modulus is one itself. */
  lemma Cancel(d: int, q: int)
    requires MULTIPLIER * d == MODULUS * q
    ensures d == MODULUS * (INVERSE * q - QUOTIENT * d)
  {
  }

  lemma Remainder(x: int, q: int, r: int)
    requires x == MODULUS * q + r && 0 <= r < MODULUS
    ensures x % MODULUS == r
  {
  }

  class Generator {
    var seed: int

    /** pseudoattach_pseudorand */
    constructor ()
      ensures Seed(seed) && seed == 305824
    {
      seed := 305824;
    }

    /** pseudorand_random: the generator without a product that overflows. */
    method Random() returns (r: int)
      requires Seed(seed)
      modifies this
      ensures Seed(seed) && seed == Next(old(seed)) && r == seed - 1 && 0 <= r <= MODULUS - 2
    {
      Split(seed);
      var hi, lo := seed / K1, seed % K1;
      assert Fits(MULTIPLIER * lo) && Fits(K2 * hi);
      var tmp := MULTIPLIER * lo - K2 * hi;
      assert Fits(tmp);
      NeverZero(seed, hi, tmp);
      if tmp <= 0 {
        assert Fits(tmp + MODULUS);
        tmp := tmp + MODULUS;
        Remainder(MULTIPLIER * seed, hi - 1, tmp);
      } else {
        Remainder(MULTIPLIER * seed, hi, tmp);
      }
      seed := tmp;
      r := seed - 1;
    }
  }

  /** No product of a seed is a multiple of the modulus. */
  lemma NeverZero(s: int, q: int, t: int)
    requires Seed(s) && MULTIPLIER * s == MODULUS * q + t
    ensures t != 0
  {
    if t == 0 {
      Cancel(s, q);
    }
  }

  /** Different seeds have different successors. */
  lemma Injective(s: int, t: int)
    requires Seed(s) && Seed(t) && Next(s) == Next(t)
    ensures s == t
  {
    var p, q := MULTIPLIER * s / MODULUS, MULTIPLIER * t / MODULUS;
    Cancel(s - t, p - q);
  }

  /** Every seed is the successor of a seed: the generator permutes them. */
  lemma Onto(t: int) returns (s: int)
    requires Seed(t)
    ensures Seed(s) && Next(s) == t
  {
    s := INVERSE * t % MODULUS;
    var q := INVERSE * t / MODULUS;
    assert MULTIPLIER * s == MODULUS * (QUOTIENT * t - MULTIPLIER * q) + t;
    Remainder(MULTIPLIER * s, QUOTIENT * t - MULTIPLIER * q, t);
  }
}
