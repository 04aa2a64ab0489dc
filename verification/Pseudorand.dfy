/** The pseudorandom device, os161/kern/dev/generic/pseudorand.c: the Park-Miller generator, computed by Schrage's
    method so that it fits 32-bit signed arithmetic. */
module Pseudorand {

  const MULTIPLIER: int := 16807
  const MODULUS: int := 0x7fff_ffff
  const K1: int := 127773
  const K2: int := 2836

  predicate IsSeed(s: int) {
    1 <= s < MODULUS
  }

  predicate Int32(x: int) {
    -0x8000_0000 <= x < 0x8000_0000
  }

  /** The generator as it is defined. */
  function Step(s: int): int {
    MULTIPLIER * s % MODULUS
  }

  /** 1407677000 is the inverse of the multiplier, so that multiplying loses nothing. */
  lemma Cancel(d: int, q: int)
    requires MULTIPLIER * d == MODULUS * q
    ensures d % MODULUS == 0
  {
    var e := 1407677000 * q - 11017 * d;
    assert MULTIPLIER * 1407677000 == 11017 * MODULUS + 1;
    assert d == MODULUS * e;
    Multiple(e);
  }

  lemma Multiple(e: int)
    ensures MODULUS * e % MODULUS == 0
  {
  }

  lemma InRange(d: int)
    requires -MODULUS < d < MODULUS && d % MODULUS == 0
    ensures d == 0
  {
  }

  /** The seed stays a seed; in particular no run ever reaches the fixed point 0. */
  lemma StepStays(s: int)
    requires IsSeed(s)
    ensures IsSeed(Step(s))
  {
    if Step(s) == 0 {
      Cancel(s, MULTIPLIER * s / MODULUS);
      InRange(s);
    }
  }

  /** Different seeds lead to different seeds. */
  lemma StepInjective(s: int, t: int)
    requires IsSeed(s) && IsSeed(t) && Step(s) == Step(t)
    ensures s == t
  {
    Cancel(s - t, MULTIPLIER * s / MODULUS - MULTIPLIER * t / MODULUS);
    InRange(s - t);
  }

  /** Splitting the seed by K1 avoids the long product: no intermediate value leaves 32 bits, and the result is
      the same up to one multiple of the modulus. */
  lemma Schrage(s: int)
    requires IsSeed(s)
    ensures var hi, lo := s / K1, s % K1;
            var tmp := MULTIPLIER * lo - K2 * hi;
            && Int32(MULTIPLIER * lo) && Int32(K2 * hi) && Int32(tmp) && (tmp <= 0 ==> Int32(tmp + MODULUS))
            && Step(s) == if tmp <= 0 then tmp + MODULUS else tmp
  {
    var hi, lo := s / K1, s % K1;
    var tmp := MULTIPLIER * lo - K2 * hi;
    assert MULTIPLIER * s == MODULUS * hi + tmp;
    assert -MODULUS < tmp < MODULUS;
    StepStays(s);
    Residue(MULTIPLIER * s, hi, tmp);
  }

  lemma Residue(n: int, q: int, r: int)
    requires n == MODULUS * q + r && -MODULUS < r < MODULUS
    ensures n % MODULUS == if r < 0 then r + MODULUS else r
  {
  }

  /** The seed after `n` draws. */
  function After(s: int, n: nat): int {
    if n == 0 then s else Step(After(s, n - 1))
  }

  lemma {:induction false} AfterStays(s: int, n: nat)
    requires IsSeed(s)
    ensures IsSeed(After(s, n))
  {
    if n > 0 {
      AfterStays(s, n - 1);
      StepStays(After(s, n - 1));
    }
  }

  /** The first seed to come round again is the one the run started from. */
  lemma {:induction false} PureCycle(s: int, j: nat, k: nat)
    requires IsSeed(s) && j <= k && After(s, j) == After(s, k)
    ensures After(s, k - j) == s
  {
    if j > 0 {
      AfterStays(s, j - 1);
      AfterStays(s, k - 1);
      StepInjective(After(s, j - 1), After(s, k - 1));
      PureCycle(s, j - 1, k - 1);
    }
  }

  class Softc {
    var seed: int

    constructor ()
      ensures IsSeed(seed)
    {
      seed := 305824;
    }

    /** pseudorand_random: a value from 0 to randmax. */
    method Random() returns (r: int)
      requires IsSeed(seed)
      modifies this
      ensures seed == Step(old(seed)) && IsSeed(seed)
      ensures r == seed - 1 && 0 <= r <= MODULUS - 2
    {
      Schrage(seed);
      StepStays(seed);
      var hi := seed / K1;
      var lo := seed % K1;
      assert Int32(MULTIPLIER * lo) && Int32(K2 * hi);
      var tmp := MULTIPLIER * lo - K2 * hi;
      assert Int32(tmp);
      if tmp <= 0 {
        tmp := tmp + MODULUS;
        assert Int32(tmp);
      }
      seed := tmp;
      r := seed - 1;
    }
  }
}
