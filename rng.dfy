/**
 * The integer core of the xorshift64* generator of src/rng.c: the seed
 * fix-up, the 64-bit shift/xor state update, the multiplicative output
 * scramble, and `rng_uniform`'s top-24-bit extraction.  All arithmetic is
 * on `bv64`, so it wraps modulo 2^64 as `uint64_t` does.
 */
module Rng {
  /** Replaces a zero seed (src/rng.c:4). */
  const Golden: bv64 := 0x9E37_79B9_7F4A_7C15

  /** The output multiplier of xorshift64* (src/rng.c:13). */
  const Multiplier: bv64 := 2685821657736338717

  /** 2^24: `rng_uniform` scales its 24-bit integer by the reciprocal. */
  const TwoTo24: bv32 := 0x100_0000

  // ---------------------------------------------------------------------
  // The state update

  /** `x ^= x >> 12`. */
  function XorRight12(x: bv64): bv64
  {
    x ^ (x >> 12)
  }

  /** `x ^= x << 25`. */
  function XorLeft25(x: bv64): bv64
  {
    x ^ (x << 25)
  }

  /** `x ^= x >> 27`. */
  function XorRight27(x: bv64): bv64
  {
    x ^ (x >> 27)
  }

  /**
   * The state update of `xorshift64star`: the three shift-xor steps in
   * source order.  Each step maps only 0 to 0, so a nonzero state stays
   * nonzero.
   */
  function Mix(x: bv64): (y: bv64)
    ensures x != 0 ==> y != 0
  {
    XorRight27(XorLeft25(XorRight12(x)))
  }

  // ---------------------------------------------------------------------
  // Output

  /** The returned value of `xorshift64star`: the new state times the multiplier, modulo 2^64. */
  function Scramble(x: bv64): bv64
  {
    x * Multiplier
  }

  /** `(uint32_t)(x >> 40)`: the top 24 bits of `x`. */
  function Top24(x: bv64): (t: bv32)
    ensures t < TwoTo24
    ensures (t as bv64) << 40 == x & 0xFFFF_FF00_0000_0000
  {
    (x >> 40) as bv32
  }

  // ---------------------------------------------------------------------
  // The generator

  /** `RNG`: one 64-bit state word, updated in place. */
  class Generator {
    var state: bv64

    /** What the zero-seed guard establishes and every step keeps: the state is never 0. */
    ghost predicate Valid()
      reads this
    {
      state != 0
    }

    /** A generator seeded with `seed`, as declaring an `RNG` and calling `rng_seed` does. */
    constructor (seed: bv64)
      ensures state == (if seed == 0 then Golden else seed)
      ensures Valid()
    {
      new;
      Seed(seed);
    }

    /** `rng_seed`: stores a nonzero seed unchanged and replaces 0 with `Golden`. */
    method Seed(seed: bv64)
      modifies this
      ensures state == (if seed == 0 then Golden else seed)
      ensures Valid()
    {
      state := if seed == 0 then Golden else seed;
    }

    /** `xorshift64star(&r->state)`: one state update, returning the scrambled new state. */
    method XorShift64Star() returns (out: bv64)
      modifies this
      ensures state == Mix(old(state)) && out == Scramble(state)
      ensures old(Valid()) ==> Valid()
    {
      var x := state;
      x := XorRight12(x);
      x := XorLeft25(x);
      x := XorRight27(x);
      state := x;
      out := Scramble(x);
    }

    /**
     * The integer part of `rng_uniform`: exactly one `xorshift64star` step,
     * whose output's top 24 bits are the integer the float result is
     * scaled from.
     */
    method Uniform() returns (top24: bv32)
      modifies this
      ensures state == Mix(old(state))
      ensures top24 == Top24(Scramble(state)) && top24 < TwoTo24
      ensures old(Valid()) ==> Valid()
    {
      var x := XorShift64Star();
      top24 := Top24(x);
    }
  }
}
