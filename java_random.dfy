/**
 * The seeded pseudo-random generator that `mask` creates per call
 * (`new Random(seed)`) and draws from with `nextInt(bound)`.
 *
 * The state is the 48-bit linear congruential generator that
 * `java.util.Random` documents.  No property of the masker depends on the
 * concrete values drawn: the proofs use only that a draw lies in
 * `[0, bound)` and that every draw advances the state by exactly one step.
 */
module JavaRandom {

  const MULTIPLIER: int := 0x5_DEEC_E66D
  const ADDEND: int := 0xB
  /** 2^48: the generator keeps 48 bits of state. */
  const MODULUS: int := 0x1_0000_0000_0000

  /** The state of `new Random(seed)`: the seed XOR the multiplier, kept to 48 bits. */
  function InitialState(seed: int): (s: int)
    ensures 0 <= s < MODULUS
  {
    // the low 48 bits of (seed ^ MULTIPLIER) depend only on the low 48 bits of seed
    var low: bv48 := (seed % MODULUS) as bv48;
    (low ^ 0x5_DEEC_E66D) as int
  }

  /** One step of the generator, as performed by every `next(bits)`. */
  function Advance(s: int): (t: int)
    ensures 0 <= t < MODULUS
  {
    (s * MULTIPLIER + ADDEND) % MODULUS
  }

  /** `n` steps of the generator. */
  function AdvanceBy(s: int, n: nat): int
  {
    if n == 0 then s else Advance(AdvanceBy(s, n - 1))
  }

  /** `bound & (bound - 1) == 0` for a positive bound. */
  predicate IsPowerOfTwo(n: int)
    decreases if n < 0 then 0 else n
  {
    n == 1 || (n > 1 && n % 2 == 0 && IsPowerOfTwo(n / 2))
  }

  lemma ScaledDrawBelowBound(bound: int, bits: int)
    requires bound > 0 && 0 <= bits < 0x8000_0000
    ensures 0 <= (bound * bits) / 0x8000_0000 < bound
  {
    assert bound * bits < bound * 0x8000_0000;
  }

  /**
   * `nextInt(bound)` without its redraw loop: the drawn value and the state
   * after the draw.  The value is `next(31)` (the top 31 of the 48 state
   * bits) scaled for a power of two and reduced modulo the bound otherwise.
   */
  function NextIntOf(s: int, bound: int): (res: (int, int))
    requires bound > 0
    ensures 0 <= res.0 < bound
    ensures res.1 == Advance(s)
  {
    var t := Advance(s);
    var bits := t / 0x2_0000;
    if IsPowerOfTwo(bound) then
      ScaledDrawBelowBound(bound, bits);
      ((bound * bits) / 0x8000_0000, t)
    else
      (bits % bound, t)
  }

  /** A `java.util.Random` object: its mutable 48-bit state. */
  class Random {
    var state: int

    constructor (seed: int)
      ensures state == InitialState(seed)
    {
      state := InitialState(seed);
    }

    method NextInt(bound: int) returns (v: int)
      requires bound > 0
      modifies this
      ensures 0 <= v < bound
      ensures state == Advance(old(state))
      ensures v == NextIntOf(old(state), bound).0
    {
      var next: int;
      v, next := NextIntOf(state, bound).0, NextIntOf(state, bound).1;
      state := next;
    }
  }
}
