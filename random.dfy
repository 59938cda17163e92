/**
 * The Park-Miller "minimal standard" Lehmer generator the trainer uses for
 * weight initialisation and shuffling. The C global seed becomes the field
 * of a single generator object; each draw updates it in place.
 */
module Random {
  const MODULUS: int := 2147483647      // 2^31 - 1
  const MULTIPLIER: int := 48271
  const Q: int := 44488                 // MODULUS / MULTIPLIER
  const R: int := 3399                  // MODULUS % MULTIPLIER
  const DEFAULT_SEED: int := 96431
  const INT32_MIN: int := -0x8000_0000
  const INT32_MAX: int := 0x7FFF_FFFF

  /** A seed the generator can cycle through without degenerating. */
  predicate Healthy(seed: int)
  {
    1 <= seed <= MODULUS - 1
  }

  /**
   * One step of Schrage's method exactly as the code computes it: the
   * quotient and remainder are C int32 operations on a nonnegative seed,
   * where truncation and Dafny's Euclidean division agree. The result is
   * the multiplicative step modulo the Mersenne prime, with the residue 0
   * replaced by the modulus itself.
   */
  function SchrageStep(seed: int): (next: int)
    requires 0 <= seed <= MODULUS
    ensures 1 <= next <= MODULUS
    ensures next == if (MULTIPLIER * seed) % MODULUS == 0 then MODULUS
                    else (MULTIPLIER * seed) % MODULUS
  {
    var t := MULTIPLIER * (seed % Q) - R * (seed / Q);
    SchrageDecompose(seed);
    if t > 0 then t else t + MODULUS
  }

  /** The intermediate value t of Schrage's method fits in int32 and differs from MULTIPLIER*seed by a multiple of the modulus. */
  lemma SchrageDecompose(seed: int)
    requires 0 <= seed <= MODULUS
    ensures var t := MULTIPLIER * (seed % Q) - R * (seed / Q);
      -MODULUS < t < MODULUS &&
      INT32_MIN <= MULTIPLIER * (seed % Q) <= INT32_MAX &&
      INT32_MIN <= R * (seed / Q) <= INT32_MAX &&
      MULTIPLIER * seed == MODULUS * (seed / Q) + t
  {
    var k, m := seed / Q, seed % Q;
    assert seed == Q * k + m;
    assert 0 <= k <= 48271;
    assert MULTIPLIER * Q == MODULUS - R;
  }

  /** The multiplier is invertible modulo the prime: 48271 * 1899818559 == 1 + 42704 * MODULUS. */
  lemma {:induction false} MultiplierCancels(seed: int)
    requires 0 <= seed <= MODULUS
    requires (MULTIPLIER * seed) % MODULUS == 0
    ensures seed == 0 || seed == MODULUS
  {
    var c := (MULTIPLIER * seed) / MODULUS;
    assert MULTIPLIER * seed == c * MODULUS;
    assert MULTIPLIER * 1899818559 == 1 + 42704 * MODULUS;
    calc {
      seed + seed * 42704 * MODULUS;
      seed * (MULTIPLIER * 1899818559);
      (MULTIPLIER * seed) * 1899818559;
      c * MODULUS * 1899818559;
    }
    assert seed == MODULUS * (c * 1899818559 - 42704 * seed);
  }

  /** A healthy seed stays healthy: the step never produces 0 or the modulus. */
  lemma {:induction false} StepKeepsHealthy(seed: int)
    requires Healthy(seed)
    ensures Healthy(SchrageStep(seed))
  {
    if (MULTIPLIER * seed) % MODULUS == 0 {
      MultiplierCancels(seed);
    }
  }

  /** The degenerate seeds: 0 steps to the modulus, and the modulus is a fixed point. */
  lemma {:induction false} DegenerateSeeds()
    ensures SchrageStep(0) == MODULUS
    ensures SchrageStep(MODULUS) == MODULUS
  {
    SchrageDecompose(MODULUS);
  }

  /** The low 31 bits of a two's-complement int32, as `seed & 0x7FFFFFFF` computes them. */
  function Mask31(s: int): (m: int)
    requires INT32_MIN <= s <= INT32_MAX
    ensures 0 <= m <= MODULUS
    ensures m % 0x8000_0000 == s % 0x8000_0000
    ensures 0 <= s ==> m == s
  {
    if s < 0 then s + 0x8000_0000 else s
  }

  /** 2^31, the value the modulus becomes when the code converts it to float. */
  const TWO_31: int := 0x8000_0000

  /** The least seed that float conversion rounds up to 2^31, making the draw exactly 1.0. */
  const FLOAT_ONE_SEED: int := 2147483584

  /** n rounded to a multiple of u, to the nearest one, ties to the even multiple. */
  function RoundBy(n: int, u: int): int
    requires u >= 1
  {
    var q, r := n / u, n % u;
    if 2 * r < u || (2 * r == u && q % 2 == 0) then q * u else (q + 1) * u
  }

  /**
   * n rounded to the float grid, searching upward from spacing u: a float
   * has a 24-bit significand, so below 2^24 * u the grid spacing is u, and
   * it doubles with each binade above, up to 128 below 2^31.
   */
  function RoundFrom(n: int, u: int): int
    requires 1 <= u <= 128
    decreases 128 - u
  {
    if n < 0x100_0000 * u || u > 64 then RoundBy(n, u) else RoundFrom(n, 2 * u)
  }

  /** `(float) n` for 0 <= n <= 2^31: n rounded to the nearest float, ties to even. */
  function ToFloat(n: int): int
  {
    RoundFrom(n, 1)
  }

  /** The float of n once its binade is known: spacing u. */
  lemma {:induction false} ToFloatIn(n: int, u: int)
    requires u == 1 || u == 2 || u == 4 || u == 8 || u == 16 || u == 32 || u == 64 || u == 128
    requires u == 1 || 0x80_0000 * u <= n
    requires n < 0x100_0000 * u || u == 128
    ensures ToFloat(n) == RoundBy(n, u)
  {
    assert RoundFrom(n, 1) == if u == 1 then RoundBy(n, 1) else RoundFrom(n, 2);
    if u > 1 {
      assert RoundFrom(n, 2) == if u == 2 then RoundBy(n, 2) else RoundFrom(n, 4);
      if u > 2 {
        assert RoundFrom(n, 4) == if u == 4 then RoundBy(n, 4) else RoundFrom(n, 8);
        if u > 4 {
          assert RoundFrom(n, 8) == if u == 8 then RoundBy(n, 8) else RoundFrom(n, 16);
          if u > 8 {
            assert RoundFrom(n, 16) == if u == 16 then RoundBy(n, 16) else RoundFrom(n, 32);
            if u > 16 {
              assert RoundFrom(n, 32) == if u == 32 then RoundBy(n, 32) else RoundFrom(n, 64);
              if u > 32 {
                assert RoundFrom(n, 64) == if u == 64 then RoundBy(n, 64) else RoundFrom(n, 128);
              }
            }
          }
        }
      }
    }
  }

  /** Rounding below 2^24 * u to a multiple of u stays in [1, 2^24 * u] for a positive n of that binade. */
  lemma RoundByRange(n: int, u: int)
    requires u == 1 || u == 2 || u == 4 || u == 8 || u == 16 || u == 32 || u == 64
    requires 1 <= n < 0x100_0000 * u && (u == 1 || 0x80_0000 * u <= n)
    ensures 1 <= RoundBy(n, u) <= 0x100_0000 * u
  {
  }

  /**
   * Float conversion stays in [0, 2^31], keeps a positive seed positive,
   * and reaches 2^31 exactly from FLOAT_ONE_SEED on.
   */
  lemma {:induction false} ToFloatRange(n: int)
    requires 0 <= n <= TWO_31
    ensures 0 <= ToFloat(n) <= TWO_31
    ensures n >= 1 ==> ToFloat(n) >= 1
    ensures ToFloat(n) == TWO_31 <==> n >= FLOAT_ONE_SEED
  {
    var u := if n < 0x100_0000 then 1 else if n < 0x200_0000 then 2 else if n < 0x400_0000 then 4
      else if n < 0x800_0000 then 8 else if n < 0x1000_0000 then 16 else if n < 0x2000_0000 then 32
      else if n < 0x4000_0000 then 64 else 128;
    ToFloatIn(n, u);
    if n == 0 {
    } else if u < 128 {
      RoundByRange(n, u);
    } else {
      var q, r := n / 128, n % 128;
      assert n == 128 * q + r && 0 <= r < 128;
      if n >= FLOAT_ONE_SEED {
        assert (q == 0xFF_FFFF && r >= 64) || n == TWO_31;
      } else {
        assert q < 0xFF_FFFF || r < 64;
      }
    }
  }

  /** The float modulus: 2^31 - 1 rounds up to 2^31. */
  lemma ModulusAsFloat()
    ensures ToFloat(MODULUS) == TWO_31
  {
    ToFloatIn(MODULUS, 128);
  }

  /**
   * What lrng returns for a seed: `(float) lrng_seed / modulus`, the seed
   * rounded to float over the modulus rounded to float. The divisor is a
   * power of two, so the quotient itself is exact.
   */
  function FloatDraw(seed: int): real
    requires 0 <= seed <= MODULUS
  {
    ToFloat(seed) as real / TWO_31 as real
  }

  /** The draw lies in [0, 1], is positive for a positive seed, and is 1.0 exactly from FLOAT_ONE_SEED on. */
  lemma {:induction false} FloatDrawRange(seed: int)
    requires 0 <= seed <= MODULUS
    ensures 0.0 <= FloatDraw(seed) <= 1.0
    ensures seed >= 1 ==> FloatDraw(seed) > 0.0
    ensures FloatDraw(seed) == 1.0 <==> seed >= FLOAT_ONE_SEED
  {
    ToFloatRange(seed);
    var f := ToFloat(seed);
    assert FloatDraw(seed) == f as real / TWO_31 as real;
    if f < TWO_31 {
      assert f as real < TWO_31 as real;
    }
  }

  /**
   * `(int) urand(0.0, 1.0 + i)` as the loaders write it: the integer part
   * of (1+i) times the draw. It lies in [0, i] only while the draw is
   * below 1.0.
   */
  function ShuffleIndexAsWritten(seed: int, i: nat): int
    requires 0 <= seed <= MODULUS
  {
    Affine(FloatDraw(seed), 0.0, (1 + i) as real).Floor
  }

  /**
   * The index the loaders mean to draw: an entry of [0, i]. It agrees with
   * the written one except on the draw 1.0, which it maps to i.
   */
  function ShuffleIndex(seed: int, i: nat): (j: int)
    requires 0 <= seed <= MODULUS
    ensures 0 <= j <= i
  {
    var w := ShuffleIndexAsWritten(seed, i);
    ShuffleIndexAsWrittenRange(seed, i);
    if w > i then i else w
  }

  /**
   * The affine map of urand: a draw u scaled onto [min, max]. A draw in
   * [0, 1] lands in [min, max] when min <= max.
   */
  function Affine(u: real, min: real, max: real): (r: real)
    ensures 0.0 <= u <= 1.0 && min <= max ==> min <= r <= max
  {
    var r := u * (max - min) + min;
    assert 0.0 <= u <= 1.0 && min <= max ==> min <= r <= max by {
      if 0.0 <= u <= 1.0 && min <= max {
        ScaleBelow(u, max - min);
      }
    }
    r
  }

  /** The draw 1.0 lands on max, and a draw below 1.0 lands below max when min < max. */
  lemma AffineTop(u: real, min: real, max: real)
    requires 0.0 <= u <= 1.0 && min < max
    ensures Affine(u, min, max) == max <==> u == 1.0
  {
    if u < 1.0 {
      PositiveProduct(1.0 - u, max - min);
      assert u * (max - min) + min == max - (1.0 - u) * (max - min);
    }
  }

  lemma PositiveProduct(a: real, b: real)
    requires a > 0.0 && b > 0.0
    ensures a * b > 0.0
  {
  }

  lemma ScaleBelow(u: real, w: real)
    requires 0.0 <= u <= 1.0 && 0.0 <= w
    ensures 0.0 <= u * w <= w
  {
    assert (1.0 - u) * w >= 0.0;
  }

  /** The written index is i + 1 exactly when the draw rounds to 1.0, and in [0, i] otherwise. */
  lemma {:induction false} ShuffleIndexAsWrittenRange(seed: int, i: nat)
    requires 0 <= seed <= MODULUS
    ensures 0 <= ShuffleIndexAsWritten(seed, i) <= i + 1
    ensures ShuffleIndexAsWritten(seed, i) == i + 1 <==> seed >= FLOAT_ONE_SEED
  {
    FloatDrawRange(seed);
    var u := FloatDraw(seed);
    var n := (1 + i) as real;
    AffineTop(u, 0.0, n);
    var v := Affine(u, 0.0, n);
    assert 0.0 <= v <= n;
    assert v.Floor as real <= v < v.Floor as real + 1.0;
  }

  /** The intended index always lies in [0, i], and equals the written one below FLOAT_ONE_SEED. */
  lemma ShuffleIndexInRange(seed: int, i: nat)
    requires 0 <= seed <= MODULUS
    ensures 0 <= ShuffleIndex(seed, i) <= i
    ensures seed < FLOAT_ONE_SEED ==> ShuffleIndex(seed, i) == ShuffleIndexAsWritten(seed, i)
  {
    ShuffleIndexAsWrittenRange(seed, i);
  }

  /**
   * A reachable failure of the written index: the healthy seed 570515015
   * steps to 2147483584, whose draw is 1.0, so the index is one past i.
   */
  lemma {:induction false} DrawOnePastEnd(i: nat)
    ensures Healthy(570515015) && SchrageStep(570515015) == FLOAT_ONE_SEED
    ensures FloatDraw(FLOAT_ONE_SEED) == 1.0
    ensures ShuffleIndexAsWritten(FLOAT_ONE_SEED, i) == i + 1
  {
    SchrageDecompose(570515015);
    ShuffleIndexAsWrittenRange(FLOAT_ONE_SEED, i);
    FloatDrawRange(FLOAT_ONE_SEED);
  }

  /** With the seed at the modulus the draw is 1.0 and the written index is i + 1. */
  lemma {:induction false} DegenerateShuffleIndex(i: nat)
    ensures FloatDraw(MODULUS) == 1.0
    ensures ShuffleIndexAsWritten(MODULUS, i) == i + 1
  {
    ShuffleIndexAsWrittenRange(MODULUS, i);
    FloatDrawRange(MODULUS);
  }

  class Lrng {
    var seed: int

    ghost predicate Valid()
      reads this
    {
      0 <= seed <= MODULUS
    }

    /** The generator as the program starts: the default prime seed. */
    constructor ()
      ensures Valid() && Healthy(seed) && seed == DEFAULT_SEED
    {
      seed := DEFAULT_SEED;
    }

    /** init_lrng as written: keeps the low 31 bits, so 0 and the modulus are accepted. */
    method InitLrng(s: int)
      requires INT32_MIN <= s <= INT32_MAX
      modifies this
      ensures Valid() && seed == Mask31(s)
    {
      seed := Mask31(s);
    }

    /** init_lrng with the degenerate seeds 0 and the modulus replaced by the default seed. */
    method InitLrngHealthy(s: int)
      requires INT32_MIN <= s <= INT32_MAX
      modifies this
      ensures Valid() && Healthy(seed)
      ensures seed == if Healthy(Mask31(s)) then Mask31(s) else DEFAULT_SEED
    {
      var m := Mask31(s);
      seed := if m == 0 || m == MODULUS then DEFAULT_SEED else m;
    }

    /**
     * lrng: one Schrage step, then the new seed over the modulus, both
     * rounded to float. The draw is 1.0 exactly when the new seed is at
     * least FLOAT_ONE_SEED.
     */
    method Next() returns (num: real)
      requires Valid()
      modifies this
      ensures Valid() && seed == SchrageStep(old(seed))
      ensures num == FloatDraw(seed) && 0.0 < num <= 1.0
      ensures num == 1.0 <==> seed >= FLOAT_ONE_SEED
      ensures Healthy(old(seed)) ==> Healthy(seed)
    {
      var t := MULTIPLIER * (seed % Q) - R * (seed / Q);
      SchrageDecompose(seed);
      if Healthy(seed) {
        StepKeepsHealthy(seed);
      }
      seed := if t > 0 then t else t + MODULUS;
      ModulusAsFloat();
      num := ToFloat(seed) as real / ToFloat(MODULUS) as real;
      FloatDrawRange(seed);
    }

    /** urand: the draw mapped affinely onto [min, max]. */
    method Urand(min: real, max: real) returns (num: real)
      requires Valid()
      modifies this
      ensures Valid() && seed == SchrageStep(old(seed))
      ensures num == Affine(FloatDraw(seed), min, max)
      ensures min <= max ==> min <= num <= max
      ensures Healthy(old(seed)) ==> Healthy(seed)
    {
      var u := Next();
      num := Affine(u, min, max);
    }
  }
}
