/**
 * Delta features (src/feat/delta.c): for every frame t and feature f, the
 * regression slope of feature f over a window of wsize frames on each side,
 *   d[t] = sum_{n=1..wsize} n * (c[t+n] - c[t-n]) / (2 * sum_{n=1..wsize} n^2),
 * where neighbours outside the M frames contribute nothing.
 */
module Delta {
  import opened Matrix

  /** sum_{n=1..w} n^2, the sum calculate_deltas doubles into its denominator. */
  function SumSq(w: nat): (r: nat)
    ensures r >= w
  {
    if w == 0 then 0 else SumSq(w - 1) + w * w
  }

  /** The closed form w (w + 1) (2w + 1) / 6 of the denominator's sum. */
  lemma {:induction false} SumSqClosedForm(w: nat)
    ensures 6 * SumSq(w) == w * (w + 1) * (2 * w + 1)
  {
    if w > 0 {
      SumSqClosedForm(w - 1);
      CubeStep(w - 1);
    }
  }

  /** The step of the closed form's induction, an identity of polynomials. */
  lemma CubeStep(p: int)
    ensures p * (p + 1) * (2 * p + 1) + 6 * ((p + 1) * (p + 1)) == (p + 1) * (p + 2) * (2 * p + 3)
  {
  }

  /** The step of the linear trend's induction, an identity of polynomials. */
  lemma SlopeStep(a: real, b: real, tr: real, n: real)
    ensures n * (a * (tr + n) + b) - n * (a * (tr - n) + b) == a * (2.0 * n * n)
  {
  }

  /**
   * The contribution of the neighbours at distance n of frame t:
   * n * c[t + n] when t + n is a frame, minus n * c[t - n] when t - n is.
   */
  function Term(col: seq<real>, t: int, n: nat): real
    requires 0 <= t < |col|
  {
    (n as real) * ((if t + n < |col| then col[t + n] else 0.0) - (if t - n >= 0 then col[t - n] else 0.0))
  }

  /** The numerator after the first w window steps. */
  function Numerator(col: seq<real>, t: int, w: nat): real
    requires 0 <= t < |col|
  {
    if w == 0 then 0.0 else Numerator(col, t, w - 1) + Term(col, t, w)
  }

  /** What window step n adds to the denominator, 2 n^2, accumulated as 2 (n - 1)^2 + 4 n - 2. */
  function Weight(n: nat): (r: real)
    ensures r >= 0.0
  {
    if n == 0 then 0.0 else Weight(n - 1) + (4 * n - 2) as real
  }

  /** Weight(n) is 2 n^2. */
  lemma {:induction false} WeightIsSquare(n: nat)
    ensures Weight(n) == 2.0 * (n as real) * (n as real)
  {
    if n > 0 {
      WeightIsSquare(n - 1);
    }
  }

  /** The denominator 2 * sum_{n=1..w} n^2, as the real the numerator is divided by. */
  function Divisor(w: nat): real
  {
    if w == 0 then 0.0 else Divisor(w - 1) + Weight(w)
  }

  /** The real denominator is the integer one calculate_deltas computes, converted; it is at least 2 w. */
  lemma {:induction false} DivisorIsDenominator(w: nat)
    ensures Divisor(w) == (2 * SumSq(w)) as real && Divisor(w) >= (2 * w) as real
  {
    if w > 0 {
      DivisorIsDenominator(w - 1);
      WeightIsSquare(w);
      CastStep(SumSq(w - 1), w);
    }
  }

  /** Doubling s + w^2 and converting to a real, term by term. */
  lemma CastStep(s: int, w: int)
    ensures (2 * (s + w * w)) as real == (2 * s) as real + 2.0 * (w as real) * (w as real)
  {
  }

  /** The delta of frame t of a feature column, for a window of w >= 1. */
  function DeltaOf(col: seq<real>, t: int, w: nat): real
    requires 0 <= t < |col| && w >= 1
  {
    DivisorPositive(w);
    Numerator(col, t, w) / Divisor(w)
  }

  /** A feature that does not change has delta 0 wherever the whole window fits. */
  lemma {:induction false} ConstantNumeratorZero(col: seq<real>, c: real, t: int, w: nat)
    requires forall k :: 0 <= k < |col| ==> col[k] == c
    requires w <= t && t + w < |col|
    ensures Numerator(col, t, w) == 0.0
  {
    if w > 0 {
      ConstantNumeratorZero(col, c, t, w - 1);
      assert col[t + w] == c && col[t - w] == c;
      assert Term(col, t, w) == 0.0;
    }
  }

  /** A constant feature has delta 0 wherever the whole window fits. */
  lemma {:induction false} ConstantDeltaZero(col: seq<real>, c: real, t: int, w: nat)
    requires forall k :: 0 <= k < |col| ==> col[k] == c
    requires 1 <= w <= t && t + w < |col|
    ensures DeltaOf(col, t, w) == 0.0
  {
    ConstantNumeratorZero(col, c, t, w);
    ProportionalDelta(col, 0.0, t, w);
  }

  /** On a linear trend a * k + b, the neighbours at distance n add 2 a n^2. */
  lemma {:induction false} LinearTerm(col: seq<real>, a: real, b: real, t: int, n: nat)
    requires forall k :: 0 <= k < |col| ==> col[k] == a * (k as real) + b
    requires n <= t && t + n < |col|
    ensures Term(col, t, n) == a * Weight(n)
  {
    var nr, tr := n as real, t as real;
    var hi, lo := col[t + n], col[t - n];
    assert Term(col, t, n) == nr * (hi - lo);
    assert hi == a * (tr + nr) + b;
    assert lo == a * (tr - nr) + b;
    SlopeStep(a, b, tr, nr);
    WeightIsSquare(n);
  }

  /** Two sums that grow in proportion a stay in proportion a. */
  lemma AddStep(a: real, num: real, den: real, term: real, weight: real, num': real, den': real)
    requires num == a * den && term == a * weight && num' == num + term && den' == den + weight
    ensures num' == a * den'
  {
  }

  /** Each of the window steps 1..w adds a times its weight to the numerator. */
  ghost predicate StepsInProportion(col: seq<real>, a: real, t: int, w: nat)
    requires 0 <= t < |col|
  {
    w == 0 || (StepsInProportion(col, a, t, w - 1) && Term(col, t, w) == a * Weight(w))
  }

  /** The numerator after w steps, given that each step adds a times its weight. */
  lemma {:induction false} NumeratorOfSteps(col: seq<real>, a: real, t: int, w: nat)
    requires 0 <= t < |col| && StepsInProportion(col, a, t, w)
    ensures Numerator(col, t, w) == a * Divisor(w)
  {
    if w > 0 {
      NumeratorOfSteps(col, a, t, w - 1);
      AddStep(a, Numerator(col, t, w - 1), Divisor(w - 1), Term(col, t, w), Weight(w),
              Numerator(col, t, w), Divisor(w));
    }
  }

  /** On a linear trend a * k + b, every window step inside the frames adds a times its weight. */
  lemma {:induction false} LinearSteps(col: seq<real>, a: real, b: real, t: int, w: nat)
    requires forall k :: 0 <= k < |col| ==> col[k] == a * (k as real) + b
    requires w <= t && t + w < |col|
    ensures StepsInProportion(col, a, t, w)
  {
    if w > 0 {
      LinearSteps(col, a, b, t, w - 1);
      LinearTerm(col, a, b, t, w);
    }
  }

  /** On a linear trend a * k + b, the numerator inside the frames is a times the denominator. */
  lemma {:induction false} LinearNumerator(col: seq<real>, a: real, b: real, t: int, w: nat)
    requires forall k :: 0 <= k < |col| ==> col[k] == a * (k as real) + b
    requires w <= t && t + w < |col|
    ensures Numerator(col, t, w) == a * Divisor(w)
  {
    LinearSteps(col, a, b, t, w);
    NumeratorOfSteps(col, a, t, w);
  }

  /** The denominator of a window of at least one frame is positive. */
  lemma {:induction false} DivisorPositive(w: nat)
    requires w >= 1
    ensures Divisor(w) > 0.0
  {
    DivisorIsDenominator(w);
  }

  /** A numerator a times the denominator gives delta a. */
  lemma {:induction false} ProportionalDelta(col: seq<real>, a: real, t: int, w: nat)
    requires 0 <= t < |col| && w >= 1 && Numerator(col, t, w) == a * Divisor(w)
    ensures DeltaOf(col, t, w) == a
  {
    DivisorPositive(w);
    Quotient(Numerator(col, t, w), Divisor(w), a);
  }

  /** The numerator divided by the integer denominator calculate_deltas computes is the delta. */
  lemma {:induction false} DeltaFromDenominator(col: seq<real>, t: int, w: nat, num: real, den: int)
    requires 0 <= t < |col| && w >= 1 && num == Numerator(col, t, w) && den == 2 * SumSq(w)
    ensures num / den as real == DeltaOf(col, t, w)
  {
    DivisorIsDenominator(w);
  }

  /** The delta of a linear trend is its slope, wherever the whole window fits. */
  lemma {:induction false} LinearDeltaIsSlope(col: seq<real>, a: real, b: real, t: int, w: nat)
    requires forall k :: 0 <= k < |col| ==> col[k] == a * (k as real) + b
    requires 1 <= w <= t && t + w < |col|
    ensures DeltaOf(col, t, w) == a
  {
    LinearNumerator(col, a, b, t, w);
    ProportionalDelta(col, a, t, w);
  }

  /** A multiple of a nonzero divisor, divided by it. */
  lemma Quotient(n: real, d: real, a: real)
    requires d != 0.0 && n == a * d
    ensures n / d == a
  {
  }

  /** The source and destination column ranges do not overlap. */
  predicate Apart(soff: int, doff: int, fcnt: int)
  {
    soff + fcnt <= doff || doff + fcnt <= soff
  }

  /**
   * calculate_deltas: column doff + f of every row receives the delta of
   * column soff + f of the original x; every other cell keeps its value.
   */
  method CalculateDeltas(x: array2<real>, soff: int, doff: int, fcnt: int, wsize: int)
    requires wsize >= 1
    requires fcnt > 0 ==> 0 <= soff && soff + fcnt <= x.Length1 && 0 <= doff && doff + fcnt <= x.Length1
    requires fcnt > 0 ==> Apart(soff, doff, fcnt)
    modifies x
    ensures forall t, c :: 0 <= t < x.Length0 && doff <= c < doff + fcnt ==>
      x[t, c] == DeltaOf(Col(old(Snap(x)), c - doff + soff), t, wsize)
    ensures forall t, c :: 0 <= t < x.Length0 && 0 <= c < x.Length1 && !(doff <= c < doff + fcnt) ==>
      x[t, c] == old(x[t, c])
  {
    var denominator := Denominator(wsize);
    ghost var X := Snap(x);
    var t := 0;
    while t < x.Length0
      invariant 0 <= t <= x.Length0
      invariant forall t', c :: 0 <= t' < t && doff <= c < doff + fcnt ==>
        x[t', c] == DeltaOf(Col(X, c - doff + soff), t', wsize)
      invariant forall t', c :: 0 <= t' < x.Length0 && 0 <= c < x.Length1 && !(t' < t && doff <= c < doff + fcnt) ==>
        x[t', c] == X[t'][c]
    {
      DeltaRow(x, t, soff, doff, fcnt, wsize, denominator, X);
      t := t + 1;
    }
  }

  /** One pass of the frame loop: the deltas of frame t, from the columns of X that x still holds. */
  method DeltaRow(x: array2<real>, t: int, soff: int, doff: int, fcnt: int, wsize: int, denominator: int,
                  ghost X: Mat)
    requires 0 <= t < x.Length0 && wsize >= 1 && denominator == 2 * SumSq(wsize)
    requires fcnt > 0 ==> 0 <= soff && soff + fcnt <= x.Length1 && 0 <= doff && doff + fcnt <= x.Length1
    requires fcnt > 0 ==> Apart(soff, doff, fcnt)
    requires IsMat(X, x.Length0, x.Length1)
    requires forall t', c :: 0 <= t' < x.Length0 && soff <= c < soff + fcnt ==> x[t', c] == X[t'][c]
    modifies x
    ensures forall c :: doff <= c < doff + fcnt ==> x[t, c] == DeltaOf(Col(X, c - doff + soff), t, wsize)
    ensures forall t', c :: 0 <= t' < x.Length0 && 0 <= c < x.Length1 && !(t' == t && doff <= c < doff + fcnt) ==>
      x[t', c] == old(x[t', c])
  {
    var f := 0;
    while f < fcnt
      invariant 0 <= f <= (if fcnt < 0 then 0 else fcnt)
      invariant forall c :: doff <= c < doff + f ==> x[t, c] == DeltaOf(Col(X, c - doff + soff), t, wsize)
      invariant forall t', c :: 0 <= t' < x.Length0 && 0 <= c < x.Length1 && !(t' == t && doff <= c < doff + f) ==>
        x[t', c] == old(x[t', c])
    {
      ghost var col := Col(X, soff + f);
      var numerator := WindowSum(x, t, soff + f, wsize, col);
      DeltaFromDenominator(col, t, wsize, numerator, denominator);
      x[t, doff + f] := numerator / denominator as real;
      f := f + 1;
    }
  }

  /** The first loop of calculate_deltas: 2 * sum_{n=1..wsize} n^2. */
  method Denominator(wsize: int) returns (d: int)
    requires wsize >= 0
    ensures d == 2 * SumSq(wsize)
  {
    d := 0;
    var n := 1;
    while n <= wsize
      invariant 1 <= n <= wsize + 1 && d == SumSq(n - 1)
    {
      d := d + n * n;
      n := n + 1;
    }
    d := d * 2;
  }

  /** The innermost loop: the numerator for frame t of column c. */
  method WindowSum(x: array2<real>, t: int, c: int, wsize: int, ghost col: seq<real>) returns (num: real)
    requires 0 <= t < x.Length0 && 0 <= c < x.Length1 && wsize >= 0
    requires |col| == x.Length0 && forall r :: 0 <= r < x.Length0 ==> col[r] == x[r, c]
    ensures num == Numerator(col, t, wsize)
  {
    num := 0.0;
    var n := 1;
    while n <= wsize
      invariant 1 <= n <= wsize + 1 && num == Numerator(col, t, n - 1)
    {
      if t + n < x.Length0 {
        num := num + (n as real) * x[t + n, c];
      }
      if t - n >= 0 {
        num := num - (n as real) * x[t - n, c];
      }
      n := n + 1;
    }
  }
}
