/**
 * Dataset statistics of the trainer (src/data/normdata.c): per-feature mean
 * and standard deviation over the first num_vectors frames, excluding the
 * last column (the bias); in-place standardization of those frames; and
 * class weights inversely proportional to class frequencies. sqrt is
 * uninterpreted.
 */
module NormData {
  import opened Common
  import opened Matrix
  import opened Normalization

  /** The new-array step of summary_stats: a zeroed work vector of n entries. */
  method ZeroVector(n: nat) returns (a: array<real>)
    ensures fresh(a) && a.Length == n && forall j :: 0 <= j < n ==> a[j] == 0.0
  {
    a := new real[n];
    ClearVec(a);
  }

  /** mean[j] := sum[j] / m for j < n. */
  method DivideInto(sum: array<real>, mean: array<real>, n: int, m: int)
    requires n <= sum.Length && n <= mean.Length && sum != mean && m > 0
    modifies mean
    ensures forall j :: 0 <= j < mean.Length ==> mean[j] == if j < n then sum[j] / m as real else old(mean[j])
  {
    var j := 0;
    while j < n
      invariant 0 <= j <= Max(n, 0)
      invariant forall k :: 0 <= k < mean.Length ==> mean[k] == if k < j then sum[k] / m as real else old(mean[k])
    {
      mean[j] := sum[j] / m as real;
      j := j + 1;
    }
  }

  /** stddev[j] := sqrt(var[j] / m) for j < n. */
  method RootMeanInto(sqrt: SqrtFn, variance: array<real>, stddev: array<real>, n: int, m: int)
    requires n <= variance.Length && n <= stddev.Length && variance != stddev && m > 0
    modifies stddev
    ensures forall j :: 0 <= j < stddev.Length ==>
      stddev[j] == if j < n then sqrt(variance[j] / m as real) else old(stddev[j])
  {
    var j := 0;
    while j < n
      invariant 0 <= j <= Max(n, 0)
      invariant forall k :: 0 <= k < stddev.Length ==>
        stddev[k] == if k < j then sqrt(variance[k] / m as real) else old(stddev[k])
    {
      stddev[j] := sqrt(variance[j] / m as real);
      j := j + 1;
    }
  }

  /**
   * summary_stats: nothing happens without vectors; otherwise mean[j] and
   * stddev[j] are the mean and population standard deviation of column j
   * over the first numVectors rows, for every column but the last.
   */
  method SummaryStats(sqrt: SqrtFn, x: array2<real>, numVectors: int, mean: array<real>, stddev: array<real>)
    requires numVectors <= x.Length0
    requires numVectors > 0 ==>
      x.Length1 >= 1 && x.Length1 - 1 <= mean.Length && x.Length1 - 1 <= stddev.Length && mean != stddev
    modifies mean, stddev
    ensures numVectors <= 0 ==> mean[..] == old(mean[..]) && stddev[..] == old(stddev[..])
    ensures numVectors > 0 ==> forall j :: 0 <= j < x.Length1 - 1 ==>
      mean[j] == Mean(Snap(x), j, numVectors) && stddev[j] == Sdev(sqrt, Snap(x), j, numVectors)
    ensures forall j :: x.Length1 - 1 <= j < mean.Length && 0 <= j ==> mean[j] == old(mean[j])
    ensures forall j :: x.Length1 - 1 <= j < stddev.Length && 0 <= j ==> stddev[j] == old(stddev[j])
  {
    if numVectors <= 0 {
      return;
    }
    ghost var X := Snap(x);
    var dx := x.Length1 - 1;
    var sum := ZeroVector(dx);
    var variance := ZeroVector(dx);
    SumColumns(x, numVectors, sum, dx);
    assert Snap(x) == X;
    DivideInto(sum, mean, dx, numVectors);
    assert forall j :: 0 <= j < dx ==> mean[j] == Mean(X, j, numVectors);
    SumSquaredDeviations(x, numVectors, mean, variance, dx);
    assert Snap(x) == X;
    assert forall j :: 0 <= j < dx ==> variance[j] == SqDevSum(X, j, Mean(X, j, numVectors), numVectors);
    RootMeanInto(sqrt, variance, stddev, dx, numVectors);
    assert Snap(x) == X;
  }

  /**
   * normalize_data: the first numVectors rows standardized in place over
   * every column but the last; the last column and later rows untouched.
   */
  method NormalizeData(x: array2<real>, numVectors: int, mean: array<real>, stddev: array<real>)
    requires numVectors <= x.Length0 && x.Length1 - 1 <= mean.Length && x.Length1 - 1 <= stddev.Length
    modifies x
    ensures forall r, j :: 0 <= r < x.Length0 && 0 <= j < x.Length1 ==>
      x[r, j] == if r < numVectors && j < x.Length1 - 1 then Standardize(old(x[r, j]), mean[j], stddev[j])
                 else old(x[r, j])
  {
    StandardizeRows(x, numVectors, mean, stddev, x.Length1 - 1);
  }

  /** How often class j occurs in the first n label rows (the column sum of one-hot rows). */
  function Frequency(Y: Mat, j: int, n: int): real
    requires HasCol(Y, j) && n <= |Y|
  {
    if n > 0 then ColSum(Y, j, n) else 0.0
  }

  /** The weight before normalization: n / frequency, or the frequency itself when not positive. */
  function RawWeight(freq: real, n: int): real
  {
    if freq > 0.0 then (n as real) / freq else freq
  }

  /** The raw weights of all k classes. */
  function RawWeights(Y: Mat, n: int, k: nat): (w: seq<real>)
    requires IsMat(Y, |Y|, k) && n <= |Y|
    ensures |w| == k
  {
    seq(k, j requires 0 <= j < k => RawWeight(Frequency(Y, j, n), n))
  }

  /** class_stats' result: the raw weights scaled so that they sum to k. */
  function ClassWeights(Y: Mat, n: int, k: nat): (w: seq<real>)
    requires IsMat(Y, |Y|, k) && n <= |Y| && Sum(RawWeights(Y, n, k)) != 0.0
    ensures |w| == k
  {
    Scaled(RawWeights(Y, n, k), Sum(RawWeights(Y, n, k)))
  }

  /** Every entry of raw times its count |raw|, divided by total. */
  function Scaled(raw: seq<real>, total: real): (w: seq<real>)
    requires total != 0.0
    ensures |w| == |raw|
  {
    seq(|raw|, j requires 0 <= j < |raw| => (|raw| as real) * raw[j] / total)
  }

  /** A class that never occurs gets weight 0. */
  lemma AbsentClassWeightZero(Y: Mat, n: int, k: nat, j: int)
    requires IsMat(Y, |Y|, k) && n <= |Y| && Sum(RawWeights(Y, n, k)) != 0.0
    requires 0 <= j < k && Frequency(Y, j, n) == 0.0
    ensures ClassWeights(Y, n, k)[j] == 0.0
  {
  }

  /** The normalized weights sum to the number of classes. */
  lemma WeightsSumToK(Y: Mat, n: int, k: nat)
    requires IsMat(Y, |Y|, k) && n <= |Y| && Sum(RawWeights(Y, n, k)) != 0.0
    ensures Sum(ClassWeights(Y, n, k)) == k as real
  {
    var raw := RawWeights(Y, n, k);
    ScaledSumsToCount(raw, Sum(raw));
  }

  /** Scaling every entry by |raw| / Sum(raw) makes the entries sum to |raw|. */
  lemma ScaledSumsToCount(raw: seq<real>, total: real)
    requires total != 0.0 && total == Sum(raw)
    ensures Sum(Scaled(raw, total)) == |raw| as real
  {
    var kr := |raw| as real;
    var up := Sum(Times(kr, raw));
    TimesSum(raw, kr, total);
    ScaledIsDivided(raw, total);
    SelfQuotient(Sum(Scaled(raw, total)), up, kr, total);
  }

  /** Multiplying every entry by c multiplies the sum by c. */
  lemma {:induction false} TimesSum(raw: seq<real>, c: real, total: real)
    requires total == Sum(raw)
    ensures Sum(Times(c, raw)) == c * total
  {
    SumProportional(Times(c, raw), raw, c);
  }

  /** The scaled weights sum to the scaled-up raw weights' sum over the total. */
  lemma {:induction false} ScaledIsDivided(raw: seq<real>, total: real)
    requires total != 0.0
    ensures Sum(Scaled(raw, total)) == Sum(Times(|raw| as real, raw)) / total
  {
    SumDivided(Times(|raw| as real, raw), Scaled(raw, total), total);
  }

  /** If a == b / s and b == k s then a == k. */
  lemma SelfQuotient(a: real, b: real, k: real, s: real)
    requires s != 0.0 && a == b / s && b == k * s
    ensures a == k
  {
  }

  /**
   * Weights are inversely proportional to frequency: for every class that
   * occurs, weight times frequency is the same constant k n / sum.
   */
  lemma WeightTimesFrequency(Y: Mat, n: int, k: nat, j: int)
    requires IsMat(Y, |Y|, k) && n <= |Y| && Sum(RawWeights(Y, n, k)) != 0.0
    requires 0 <= j < k && Frequency(Y, j, n) > 0.0
    ensures ClassWeights(Y, n, k)[j] * Frequency(Y, j, n) == (k as real) * (n as real) / Sum(RawWeights(Y, n, k))
  {
    var raw := RawWeights(Y, n, k);
    ScaledTimesFrequency(raw, Sum(raw), j, Frequency(Y, j, n), n as real);
  }

  /** The entry of a class with raw weight n / f, times f. */
  lemma ScaledTimesFrequency(raw: seq<real>, total: real, j: int, f: real, n: real)
    requires total != 0.0 && 0 <= j < |raw| && f != 0.0 && raw[j] == n / f
    ensures Scaled(raw, total)[j] * f == (|raw| as real) * n / total
  {
    InverseScaled(Scaled(raw, total)[j], raw[j], |raw| as real, n, f, total);
  }

  /** If r == n / f and w == k r / s then w f == k n / s. */
  lemma InverseScaled(w: real, r: real, k: real, n: real, f: real, s: real)
    requires f != 0.0 && s != 0.0 && r == n / f && w == k * r / s
    ensures w * f == k * n / s
  {
  }

  /**
   * With one-hot (nonnegative) labels and at least one labelled vector the
   * raw weights are nonnegative and one is positive, so their sum is not 0.
   */
  lemma OneHotWeightsDefined(Y: Mat, n: int, k: nat, c: int)
    requires IsMat(Y, |Y|, k) && 0 < n <= |Y|
    requires forall r, j :: 0 <= r < |Y| && 0 <= j < k ==> Y[r][j] >= 0.0
    requires 0 <= c < k && Y[0][c] > 0.0
    ensures Sum(RawWeights(Y, n, k)) > 0.0
  {
    var raw := RawWeights(Y, n, k);
    forall j | 0 <= j < k
      ensures raw[j] >= 0.0
    {
      FrequencyNonNeg(Y, j, n);
    }
    FrequencyPositive(Y, c, n);
    PositiveSum(raw, c);
  }

  lemma {:induction false} FrequencyNonNeg(Y: Mat, j: int, m: nat)
    requires HasCol(Y, j) && m <= |Y|
    requires forall r :: 0 <= r < |Y| ==> Y[r][j] >= 0.0
    ensures ColSum(Y, j, m) >= 0.0
  {
    if m > 0 {
      FrequencyNonNeg(Y, j, m - 1);
    }
  }

  lemma {:induction false} FrequencyPositive(Y: Mat, j: int, m: nat)
    requires HasCol(Y, j) && 0 < m <= |Y|
    requires forall r :: 0 <= r < |Y| ==> Y[r][j] >= 0.0
    requires Y[0][j] > 0.0
    ensures ColSum(Y, j, m) > 0.0
  {
    if m > 1 {
      FrequencyPositive(Y, j, m - 1);
    }
  }

  /** A sum of nonnegative values one of which is positive is positive. */
  lemma {:induction false} PositiveSum(s: seq<real>, c: int)
    requires 0 <= c < |s| && s[c] > 0.0
    requires forall i :: 0 <= i < |s| ==> s[i] >= 0.0
    ensures Sum(s) > 0.0
  {
    var n := |s| - 1;
    if c == n {
      SumNonNeg(s[..n]);
    } else {
      PositiveSum(s[..n], c);
    }
  }

  lemma {:induction false} SumNonNeg(s: seq<real>)
    requires forall i :: 0 <= i < |s| ==> s[i] >= 0.0
    ensures Sum(s) >= 0.0
  {
    if |s| > 0 {
      SumNonNeg(s[..|s| - 1]);
    }
  }

  /** The frequency-to-raw-weight loop of class_stats, in place. */
  method InvertFrequencies(w: array<real>, n: int)
    modifies w
    ensures forall j :: 0 <= j < w.Length ==> w[j] == RawWeight(old(w[j]), n)
  {
    var i := 0;
    while i < w.Length
      invariant 0 <= i <= w.Length
      invariant forall j :: 0 <= j < w.Length ==> w[j] == if j < i then RawWeight(old(w[j]), n) else old(w[j])
    {
      if w[i] > 0.0 {
        w[i] := n as real / w[i];
      }
      i := i + 1;
    }
  }

  /** The summing loop of class_stats. */
  method SumOf(w: array<real>) returns (sum: real)
    ensures sum == Sum(w[..])
  {
    sum := 0.0;
    var i := 0;
    while i < w.Length
      invariant 0 <= i <= w.Length && sum == Sum(w[..i])
    {
      assert w[..i + 1][..i] == w[..i];
      sum := sum + w[i];
      i := i + 1;
    }
    assert w[..w.Length] == w[..];
  }

  /** The scaling loop of class_stats: w[j] := k w[j] / sum. */
  method ScaleWeights(w: array<real>, sum: real)
    requires sum != 0.0
    modifies w
    ensures w[..] == Scaled(old(w[..]), sum)
  {
    ghost var W := w[..];
    ghost var target := Scaled(W, sum);
    var i := 0;
    while i < w.Length
      invariant 0 <= i <= w.Length
      invariant forall j :: 0 <= j < w.Length ==> w[j] == if j < i then target[j] else W[j]
    {
      assert target[i] == (|W| as real) * W[i] / sum;
      w[i] := (w.Length as real) * w[i] / sum;
      i := i + 1;
    }
    assert w[..] == target;
  }

  /**
   * class_stats: the weights of the k classes of the one-hot labels in the
   * first numVectors rows of y, as ClassWeights defines them.
   */
  method ClassStats(y: array2<real>, numVectors: int, weights: array<real>)
    requires numVectors <= y.Length0 && weights.Length == y.Length1
    requires Sum(RawWeights(Snap(y), numVectors, y.Length1)) != 0.0
    modifies weights
    ensures weights[..] == ClassWeights(Snap(y), numVectors, y.Length1)
  {
    ghost var Y := Snap(y);
    var k := y.Length1;
    ClearVec(weights);
    SumColumns(y, numVectors, weights, k);
    assert forall j :: 0 <= j < k ==> weights[j] == Frequency(Y, j, numVectors);
    InvertFrequencies(weights, numVectors);
    ghost var raw := weights[..];
    assert raw == RawWeights(Y, numVectors, k);
    var sum := SumOf(weights);
    ScaleWeights(weights, sum);
    assert Snap(y) == Y;
  }
}
