/**
 * Per-feature standardization (src/numeric/normalize.c): the mean and the
 * population standard deviation of every column of a set of feature
 * vectors, and the in-place rewrite of each value to (x - mean) / sdev.
 * When the last column is excluded (the bias), only the first D - 1
 * columns take part. sqrt is uninterpreted.
 */
module Normalization {
  import opened Common
  import opened Matrix
  import Loss

  /** Every one of the rows of X has a column j. */
  predicate HasCol(X: Mat, j: int)
  {
    0 <= j && forall r :: 0 <= r < |X| ==> j < |X[r]|
  }

  /** The sum of column j over the first m rows. */
  function ColSum(X: Mat, j: int, m: nat): real
    requires HasCol(X, j) && m <= |X|
  {
    if m == 0 then 0.0 else ColSum(X, j, m - 1) + X[m - 1][j]
  }

  /** The sum of squared deviations from mu of column j over the first m rows. */
  function SqDevSum(X: Mat, j: int, mu: real, m: nat): (s: real)
    requires HasCol(X, j) && m <= |X|
    ensures s >= 0.0
  {
    if m == 0 then 0.0
    else
      var d := X[m - 1][j] - mu;
      var prev := SqDevSum(X, j, mu, m - 1);
      if d == 0.0 then prev + d * d
      else Loss.AddSquarePositive(prev, d); prev + d * d
  }

  /** The mean of column j over the first m rows. */
  function Mean(X: Mat, j: int, m: nat): real
    requires HasCol(X, j) && 0 < m <= |X|
  {
    ColSum(X, j, m) / m as real
  }

  /** The population standard deviation of column j over the first m rows. */
  function Sdev(sqrt: SqrtFn, X: Mat, j: int, m: nat): real
    requires HasCol(X, j) && 0 < m <= |X|
  {
    sqrt(SqDevSum(X, j, Mean(X, j, m), m) / m as real)
  }

  /** One normalized value: (v - mean) / sdev, or 0 when sdev is not positive. */
  function Standardize(v: real, mean: real, sdev: real): real
  {
    if sdev > 0.0 then (v - mean) / sdev else 0.0
  }

  /** With a positive sdev, standardizing loses nothing: v is recovered from its image. */
  lemma StandardizeInverse(v: real, mean: real, sdev: real)
    requires sdev > 0.0
    ensures Standardize(v, mean, sdev) * sdev + mean == v
  {
  }

  /** The number of columns the statistics cover: D, or D - 1 without the last. */
  function Covered(d: int, excLast: bool): int
  {
    d - if excLast then 1 else 0
  }

  /** A column holding one value c has mean c and no deviation from it. */
  lemma ConstantColumn(X: Mat, j: int, c: real, m: nat)
    requires HasCol(X, j) && 0 < m <= |X|
    requires forall r :: 0 <= r < m ==> X[r][j] == c
    ensures Mean(X, j, m) == c
    ensures SqDevSum(X, j, c, m) == 0.0
  {
    ConstantSums(X, j, c, m);
    Cancel(c, m as real);
  }

  lemma {:induction false} ConstantSums(X: Mat, j: int, c: real, m: nat)
    requires HasCol(X, j) && m <= |X|
    requires forall r :: 0 <= r < m ==> X[r][j] == c
    ensures ColSum(X, j, m) == (m as real) * c
    ensures SqDevSum(X, j, c, m) == 0.0
  {
    if m > 0 {
      ConstantSums(X, j, c, m - 1);
      Distribute(c, (m - 1) as real);
    }
  }

  /** (n + 1) c == n c + c */
  lemma Distribute(c: real, n: real)
    ensures (n + 1.0) * c == n * c + c
  {
  }

  /** Removing n copies of the mean total / n leaves nothing to divide. */
  lemma MeanCancels(y: real, total: real, n: real, mu: real, sdev: real)
    requires n != 0.0 && sdev != 0.0 && mu == total / n && y == (total - n * mu) / sdev
    ensures y == 0.0
  {
    assert n * mu == total;
  }

  /** (n c) / n == c */
  lemma Cancel(c: real, n: real)
    requires n != 0.0
    ensures (n * c) / n == c
  {
  }

  /** The first m values of column j of Y are those of X standardized by mu and sdev. */
  predicate StandardizedBy(X: Mat, Y: Mat, j: int, mu: real, sdev: real, m: nat)
    requires HasCol(X, j) && HasCol(Y, j) && m <= |X| && m <= |Y|
  {
    forall r :: 0 <= r < m ==> Y[r][j] == Standardize(X[r][j], mu, sdev)
  }

  /**
   * Standardizing every value of a column by that column's mean and any
   * positive sdev leaves a column whose values sum to 0, so whose mean is 0.
   */
  lemma StandardizedSumZero(X: Mat, Y: Mat, j: int, mu: real, sdev: real, m: nat)
    requires HasCol(X, j) && HasCol(Y, j) && 0 < m <= |X| && m <= |Y| && sdev > 0.0
    requires mu == Mean(X, j, m)
    requires StandardizedBy(X, Y, j, mu, sdev, m)
    ensures ColSum(Y, j, m) == 0.0
  {
    StandardizedSum(X, Y, j, mu, sdev, m);
    MeanCancels(ColSum(Y, j, m), ColSum(X, j, m), m as real, mu, sdev);
  }

  lemma {:induction false} StandardizedSum(X: Mat, Y: Mat, j: int, mu: real, sdev: real, i: nat)
    requires HasCol(X, j) && HasCol(Y, j) && i <= |X| && i <= |Y| && sdev > 0.0
    requires StandardizedBy(X, Y, j, mu, sdev, i)
    ensures ColSum(Y, j, i) == (ColSum(X, j, i) - (i as real) * mu) / sdev
  {
    if i > 0 {
      StandardizedSum(X, Y, j, mu, sdev, i - 1);
      var n := (i - 1) as real;
      Distribute(mu, n);
      AddQuotients(ColSum(X, j, i - 1) - n * mu, X[i - 1][j] - mu, sdev);
    }
  }

  /** a / s + b / s == (a + b) / s */
  lemma AddQuotients(a: real, b: real, s: real)
    requires s != 0.0
    ensures a / s + b / s == (a + b) / s
  {
  }

  /** fltclr: the first n entries of a become 0. */
  method ClearPrefix(a: array<real>, n: int)
    requires n <= a.Length
    modifies a
    ensures forall j :: 0 <= j < a.Length ==> a[j] == if j < n then 0.0 else old(a[j])
  {
    var j := 0;
    while j < n
      invariant 0 <= j <= Max(n, 0)
      invariant forall k :: 0 <= k < a.Length ==> a[k] == if k < j then 0.0 else old(a[k])
    {
      a[j] := 0.0;
      j := j + 1;
    }
  }

  /** One row of the summing loop: acc[j] += x[i][j] for j < n. */
  method AddRow(x: array2<real>, i: int, acc: array<real>, n: int)
    requires 0 <= i < x.Length0 && n <= x.Length1 && n <= acc.Length
    modifies acc
    ensures forall j :: 0 <= j < acc.Length ==> acc[j] == if j < n then old(acc[j]) + x[i, j] else old(acc[j])
  {
    var j := 0;
    while j < n
      invariant 0 <= j <= Max(n, 0)
      invariant forall k :: 0 <= k < acc.Length ==> acc[k] == if k < j then old(acc[k]) + x[i, k] else old(acc[k])
    {
      acc[j] := acc[j] + x[i, j];
      j := j + 1;
    }
  }

  /** One row of the variance loop: acc[j] += (x[i][j] - mean[j])^2 for j < n. */
  method AddSquaredRow(x: array2<real>, i: int, mean: array<real>, acc: array<real>, n: int)
    requires 0 <= i < x.Length0 && n <= x.Length1 && n <= mean.Length && n <= acc.Length && mean != acc
    modifies acc
    ensures forall j :: 0 <= j < acc.Length ==>
      acc[j] == if j < n then old(acc[j]) + (Snap(x)[i][j] - mean[j]) * (Snap(x)[i][j] - mean[j]) else old(acc[j])
  {
    var j := 0;
    while j < n
      invariant 0 <= j <= Max(n, 0)
      invariant forall k :: 0 <= k < acc.Length ==>
        acc[k] == if k < j then old(acc[k]) + (x[i, k] - mean[k]) * (x[i, k] - mean[k]) else old(acc[k])
    {
      var val := x[i, j] - mean[j];
      acc[j] := acc[j] + val * val;
      j := j + 1;
    }
  }

  /** The first summing loop: acc[j] gains the sum of column j over the first m rows. */
  method SumColumns(x: array2<real>, m: int, acc: array<real>, n: int)
    requires m <= x.Length0 && n <= x.Length1 && n <= acc.Length
    modifies acc
    ensures forall j :: 0 <= j < acc.Length ==>
      acc[j] == if j < n && m > 0 then old(acc[j]) + ColSum(Snap(x), j, m) else old(acc[j])
  {
    ghost var X := Snap(x);
    var i := 0;
    while i < m
      invariant 0 <= i <= Max(m, 0)
      invariant forall j :: 0 <= j < acc.Length ==> acc[j] == if j < n then old(acc[j]) + ColSum(X, j, i) else old(acc[j])
    {
      AddRow(x, i, acc, n);
      i := i + 1;
    }
  }

  /** The second summing loop: acc[j] gains the squared deviations of column j from mean[j]. */
  method SumSquaredDeviations(x: array2<real>, m: int, mean: array<real>, acc: array<real>, n: int)
    requires m <= x.Length0 && n <= x.Length1 && n <= mean.Length && n <= acc.Length && mean != acc
    modifies acc
    ensures forall j :: 0 <= j < acc.Length ==>
      acc[j] == if j < n && m > 0 then old(acc[j]) + SqDevSum(Snap(x), j, mean[j], m) else old(acc[j])
  {
    ghost var X := Snap(x);
    var i := 0;
    while i < m
      invariant 0 <= i <= Max(m, 0)
      invariant forall j :: 0 <= j < acc.Length ==>
        acc[j] == if j < n then old(acc[j]) + SqDevSum(X, j, mean[j], i) else old(acc[j])
    {
      AddSquaredRow(x, i, mean, acc, n);
      i := i + 1;
    }
  }

  /** sum[j] / M for j < n, in place. */
  method DivideBy(a: array<real>, n: int, m: int)
    requires n <= a.Length && m > 0
    modifies a
    ensures forall j :: 0 <= j < a.Length ==> a[j] == if j < n then old(a[j]) / m as real else old(a[j])
  {
    var j := 0;
    while j < n
      invariant 0 <= j <= Max(n, 0)
      invariant forall k :: 0 <= k < a.Length ==> a[k] == if k < j then old(a[k]) / m as real else old(a[k])
    {
      a[j] := a[j] / m as real;
      j := j + 1;
    }
  }

  /** sqrt(var[j] / M) for j < n, in place. */
  method RootMean(sqrt: SqrtFn, a: array<real>, n: int, m: int)
    requires n <= a.Length && m > 0
    modifies a
    ensures forall j :: 0 <= j < a.Length ==> a[j] == if j < n then sqrt(old(a[j]) / m as real) else old(a[j])
  {
    var j := 0;
    while j < n
      invariant 0 <= j <= Max(n, 0)
      invariant forall k :: 0 <= k < a.Length ==> a[k] == if k < j then sqrt(old(a[k]) / m as real) else old(a[k])
    {
      a[j] := sqrt(a[j] / m as real);
      j := j + 1;
    }
  }

  /**
   * calculate_mean_sdev: mean[j] and sdev[j] become the mean and population
   * standard deviation of column j of x for the covered columns; the rest
   * of both vectors keeps its contents.
   */
  method CalculateMeanSdev(sqrt: SqrtFn, x: array2<real>, mean: array<real>, sdev: array<real>, excLast: bool)
    requires x.Length0 > 0
    requires Covered(x.Length1, excLast) <= mean.Length && Covered(x.Length1, excLast) <= sdev.Length
    requires mean != sdev
    modifies mean, sdev
    ensures forall j :: 0 <= j < Covered(x.Length1, excLast) ==>
      mean[j] == Mean(Snap(x), j, x.Length0) && sdev[j] == Sdev(sqrt, Snap(x), j, x.Length0)
    ensures forall j :: Covered(x.Length1, excLast) <= j < mean.Length && 0 <= j ==> mean[j] == old(mean[j])
    ensures forall j :: Covered(x.Length1, excLast) <= j < sdev.Length && 0 <= j ==> sdev[j] == old(sdev[j])
  {
    var m := x.Length0;
    var dx := x.Length1 - if excLast then 1 else 0;
    ClearPrefix(mean, dx);
    ClearPrefix(sdev, dx);
    SumColumns(x, m, mean, dx);
    DivideBy(mean, dx, m);
    SumSquaredDeviations(x, m, mean, sdev, dx);
    RootMean(sqrt, sdev, dx, m);
  }

  /** One row of the rewrite: x[i][j] := Standardize(x[i][j], mean[j], sdev[j]) for j < n. */
  method StandardizeRow(x: array2<real>, i: int, mean: array<real>, sdev: array<real>, n: int)
    requires 0 <= i < x.Length0 && n <= x.Length1 && n <= mean.Length && n <= sdev.Length
    modifies x
    ensures forall r, j :: 0 <= r < x.Length0 && 0 <= j < x.Length1 ==>
      x[r, j] == if r == i && j < n then Standardize(old(x[r, j]), mean[j], sdev[j]) else old(x[r, j])
  {
    var j := 0;
    while j < n
      invariant 0 <= j <= Max(n, 0)
      invariant forall r, k :: 0 <= r < x.Length0 && 0 <= k < x.Length1 ==>
        x[r, k] == if r == i && k < j then Standardize(old(x[r, k]), mean[k], sdev[k]) else old(x[r, k])
    {
      if sdev[j] > 0.0 {
        x[i, j] := (x[i, j] - mean[j]) / sdev[j];
      } else {
        x[i, j] := 0.0;
      }
      j := j + 1;
    }
  }

  /** The first m rows of x standardized over their first n columns. */
  method StandardizeRows(x: array2<real>, m: int, mean: array<real>, sdev: array<real>, n: int)
    requires m <= x.Length0 && n <= x.Length1 && n <= mean.Length && n <= sdev.Length
    modifies x
    ensures forall r, j :: 0 <= r < x.Length0 && 0 <= j < x.Length1 ==>
      x[r, j] == if r < m && j < n then Standardize(old(x[r, j]), mean[j], sdev[j]) else old(x[r, j])
  {
    var i := 0;
    while i < m
      invariant 0 <= i <= Max(m, 0)
      invariant forall r, j :: 0 <= r < x.Length0 && 0 <= j < x.Length1 ==>
        x[r, j] == if r < i && j < n then Standardize(old(x[r, j]), mean[j], sdev[j]) else old(x[r, j])
    {
      StandardizeRow(x, i, mean, sdev, n);
      i := i + 1;
    }
  }

  /** normalize: the covered columns of every row standardized in place, the rest untouched. */
  method Normalize(x: array2<real>, mean: array<real>, sdev: array<real>, excLast: bool)
    requires Covered(x.Length1, excLast) <= mean.Length && Covered(x.Length1, excLast) <= sdev.Length
    modifies x
    ensures forall r, j :: 0 <= r < x.Length0 && 0 <= j < x.Length1 ==>
      x[r, j] == if j < Covered(x.Length1, excLast) then Standardize(old(x[r, j]), mean[j], sdev[j]) else old(x[r, j])
  {
    var dx := x.Length1 - if excLast then 1 else 0;
    StandardizeRows(x, x.Length0, mean, sdev, dx);
  }
}
