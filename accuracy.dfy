/**
 * Accuracy statistics of predictions against truth (src/stats/accuracy.c):
 * the R-squared numerator and the count of correctly classified rows.
 */
module Accuracy {
  import opened Common
  import opened Matrix
  import opened OneHot
  import Loss

  /** Sum of the entries of the first m rows. */
  function MatSum(y: Mat, m: nat, n: nat): real
    requires IsMat(y, |y|, n) && m <= |y|
  {
    if m == 0 then 0.0 else MatSum(y, m - 1, n) + Sum(y[m - 1])
  }

  /** The row of width n holding c everywhere. */
  function Const(c: real, n: nat): (r: seq<real>)
    ensures |r| == n && forall j :: 0 <= j < n ==> r[j] == c
  {
    seq(n, j requires 0 <= j < n => c)
  }

  /** Summed squared deviation of the first m rows from c. */
  function Deviation(y: Mat, c: real, m: nat, n: nat): (d: real)
    requires IsMat(y, |y|, n) && m <= |y|
    ensures d >= 0.0
  {
    if m == 0 then 0.0 else Deviation(y, c, m - 1, n) + Loss.RowSquaredError(y[m - 1], Const(c, n))
  }

  /** Mean of all m*n entries (0 for an empty matrix). */
  function Mean(y: Mat, m: nat, n: nat): real
    requires IsMat(y, m, n)
  {
    if m * n == 0 then 0.0 else MatSum(y, m, n) / (m * n) as real
  }

  /**
   * M * (1 - SSres / SStot). When the truth has no spread (SStot = 0, which
   * includes the empty matrix) the float result is infinite or NaN: None.
   */
  function R2(yp: Mat, yt: Mat, m: nat, n: nat): (r: Option<real>)
    requires IsMat(yp, m, n) && IsMat(yt, m, n)
    ensures r.None? <==> Deviation(yt, Mean(yt, m, n), m, n) == 0.0
    ensures r.Some? ==> r.value <= m as real
  {
    Score(Loss.SquaredError(yt, yp, m, n), Deviation(yt, Mean(yt, m, n), m, n), m)
  }

  /** The final expression of R2_sum from the two squared sums. */
  function Score(res: real, tot: real, m: nat): (r: Option<real>)
    requires res >= 0.0 && tot >= 0.0
    ensures r.None? <==> tot == 0.0
    ensures r.Some? ==> r.value <= m as real
  {
    if tot == 0.0 then None
    else
      DivNonNeg(res, tot);
      Some(m as real * (1.0 - res / tot))
  }

  lemma DivNonNeg(a: real, b: real)
    requires a >= 0.0 && b > 0.0
    ensures a / b >= 0.0
  {
  }

  /** A prediction equal to the truth scores M, the largest possible value. */
  lemma PerfectFitScoresM(y: Mat, m: nat, n: nat)
    requires IsMat(y, m, n) && Deviation(y, Mean(y, m, n), m, n) != 0.0
    ensures R2(y, y, m, n) == Some(m as real)
  {
    Loss.SquaredErrorZero(y, y, m, n);
  }

  /**
   * The result is not confined to 0..M: a prediction worse than the mean
   * gives a negative value (here M = 1, truth 0 2, prediction 2 0 scores -3).
   */
  lemma R2CanBeNegative()
    ensures R2([[2.0, 0.0]], [[0.0, 2.0]], 1, 2) == Some(-3.0)
  {
    var yt := [[0.0, 2.0]];
    assert Sum(yt[0]) == 2.0 by {
      assert yt[0][..1] == [0.0];
      assert yt[0][..1][..0] == [];
    }
    assert Mean(yt, 1, 2) == 1.0;
    var c := Const(1.0, 2);
    assert Loss.RowSquaredError(yt[0], c) == 2.0 by {
      assert yt[0][..1] == [0.0] && c[..1] == [1.0];
      assert yt[0][..1][..0] == [] && c[..1][..0] == [];
    }
    var yp := [[2.0, 0.0]];
    assert Loss.RowSquaredError(yt[0], yp[0]) == 8.0 by {
      assert yt[0][..1] == [0.0] && yp[0][..1] == [2.0];
      assert yt[0][..1][..0] == [] && yp[0][..1][..0] == [];
    }
  }

  /** R2_sum: two passes, the mean of the truth first, then both squared sums. */
  method R2Sum(yp: array2<real>, yt: array2<real>) returns (r: Option<real>)
    requires yp.Length0 == yt.Length0 && yp.Length1 == yt.Length1
    ensures r == R2(Snap(yp), Snap(yt), yt.Length0, yt.Length1)
  {
    var mean := TruthMean(yt);
    var res, tot := Spreads(yp, yt, mean);
    r := Finish(res, tot, yt.Length0);
  }

  /** The first pass of R2_sum: the mean of every entry of the truth. */
  method TruthMean(yt: array2<real>) returns (mean: real)
    ensures mean == Mean(Snap(yt), yt.Length0, yt.Length1)
  {
    ghost var Y := Snap(yt);
    var m, n := yt.Length0, yt.Length1;
    var total := 0.0;
    var i := 0;
    while i < m
      invariant 0 <= i <= m
      invariant total == MatSum(Y, i, n)
    {
      var s := RowTotal(yt, i);
      total := total + s;
      i := i + 1;
    }
    mean := if m * n == 0 then 0.0 else total / (m * n) as real;
  }

  /** The second pass of R2_sum: the squared error of the prediction and the squared deviation from the mean. */
  method Spreads(yp: array2<real>, yt: array2<real>, mean: real) returns (res: real, tot: real)
    requires yp.Length0 == yt.Length0 && yp.Length1 == yt.Length1
    ensures res == Loss.SquaredError(Snap(yt), Snap(yp), yt.Length0, yt.Length1)
    ensures tot == Deviation(Snap(yt), mean, yt.Length0, yt.Length1)
  {
    ghost var P, Y := Snap(yp), Snap(yt);
    res, tot := 0.0, 0.0;
    var i := 0;
    while i < yt.Length0
      invariant 0 <= i <= yt.Length0
      invariant res == Loss.SquaredError(Y, P, i, yt.Length1)
      invariant tot == Deviation(Y, mean, i, yt.Length1)
    {
      var e, d := RowSpread(yp, yt, i, mean);
      res := res + e;
      tot := tot + d;
      i := i + 1;
    }
  }

  /** The return statement of R2_sum. */
  method Finish(res: real, tot: real, m: nat) returns (r: Option<real>)
    requires res >= 0.0 && tot >= 0.0
    ensures r == Score(res, tot, m)
  {
    if tot == 0.0 {
      r := None;
    } else {
      r := Some(m as real * (1.0 - res / tot));
    }
  }

  /** The first inner loop of R2_sum: the sum of truth row i. */
  method RowTotal(yt: array2<real>, i: nat) returns (s: real)
    requires i < yt.Length0
    ensures s == Sum(Snap(yt)[i])
  {
    ghost var y := Snap(yt)[i];
    s := 0.0;
    var j := 0;
    while j < yt.Length1
      invariant 0 <= j <= yt.Length1
      invariant s == Sum(y[..j])
    {
      assert y[..j + 1][..j] == y[..j];
      s := s + yt[i, j];
      j := j + 1;
    }
    assert y[..yt.Length1] == y;
  }

  /** The second inner loop of R2_sum: row i's squared error and squared deviation from the mean. */
  method RowSpread(yp: array2<real>, yt: array2<real>, i: nat, mean: real) returns (e: real, d: real)
    requires yp.Length0 == yt.Length0 && yp.Length1 == yt.Length1 && i < yt.Length0
    ensures e == Loss.RowSquaredError(Snap(yt)[i], Snap(yp)[i])
    ensures d == Loss.RowSquaredError(Snap(yt)[i], Const(mean, yt.Length1))
  {
    ghost var y, p, c := Snap(yt)[i], Snap(yp)[i], Const(mean, yt.Length1);
    e, d := 0.0, 0.0;
    var j := 0;
    while j < yt.Length1
      invariant 0 <= j <= yt.Length1
      invariant e == Loss.RowSquaredError(y[..j], p[..j])
      invariant d == Loss.RowSquaredError(y[..j], c[..j])
    {
      assert y[..j + 1][..j] == y[..j] && p[..j + 1][..j] == p[..j] && c[..j + 1][..j] == c[..j];
      var d1 := yt[i, j] - yp[i, j];
      var d2 := yt[i, j] - mean;
      e := e + d1 * d1;
      d := d + d2 * d2;
      j := j + 1;
    }
    assert y[..yt.Length1] == y && p[..yt.Length1] == p && c[..yt.Length1] == c;
  }

  /**
   * The class match_sum reads off a truth row: the first nonzero column
   * among the first n, or n when there is none.
   */
  function FirstNonzero(r: seq<real>, n: nat): (l: nat)
    requires n <= |r|
    ensures l <= n
    ensures l < n ==> r[l] != 0.0
    ensures forall j :: 0 <= j < l ==> r[j] == 0.0
  {
    if n == 0 then 0
    else
      var l := FirstNonzero(r, n - 1);
      if l < n - 1 then l else if r[n - 1] != 0.0 then n - 1 else n
  }

  /** The cls read off a one-hot row is its class. */
  lemma {:induction false} FirstNonzeroOneHot(c: nat, k: nat, n: nat)
    requires c < n <= k
    ensures FirstNonzero(OneHotRow(c, k), n) == c
  {
    if n - 1 > c {
      FirstNonzeroOneHot(c, k, n - 1);
    } else if n > 1 {
      var l := FirstNonzero(OneHotRow(c, k), n - 1);
      assert l == n - 1;
    }
  }

  /** The number of the first m rows whose label equals the first arg-max of the prediction. */
  function Matches(yp: Mat, yt: Mat, m: nat, k: nat): (c: nat)
    requires IsMat(yp, |yp|, k) && IsMat(yt, |yp|, k) && m <= |yp|
    ensures c <= m
  {
    if m == 0 then 0
    else Matches(yp, yt, m - 1, k) + if FirstNonzero(yt[m - 1], k) == FirstArgMax(yp[m - 1], k) then 1 else 0
  }

  /** A prediction equal to one-hot truth matches every row. */
  lemma {:induction false} PerfectPredictionMatchesAll(c: seq<nat>, m: nat, k: nat)
    requires m <= |c| && forall i :: 0 <= i < |c| ==> c[i] < k
    ensures var y := seq(|c|, i requires 0 <= i < |c| => OneHotRow(c[i], k));
      Matches(y, y, m, k) == m
  {
    var y := seq(|c|, i requires 0 <= i < |c| => OneHotRow(c[i], k));
    if m > 0 {
      PerfectPredictionMatchesAll(c, m - 1, k);
      FirstNonzeroOneHot(c[m - 1], k, k);
      DecodeOneHot(c[m - 1], k, k);
    }
  }

  /** match_sum: the count of correctly classified rows, as a float. */
  method MatchSum(yp: array2<real>, yt: array2<real>) returns (r: real)
    requires yp.Length0 == yt.Length0 && yp.Length1 == yt.Length1
    ensures r == Matches(Snap(yp), Snap(yt), yt.Length0, yt.Length1) as real
    ensures 0.0 <= r <= yt.Length0 as real
  {
    ghost var P, Y := Snap(yp), Snap(yt);
    var cnt := 0;
    var i := 0;
    while i < yt.Length0
      invariant 0 <= i <= yt.Length0
      invariant cnt == Matches(P, Y, i, yt.Length1)
    {
      var hit := RowMatches(yp, yt, i);
      if hit {
        cnt := cnt + 1;
      }
      i := i + 1;
    }
    r := cnt as real;
  }

  /** One pass of match_sum's row loop: whether row i's label equals its predicted class. */
  method RowMatches(yp: array2<real>, yt: array2<real>, i: nat) returns (hit: bool)
    requires yp.Length0 == yt.Length0 && yp.Length1 == yt.Length1 && i < yt.Length0
    ensures hit <==> FirstNonzero(Snap(yt)[i], yt.Length1) == FirstArgMax(Snap(yp)[i], yt.Length1)
  {
    var cls := TrueClass(yt, i);
    var pred := Pred(yp, i);
    RowOfSnap(yt, i);
    RowOfSnap(yp, i);
    hit := cls == pred;
  }

  /** The label loop of match_sum: stops at the first nonzero entry of truth row i. */
  method TrueClass(yt: array2<real>, i: nat) returns (cls: nat)
    requires i < yt.Length0
    ensures cls == FirstNonzero(RowOf(yt, i), yt.Length1)
  {
    ghost var r := RowOf(yt, i);
    cls := 0;
    while cls < yt.Length1
      invariant cls <= yt.Length1
      invariant forall j :: 0 <= j < cls ==> r[j] == 0.0
    {
      if yt[i, cls] != 0.0 {
        break;
      }
      cls := cls + 1;
    }
    FirstNonzeroIsFirst(r, yt.Length1, cls);
  }

  /** FirstNonzero is characterised by its contract. */
  lemma FirstNonzeroIsFirst(r: seq<real>, n: nat, l: nat)
    requires n <= |r| && l <= n
    requires l < n ==> r[l] != 0.0
    requires forall j :: 0 <= j < l ==> r[j] == 0.0
    ensures FirstNonzero(r, n) == l
  {
  }

  /** The prediction loop of match_sum: the first arg-max of prediction row i. */
  method Pred(yp: array2<real>, i: nat) returns (pred: nat)
    requires i < yp.Length0
    ensures pred == FirstArgMax(RowOf(yp, i), yp.Length1)
  {
    ghost var r := RowOf(yp, i);
    pred := 0;
    var j := 0;
    while j < yp.Length1
      invariant 0 <= j <= yp.Length1
      invariant pred == FirstArgMax(r, j)
    {
      if yp[i, j] > yp[i, pred] {
        pred := j;
      }
      j := j + 1;
    }
  }
}
