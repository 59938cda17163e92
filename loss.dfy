/**
 * Loss functions and their gradients with respect to the prediction.
 * Losses are sums over a T x K batch; log and sqrt are uninterpreted.
 */
module Loss {
  import opened Common
  import opened Matrix
  import opened OneHot

  const EPS: real := 0.00000001   // the 1e-8 added inside every log

  /** C's (int) cast of a float: truncation toward zero. */
  function Trunc(x: real): (n: int)
    ensures x >= 0.0 ==> n == x.Floor
    ensures -1.0 < x < 1.0 ==> n == 0
  {
    if x >= 0.0 then x.Floor else -((-x).Floor)
  }

  /** Cross-entropy terms of one row: sum over j of -t[j] * log(p[j] + 1e-8). */
  function RowCrossEntropy(log: LogFn, p: seq<real>, t: seq<real>): real
    requires |p| == |t|
  {
    if |p| == 0 then 0.0
    else RowCrossEntropy(log, p[..|p| - 1], t[..|t| - 1]) + -t[|t| - 1] * log(p[|p| - 1] + EPS)
  }

  /** cross_entropy_loss over the first n rows. */
  function CrossEntropy(log: LogFn, yp: Mat, yt: Mat, n: nat, k: nat): real
    requires IsMat(yp, |yp|, k) && IsMat(yt, |yp|, k) && n <= |yp|
  {
    if n == 0 then 0.0 else CrossEntropy(log, yp, yt, n - 1, k) + RowCrossEntropy(log, yp[n - 1], yt[n - 1])
  }

  /** sparse_cross_entropy_loss over the first n rows, with class indices c[i]. */
  function SparseCrossEntropy(log: LogFn, yp: Mat, c: seq<int>, n: nat, k: nat): real
    requires IsMat(yp, |yp|, k) && |c| == |yp| && n <= |yp|
    requires forall i :: 0 <= i < |c| ==> 0 <= c[i] < k
  {
    if n == 0 then 0.0 else SparseCrossEntropy(log, yp, c, n - 1, k) + -log(yp[n - 1][c[n - 1]] + EPS)
  }

  lemma {:induction false} RowCrossEntropyOneHot(log: LogFn, p: seq<real>, c: int)
    requires 0 <= c
    ensures RowCrossEntropy(log, p, OneHotRow(c, |p|)) == if c < |p| then -log(p[c] + EPS) else 0.0
  {
    if |p| > 0 {
      var t := OneHotRow(c, |p|);
      assert t[..|t| - 1] == OneHotRow(c, |p| - 1);
      RowCrossEntropyOneHot(log, p[..|p| - 1], c);
    }
  }

  /** With one-hot targets the dense cross-entropy equals the sparse one. */
  lemma {:induction false} CrossEntropyOfOneHot(log: LogFn, yp: Mat, c: seq<int>, n: nat, k: nat)
    requires IsMat(yp, |yp|, k) && |c| == |yp| && n <= |yp|
    requires forall i :: 0 <= i < |c| ==> 0 <= c[i] < k
    ensures var yt := seq(|yp|, i requires 0 <= i < |yp| => OneHotRow(c[i], k));
      IsMat(yt, |yp|, k) && CrossEntropy(log, yp, yt, n, k) == SparseCrossEntropy(log, yp, c, n, k)
  {
    var yt := seq(|yp|, i requires 0 <= i < |yp| => OneHotRow(c[i], k));
    if n > 0 {
      CrossEntropyOfOneHot(log, yp, c, n - 1, k);
      RowCrossEntropyOneHot(log, yp[n - 1], c[n - 1]);
    }
  }

  /** Sum of squared differences of two rows. */
  function RowSquaredError(p: seq<real>, t: seq<real>): (e: real)
    requires |p| == |t|
    ensures e >= 0.0
  {
    if |p| == 0 then 0.0
    else
      var d := p[|p| - 1] - t[|t| - 1];
      RowSquaredError(p[..|p| - 1], t[..|t| - 1]) + d * d
  }

  /** The squared error summed over the first n rows. */
  function SquaredError(yb: Mat, yt: Mat, n: nat, k: nat): (e: real)
    requires IsMat(yb, |yb|, k) && IsMat(yt, |yb|, k) && n <= |yb|
    ensures e >= 0.0
  {
    if n == 0 then 0.0 else SquaredError(yb, yt, n - 1, k) + RowSquaredError(yb[n - 1], yt[n - 1])
  }

  /** The squared error of two rows is zero exactly when the rows agree. */
  lemma {:induction false} RowSquaredErrorZero(p: seq<real>, t: seq<real>)
    requires |p| == |t|
    ensures RowSquaredError(p, t) == 0.0 <==> p == t
  {
    if |p| > 0 {
      var n := |p| - 1;
      assert p == p[..n] + [p[n]];
      assert t == t[..n] + [t[n]];
      if p[n] != t[n] {
        AddSquarePositive(RowSquaredError(p[..n], t[..n]), p[n] - t[n]);
      } else {
        RowSquaredErrorZero(p[..n], t[..n]);
        assert p[n] - t[n] == 0.0;
      }
    }
  }

  /** Adding the square of a nonzero difference makes a nonnegative sum positive. */
  lemma AddSquarePositive(a: real, d: real)
    requires a >= 0.0 && d != 0.0
    ensures a + d * d > 0.0
  {
    if d > 0.0 {
      AddProductPositive(a, d, d);
    } else {
      AddProductPositive(a, -d, -d);
    }
  }

  lemma AddProductPositive(a: real, x: real, y: real)
    requires a >= 0.0 && x > 0.0 && y > 0.0
    ensures a + x * y > 0.0
  {
  }

  /** The summed squared error is zero exactly when the first n rows agree. */
  lemma {:induction false} SquaredErrorZero(yb: Mat, yt: Mat, n: nat, k: nat)
    requires IsMat(yb, |yb|, k) && IsMat(yt, |yb|, k) && n <= |yb|
    ensures SquaredError(yb, yt, n, k) == 0.0 <==> yb[..n] == yt[..n]
  {
    if n > 0 {
      SquaredErrorZero(yb, yt, n - 1, k);
      RowSquaredErrorZero(yb[n - 1], yt[n - 1]);
      assert yb[..n] == yb[..n - 1] + [yb[n - 1]];
      assert yt[..n] == yt[..n - 1] + [yt[n - 1]];
      if yb[..n] == yt[..n] {
        assert yb[..n - 1] == yb[..n][..n - 1];
        assert yt[..n - 1] == yt[..n][..n - 1];
        assert yb[n - 1] == yb[..n][n - 1];
      }
    }
  }

  /** cross_entropy_loss: the summed cross-entropy of all T rows. */
  method CrossEntropyLoss(yp: array2<real>, yt: array2<real>, log: LogFn) returns (loss: real)
    requires yt.Length0 == yp.Length0 && yt.Length1 == yp.Length1
    ensures loss == CrossEntropy(log, Snap(yp), Snap(yt), yp.Length0, yp.Length1)
  {
    ghost var P, Y := Snap(yp), Snap(yt);
    loss := 0.0;
    var i := 0;
    while i < yp.Length0
      invariant 0 <= i <= yp.Length0
      invariant loss == CrossEntropy(log, P, Y, i, yp.Length1)
    {
      loss := AddRowCrossEntropy(yp, yt, log, i, loss);
      i := i + 1;
    }
  }

  /** The inner loop of cross_entropy_loss: row i's terms added to the running loss. */
  method AddRowCrossEntropy(yp: array2<real>, yt: array2<real>, log: LogFn, i: nat, base: real) returns (loss: real)
    requires yt.Length0 == yp.Length0 && yt.Length1 == yp.Length1 && i < yp.Length0
    ensures loss == base + RowCrossEntropy(log, Snap(yp)[i], Snap(yt)[i])
  {
    ghost var p, t := Snap(yp)[i], Snap(yt)[i];
    loss := base;
    var j := 0;
    while j < yp.Length1
      invariant 0 <= j <= yp.Length1
      invariant loss == base + RowCrossEntropy(log, p[..j], t[..j])
    {
      assert p[..j + 1][..j] == p[..j] && t[..j + 1][..j] == t[..j];
      loss := loss + -yt[i, j] * log(yp[i, j] + EPS);
      j := j + 1;
    }
    assert p[..yp.Length1] == p && t[..yp.Length1] == t;
  }

  /** The class index each row of a sparse target holds in its first column, truncated as C's cast does. */
  ghost function Labels(yt: array2<real>): (c: seq<int>)
    reads yt
    requires yt.Length1 >= 1
    ensures |c| == yt.Length0 && forall i :: 0 <= i < yt.Length0 ==> c[i] == Trunc(yt[i, 0])
  {
    seq(yt.Length0, i requires 0 <= i < yt.Length0 reads yt => Trunc(yt[i, 0]))
  }

  /** sparse_cross_entropy_loss: -log of the probability of each row's labelled class, summed. */
  method SparseCrossEntropyLoss(yp: array2<real>, yt: array2<real>, log: LogFn) returns (loss: real)
    requires yt.Length0 == yp.Length0 && yt.Length1 >= 1
    requires forall i :: 0 <= i < yt.Length0 ==> 0 <= Trunc(yt[i, 0]) < yp.Length1
    ensures loss == SparseCrossEntropy(log, Snap(yp), Labels(yt), yp.Length0, yp.Length1)
  {
    ghost var P, c := Snap(yp), Labels(yt);
    loss := 0.0;
    var i := 0;
    while i < yp.Length0
      invariant 0 <= i <= yp.Length0
      invariant loss == SparseCrossEntropy(log, P, c, i, yp.Length1)
    {
      loss := loss + -log(yp[i, Trunc(yt[i, 0])] + EPS);
      i := i + 1;
    }
  }

  /**
   * mean_square_error: the square root of the summed squared error of all
   * rows (a root-sum-square, not a mean).
   */
  method MeanSquareError(yb: array2<real>, yt: array2<real>, sqrt: SqrtFn) returns (err: real)
    requires yt.Length0 == yb.Length0 && yt.Length1 == yb.Length1
    ensures err == sqrt(SquaredError(Snap(yb), Snap(yt), yb.Length0, yb.Length1))
  {
    ghost var P, Y := Snap(yb), Snap(yt);
    var e := 0.0;
    var i := 0;
    while i < yb.Length0
      invariant 0 <= i <= yb.Length0
      invariant e == SquaredError(P, Y, i, yb.Length1)
    {
      var r := RowError(yb, yt, i);
      e := e + r;
      i := i + 1;
    }
    err := sqrt(e);
  }

  /** The inner loop of mean_square_error: the squared error of row i. */
  method RowError(yb: array2<real>, yt: array2<real>, i: nat) returns (e: real)
    requires yt.Length0 == yb.Length0 && yt.Length1 == yb.Length1 && i < yb.Length0
    ensures e == RowSquaredError(Snap(yb)[i], Snap(yt)[i])
  {
    ghost var p, t := Snap(yb)[i], Snap(yt)[i];
    e := 0.0;
    var j := 0;
    while j < yb.Length1
      invariant 0 <= j <= yb.Length1
      invariant e == RowSquaredError(p[..j], t[..j])
    {
      assert p[..j + 1][..j] == p[..j] && t[..j + 1][..j] == t[..j];
      var d := yb[i, j] - yt[i, j];
      e := e + d * d;
      j := j + 1;
    }
    assert p[..yb.Length1] == p && t[..yb.Length1] == t;
  }

  /** The cross-entropy gradient of one element: (yp - yt) / K. */
  function DCrossEntropy(p: real, t: real, k: nat): real
    requires k > 0
  {
    (p - t) / k as real
  }

  /** dLdy_cross_entropy_loss: dy = (yp - yt) / K elementwise. */
  method DLdyCrossEntropyLoss(yp: array2<real>, yt: array2<real>, dy: array2<real>)
    requires dy != yp && dy != yt
    requires yp.Length0 == dy.Length0 && yt.Length0 == dy.Length0 && yp.Length1 == dy.Length1 && yt.Length1 == dy.Length1
    modifies dy
    ensures forall i, j :: 0 <= i < dy.Length0 && 0 <= j < dy.Length1 ==>
      dy[i, j] == DCrossEntropy(yp[i, j], yt[i, j], yp.Length1)
  {
    var k := yp.Length1;
    var i := 0;
    while i < dy.Length0
      invariant 0 <= i <= dy.Length0
      invariant forall i', j :: 0 <= i' < i && 0 <= j < dy.Length1 ==> dy[i', j] == DCrossEntropy(yp[i', j], yt[i', j], k)
    {
      var j := 0;
      while j < dy.Length1
        invariant 0 <= j <= dy.Length1
        invariant forall i', j' :: 0 <= i' < i && 0 <= j' < dy.Length1 ==> dy[i', j'] == DCrossEntropy(yp[i', j'], yt[i', j'], k)
        invariant forall j' :: 0 <= j' < j ==> dy[i, j'] == DCrossEntropy(yp[i, j'], yt[i, j'], k)
      {
        dy[i, j] := (yp[i, j] - yt[i, j]) / k as real;
        j := j + 1;
      }
      i := i + 1;
    }
  }

  /** dLdy_sparse_cross_entropy_loss: dy = (yp - [j == (int) yt[i][0]]) / K; an index outside [0, K) marks no column. */
  method DLdySparseCrossEntropyLoss(yp: array2<real>, yt: array2<real>, dy: array2<real>)
    requires dy != yp && dy != yt && yt.Length1 >= 1
    requires yp.Length0 == dy.Length0 && yt.Length0 == dy.Length0 && yp.Length1 == dy.Length1
    modifies dy
    ensures forall i, j :: 0 <= i < dy.Length0 && 0 <= j < dy.Length1 ==>
      dy[i, j] == DCrossEntropy(yp[i, j], OneHotRow(Trunc(yt[i, 0]), yp.Length1)[j], yp.Length1)
  {
    var k := yp.Length1;
    var i := 0;
    while i < dy.Length0
      invariant 0 <= i <= dy.Length0
      invariant forall i', j :: 0 <= i' < i && 0 <= j < dy.Length1 ==> dy[i', j] == DCrossEntropy(yp[i', j], OneHotRow(Trunc(yt[i', 0]), k)[j], k)
    {
      var j := 0;
      while j < dy.Length1
        invariant 0 <= j <= dy.Length1
        invariant forall i', j' :: 0 <= i' < i && 0 <= j' < dy.Length1 ==> dy[i', j'] == DCrossEntropy(yp[i', j'], OneHotRow(Trunc(yt[i', 0]), k)[j'], k)
        invariant forall j' :: 0 <= j' < j ==> dy[i, j'] == DCrossEntropy(yp[i, j'], OneHotRow(Trunc(yt[i, 0]), k)[j'], k)
      {
        dy[i, j] := (yp[i, j] - (if j == Trunc(yt[i, 0]) then 1.0 else 0.0)) / k as real;
        j := j + 1;
      }
      i := i + 1;
    }
  }

  /** The gradient row of a probability row against a one-hot row sums to 0. */
  lemma GradientRowSumsToZero(p: seq<real>, c: nat)
    requires |p| > 0 && c < |p| && Sum(p) == 1.0
    ensures Sum(seq(|p|, j requires 0 <= j < |p| => DCrossEntropy(p[j], OneHotRow(c, |p|)[j], |p|))) == 0.0
  {
    var k := |p|;
    var t := OneHotRow(c, k);
    SumOneHot(c, k);
    SumDifferenceScaled(p, t, k);
    assert seq(|p|, j requires 0 <= j < |p| => DCrossEntropy(p[j], t[j], k))
        == seq(|p|, j requires 0 <= j < |p| => (p[j] - t[j]) / k as real);
  }

  lemma {:induction false} SumOneHot(c: nat, k: nat)
    requires c < k
    ensures Sum(OneHotRow(c, k)) == 1.0
  {
    var t := OneHotRow(c, k);
    if k - 1 == c {
      assert t[..k - 1] == OneHotRow(c, k - 1);
      SumZeroRow(c, k - 1);
    } else {
      assert t[..k - 1] == OneHotRow(c, k - 1);
      SumOneHot(c, k - 1);
    }
  }

  lemma {:induction false} SumZeroRow(c: nat, k: nat)
    requires k <= c
    ensures Sum(OneHotRow(c, k)) == 0.0
  {
    if k > 0 {
      assert OneHotRow(c, k)[..k - 1] == OneHotRow(c, k - 1);
      SumZeroRow(c, k - 1);
    }
  }

  lemma {:induction false} SumDifferenceScaled(p: seq<real>, t: seq<real>, k: nat)
    requires |p| == |t| && k > 0
    ensures Sum(seq(|p|, j requires 0 <= j < |p| => (p[j] - t[j]) / k as real)) == (Sum(p) - Sum(t)) / k as real
  {
    var q := seq(|p|, j requires 0 <= j < |p| => (p[j] - t[j]) / k as real);
    if |p| > 0 {
      var n := |p| - 1;
      assert q[..n] == seq(n, j requires 0 <= j < n => (p[..n][j] - t[..n][j]) / k as real);
      SumDifferenceScaled(p[..n], t[..n], k);
    }
  }

  /** The mean-square-error gradient of one element: 2(yp - yt)/N/M. */
  function DSquaredError(p: real, t: real, n: nat, m: nat): real
    requires n > 0 && m > 0
  {
    2.0 * (p - t) / n as real / m as real
  }

  /** dLdy_mean_square_error: dy = 2(yp - yt)/N/M elementwise. */
  method DLdyMeanSquareError(yp: array2<real>, yt: array2<real>, dy: array2<real>)
    requires dy != yp && dy != yt
    requires yp.Length0 == dy.Length0 && yt.Length0 == dy.Length0 && yp.Length1 == dy.Length1 && yt.Length1 == dy.Length1
    modifies dy
    ensures forall i, j :: 0 <= i < dy.Length0 && 0 <= j < dy.Length1 ==>
      dy[i, j] == DSquaredError(yp[i, j], yt[i, j], dy.Length1, dy.Length0)
  {
    var m, n := dy.Length0, dy.Length1;
    var i := 0;
    while i < dy.Length0
      invariant 0 <= i <= dy.Length0
      invariant forall i', j :: 0 <= i' < i && 0 <= j < dy.Length1 ==> dy[i', j] == DSquaredError(yp[i', j], yt[i', j], n, m)
    {
      var j := 0;
      while j < dy.Length1
        invariant 0 <= j <= dy.Length1
        invariant forall i', j' :: 0 <= i' < i && 0 <= j' < dy.Length1 ==> dy[i', j'] == DSquaredError(yp[i', j'], yt[i', j'], n, m)
        invariant forall j' :: 0 <= j' < j ==> dy[i, j'] == DSquaredError(yp[i, j'], yt[i, j'], n, m)
      {
        dy[i, j] := 2.0 * (yp[i, j] - yt[i, j]) / n as real / m as real;
        j := j + 1;
      }
      i := i + 1;
    }
  }

  /** The gradient vanishes exactly where prediction and target agree. */
  lemma DSquaredErrorZero(p: real, t: real, n: nat, m: nat)
    requires n > 0 && m > 0
    ensures DSquaredError(p, t, n, m) == 0.0 <==> p == t
  {
    var a := 2.0 * (p - t);
    var b := a / n as real;
    if p != t {
      assert a != 0.0;
      assert b != 0.0;
      assert b / m as real != 0.0;
    }
  }
}
