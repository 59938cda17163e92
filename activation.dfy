/**
 * Activation functions and their derivatives. The array versions rewrite
 * rows lo..hi-1 of a matrix in place (the C functions take a pointer to a
 * first row and a row count; the LSTM applies them to a single row).
 */
module Activation {
  import opened Common

  function SigmoidValue(exp: ExpFn, x: real): (y: real)
    ensures 0.0 < y < 1.0
  {
    1.0 / (1.0 + exp(-x))
  }

  /** relu keeps nonnegative values and sends negative ones to 0. */
  function ReluValue(x: real): (y: real)
    ensures y >= 0.0
    ensures x >= 0.0 ==> y == x
    ensures x < 0.0 ==> y == 0.0
  {
    if x < 0.0 then 0.0 else x
  }

  lemma ReluIdempotent(x: real)
    ensures ReluValue(ReluValue(x)) == ReluValue(x)
  {
  }

  /** d_sigmoid_1: the sigmoid derivative expressed through the sigmoid's output z. */
  function DSigmoid1(z: real): (d: real)
    ensures 0.0 < z < 1.0 ==> 0.0 < d
    ensures d == z - z * z
  {
    z * (1.0 - z)
  }

  /** d_relu_1: 1 where the output is positive, 0 elsewhere. */
  function DRelu1(z: real): (d: real)
    ensures d == 1.0 || d == 0.0
    ensures d == 1.0 <==> z > 0.0
  {
    if z > 0.0 then 1.0 else 0.0
  }

  /** The ReLU derivative is the same whether taken at x or at relu(x). */
  lemma DReluOfRelu(x: real)
    ensures DRelu1(ReluValue(x)) == DRelu1(x)
  {
  }

  /** d_tanh_x: the tanh derivative expressed through the output z = tanh(x). */
  function DTanhX(z: real): (d: real)
    ensures -1.0 < z < 1.0 ==> 0.0 < d <= 1.0
  {
    1.0 - z * z
  }

  /** d_tanh: 1 - tanh(x)^2, computed from the input x. */
  function DTanh(tanh: TanhFn, x: real): (d: real)
    ensures IsTanh(tanh) ==> 0.0 < d <= 1.0
  {
    DTanhX(tanh(x))
  }

  /** Writes f(m[i][j]) over every element of rows lo..hi-1; other rows keep their values. */
  method MapRows(m: array2<real>, lo: nat, hi: nat, f: real -> real)
    requires lo <= hi <= m.Length0
    modifies m
    ensures forall i, j :: lo <= i < hi && 0 <= j < m.Length1 ==> m[i, j] == f(old(m[i, j]))
    ensures forall i, j :: 0 <= i < m.Length0 && 0 <= j < m.Length1 && !(lo <= i < hi) ==> m[i, j] == old(m[i, j])
  {
    var i := lo;
    while i < hi
      invariant lo <= i <= hi
      invariant forall i', j :: lo <= i' < i && 0 <= j < m.Length1 ==> m[i', j] == f(old(m[i', j]))
      invariant forall i', j :: 0 <= i' < m.Length0 && 0 <= j < m.Length1 && !(lo <= i' < i) ==> m[i', j] == old(m[i', j])
    {
      var j := 0;
      while j < m.Length1
        invariant 0 <= j <= m.Length1
        invariant forall i', j' :: lo <= i' < i && 0 <= j' < m.Length1 ==> m[i', j'] == f(old(m[i', j']))
        invariant forall j' :: 0 <= j' < j ==> m[i, j'] == f(old(m[i, j']))
        invariant forall i', j' :: 0 <= i' < m.Length0 && 0 <= j' < m.Length1 && !(lo <= i' < i) && (i' != i || j' >= j) ==> m[i', j'] == old(m[i', j'])
      {
        m[i, j] := f(m[i, j]);
        j := j + 1;
      }
      i := i + 1;
    }
  }

  /** sigmoid: every element of the rows becomes 1/(1+exp(-x)), a value in (0, 1). */
  method Sigmoid(m: array2<real>, lo: nat, hi: nat, exp: ExpFn)
    requires lo <= hi <= m.Length0
    modifies m
    ensures forall i, j :: lo <= i < hi && 0 <= j < m.Length1 ==> m[i, j] == SigmoidValue(exp, old(m[i, j]))
    ensures forall i, j :: 0 <= i < m.Length0 && 0 <= j < m.Length1 && !(lo <= i < hi) ==> m[i, j] == old(m[i, j])
  {
    MapRows(m, lo, hi, x => SigmoidValue(exp, x));
  }

  /** relu: negative elements of the rows become 0, the others are unchanged. */
  method Relu(m: array2<real>, lo: nat, hi: nat)
    requires lo <= hi <= m.Length0
    modifies m
    ensures forall i, j :: lo <= i < hi && 0 <= j < m.Length1 ==> m[i, j] == ReluValue(old(m[i, j]))
    ensures forall i, j :: 0 <= i < m.Length0 && 0 <= j < m.Length1 && !(lo <= i < hi) ==> m[i, j] == old(m[i, j])
  {
    MapRows(m, lo, hi, ReluValue);
  }

  /**
   * The shift softmax subtracts: the running maximum starts at 0, so it is
   * the larger of 0 and the row maximum.
   */
  function Shift(p: seq<real>): (m: real)
    ensures m >= 0.0
    ensures forall i :: 0 <= i < |p| ==> p[i] <= m
    ensures m == 0.0 || exists i :: 0 <= i < |p| && p[i] == m
  {
    if |p| == 0 then 0.0
    else
      var m0 := Shift(p[..|p| - 1]);
      assert forall i :: 0 <= i < |p| - 1 ==> p[..|p| - 1][i] == p[i];
      if m0 < p[|p| - 1] then p[|p| - 1] else m0
  }

  /** exp(p[i] - shift) for every entry. */
  function Shifted(exp: real -> real, p: seq<real>, m: real): (e: seq<real>)
    ensures |e| == |p| && forall i :: 0 <= i < |p| ==> e[i] == exp(p[i] - m)
  {
    seq(|p|, i requires 0 <= i < |p| => exp(p[i] - m))
  }

  /** With a positive exponential, every shifted entry is positive. */
  lemma ShiftedPositive(exp: ExpFn, p: seq<real>, m: real)
    ensures forall i :: 0 <= i < |p| ==> Shifted(exp, p, m)[i] > 0.0
  {
  }

  /** Each entry over the sum of all entries. */
  function Normalize(e: seq<real>): (q: seq<real>)
    requires Sum(e) != 0.0
    ensures |q| == |e| && forall i :: 0 <= i < |e| ==> q[i] == e[i] / Sum(e)
  {
    seq(|e|, i requires 0 <= i < |e| => e[i] / Sum(e))
  }

  /** The softmax of a row: each shifted exponential over their sum. */
  function SoftmaxRow(exp: ExpFn, p: seq<real>): (q: seq<real>)
    requires |p| > 0
    ensures |q| == |p|
  {
    var e := Shifted(exp, p, Shift(p));
    ShiftedPositive(exp, p, Shift(p));
    PositiveSum(e);
    Normalize(e)
  }

  lemma {:induction false} PositiveSum(e: seq<real>)
    requires |e| > 0 && forall i :: 0 <= i < |e| ==> e[i] > 0.0
    ensures Sum(e) > 0.0
  {
    if |e| > 1 {
      PositiveSum(e[..|e| - 1]);
    }
  }

  /** A softmax row is a probability vector: positive entries that sum to 1. */
  lemma SoftmaxIsDistribution(exp: ExpFn, p: seq<real>)
    requires |p| > 0
    ensures forall i :: 0 <= i < |p| ==> SoftmaxRow(exp, p)[i] > 0.0
    ensures Sum(SoftmaxRow(exp, p)) == 1.0
  {
    var e := Shifted(exp, p, Shift(p));
    ShiftedPositive(exp, p, Shift(p));
    PositiveSum(e);
    var t := Sum(e);
    var q := Normalize(e);
    assert q == SoftmaxRow(exp, p);
    SumDivided(e, q, t);
    SelfQuotient(t);
    forall i | 0 <= i < |p|
      ensures q[i] > 0.0
    {
      PositiveQuotient(e[i], t);
    }
  }

  lemma SelfQuotient(t: real)
    requires t > 0.0
    ensures t / t == 1.0
  {
  }

  lemma PositiveQuotient(x: real, y: real)
    requires x > 0.0 && y > 0.0
    ensures x / y > 0.0
  {
  }

  /** Row i of a matrix. */
  ghost function Row(a: array2<real>, i: nat): (r: seq<real>)
    reads a
    requires i < a.Length0
    ensures |r| == a.Length1 && forall j :: 0 <= j < a.Length1 ==> r[j] == a[i, j]
  {
    seq(a.Length1, j requires 0 <= j < a.Length1 reads a => a[i, j])
  }

  /** The first loop of softmax: the running maximum of a row, starting from 0. */
  method RowShift(a: array2<real>, r: nat) returns (m: real)
    requires r < a.Length0
    ensures m == Shift(Row(a, r))
  {
    ghost var p := Row(a, r);
    m := 0.0;
    var i := 0;
    while i < a.Length1
      invariant 0 <= i <= a.Length1
      invariant m == Shift(p[..i])
    {
      assert p[..i + 1][..i] == p[..i];
      if m < a[r, i] {
        m := a[r, i];
      }
      i := i + 1;
    }
    assert p[..a.Length1] == p;
  }

  /** The second loop of softmax: exponentiate the shifted row in place and sum it. */
  method ExpRow(a: array2<real>, r: nat, m: real, exp: real -> real) returns (s: real)
    requires r < a.Length0
    modifies a
    ensures Row(a, r) == Shifted(exp, old(Row(a, r)), m)
    ensures s == Sum(Row(a, r))
    ensures forall i, j :: 0 <= i < a.Length0 && 0 <= j < a.Length1 && i != r ==> a[i, j] == old(a[i, j])
  {
    ghost var p := Row(a, r);
    ghost var e := Shifted(exp, p, m);
    s := 0.0;
    var i := 0;
    while i < a.Length1
      invariant 0 <= i <= a.Length1
      invariant forall j :: 0 <= j < a.Length1 ==> a[r, j] == if j < i then e[j] else p[j]
      invariant s == Sum(e[..i])
      invariant forall i', j :: 0 <= i' < a.Length0 && 0 <= j < a.Length1 && i' != r ==> a[i', j] == old(a[i', j])
    {
      assert e[..i + 1][..i] == e[..i];
      a[r, i] := exp(a[r, i] - m);
      s := s + a[r, i];
      i := i + 1;
    }
    assert e[..a.Length1] == e;
    assert Row(a, r) == e;
  }

  /** The third loop of softmax: divide the row by s. */
  method DivideRow(a: array2<real>, r: nat, s: real)
    requires r < a.Length0 && s != 0.0
    modifies a
    ensures forall j :: 0 <= j < a.Length1 ==> a[r, j] == old(a[r, j]) / s
    ensures forall i, j :: 0 <= i < a.Length0 && 0 <= j < a.Length1 && i != r ==> a[i, j] == old(a[i, j])
  {
    var i := 0;
    while i < a.Length1
      invariant 0 <= i <= a.Length1
      invariant forall j :: 0 <= j < i ==> a[r, j] == old(a[r, j]) / s
      invariant forall i', j :: 0 <= i' < a.Length0 && 0 <= j < a.Length1 && (i' != r || j >= i) ==> a[i', j] == old(a[i', j])
    {
      a[r, i] := a[r, i] / s;
      i := i + 1;
    }
  }

  /** softmax on one row. */
  method SoftmaxOneRow(a: array2<real>, r: nat, exp: ExpFn)
    requires r < a.Length0 && a.Length1 > 0
    modifies a
    ensures Row(a, r) == SoftmaxRow(exp, old(Row(a, r)))
    ensures forall i, j :: 0 <= i < a.Length0 && 0 <= j < a.Length1 && i != r ==> a[i, j] == old(a[i, j])
  {
    ghost var p := Row(a, r);
    var m := RowShift(a, r);
    var s := ExpRow(a, r, m, exp);
    ghost var e := Row(a, r);
    PositiveSum(e);
    DivideRow(a, r, s);
    assert Row(a, r) == Normalize(e);
  }

  /** softmax: every row lo..hi-1 becomes its softmax. */
  method Softmax(a: array2<real>, lo: nat, hi: nat, exp: ExpFn)
    requires lo <= hi <= a.Length0
    modifies a
    ensures a.Length1 > 0 ==> forall i :: lo <= i < hi ==> Row(a, i) == SoftmaxRow(exp, old(Row(a, i)))
    ensures forall i, j :: 0 <= i < a.Length0 && 0 <= j < a.Length1 && !(lo <= i < hi) ==> a[i, j] == old(a[i, j])
  {
    if a.Length1 == 0 {
      // rows of width 0: the three inner loops of softmax do nothing
      return;
    }
    var i := lo;
    while i < hi
      invariant lo <= i <= hi
      invariant forall i' :: lo <= i' < i ==> Row(a, i') == SoftmaxRow(exp, old(Row(a, i')))
      invariant forall i', j :: 0 <= i' < a.Length0 && 0 <= j < a.Length1 && !(lo <= i' < i) ==> a[i', j] == old(a[i', j])
    {
      assert Row(a, i) == old(Row(a, i));
      label before:
      SoftmaxOneRow(a, i, exp);
      assert forall i' :: lo <= i' < i ==> Row(a, i') == old@before(Row(a, i'));
      i := i + 1;
    }
  }

  /** x[i][j] *= d(z[i][j]) over rows lo..hi-1: the shape of d_sigmoid and d_relu. */
  method ScaleByDerivative(x: array2<real>, z: array2<real>, lo: nat, hi: nat, d: real -> real)
    requires x != z && lo <= hi <= x.Length0 && hi <= z.Length0 && x.Length1 <= z.Length1
    modifies x
    ensures forall i, j :: lo <= i < hi && 0 <= j < x.Length1 ==> x[i, j] == old(x[i, j]) * d(z[i, j])
    ensures forall i, j :: 0 <= i < x.Length0 && 0 <= j < x.Length1 && !(lo <= i < hi) ==> x[i, j] == old(x[i, j])
  {
    var i := lo;
    while i < hi
      invariant lo <= i <= hi
      invariant forall i', j :: lo <= i' < i && 0 <= j < x.Length1 ==> x[i', j] == old(x[i', j]) * d(z[i', j])
      invariant forall i', j :: 0 <= i' < x.Length0 && 0 <= j < x.Length1 && !(lo <= i' < i) ==> x[i', j] == old(x[i', j])
    {
      ScaleRow(x, z, i, d);
      i := i + 1;
    }
  }

  /** One row of the derivative loop: x[i][j] *= d(z[i][j]) for every column. */
  method ScaleRow(x: array2<real>, z: array2<real>, i: nat, d: real -> real)
    requires x != z && i < x.Length0 && i < z.Length0 && x.Length1 <= z.Length1
    modifies x
    ensures forall j :: 0 <= j < x.Length1 ==> x[i, j] == old(x[i, j]) * d(z[i, j])
    ensures forall i', j :: 0 <= i' < x.Length0 && 0 <= j < x.Length1 && i' != i ==> x[i', j] == old(x[i', j])
  {
    var j := 0;
    while j < x.Length1
      invariant 0 <= j <= x.Length1
      invariant forall j' :: 0 <= j' < j ==> x[i, j'] == old(x[i, j']) * d(z[i, j'])
      invariant forall i', j' :: 0 <= i' < x.Length0 && 0 <= j' < x.Length1 && (i' != i || j' >= j) ==> x[i', j'] == old(x[i', j'])
    {
      x[i, j] := x[i, j] * d(z[i, j]);
      j := j + 1;
    }
  }

  /** d_sigmoid: x *= z(1-z) elementwise, z being the sigmoid's output. */
  method DSigmoid(x: array2<real>, z: array2<real>, b: nat)
    requires x != z && b <= x.Length0 && b <= z.Length0 && x.Length1 <= z.Length1
    modifies x
    ensures forall i, j :: 0 <= i < b && 0 <= j < x.Length1 ==> x[i, j] == old(x[i, j]) * DSigmoid1(z[i, j])
    ensures forall i, j :: b <= i < x.Length0 && 0 <= j < x.Length1 ==> x[i, j] == old(x[i, j])
  {
    ScaleByDerivative(x, z, 0, b, DSigmoid1);
  }

  /** d_relu: x is kept where z > 0 and zeroed elsewhere. */
  method DRelu(x: array2<real>, z: array2<real>, b: nat)
    requires x != z && b <= x.Length0 && b <= z.Length0 && x.Length1 <= z.Length1
    modifies x
    ensures forall i, j :: 0 <= i < b && 0 <= j < x.Length1 ==> x[i, j] == old(x[i, j]) * DRelu1(z[i, j])
    ensures forall i, j :: b <= i < x.Length0 && 0 <= j < x.Length1 ==> x[i, j] == old(x[i, j])
  {
    ScaleByDerivative(x, z, 0, b, DRelu1);
  }

  /** d_softmax: x *= z(yt - z) elementwise. */
  method DSoftmax(x: array2<real>, z: array2<real>, yt: array2<real>)
    requires x != z && x != yt
    requires z.Length0 == x.Length0 && yt.Length0 == x.Length0 && z.Length1 == x.Length1 && yt.Length1 == x.Length1
    modifies x
    ensures forall i, j :: 0 <= i < x.Length0 && 0 <= j < x.Length1 ==> x[i, j] == old(x[i, j]) * (z[i, j] * (yt[i, j] - z[i, j]))
  {
    var i := 0;
    while i < x.Length0
      invariant 0 <= i <= x.Length0
      invariant forall i', j :: 0 <= i' < i && 0 <= j < x.Length1 ==> x[i', j] == old(x[i', j]) * (z[i', j] * (yt[i', j] - z[i', j]))
      invariant forall i', j :: i <= i' < x.Length0 && 0 <= j < x.Length1 ==> x[i', j] == old(x[i', j])
    {
      var j := 0;
      while j < x.Length1
        invariant 0 <= j <= x.Length1
        invariant forall i', j' :: 0 <= i' < i && 0 <= j' < x.Length1 ==> x[i', j'] == old(x[i', j']) * (z[i', j'] * (yt[i', j'] - z[i', j']))
        invariant forall j' :: 0 <= j' < j ==> x[i, j'] == old(x[i, j']) * (z[i, j'] * (yt[i, j'] - z[i, j']))
        invariant forall i', j' :: i <= i' < x.Length0 && 0 <= j' < x.Length1 && (i' > i || j' >= j) ==> x[i', j'] == old(x[i', j'])
      {
        x[i, j] := x[i, j] * (z[i, j] * (yt[i, j] - z[i, j]));
        j := j + 1;
      }
      i := i + 1;
    }
  }
}
