/**
 * Dense matrix helpers of the trainer. Every buffer is a row-major
 * array2<real>; the C `restrict` qualifiers become the requirement that
 * the result array is distinct from the operands. Specifications are
 * stated over sequence snapshots (Mat) of the arrays.
 */
module Matrix {
  type Mat = seq<seq<real>>

  predicate IsMat(m: Mat, rows: nat, cols: nat)
  {
    |m| == rows && forall i :: 0 <= i < rows ==> |m[i]| == cols
  }

  /** The contents of an array as a sequence of its rows. */
  ghost function Snap(a: array2<real>): (m: Mat)
    reads a
    ensures IsMat(m, a.Length0, a.Length1)
    ensures forall i, j :: 0 <= i < a.Length0 && 0 <= j < a.Length1 ==> m[i][j] == a[i, j]
  {
    seq(a.Length0, i requires 0 <= i < a.Length0 reads a =>
      seq(a.Length1, j requires 0 <= j < a.Length1 reads a => a[i, j]))
  }

  /** Row i of an array. */
  ghost function RowOf(a: array2<real>, i: nat): (r: seq<real>)
    reads a
    requires i < a.Length0
    ensures |r| == a.Length1 && forall j :: 0 <= j < a.Length1 ==> r[j] == a[i, j]
  {
    seq(a.Length1, j requires 0 <= j < a.Length1 reads a => a[i, j])
  }

  /** Row i of the snapshot is row i of the array. */
  lemma RowOfSnap(a: array2<real>, i: nat)
    requires i < a.Length0
    ensures RowOf(a, i) == Snap(a)[i]
  {
  }

  /** Sum of x[k]*y[k] over the common length, folded from the front. */
  function Dot(x: seq<real>, y: seq<real>): real
    requires |x| == |y|
  {
    if |x| == 0 then 0.0 else Dot(x[..|x| - 1], y[..|y| - 1]) + x[|x| - 1] * y[|y| - 1]
  }

  /** Column j of a matrix whose rows all have more than j entries. */
  function Col(m: Mat, j: nat): (c: seq<real>)
    requires forall i :: 0 <= i < |m| ==> j < |m[i]|
    ensures |c| == |m| && forall i :: 0 <= i < |m| ==> c[i] == m[i][j]
  {
    seq(|m|, i requires 0 <= i < |m| => m[i][j])
  }

  function Transpose(m: Mat, rows: nat, cols: nat): (t: Mat)
    requires IsMat(m, rows, cols)
    ensures IsMat(t, cols, rows)
    ensures forall j, i :: 0 <= j < cols && 0 <= i < rows ==> t[j][i] == m[i][j]
  {
    seq(cols, j requires 0 <= j < cols => Col(m, j))
  }

  /** The matrix product x @ y of an n x d and a d x p matrix. */
  function Product(x: Mat, y: Mat, n: nat, d: nat, p: nat): (r: Mat)
    requires IsMat(x, n, d) && IsMat(y, d, p)
    ensures IsMat(r, n, p)
    ensures forall i, j :: 0 <= i < n && 0 <= j < p ==> r[i][j] == Dot(x[i], Col(y, j))
  {
    seq(n, i requires 0 <= i < n => seq(p, j requires 0 <= j < p => Dot(x[i], Col(y, j))))
  }

  /** The identity matrix. */
  function Eye(n: nat): (e: Mat)
    ensures IsMat(e, n, n)
    ensures forall i, j :: 0 <= i < n && 0 <= j < n ==> e[i][j] == if i == j then 1.0 else 0.0
  {
    seq(n, i requires 0 <= i < n => seq(n, j requires 0 <= j < n => if i == j then 1.0 else 0.0))
  }

  /** The vector-matrix product v @ m of a length-d vector and a d x p matrix. */
  function VecMat(v: seq<real>, m: Mat, p: nat): (r: seq<real>)
    requires IsMat(m, |v|, p)
    ensures |r| == p && forall j :: 0 <= j < p ==> r[j] == Dot(v, Col(m, j))
  {
    seq(p, j requires 0 <= j < p => Dot(v, Col(m, j)))
  }

  lemma TransposeInvolution(m: Mat, rows: nat, cols: nat)
    requires IsMat(m, rows, cols)
    ensures Transpose(Transpose(m, rows, cols), cols, rows) == m
  {
    var tt := Transpose(Transpose(m, rows, cols), cols, rows);
    assert forall i :: 0 <= i < rows ==> tt[i] == m[i];
  }

  /** A dot product with a unit vector picks out one entry. */
  lemma {:induction false} DotUnit(x: seq<real>, k: nat)
    requires k < |x|
    ensures Dot(seq(|x|, i requires 0 <= i < |x| => if i == k then 1.0 else 0.0), x) == x[k]
  {
    var e := seq(|x|, i requires 0 <= i < |x| => if i == k then 1.0 else 0.0);
    var n := |x|;
    if k == n - 1 {
      DotZeroLeft(e[..n - 1], x[..n - 1]);
    } else {
      assert e[..n - 1] == seq(n - 1, i requires 0 <= i < n - 1 => if i == k then 1.0 else 0.0);
      DotUnit(x[..n - 1], k);
    }
  }

  lemma {:induction false} DotZeroLeft(z: seq<real>, x: seq<real>)
    requires |z| == |x| && forall i :: 0 <= i < |z| ==> z[i] == 0.0
    ensures Dot(z, x) == 0.0
  {
    if |z| > 0 {
      DotZeroLeft(z[..|z| - 1], x[..|x| - 1]);
    }
  }

  /** The identity is a left unit of the product. */
  lemma EyeLeftUnit(m: Mat, n: nat, p: nat)
    requires IsMat(m, n, p)
    ensures Product(Eye(n), m, n, n, p) == m
  {
    var r := Product(Eye(n), m, n, n, p);
    forall i | 0 <= i < n
      ensures r[i] == m[i]
    {
      forall j | 0 <= j < p
        ensures r[i][j] == m[i][j]
      {
        var c := Col(m, j);
        assert Eye(n)[i] == seq(n, k requires 0 <= k < n => if k == i then 1.0 else 0.0);
        DotUnit(c, i);
      }
    }
  }

  /** The dot product is symmetric. */
  lemma {:induction false} DotSymmetric(x: seq<real>, y: seq<real>)
    requires |x| == |y|
    ensures Dot(x, y) == Dot(y, x)
  {
    if |x| > 0 {
      DotSymmetric(x[..|x| - 1], y[..|y| - 1]);
    }
  }

  /** (x @ y)^T == y^T @ x^T. */
  lemma ProductTranspose(x: Mat, y: Mat, n: nat, d: nat, p: nat)
    requires IsMat(x, n, d) && IsMat(y, d, p)
    ensures Transpose(Product(x, y, n, d, p), n, p)
         == Product(Transpose(y, d, p), Transpose(x, n, d), p, d, n)
  {
    var lhs := Transpose(Product(x, y, n, d, p), n, p);
    var rhs := Product(Transpose(y, d, p), Transpose(x, n, d), p, d, n);
    forall j | 0 <= j < p
      ensures lhs[j] == rhs[j]
    {
      forall i | 0 <= i < n
        ensures lhs[j][i] == rhs[j][i]
      {
        var yt := Transpose(y, d, p);
        var xt := Transpose(x, n, d);
        assert yt[j] == Col(y, j);
        assert Col(xt, i) == x[i];
        DotSymmetric(x[i], Col(y, j));
      }
    }
  }

  /** One more term of a dot product over prefixes. */
  lemma DotStep(x: seq<real>, y: seq<real>, k: nat)
    requires |x| == |y| && k < |x|
    ensures Dot(x[..k + 1], y[..k + 1]) == Dot(x[..k], y[..k]) + x[k] * y[k]
  {
    assert x[..k + 1][..k] == x[..k];
    assert y[..k + 1][..k] == y[..k];
  }

  /** The dot product of x with column j of M over the first i rows, accumulated row by row. */
  function ColDot(x: seq<real>, M: Mat, j: nat, i: nat): real
    requires i <= |x| && i <= |M| && forall k :: 0 <= k < i ==> j < |M[k]|
  {
    if i == 0 then 0.0 else ColDot(x, M, j, i - 1) + x[i - 1] * M[i - 1][j]
  }

  /** Accumulated over all rows, ColDot is the dot product with the column. */
  lemma {:induction false} ColDotIsDot(x: seq<real>, M: Mat, j: nat, i: nat)
    requires i <= |x| == |M| && forall k :: 0 <= k < |M| ==> j < |M[k]|
    ensures ColDot(x, M, j, i) == Dot(x[..i], Col(M, j)[..i])
  {
    if i > 0 {
      ColDotIsDot(x, M, j, i - 1);
      DotStep(x, Col(M, j), i - 1);
    }
  }

  /** Over all rows of an array, ColDot is the dot product with the array's column. */
  lemma ColDotOfArray(x: seq<real>, m: array2<real>, j: nat)
    requires |x| == m.Length0 && j < m.Length1
    ensures ColDot(x, Snap(m), j, m.Length0) == Dot(x, ColOf(m, j))
  {
    var M := Snap(m);
    ColDotIsDot(x, M, j, m.Length0);
    assert x[..m.Length0] == x;
    assert Col(M, j)[..m.Length0] == Col(M, j) == ColOf(m, j);
  }

  /** The dot product of x with row j of M over the first i columns, accumulated column by column. */
  function RowDot(x: seq<real>, M: Mat, j: nat, i: nat): real
    requires i <= |x| && j < |M| && i <= |M[j]|
  {
    if i == 0 then 0.0 else RowDot(x, M, j, i - 1) + x[i - 1] * M[j][i - 1]
  }

  /** Accumulated over all columns, RowDot is the dot product with the row. */
  lemma {:induction false} RowDotIsDot(x: seq<real>, M: Mat, j: nat, i: nat)
    requires j < |M| && i <= |x| == |M[j]|
    ensures RowDot(x, M, j, i) == Dot(x[..i], M[j][..i])
  {
    if i > 0 {
      RowDotIsDot(x, M, j, i - 1);
      DotStep(x, M[j], i - 1);
    }
  }

  /** Over all columns of an array, RowDot is the dot product with the array's row. */
  lemma RowDotOfArray(x: seq<real>, m: array2<real>, j: nat)
    requires |x| == m.Length1 && j < m.Length0
    ensures RowDot(x, Snap(m), j, m.Length1) == Dot(x, RowOf(m, j))
  {
    var M := Snap(m);
    RowDotIsDot(x, M, j, m.Length1);
    assert x[..m.Length1] == x;
    assert M[j][..m.Length1] == M[j] == RowOf(m, j);
  }

  /** An array that differs from the matrix A only in row r, which holds v, is A with row r replaced. */
  lemma SnapRowUpdate(a: array2<real>, A: Mat, r: nat, v: seq<real>)
    requires IsMat(A, a.Length0, a.Length1) && r < a.Length0 && |v| == a.Length1
    requires forall i, j :: 0 <= i < a.Length0 && 0 <= j < a.Length1 ==> a[i, j] == (if i == r then v[j] else A[i][j])
    ensures Snap(a) == A[r := v]
  {
    forall i | 0 <= i < a.Length0
      ensures Snap(a)[i] == A[r := v][i]
    {
    }
  }

  /** fltclr: sets every element of an array to 0. */
  method Clear(r: array2<real>)
    modifies r
    ensures forall i, j :: 0 <= i < r.Length0 && 0 <= j < r.Length1 ==> r[i, j] == 0.0
  {
    var i := 0;
    while i < r.Length0
      invariant 0 <= i <= r.Length0
      invariant forall i', j :: 0 <= i' < i && 0 <= j < r.Length1 ==> r[i', j] == 0.0
    {
      var j := 0;
      while j < r.Length1
        invariant 0 <= j <= r.Length1
        invariant forall i', j' :: 0 <= i' < i && 0 <= j' < r.Length1 ==> r[i', j'] == 0.0
        invariant forall j' :: 0 <= j' < j ==> r[i, j'] == 0.0
      {
        r[i, j] := 0.0;
        j := j + 1;
      }
      i := i + 1;
    }
  }

  /** fltclr on a vector. */
  method ClearVec(v: array<real>)
    modifies v
    ensures forall i :: 0 <= i < v.Length ==> v[i] == 0.0
  {
    var i := 0;
    while i < v.Length
      invariant 0 <= i <= v.Length
      invariant forall i' :: 0 <= i' < i ==> v[i'] == 0.0
    {
      v[i] := 0.0;
      i := i + 1;
    }
  }

  /** fltclr on one row of an array. */
  method ClearRow(a: array2<real>, r: nat)
    requires r < a.Length0
    modifies a
    ensures forall i, j :: 0 <= i < a.Length0 && 0 <= j < a.Length1 ==> a[i, j] == if i == r then 0.0 else old(a[i, j])
  {
    var j := 0;
    while j < a.Length1
      invariant 0 <= j <= a.Length1
      invariant forall i, j' :: 0 <= i < a.Length0 && 0 <= j' < a.Length1 ==>
        a[i, j'] == if i == r && j' < j then 0.0 else old(a[i, j'])
    {
      a[r, j] := 0.0;
      j := j + 1;
    }
  }

  /** fltcpy of a vector into row r of an array. */
  method CopyToRow(a: array2<real>, r: nat, v: array<real>)
    requires r < a.Length0 && v.Length == a.Length1
    modifies a
    ensures RowOf(a, r) == old(v[..])
    ensures forall i, j :: 0 <= i < a.Length0 && 0 <= j < a.Length1 && i != r ==> a[i, j] == old(a[i, j])
  {
    var j := 0;
    while j < a.Length1
      invariant 0 <= j <= a.Length1
      invariant forall j' :: 0 <= j' < j ==> a[r, j'] == old(v[j'])
      invariant forall i, j' :: 0 <= i < a.Length0 && 0 <= j' < a.Length1 && !(i == r && j' < j) ==> a[i, j'] == old(a[i, j'])
    {
      a[r, j] := v[j];
      j := j + 1;
    }
  }

  /** fltcpy of row r of an array into a vector. */
  method CopyFromRow(v: array<real>, a: array2<real>, r: nat)
    requires r < a.Length0 && v.Length == a.Length1
    modifies v
    ensures v[..] == old(RowOf(a, r))
  {
    var j := 0;
    while j < v.Length
      invariant 0 <= j <= v.Length
      invariant forall j' :: 0 <= j' < j ==> v[j'] == old(a[r, j'])
    {
      v[j] := a[r, j];
      j := j + 1;
    }
  }

  /** Column j of a snapshot is the array's column. */
  lemma ColOfSnap(a: array2<real>, j: nat)
    requires j < a.Length1
    ensures Col(Snap(a), j) == ColOf(a, j)
  {
  }

  /** Column j of an array. */
  ghost function ColOf(a: array2<real>, j: nat): (c: seq<real>)
    reads a
    requires j < a.Length1
    ensures |c| == a.Length0 && forall i :: 0 <= i < a.Length0 ==> c[i] == a[i, j]
  {
    seq(a.Length0, i requires 0 <= i < a.Length0 reads a => a[i, j])
  }

  /**
   * The inner product that the matmul family accumulates for one cell of
   * the result, over the two given vectors of the operands (a row or a
   * column of each, as each kernel reads them). The C kernels clear r and
   * add the terms into r[i][j] one by one, which yields the same sum.
   */
  method AccumulateDot(x: array2<real>, y: array2<real>, i: nat, j: nat, d: nat, tx: bool, ty: bool,
                       ghost a: seq<real>, ghost b: seq<real>) returns (s: real)
    requires |a| == d && |b| == d
    requires forall k :: 0 <= k < |a| ==>
      (if tx then k < x.Length0 && i < x.Length1 && a[k] == x[k, i]
       else i < x.Length0 && k < x.Length1 && a[k] == x[i, k])
    requires forall k :: 0 <= k < |b| ==>
      (if ty then j < y.Length0 && k < y.Length1 && b[k] == y[j, k]
       else k < y.Length0 && j < y.Length1 && b[k] == y[k, j])
    ensures s == Dot(a, b)
  {
    s := 0.0;
    var k := 0;
    while k < d
      invariant 0 <= k <= d
      invariant s == Dot(a[..k], b[..k])
    {
      DotStep(a, b, k);
      var xv := if tx then x[k, i] else x[i, k];
      var yv := if ty then y[j, k] else y[k, j];
      s := s + xv * yv;
      k := k + 1;
    }
    assert a[..|a|] == a && b[..|b|] == b;
  }

  /** matmul: r = x @ y, for r N x M, x N x d, y d x M. */
  method MatMul(r: array2<real>, x: array2<real>, y: array2<real>)
    requires r != x && r != y
    requires x.Length0 == r.Length0 && y.Length1 == r.Length1 && x.Length1 == y.Length0
    modifies r
    ensures Snap(r) == Product(Snap(x), Snap(y), r.Length0, x.Length1, r.Length1)
  {
    var i := 0;
    while i < r.Length0
      invariant 0 <= i <= r.Length0
      invariant forall i', j :: 0 <= i' < i && 0 <= j < r.Length1 ==> r[i', j] == Dot(RowOf(x, i'), ColOf(y, j))
    {
      var j := 0;
      while j < r.Length1
        invariant 0 <= j <= r.Length1
        invariant forall i', j' :: 0 <= i' < i && 0 <= j' < r.Length1 ==> r[i', j'] == Dot(RowOf(x, i'), ColOf(y, j'))
        invariant forall j' :: 0 <= j' < j ==> r[i, j'] == Dot(RowOf(x, i), ColOf(y, j'))
      {
        r[i, j] := AccumulateDot(x, y, i, j, x.Length1, false, false, RowOf(x, i), ColOf(y, j));
        j := j + 1;
      }
      i := i + 1;
    }
    ProductOfArrays(r, x, y);
  }

  lemma ProductOfArrays(r: array2<real>, x: array2<real>, y: array2<real>)
    requires x.Length0 == r.Length0 && y.Length1 == r.Length1 && x.Length1 == y.Length0
    requires forall i, j :: 0 <= i < r.Length0 && 0 <= j < r.Length1 ==> r[i, j] == Dot(RowOf(x, i), ColOf(y, j))
    ensures Snap(r) == Product(Snap(x), Snap(y), r.Length0, x.Length1, r.Length1)
  {
    var p := Product(Snap(x), Snap(y), r.Length0, x.Length1, r.Length1);
    forall i | 0 <= i < r.Length0
      ensures Snap(r)[i] == p[i]
    {
      assert RowOf(x, i) == Snap(x)[i];
      assert forall j :: 0 <= j < r.Length1 ==> ColOf(y, j) == Col(Snap(y), j);
    }
  }

  /** matmulT: r = x @ y^T, for r N x M, x N x d, y M x d. */
  method MatMulT(r: array2<real>, x: array2<real>, y: array2<real>)
    requires r != x && r != y
    requires x.Length0 == r.Length0 && y.Length0 == r.Length1 && x.Length1 == y.Length1
    modifies r
    ensures Snap(r) == Product(Snap(x), Transpose(Snap(y), y.Length0, y.Length1), r.Length0, x.Length1, r.Length1)
  {
    var i := 0;
    while i < r.Length0
      invariant 0 <= i <= r.Length0
      invariant forall i', j :: 0 <= i' < i && 0 <= j < r.Length1 ==> r[i', j] == Dot(RowOf(x, i'), RowOf(y, j))
    {
      var j := 0;
      while j < r.Length1
        invariant 0 <= j <= r.Length1
        invariant forall i', j' :: 0 <= i' < i && 0 <= j' < r.Length1 ==> r[i', j'] == Dot(RowOf(x, i'), RowOf(y, j'))
        invariant forall j' :: 0 <= j' < j ==> r[i, j'] == Dot(RowOf(x, i), RowOf(y, j'))
      {
        r[i, j] := AccumulateDot(x, y, i, j, x.Length1, false, true, RowOf(x, i), RowOf(y, j));
        j := j + 1;
      }
      i := i + 1;
    }
    ghost var YT := Transpose(Snap(y), y.Length0, y.Length1);
    var p := Product(Snap(x), YT, r.Length0, x.Length1, r.Length1);
    forall i | 0 <= i < r.Length0
      ensures Snap(r)[i] == p[i]
    {
      assert RowOf(x, i) == Snap(x)[i];
      assert forall j :: 0 <= j < r.Length1 ==> RowOf(y, j) == Col(YT, j);
    }
  }

  /** Tmatmul: r = x^T @ y, for r N x M, x d x N, y d x M. */
  method TMatMul(r: array2<real>, x: array2<real>, y: array2<real>)
    requires r != x && r != y
    requires x.Length1 == r.Length0 && y.Length1 == r.Length1 && x.Length0 == y.Length0
    modifies r
    ensures Snap(r) == Product(Transpose(Snap(x), x.Length0, x.Length1), Snap(y), r.Length0, x.Length0, r.Length1)
  {
    var i := 0;
    while i < r.Length0
      invariant 0 <= i <= r.Length0
      invariant forall i', j :: 0 <= i' < i && 0 <= j < r.Length1 ==> r[i', j] == Dot(ColOf(x, i'), ColOf(y, j))
    {
      var j := 0;
      while j < r.Length1
        invariant 0 <= j <= r.Length1
        invariant forall i', j' :: 0 <= i' < i && 0 <= j' < r.Length1 ==> r[i', j'] == Dot(ColOf(x, i'), ColOf(y, j'))
        invariant forall j' :: 0 <= j' < j ==> r[i, j'] == Dot(ColOf(x, i), ColOf(y, j'))
      {
        r[i, j] := AccumulateDot(x, y, i, j, x.Length0, true, false, ColOf(x, i), ColOf(y, j));
        j := j + 1;
      }
      i := i + 1;
    }
    ghost var XT := Transpose(Snap(x), x.Length0, x.Length1);
    var p := Product(XT, Snap(y), r.Length0, x.Length0, r.Length1);
    forall i | 0 <= i < r.Length0
      ensures Snap(r)[i] == p[i]
    {
      assert ColOf(x, i) == XT[i];
      assert forall j :: 0 <= j < r.Length1 ==> ColOf(y, j) == Col(Snap(y), j);
    }
  }

  /** Row ri of r += a * (row mi of m): the inner loop of addvecmatmul. */
  method AddScaledRow(r: array2<real>, ri: nat, a: real, m: array2<real>, mi: nat)
    requires r != m && ri < r.Length0 && mi < m.Length0 && r.Length1 == m.Length1
    modifies r
    ensures forall j :: 0 <= j < r.Length1 ==> r[ri, j] == old(r[ri, j]) + a * m[mi, j]
    ensures forall i, j :: 0 <= i < r.Length0 && 0 <= j < r.Length1 && i != ri ==> r[i, j] == old(r[i, j])
  {
    var j := 0;
    while j < r.Length1
      invariant 0 <= j <= r.Length1
      invariant forall j' :: 0 <= j' < j ==> r[ri, j'] == old(r[ri, j']) + a * m[mi, j']
      invariant forall i, j' :: 0 <= i < r.Length0 && 0 <= j' < r.Length1 && (i != ri || j' >= j) ==> r[i, j'] == old(r[i, j'])
    {
      r[ri, j] := r[ri, j] + a * m[mi, j];
      j := j + 1;
    }
  }

  /** Row ri of r += a * (column mj of m): the inner loop of addinnermul. */
  method AddScaledCol(r: array2<real>, ri: nat, a: real, m: array2<real>, mj: nat)
    requires r != m && ri < r.Length0 && mj < m.Length1 && r.Length1 == m.Length0
    modifies r
    ensures forall j :: 0 <= j < r.Length1 ==> r[ri, j] == old(r[ri, j]) + a * m[j, mj]
    ensures forall i, j :: 0 <= i < r.Length0 && 0 <= j < r.Length1 && i != ri ==> r[i, j] == old(r[i, j])
  {
    var j := 0;
    while j < r.Length1
      invariant 0 <= j <= r.Length1
      invariant forall j' :: 0 <= j' < j ==> r[ri, j'] == old(r[ri, j']) + a * m[j', mj]
      invariant forall i, j' :: 0 <= i < r.Length0 && 0 <= j' < r.Length1 && (i != ri || j' >= j) ==> r[i, j'] == old(r[i, j'])
    {
      r[ri, j] := r[ri, j] + a * m[j, mj];
      j := j + 1;
    }
  }

  /** addvecmatmul: row ri of r += (row vi of v) @ m, where m is M x N and the rows have M and N entries. */
  method AddVecMatMul(r: array2<real>, ri: nat, v: array2<real>, vi: nat, m: array2<real>)
    requires r != v && r != m
    requires ri < r.Length0 && vi < v.Length0
    requires v.Length1 == m.Length0 && r.Length1 == m.Length1
    modifies r
    ensures forall j :: 0 <= j < r.Length1 ==> r[ri, j] == old(r[ri, j]) + Dot(RowOf(v, vi), ColOf(m, j))
    ensures forall i, j :: 0 <= i < r.Length0 && 0 <= j < r.Length1 && i != ri ==> r[i, j] == old(r[i, j])
  {
    ghost var vr := RowOf(v, vi);
    ghost var M := Snap(m);
    var i := 0;
    while i < m.Length0
      invariant 0 <= i <= m.Length0
      invariant forall j :: 0 <= j < r.Length1 ==> r[ri, j] == old(r[ri, j]) + ColDot(vr, M, j, i)
      invariant forall i', j :: 0 <= i' < r.Length0 && 0 <= j < r.Length1 && i' != ri ==> r[i', j] == old(r[i', j])
    {
      AddScaledRow(r, ri, v[vi, i], m, i);
      i := i + 1;
    }
    forall j | 0 <= j < r.Length1
      ensures r[ri, j] == old(r[ri, j]) + Dot(RowOf(v, vi), ColOf(m, j))
    {
      ColDotOfArray(vr, m, j);
    }
  }

  /** addinnermul: row vi of v += (row wi of w) @ m^T, where m is N x M. */
  method AddInnerMul(v: array2<real>, vi: nat, w: array2<real>, wi: nat, m: array2<real>)
    requires v != w && v != m
    requires vi < v.Length0 && wi < w.Length0
    requires w.Length1 == m.Length1 && v.Length1 == m.Length0
    modifies v
    ensures forall j :: 0 <= j < v.Length1 ==> v[vi, j] == old(v[vi, j]) + Dot(RowOf(w, wi), RowOf(m, j))
    ensures forall i, j :: 0 <= i < v.Length0 && 0 <= j < v.Length1 && i != vi ==> v[i, j] == old(v[i, j])
  {
    ghost var wr := RowOf(w, wi);
    ghost var M := Snap(m);
    var i := 0;
    while i < m.Length1
      invariant 0 <= i <= m.Length1
      invariant forall j :: 0 <= j < v.Length1 ==> v[vi, j] == old(v[vi, j]) + RowDot(wr, M, j, i)
      invariant forall i', j :: 0 <= i' < v.Length0 && 0 <= j < v.Length1 && i' != vi ==> v[i', j] == old(v[i', j])
    {
      AddScaledCol(v, vi, w[wi, i], m, i);
      i := i + 1;
    }
    forall j | 0 <= j < v.Length1
      ensures v[vi, j] == old(v[vi, j]) + Dot(RowOf(w, wi), RowOf(m, j))
    {
      RowDotOfArray(wr, m, j);
    }
  }

  /** addoutermul: m += (row vi of v) outer (row wi of w), where m is N x M. */
  method AddOuterMul(m: array2<real>, v: array2<real>, vi: nat, w: array2<real>, wi: nat)
    requires m != v && m != w
    requires vi < v.Length0 && wi < w.Length0
    requires v.Length1 == m.Length0 && w.Length1 == m.Length1
    modifies m
    ensures forall i, j :: 0 <= i < m.Length0 && 0 <= j < m.Length1 ==> m[i, j] == old(m[i, j]) + v[vi, i] * w[wi, j]
  {
    var i := 0;
    while i < m.Length0
      invariant 0 <= i <= m.Length0
      invariant forall i', j :: 0 <= i' < i && 0 <= j < m.Length1 ==> m[i', j] == old(m[i', j]) + v[vi, i'] * w[wi, j]
      invariant forall i', j :: i <= i' < m.Length0 && 0 <= j < m.Length1 ==> m[i', j] == old(m[i', j])
    {
      AddScaledRow(m, i, v[vi, i], w, wi);
      i := i + 1;
    }
  }

  /** transpose: mt[j][i] = m[i][j]. */
  method TransposeInto(m: array2<real>, mt: array2<real>)
    requires m != mt
    requires mt.Length0 == m.Length1 && mt.Length1 == m.Length0
    modifies mt
    ensures Snap(mt) == Transpose(Snap(m), m.Length0, m.Length1)
  {
    var i := 0;
    while i < m.Length0
      invariant 0 <= i <= m.Length0
      invariant forall i', j :: 0 <= i' < i && 0 <= j < m.Length1 ==> mt[j, i'] == m[i', j]
    {
      var j := 0;
      while j < m.Length1
        invariant 0 <= j <= m.Length1
        invariant forall i', j' :: 0 <= i' < i && 0 <= j' < m.Length1 ==> mt[j', i'] == m[i', j']
        invariant forall j' :: 0 <= j' < j ==> mt[j', i] == m[i, j']
      {
        mt[j, i] := m[i, j];
        j := j + 1;
      }
      i := i + 1;
    }
    ghost var t := Transpose(Snap(m), m.Length0, m.Length1);
    assert forall j :: 0 <= j < m.Length1 ==> Snap(mt)[j] == t[j];
  }

  /** The main diagonal of an N x M matrix: min(N, M) entries. */
  function Diagonal(m: Mat, rows: nat, cols: nat): (v: seq<real>)
    requires IsMat(m, rows, cols)
    ensures |v| == (if rows < cols then rows else cols)
    ensures forall i :: 0 <= i < |v| ==> v[i] == m[i][i]
  {
    var d := if rows < cols then rows else cols;
    seq(d, i requires 0 <= i < d => m[i][i])
  }

  /** The square matrix with v on the diagonal and 0 elsewhere. */
  function DiagonalMatrix(v: seq<real>): (m: Mat)
    ensures IsMat(m, |v|, |v|)
    ensures forall i, j :: 0 <= i < |v| && 0 <= j < |v| ==> m[i][j] == if i == j then v[i] else 0.0
  {
    seq(|v|, i requires 0 <= i < |v| => seq(|v|, j requires 0 <= j < |v| => if i == j then v[i] else 0.0))
  }

  /** The diagonal of diagmat(v) is v again. */
  lemma DiagonalRoundTrip(v: seq<real>)
    ensures Diagonal(DiagonalMatrix(v), |v|, |v|) == v
  {
  }

  /** mateye is diagmat of a vector of ones. */
  lemma EyeIsDiagonalOfOnes(n: nat)
    ensures Eye(n) == DiagonalMatrix(seq(n, _ => 1.0))
  {
    assert forall i :: 0 <= i < n ==> Eye(n)[i] == DiagonalMatrix(seq(n, _ => 1.0))[i];
  }

  /** matdiag: v[i] = m[i][i] for i < min(N, M). */
  method MatDiag(m: array2<real>, v: array<real>)
    requires v.Length == (if m.Length0 < m.Length1 then m.Length0 else m.Length1)
    modifies v
    ensures v[..] == Diagonal(Snap(m), m.Length0, m.Length1)
  {
    var d := if m.Length0 < m.Length1 then m.Length0 else m.Length1;
    var i := 0;
    while i < d
      invariant 0 <= i <= d
      invariant forall i' :: 0 <= i' < i ==> v[i'] == m[i', i']
    {
      v[i] := m[i, i];
      i := i + 1;
    }
  }

  /** diagmat: clears the N x N matrix m and puts v on its diagonal. */
  method DiagMat(v: array<real>, m: array2<real>)
    requires m.Length0 == v.Length && m.Length1 == v.Length
    modifies m
    ensures Snap(m) == DiagonalMatrix(v[..])
  {
    Clear(m);
    var i := 0;
    while i < v.Length
      invariant 0 <= i <= v.Length
      invariant forall i', j :: 0 <= i' < v.Length && 0 <= j < v.Length ==>
        m[i', j] == if i' == j && i' < i then v[i'] else 0.0
    {
      m[i, i] := v[i];
      i := i + 1;
    }
    assert forall i :: 0 <= i < v.Length ==> Snap(m)[i] == DiagonalMatrix(v[..])[i];
  }

  /** mateye: sets the N x N matrix m to the identity. */
  method MatEye(m: array2<real>)
    requires m.Length0 == m.Length1
    modifies m
    ensures Snap(m) == Eye(m.Length0)
  {
    Clear(m);
    var i := 0;
    while i < m.Length0
      invariant 0 <= i <= m.Length0
      invariant forall i', j :: 0 <= i' < m.Length0 && 0 <= j < m.Length0 ==>
        m[i', j] == if i' == j && i' < i then 1.0 else 0.0
    {
      m[i, i] := 1.0;
      i := i + 1;
    }
    assert forall i :: 0 <= i < m.Length0 ==> Snap(m)[i] == Eye(m.Length0)[i];
  }

  /** The vector-matrix product is the one-row case of the matrix product. */
  lemma VecMatIsProduct(v: seq<real>, m: Mat, p: nat)
    requires IsMat(m, |v|, p)
    ensures Product([v], m, 1, |v|, p) == [VecMat(v, m, p)]
  {
  }

  /** addinnermul's term w @ m^T is the vector-matrix product with the transpose. */
  lemma InnerIsVecMatTranspose(w: seq<real>, m: Mat, n: nat)
    requires IsMat(m, n, |w|)
    ensures forall j :: 0 <= j < n ==> Dot(w, m[j]) == VecMat(w, Transpose(m, n, |w|), n)[j]
  {
    var t := Transpose(m, n, |w|);
    assert forall j :: 0 <= j < n ==> Col(t, j) == m[j];
  }
}
