/**
 * The ordering step of the singular value decomposition (src/decomp/svd.c):
 * after the factorisation, the singular values are sorted into descending
 * order by insertion sort, and the columns of U and the rows of Vt move
 * with them so that U diag(S) Vt is unchanged. The Golub-Reinsch
 * factorisation itself is not part of this model; the arrays arrive holding
 * its (unordered) result.
 */
module Svd {
  import opened Common
  import opened Matrix

  /** Where entry k of the result comes from when the entry at i is moved down to p (p <= i). */
  function RotIdx(p: int, i: int, k: int): int
  {
    if k < p || k > i then k else if k == p then i else k - 1
  }

  /** The sequence with s[i] moved to position p and s[p..i] shifted up by one. */
  function Rotate<T>(s: seq<T>, p: nat, i: nat): (r: seq<T>)
    requires p <= i < |s|
    ensures |r| == |s| && forall k :: 0 <= k < |s| ==> r[k] == s[RotIdx(p, i, k)]
  {
    s[..p] + [s[i]] + s[p..i] + s[i + 1..]
  }

  /** A rotation only rearranges its elements. */
  lemma RotatePermutes<T>(s: seq<T>, p: nat, i: nat)
    requires p <= i < |s|
    ensures multiset(Rotate(s, p, i)) == multiset(s)
  {
    assert s == s[..p] + s[p..i] + [s[i]] + s[i + 1..];
  }

  /** Every row of m moved the same way: column i goes to column p. */
  function RotCols(m: Mat, p: nat, i: nat): (r: Mat)
    requires p <= i && forall k :: 0 <= k < |m| ==> i < |m[k]|
    ensures |r| == |m| && forall k :: 0 <= k < |m| ==> r[k] == Rotate(m[k], p, i)
  {
    seq(|m|, k requires 0 <= k < |m| => Rotate(m[k], p, i))
  }

  function Iota(n: nat): (r: seq<int>)
    ensures |r| == n && forall k :: 0 <= k < n ==> r[k] == k
  {
    seq(n, k requires 0 <= k < n => k)
  }

  /** perm lists indices into a sequence of length n. */
  predicate Indices(perm: seq<int>, n: nat)
  {
    forall k :: 0 <= k < |perm| ==> 0 <= perm[k] < n
  }

  /** Entry k of the result is s[perm[k]]. */
  function Permuted<T>(s: seq<T>, perm: seq<int>): (r: seq<T>)
    requires Indices(perm, |s|)
    ensures |r| == |perm| && forall k :: 0 <= k < |perm| ==> r[k] == s[perm[k]]
  {
    seq(|perm|, k requires 0 <= k < |perm| => s[perm[k]])
  }

  /** Every row of m permuted the same way. */
  function PermCols(m: Mat, perm: seq<int>, n: nat): (r: Mat)
    requires forall k :: 0 <= k < |m| ==> |m[k]| == n
    requires Indices(perm, n)
    ensures |r| == |m| && forall k :: 0 <= k < |m| ==> r[k] == Permuted(m[k], perm)
  {
    seq(|m|, k requires 0 <= k < |m| => Permuted(m[k], perm))
  }

  /** Permuting by a rotated index list is rotating the permuted sequence. */
  lemma PermutedRotate<T>(s: seq<T>, perm: seq<int>, p: nat, i: nat)
    requires p <= i < |perm| && Indices(perm, |s|)
    ensures Indices(Rotate(perm, p, i), |s|)
    ensures Permuted(s, Rotate(perm, p, i)) == Rotate(Permuted(s, perm), p, i)
  {
  }

  /** The identity permutation changes nothing. */
  lemma PermutedIota<T>(s: seq<T>)
    ensures Indices(Iota(|s|), |s|) && Permuted(s, Iota(|s|)) == s
  {
  }

  lemma PermColsIota(m: Mat, n: nat)
    requires forall k :: 0 <= k < |m| ==> |m[k]| == n
    ensures Indices(Iota(n), n) && PermCols(m, Iota(n), n) == m
  {
    forall r | 0 <= r < |m|
      ensures PermCols(m, Iota(n), n)[r] == m[r]
    {
      PermutedIota(m[r]);
    }
  }

  /**
   * After the first i passes perm moves only positions below i; pass i
   * keeps it a permutation with that shape one position further.
   */
  lemma PermStep(perm: seq<int>, p: nat, i: nat, n: nat)
    requires p <= i < n == |perm|
    requires Indices(perm, n) && multiset(perm) == multiset(Iota(n))
    requires forall k :: i <= k < n ==> perm[k] == k
    requires forall k :: 0 <= k < i ==> perm[k] < i
    ensures Indices(Rotate(perm, p, i), n) && multiset(Rotate(perm, p, i)) == multiset(Iota(n))
    ensures forall k :: i + 1 <= k < n ==> Rotate(perm, p, i)[k] == k
    ensures forall k :: 0 <= k < i + 1 ==> Rotate(perm, p, i)[k] < i + 1
  {
    RotatePermutes(perm, p, i);
  }

  /** The first n entries are in non-increasing order. */
  predicate Descending(s: seq<real>, n: nat)
    requires n <= |s|
  {
    forall a, b :: 0 <= a < b < n ==> s[a] >= s[b]
  }

  /** Among the first n entries, equal values keep the order of their original positions. */
  predicate StableOn(s: seq<real>, perm: seq<int>, n: nat)
    requires n <= |s| && n <= |perm|
  {
    forall a, b :: 0 <= a < b < n && s[a] == s[b] ==> perm[a] < perm[b]
  }

  /**
   * Inserting entry i at the position p the scan stops at extends a
   * descending, stable prefix by one.
   */
  lemma InsertExtendsOrder(s: seq<real>, perm: seq<int>, p: nat, i: nat)
    requires p <= i < |s| && |perm| == |s|
    requires Descending(s, i) && StableOn(s, perm, i)
    requires forall k :: 0 <= k < i ==> perm[k] < perm[i]
    requires forall k :: p <= k < i ==> s[k] < s[i]
    requires p > 0 ==> s[p - 1] >= s[i]
    ensures Descending(Rotate(s, p, i), i + 1) && StableOn(Rotate(s, p, i), Rotate(perm, p, i), i + 1)
  {
    var r, rp := Rotate(s, p, i), Rotate(perm, p, i);
    forall a, b | 0 <= a < b < i + 1
      ensures r[a] >= r[b] && (r[a] == r[b] ==> rp[a] < rp[b])
    {
      var a', b' := RotIdx(p, i, a), RotIdx(p, i, b);
      if a == p {
        assert s[b'] < s[i];
      } else if b == p {
        assert a < p && s[a] >= s[p - 1];
      } else {
        assert a' < b';
      }
    }
  }

  /** The terms u[r][k] * s[k] * v[k][c] of entry (r, c) of u diag(s) v. */
  function Terms(ur: seq<real>, s: seq<real>, v: Mat, c: nat): (t: seq<real>)
    requires |ur| == |s| == |v| && forall k :: 0 <= k < |v| ==> c < |v[k]|
    ensures |t| == |s| && forall k :: 0 <= k < |s| ==> t[k] == ur[k] * s[k] * v[k][c]
  {
    seq(|s|, k requires 0 <= k < |s| => ur[k] * s[k] * v[k][c])
  }

  /** u diag(s) v, for u with |s| columns and v with |s| rows of width cols. */
  function Reconstruct(u: Mat, s: seq<real>, v: Mat, cols: nat): (a: Mat)
    requires forall r :: 0 <= r < |u| ==> |u[r]| == |s|
    requires IsMat(v, |s|, cols)
    ensures IsMat(a, |u|, cols)
    ensures forall r, c :: 0 <= r < |u| && 0 <= c < cols ==> a[r][c] == Sum(Terms(u[r], s, v, c))
  {
    seq(|u|, r requires 0 <= r < |u| => seq(cols, c requires 0 <= c < cols => Sum(Terms(u[r], s, v, c))))
  }

  lemma {:induction false} SumAppend(a: seq<real>, b: seq<real>)
    ensures Sum(a + b) == Sum(a) + Sum(b)
    decreases |b|
  {
    if |b| > 0 {
      SumAppend(a, b[..|b| - 1]);
      assert (a + b)[..|a + b| - 1] == a + b[..|b| - 1];
    } else {
      assert a + b == a;
    }
  }

  /** The four pieces a rotation rearranges. */
  lemma RotateParts<T>(t: seq<T>, p: nat, i: nat)
    requires p <= i < |t|
    ensures Rotate(t, p, i) == t[..p] + [t[i]] + t[p..i] + t[i + 1..]
    ensures t == t[..p] + t[p..i] + [t[i]] + t[i + 1..]
  {
    assert t == t[..p] + t[p..i] + [t[i]] + t[i + 1..];
  }

  /** A rotation does not change a sum. */
  lemma SumRotate(t: seq<real>, p: nat, i: nat)
    requires p <= i < |t|
    ensures Sum(Rotate(t, p, i)) == Sum(t)
  {
    var a, x, b, c := t[..p], [t[i]], t[p..i], t[i + 1..];
    RotateParts(t, p, i);
    SumAppend(a + x + b, c);
    SumAppend(a + x, b);
    SumAppend(a, x);
    SumAppend(a + b + x, c);
    SumAppend(a + b, x);
    SumAppend(a, b);
  }

  /**
   * Moving entry i of s to p, column i of u and row i of v with it, leaves
   * u diag(s) v unchanged.
   */
  lemma RotateKeepsProduct(u: Mat, s: seq<real>, v: Mat, cols: nat, p: nat, i: nat)
    requires p <= i < |s|
    requires forall r :: 0 <= r < |u| ==> |u[r]| == |s|
    requires IsMat(v, |s|, cols)
    ensures Reconstruct(RotCols(u, p, i), Rotate(s, p, i), Rotate(v, p, i), cols) == Reconstruct(u, s, v, cols)
  {
    var u', s', v' := RotCols(u, p, i), Rotate(s, p, i), Rotate(v, p, i);
    var a', a := Reconstruct(u', s', v', cols), Reconstruct(u, s, v, cols);
    forall r | 0 <= r < |u|
      ensures a'[r] == a[r]
    {
      forall c | 0 <= c < cols
        ensures a'[r][c] == a[r][c]
      {
        TermsRotate(u[r], s, v, c, p, i);
        SumRotate(Terms(u[r], s, v, c), p, i);
      }
    }
  }

  /** Rotating the factors rotates the terms. */
  lemma TermsRotate(ur: seq<real>, s: seq<real>, v: Mat, c: nat, p: nat, i: nat)
    requires p <= i < |s|
    requires |ur| == |s| == |v| && forall k :: 0 <= k < |v| ==> c < |v[k]|
    ensures Terms(Rotate(ur, p, i), Rotate(s, p, i), Rotate(v, p, i), c) == Rotate(Terms(ur, s, v, c), p, i)
  {
    var lhs, t := Terms(Rotate(ur, p, i), Rotate(s, p, i), Rotate(v, p, i), c), Terms(ur, s, v, c);
    forall k | 0 <= k < |s|
      ensures lhs[k] == Rotate(t, p, i)[k]
    {
      var k' := RotIdx(p, i, k);
      assert lhs[k] == ur[k'] * s[k'] * v[k'][c];
    }
  }

  /**
   * The "already ordered" test at the head of reorder_tall and reorder_wide:
   * it scans only up to n - 2, so the early return is taken exactly when
   * there is a single value.
   */
  method AlreadyOrdered(q: array<real>) returns (skip: bool)
    ensures skip <==> q.Length == 1
  {
    var n := q.Length;
    var i := 1;
    while i < n - 1
      invariant 1 <= i && (n >= 2 ==> i <= n - 1) && (n < 2 ==> i == 1)
    {
      if q[i - 1] < q[i] {
        break;
      }
      i := i + 1;
    }
    skip := i == n;
  }

  /**
   * The ordering part of SVD: nothing happens without A; otherwise, when S
   * is supplied, the factors are reordered. The tall path (m >= n) sorts
   * S[n] with the columns of U[m][n] and the rows of Vt[n][n]; the wide
   * path sorts S[m] with the columns of U[m][m] and the rows of Vt[m][n];
   * both are Reorder(S, U, Vt).
   */
  method SortFactors(a: array2?<real>, u: array2?<real>, s: array?<real>, vt: array2?<real>) returns (ghost perm: seq<int>)
    requires a != null && s != null ==> s.Length == Min(a.Length0, a.Length1)
    requires s != null && u != null ==> u.Length1 == s.Length
    requires s != null && vt != null ==> vt.Length0 == s.Length
    requires u == null || vt == null || u != vt
    modifies s, u, vt
    ensures a == null || s == null ==> (s != null ==> unchanged(s)) && (u != null ==> unchanged(u)) && (vt != null ==> unchanged(vt))
    ensures a != null && s != null ==> Descending(s[..], s.Length) && multiset(s[..]) == multiset(old(s[..]))
    ensures a != null && s != null ==>
      |perm| == s.Length && Indices(perm, s.Length) && multiset(perm) == multiset(Iota(s.Length))
    ensures a != null && s != null ==> s[..] == Permuted(old(s[..]), perm) && StableOn(s[..], perm, s.Length)
    ensures a != null && s != null && u != null ==> Snap(u) == PermCols(old(Snap(u)), perm, s.Length)
    ensures a != null && s != null && vt != null ==> Snap(vt) == Permuted(old(Snap(vt)), perm)
    ensures a != null && s != null && u != null && vt != null ==>
      Reconstruct(Snap(u), s[..], Snap(vt), vt.Length1) == old(Reconstruct(Snap(u), s[..], Snap(vt), vt.Length1))
  {
    perm := [];
    if a == null {
      return;
    }
    if s != null {
      perm := Reorder(s, u, vt);
    }
  }

  /**
   * reorder_tall and reorder_wide (the same code over different shapes):
   * sort q into descending order, moving column k of u and row k of vt
   * with q[k]. Either matrix may be absent. The returned permutation says
   * where each final position came from.
   */
  method Reorder(q: array<real>, u: array2?<real>, vt: array2?<real>) returns (ghost perm: seq<int>)
    requires u != null ==> u.Length1 == q.Length
    requires vt != null ==> vt.Length0 == q.Length
    requires u == null || vt == null || u != vt
    modifies q, u, vt
    ensures |perm| == q.Length && Indices(perm, q.Length) && multiset(perm) == multiset(Iota(q.Length))
    ensures q[..] == Permuted(old(q[..]), perm) && multiset(q[..]) == multiset(old(q[..]))
    ensures Descending(q[..], q.Length) && StableOn(q[..], perm, q.Length)
    ensures u != null ==> Snap(u) == PermCols(old(Snap(u)), perm, q.Length)
    ensures vt != null ==> Snap(vt) == Permuted(old(Snap(vt)), perm)
    ensures u != null && vt != null ==>
      Reconstruct(Snap(u), q[..], Snap(vt), vt.Length1) == old(Reconstruct(Snap(u), q[..], Snap(vt), vt.Length1))
  {
    var n := q.Length;
    perm := Iota(n);
    PermutedIota(q[..]);
    if u != null {
      PermColsIota(Snap(u), n);
    }
    if vt != null {
      PermutedIota(Snap(vt));
    }
    var skip := AlreadyOrdered(q);
    if skip {
      return;
    }
    ghost var Q0 := q[..];
    ghost var U0 := if u != null then Snap(u) else [];
    ghost var V0 := if vt != null then Snap(vt) else [];
    var i := 1;
    while i < n
      invariant 1 <= i && (n > 0 ==> i <= n)
      invariant Sorting(q, u, vt, if i < n then i else n, perm, Q0, U0, V0)
    {
      perm := Pass(q, u, vt, i, perm, Q0, U0, V0);
      i := i + 1;
    }
  }

  /**
   * The state of reorder after its first i passes: q is the original
   * values permuted by perm, which so far has moved only positions below
   * i; that prefix is sorted and stable; u and vt are permuted alike, and
   * u diag(q) vt is what it was.
   */
  ghost predicate Sorting(q: array<real>, u: array2?<real>, vt: array2?<real>, i: nat,
                          perm: seq<int>, Q0: seq<real>, U0: Mat, V0: Mat)
    reads q, u, vt
  {
    var n := q.Length;
    i <= n && |perm| == n && |Q0| == n && Indices(perm, n) && multiset(perm) == multiset(Iota(n))
    && (forall k :: i <= k < n ==> perm[k] == k)
    && (forall k :: 0 <= k < i ==> perm[k] < i)
    && q[..] == Permuted(Q0, perm) && multiset(q[..]) == multiset(Q0)
    && Descending(q[..], i) && StableOn(q[..], perm, i)
    && (u != null ==> u.Length1 == n && IsMat(U0, u.Length0, n) && Snap(u) == PermCols(U0, perm, n))
    && (vt != null ==> vt.Length0 == n && IsMat(V0, n, vt.Length1) && Snap(vt) == Permuted(V0, perm))
    && (u != null && vt != null ==>
          Reconstruct(Snap(u), q[..], Snap(vt), vt.Length1) == Reconstruct(U0, Q0, V0, vt.Length1))
  }

  /** Pass i of the outer loop, with what it does to the permutation. */
  method Pass(q: array<real>, u: array2?<real>, vt: array2?<real>, i: int,
              ghost perm: seq<int>, ghost Q0: seq<real>, ghost U0: Mat, ghost V0: Mat)
    returns (ghost perm': seq<int>)
    requires 1 <= i < q.Length
    requires u == null || vt == null || u != vt
    requires Sorting(q, u, vt, i, perm, Q0, U0, V0)
    modifies q, u, vt
    ensures Sorting(q, u, vt, i + 1, perm', Q0, U0, V0)
  {
    var n := q.Length;
    ghost var before := q[..];
    ghost var ub := if u != null then Snap(u) else [];
    ghost var vb := if vt != null then Snap(vt) else [];
    var p := InsertStep(q, u, vt, i);
    assert forall k :: 0 <= k < i ==> perm[k] < perm[i];
    InsertExtendsOrder(before, perm, p, i);
    PermStep(perm, p, i, n);
    RotatePermutes(before, p, i);
    PermutedRotate(Q0, perm, p, i);
    perm' := Rotate(perm, p, i);
    if u != null {
      assert Snap(u) == PermCols(U0, perm', n) by {
        forall r | 0 <= r < |U0|
          ensures Snap(u)[r] == Permuted(U0[r], perm')
        {
          PermutedRotate(U0[r], perm, p, i);
        }
      }
    }
    if vt != null {
      PermutedRotate(V0, perm, p, i);
    }
    if u != null && vt != null {
      RotateKeepsProduct(ub, before, vb, vt.Length1, p, i);
    }
  }

  /**
   * One pass of the outer loop: entry i moves down past every strictly
   * smaller entry above it, and lands at p; column i of u and row i of vt
   * travel with it.
   */
  method InsertStep(q: array<real>, u: array2?<real>, vt: array2?<real>, i: int) returns (p: int)
    requires 1 <= i < q.Length
    requires u != null ==> u.Length1 == q.Length
    requires vt != null ==> vt.Length0 == q.Length
    requires u == null || vt == null || u != vt
    modifies q, u, vt
    ensures 0 <= p <= i
    ensures q[..] == Rotate(old(q[..]), p, i)
    ensures forall k :: p <= k < i ==> old(q[k]) < old(q[i])
    ensures p > 0 ==> old(q[p - 1]) >= old(q[i])
    ensures u != null ==> Snap(u) == RotCols(old(Snap(u)), p, i)
    ensures vt != null ==> Snap(vt) == Rotate(old(Snap(vt)), p, i)
  {
    ghost var B := q[..];
    ghost var U := if u != null then Snap(u) else [];
    ghost var V := if vt != null then Snap(vt) else [];
    var qt := q[i];
    var ut: seq<real> := [];
    if u != null {
      ut := SaveCol(u, i);
    }
    var vtt: seq<real> := [];
    if vt != null {
      vtt := SaveRow(vt, i);
    }
    var j := ScanDown(q, u, vt, i, qt);
    p := j + 1;
    PlaceEntry(q, p, qt, B, j, i);
    if u != null {
      PlaceCol(u, p, ut, U, j, i);
    }
    if vt != null {
      PlaceRow(vt, p, vtt, V, j, i);
    }
  }

  /** u_t: a copy of column i of u. */
  method SaveCol(u: array2<real>, i: int) returns (c: seq<real>)
    requires 0 <= i < u.Length1
    ensures c == Col(Snap(u), i)
  {
    c := [];
    var k := 0;
    while k < u.Length0
      invariant 0 <= k <= u.Length0 && |c| == k
      invariant forall r :: 0 <= r < k ==> c[r] == u[r, i]
    {
      c := c + [u[k, i]];
      k := k + 1;
    }
  }

  /** vt_t: a copy of row i of vt. */
  method SaveRow(vt: array2<real>, i: int) returns (c: seq<real>)
    requires 0 <= i < vt.Length0
    ensures c == Snap(vt)[i]
  {
    c := [];
    var k := 0;
    while k < vt.Length1
      invariant 0 <= k <= vt.Length1 && |c| == k
      invariant forall r :: 0 <= r < k ==> c[r] == vt[i, r]
    {
      c := c + [vt[i, k]];
      k := k + 1;
    }
  }

  /** q[p] = qt: the saved entry fills the hole the scan left. */
  method PlaceEntry(q: array<real>, p: int, qt: real, ghost B: seq<real>, ghost j: int, ghost i: int)
    requires -1 <= j < i < |B| == q.Length && p == j + 1 && qt == B[i]
    requires q[..] == Shifted(B, j, i)
    modifies q
    ensures q[..] == Rotate(B, p, i)
  {
    q[p] := qt;
    ShiftThenPlace(B, j, i);
  }

  /** The saved column i of u fills the hole at column p. */
  method PlaceCol(u: array2<real>, p: int, ut: seq<real>, ghost U: Mat, ghost j: int, ghost i: int)
    requires -1 <= j < i < u.Length1 && p == j + 1 && IsMat(U, u.Length0, u.Length1) && ut == Col(U, i)
    requires Snap(u) == ShiftedCols(U, j, i)
    modifies u
    ensures Snap(u) == RotCols(U, p, i)
  {
    PutCol(u, p, ut);
    forall r | 0 <= r < |U|
      ensures Snap(u)[r] == Rotate(U[r], p, i)
    {
      ShiftThenPlace(U[r], j, i);
    }
  }

  /** The saved row i of vt fills the hole at row p. */
  method PlaceRow(vt: array2<real>, p: int, vtt: seq<real>, ghost V: Mat, ghost j: int, ghost i: int)
    requires -1 <= j < i < vt.Length0 && p == j + 1 && IsMat(V, vt.Length0, vt.Length1) && vtt == V[i]
    requires Snap(vt) == Shifted(V, j, i)
    modifies vt
    ensures Snap(vt) == Rotate(V, p, i)
  {
    PutRow(vt, p, vtt);
    ShiftThenPlace(V, j, i);
  }

  /** During the scan at j, entry k holds what was at Shift(j, i, k); slot j + 1 is the hole. */
  function Shift(j: int, i: int, k: int): int
  {
    if j + 1 < k <= i then k - 1 else k
  }

  /** The sequence after the scan has shifted s[j + 1..i] up by one; s[j + 1] is still in place. */
  function Shifted<T>(s: seq<T>, j: int, i: int): (r: seq<T>)
    requires -1 <= j < i < |s|
    ensures |r| == |s| && forall k :: 0 <= k < |s| ==> r[k] == s[Shift(j, i, k)]
  {
    seq(|s|, k requires 0 <= k < |s| => s[Shift(j, i, k)])
  }

  /** Every row of m shifted the same way. */
  function ShiftedCols(m: Mat, j: int, i: int): (r: Mat)
    requires -1 <= j < i && forall k :: 0 <= k < |m| ==> i < |m[k]|
    ensures |r| == |m| && forall k :: 0 <= k < |m| ==> r[k] == Shifted(m[k], j, i)
  {
    seq(|m|, k requires 0 <= k < |m| => Shifted(m[k], j, i))
  }

  /** Before the scan nothing has moved. */
  lemma ShiftedNone<T>(s: seq<T>, i: int)
    requires 0 <= i < |s|
    ensures Shifted(s, i - 1, i) == s
  {
  }

  lemma ShiftedColsNone(m: Mat, i: int)
    requires 0 <= i && forall k :: 0 <= k < |m| ==> i < |m[k]|
    ensures ShiftedCols(m, i - 1, i) == m
  {
    forall r | 0 <= r < |m|
      ensures ShiftedCols(m, i - 1, i)[r] == m[r]
    {
      ShiftedNone(m[r], i);
    }
  }

  /** Copying entry j up to j + 1 moves the scan one step down. */
  lemma ShiftStep<T>(s: seq<T>, j: int, i: int)
    requires 0 <= j < i < |s|
    ensures Shifted(s, j, i)[j + 1 := Shifted(s, j, i)[j]] == Shifted(s, j - 1, i)
  {
  }

  /** Filling the hole at p = j + 1 with the saved entry completes the rotation. */
  lemma ShiftThenPlace<T>(s: seq<T>, j: int, i: int)
    requires -1 <= j < i < |s|
    ensures Shifted(s, j, i)[j + 1 := s[i]] == Rotate(s, j + 1, i)
  {
  }

  /**
   * The inner loop of one pass: shift entries up while they are strictly
   * smaller than qt, leaving a hole at j + 1.
   */
  method ScanDown(q: array<real>, u: array2?<real>, vt: array2?<real>, i: int, qt: real) returns (j: int)
    requires 1 <= i < q.Length
    requires u != null ==> u.Length1 == q.Length
    requires vt != null ==> vt.Length0 == q.Length
    requires u == null || vt == null || u != vt
    modifies q, u, vt
    ensures -1 <= j < i
    ensures q[..] == Shifted(old(q[..]), j, i)
    ensures forall k :: j < k < i ==> old(q[k]) < qt
    ensures j >= 0 ==> old(q[j]) >= qt
    ensures u != null ==> Snap(u) == ShiftedCols(old(Snap(u)), j, i)
    ensures vt != null ==> Snap(vt) == Shifted(old(Snap(vt)), j, i)
  {
    ghost var B := q[..];
    ghost var U := if u != null then Snap(u) else [];
    ghost var V := if vt != null then Snap(vt) else [];
    j := i - 1;
    ShiftedNone(B, i);
    if u != null {
      ShiftedColsNone(U, i);
    }
    if vt != null {
      ShiftedNone(V, i);
    }
    while j >= 0 && q[j] < qt
      invariant -1 <= j < i
      invariant q[..] == Shifted(B, j, i)
      invariant forall k :: j < k < i ==> B[k] < qt
      invariant u != null ==> Snap(u) == ShiftedCols(U, j, i)
      invariant vt != null ==> Snap(vt) == Shifted(V, j, i)
    {
      assert q[j] == B[j];
      assert forall k :: j - 1 < k < i ==> B[k] < qt;
      ShiftOnce(q, u, vt, i, j, B, U, V);
      j := j - 1;
    }
  }

  /** One step of the scan: q[j + 1] = q[j], and likewise for column j of u and row j of vt. */
  method ShiftOnce(q: array<real>, u: array2?<real>, vt: array2?<real>, i: int, j: int,
                   ghost B: seq<real>, ghost U: Mat, ghost V: Mat)
    requires 0 <= j < i < q.Length == |B|
    requires u != null ==> u.Length1 == q.Length && IsMat(U, u.Length0, u.Length1)
    requires vt != null ==> vt.Length0 == q.Length && IsMat(V, vt.Length0, vt.Length1)
    requires u == null || vt == null || u != vt
    requires q[..] == Shifted(B, j, i)
    requires u != null ==> Snap(u) == ShiftedCols(U, j, i)
    requires vt != null ==> Snap(vt) == Shifted(V, j, i)
    modifies q, u, vt
    ensures q[..] == Shifted(B, j - 1, i)
    ensures u != null ==> Snap(u) == ShiftedCols(U, j - 1, i)
    ensures vt != null ==> Snap(vt) == Shifted(V, j - 1, i)
  {
    ShiftStep(B, j, i);
    q[j + 1] := q[j];
    if u != null {
      ShiftCol(u, j);
      assert Snap(u) == ShiftedCols(U, j - 1, i) by {
        forall r | 0 <= r < |U|
          ensures Snap(u)[r] == Shifted(U[r], j - 1, i)
        {
          ShiftStep(U[r], j, i);
        }
      }
    }
    if vt != null {
      ShiftRow(vt, j);
      ShiftStep(V, j, i);
    }
  }

  /** u[k][j + 1] = u[k][j] for every row k. */
  method ShiftCol(u: array2<real>, j: int)
    requires 0 <= j && j + 1 < u.Length1
    modifies u
    ensures forall r :: 0 <= r < u.Length0 ==> Snap(u)[r] == old(Snap(u)[r][j + 1 := Snap(u)[r][j]])
  {
    var r := 0;
    while r < u.Length0
      invariant 0 <= r <= u.Length0
      invariant forall r', k :: 0 <= r' < u.Length0 && 0 <= k < u.Length1 ==>
        u[r', k] == if k == j + 1 && r' < r then old(u[r', j]) else old(u[r', k])
    {
      u[r, j + 1] := u[r, j];
      r := r + 1;
    }
  }

  /** vt[j + 1][k] = vt[j][k] for every column k. */
  method ShiftRow(vt: array2<real>, j: int)
    requires 0 <= j && j + 1 < vt.Length0
    modifies vt
    ensures Snap(vt) == old(Snap(vt)[j + 1 := Snap(vt)[j]])
  {
    ghost var V := Snap(vt);
    var c := 0;
    while c < vt.Length1
      invariant 0 <= c <= vt.Length1
      invariant forall k, c' :: 0 <= k < vt.Length0 && 0 <= c' < vt.Length1 ==>
        vt[k, c'] == if k == j + 1 && c' < c then old(vt[j, c']) else old(vt[k, c'])
    {
      vt[j + 1, c] := vt[j, c];
      c := c + 1;
    }
    forall k | 0 <= k < vt.Length0
      ensures Snap(vt)[k] == V[j + 1 := V[j]][k]
    {
      assert Snap(vt)[k] == RowOf(vt, k);
    }
  }

  /** Column p of u receives the saved column. */
  method PutCol(u: array2<real>, p: int, col: seq<real>)
    requires 0 <= p < u.Length1 && |col| == u.Length0
    modifies u
    ensures forall r :: 0 <= r < u.Length0 ==> Snap(u)[r] == old(Snap(u)[r][p := col[r]])
  {
    var r := 0;
    while r < u.Length0
      invariant 0 <= r <= u.Length0
      invariant forall r', k :: 0 <= r' < u.Length0 && 0 <= k < u.Length1 ==>
        u[r', k] == if k == p && r' < r then col[r'] else old(u[r', k])
    {
      u[r, p] := col[r];
      r := r + 1;
    }
  }

  /** Row p of vt receives the saved row. */
  method PutRow(vt: array2<real>, p: int, row: seq<real>)
    requires 0 <= p < vt.Length0 && |row| == vt.Length1
    modifies vt
    ensures Snap(vt) == old(Snap(vt)[p := row])
  {
    ghost var V := Snap(vt);
    var c := 0;
    while c < vt.Length1
      invariant 0 <= c <= vt.Length1
      invariant forall k, c' :: 0 <= k < vt.Length0 && 0 <= c' < vt.Length1 ==>
        vt[k, c'] == if k == p && c' < c then row[c'] else old(vt[k, c'])
    {
      vt[p, c] := row[c];
      c := c + 1;
    }
    forall k | 0 <= k < vt.Length0
      ensures Snap(vt)[k] == V[p := row][k]
    {
      assert Snap(vt)[k] == RowOf(vt, k);
    }
  }
}
