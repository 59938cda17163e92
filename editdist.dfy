/**
 * Levenshtein edit distance with two rolling rows (src/stats/editdist.c).
 */
module EditDist {
  import opened Common

  function Min3(a: int, b: int, c: int): (m: int)
    ensures m <= a && m <= b && m <= c
    ensures m == a || m == b || m == c
  {
    Min(Min(a, b), c)
  }

  /**
   * The Levenshtein distance between p and t: the fewest single-token
   * deletions, insertions and substitutions turning one into the other,
   * defined on the last tokens of both sequences.
   */
  function Lev(p: seq<int>, t: seq<int>): (d: nat)
    decreases |p| + |t|
  {
    if |p| == 0 then |t|
    else if |t| == 0 then |p|
    else
      var n, m := |p| - 1, |t| - 1;
      Min3(Lev(p, t[..m]) + 1, Lev(p[..n], t) + 1, Lev(p[..n], t[..m]) + if p[n] == t[m] then 0 else 1)
  }

  /** The distance is 0 for equal sequences. */
  lemma {:induction false} LevSelf(p: seq<int>)
    ensures Lev(p, p) == 0
  {
    if |p| > 0 {
      LevSelf(p[..|p| - 1]);
    }
  }

  /** Only equal sequences are at distance 0. */
  lemma {:induction false} LevZero(p: seq<int>, t: seq<int>)
    requires Lev(p, t) == 0
    ensures p == t
    decreases |p| + |t|
  {
    if |p| > 0 && |t| > 0 {
      var n, m := |p| - 1, |t| - 1;
      LevZero(p[..n], t[..m]);
      assert p == p[..n] + [p[n]] && t == t[..m] + [t[m]];
    }
  }

  /** At least the length difference, at most the longer length. */
  lemma {:induction false} LevBounds(p: seq<int>, t: seq<int>)
    ensures Lev(p, t) >= |p| - |t| && Lev(p, t) >= |t| - |p|
    ensures Lev(p, t) <= Max(|p|, |t|)
    decreases |p| + |t|
  {
    if |p| > 0 && |t| > 0 {
      var n, m := |p| - 1, |t| - 1;
      LevBounds(p, t[..m]);
      LevBounds(p[..n], t);
      LevBounds(p[..n], t[..m]);
    }
  }

  /** The distance is symmetric in its two arguments. */
  lemma {:induction false} LevSymmetric(p: seq<int>, t: seq<int>)
    ensures Lev(p, t) == Lev(t, p)
    decreases |p| + |t|
  {
    if |p| > 0 && |t| > 0 {
      var n, m := |p| - 1, |t| - 1;
      LevSymmetric(p, t[..m]);
      LevSymmetric(p[..n], t);
      LevSymmetric(p[..n], t[..m]);
    }
  }

  /**
   * edit_dist(p, n, t, m). v0[j] holds the distance between p[..j] and the
   * first i tokens of t; each outer step fills v1 from v0 and swaps them.
   */
  method EditDistance(p: array<int>, t: array<int>) returns (dist: int)
    ensures dist == Lev(p[..], t[..])
  {
    var n, m := p.Length, t.Length;
    if n == 0 {
      return m;
    }
    if m == 0 {
      return n;
    }
    var v0 := new int[n + 1];
    var v1 := new int[n + 1];
    var i := 0;
    while i <= n
      invariant 0 <= i <= n + 1
      invariant forall j :: 0 <= j < i ==> v0[j] == j
    {
      v0[i] := i;
      i := i + 1;
    }
    assert forall j :: 0 <= j <= n ==> v0[j] == Lev(p[..j], t[..0]);
    i := 0;
    while i < m
      invariant 0 <= i <= m
      invariant v0 != v1 && v0.Length == n + 1 && v1.Length == n + 1
      invariant fresh(v0) && fresh(v1)
      invariant forall j :: 0 <= j <= n ==> v0[j] == Lev(p[..j], t[..i])
    {
      Row(p, t, i, v0, v1);
      v0, v1 := v1, v0;
      i := i + 1;
    }
    dist := v0[n];
    assert p[..n] == p[..] && t[..m] == t[..];
  }

  /** One outer step: v1[j] becomes the distance between p[..j] and t[..i+1]. */
  method Row(p: array<int>, t: array<int>, i: nat, v0: array<int>, v1: array<int>)
    requires i < t.Length && v0 != v1 && v1 != p && v1 != t && v0.Length == p.Length + 1 && v1.Length == p.Length + 1
    requires forall j :: 0 <= j <= p.Length ==> v0[j] == Lev(p[..j], t[..i])
    modifies v1
    ensures forall j :: 0 <= j <= p.Length ==> v1[j] == Lev(p[..j], t[..i + 1])
  {
    ghost var P, T := p[..], t[..];
    v1[0] := i + 1;
    assert P[..0] == [] && T[..i + 1] == t[..i + 1];
    var j := 0;
    while j < p.Length
      invariant 0 <= j <= p.Length
      invariant forall k :: 0 <= k <= j ==> v1[k] == Lev(P[..k], T[..i + 1])
    {
      var del := v0[j + 1] + 1;
      var ins := v1[j] + 1;
      var sub := if p[j] == t[i] then v0[j] else v0[j] + 1;
      assert p[..j + 1] == P[..j + 1] && p[..j] == P[..j] && t[..i] == T[..i];
      LevStep(P, T, j, i);
      v1[j + 1] := Min3(del, ins, sub);
      j := j + 1;
    }
    assert forall k :: 0 <= k <= p.Length ==> p[..k] == P[..k] && t[..i + 1] == T[..i + 1];
  }

  /** The recurrence behind one cell of the rolling rows. */
  lemma LevStep(p: seq<int>, t: seq<int>, j: nat, i: nat)
    requires j < |p| && i < |t|
    ensures Lev(p[..j + 1], t[..i + 1]) ==
      Min3(Lev(p[..j + 1], t[..i]) + 1, Lev(p[..j], t[..i + 1]) + 1, Lev(p[..j], t[..i]) + if p[j] == t[i] then 0 else 1)
  {
    assert p[..j + 1][..j] == p[..j] && t[..i + 1][..i] == t[..i];
  }
}
