/**
 * Needleman-Wunsch alignment of two token sequences with traceback
 * (src/numeric/alignseq.c). Scores are +1 for a match, -1 for a mismatch
 * and -1 for a gap; ties prefer the diagonal, then a gap in t, then a gap
 * in p.
 */
module AlignSeq {
  import opened Common

  /** One traceback step: both tokens, a token of p against a gap, or a gap against a token of t. */
  datatype Step = Diag(a: int, b: int) | Up(a: int) | Left(b: int)

  function Max3(a: int, b: int, c: int): (m: int)
    ensures m >= a && m >= b && m >= c
    ensures m == a || m == b || m == c
  {
    Max(Max(a, b), c)
  }

  /** The forward pass's choice among the three candidate scores, with its direction. */
  function Choose(diag: int, pgap: int, tgap: int): (r: (int, char))
    ensures r.0 == Max3(diag, pgap, tgap)
    ensures r.1 == 'D' <==> diag >= pgap && diag >= tgap
    ensures r.1 == 'D' ==> r.0 == diag
    ensures r.1 == 'U' ==> r.0 == pgap && pgap > diag
    ensures r.1 == 'L' ==> r.0 == tgap && tgap > diag && tgap > pgap
    ensures r.1 in {'D', 'U', 'L'}
  {
    if diag >= pgap && diag >= tgap then (diag, 'D')
    else if pgap > diag && pgap >= tgap then (pgap, 'U')
    else (tgap, 'L')
  }

  /** Score and traceback direction of cell (i, j): F[i][j] and D[i][j]. */
  function Cell(p: seq<int>, t: seq<int>, i: nat, j: nat): (c: (int, char))
    requires i <= |p| && j <= |t|
    decreases i + j
  {
    if i == 0 then (-(j as int), 'L')
    else if j == 0 then (-(i as int), 'U')
    else
      Choose(Cell(p, t, i - 1, j - 1).0 + (if p[i - 1] == t[j - 1] then 1 else -1),
             Cell(p, t, i - 1, j).0 - 1,
             Cell(p, t, i, j - 1).0 - 1)
  }

  /** Each score lies between minus the total length and the shorter length. */
  lemma {:induction false} ScoreBounds(p: seq<int>, t: seq<int>, i: nat, j: nat)
    requires i <= |p| && j <= |t|
    ensures -(i + j) <= Cell(p, t, i, j).0 <= Min(i, j)
    decreases i + j
  {
    if i > 0 && j > 0 {
      ScoreBounds(p, t, i - 1, j - 1);
      ScoreBounds(p, t, i - 1, j);
      ScoreBounds(p, t, i, j - 1);
    }
  }

  /**
   * The traceback as alignseq.c writes it, in forward order: it follows
   * the directions and stops as soon as either index reaches 0, so a
   * leftover prefix of the other sequence is never emitted.
   */
  function EdgePath(p: seq<int>, t: seq<int>, i: nat, j: nat): (s: seq<Step>)
    requires i <= |p| && j <= |t|
    decreases i + j
  {
    if i == 0 || j == 0 then []
    else
      var d := Cell(p, t, i, j).1;
      if d == 'D' then EdgePath(p, t, i - 1, j - 1) + [Diag(p[i - 1], t[j - 1])]
      else if d == 'U' then EdgePath(p, t, i - 1, j) + [Up(p[i - 1])]
      else EdgePath(p, t, i, j - 1) + [Left(t[j - 1])]
  }

  /**
   * The traceback followed to the corner: column 0 of the direction table
   * holds 'U' and row 0 holds 'L', so once one index reaches 0 the
   * leftover prefix of the other sequence is emitted against gaps.
   */
  function Path(p: seq<int>, t: seq<int>, i: nat, j: nat): (s: seq<Step>)
    requires i <= |p| && j <= |t|
    decreases i + j
  {
    if i == 0 && j == 0 then []
    else if i == 0 then Path(p, t, 0, j - 1) + [Left(t[j - 1])]
    else if j == 0 then Path(p, t, i - 1, 0) + [Up(p[i - 1])]
    else
      var d := Cell(p, t, i, j).1;
      if d == 'D' then Path(p, t, i - 1, j - 1) + [Diag(p[i - 1], t[j - 1])]
      else if d == 'U' then Path(p, t, i - 1, j) + [Up(p[i - 1])]
      else Path(p, t, i, j - 1) + [Left(t[j - 1])]
  }

  /** The whole traceback, from the bottom-right corner of the tables. */
  ghost function Alignment(p: seq<int>, t: seq<int>): seq<Step>
  {
    Path(p, t, |p|, |t|)
  }

  /**
   * The steps alignseq writes when its buffers hold rlen entries: the whole
   * alignment if it fits, else its last rlen steps (the first ones traced).
   */
  ghost function Emitted(p: seq<int>, t: seq<int>, rlen: int): (s: seq<Step>)
    ensures |s| == Min(|Alignment(p, t)|, Max(rlen, 0))
  {
    var A := Alignment(p, t);
    A[|A| - Min(|A|, Max(rlen, 0))..]
  }

  /** Where the traceback as written, started at (i, j), stops. */
  function End(p: seq<int>, t: seq<int>, i: nat, j: nat): (e: (nat, nat))
    requires i <= |p| && j <= |t|
    decreases i + j
  {
    if i == 0 || j == 0 then (i, j)
    else
      var d := Cell(p, t, i, j).1;
      if d == 'D' then End(p, t, i - 1, j - 1)
      else if d == 'U' then End(p, t, i - 1, j)
      else End(p, t, i, j - 1)
  }

  /** Mismatches plus gaps, the count the traceback reports. */
  function StepCost(s: Step): nat
  {
    match s
    case Diag(a, b) => if a != b then 1 else 0
    case Up(_) => 1
    case Left(_) => 1
  }

  function Cost(s: seq<Step>): (c: nat)
    ensures c <= |s|
  {
    if |s| == 0 then 0 else Cost(s[..|s| - 1]) + StepCost(s[|s| - 1])
  }

  lemma {:induction false} CostAppend(a: seq<Step>, b: seq<Step>)
    ensures Cost(a + b) == Cost(a) + Cost(b)
  {
    if |b| > 0 {
      assert (a + b)[..|a + b| - 1] == a + b[..|b| - 1];
      assert (a + b)[|a + b| - 1] == b[|b| - 1];
      assert Cost(b) == Cost(b[..|b| - 1]) + StepCost(b[|b| - 1]);
      CostAppend(a, b[..|b| - 1]);
    } else {
      assert a + b == a;
    }
  }

  /** The tokens of p the steps carry, in order. */
  function PTokens(s: seq<Step>): seq<int>
  {
    if |s| == 0 then []
    else PTokens(s[..|s| - 1]) + (if s[|s| - 1].Left? then [] else [s[|s| - 1].a])
  }

  /** The tokens of t the steps carry, in order. */
  function TTokens(s: seq<Step>): seq<int>
  {
    if |s| == 0 then []
    else TTokens(s[..|s| - 1]) + (if s[|s| - 1].Up? then [] else [s[|s| - 1].b])
  }

  /** One more step adds its tokens at the end. */
  lemma TokensSnoc(s: seq<Step>, st: Step)
    ensures PTokens(s + [st]) == PTokens(s) + (if st.Left? then [] else [st.a])
    ensures TTokens(s + [st]) == TTokens(s) + (if st.Up? then [] else [st.b])
  {
    assert (s + [st])[..|s|] == s;
  }

  lemma SliceSnoc(s: seq<int>, lo: nat, hi: nat)
    requires lo < hi <= |s|
    ensures s[lo..hi] == s[lo..hi - 1] + [s[hi - 1]]
  {
  }

  /** Score of one step: +1 for a match, -1 for a mismatch or a gap. */
  function StepScore(s: Step): int
  {
    if StepCost(s) == 0 then 1 else -1
  }

  /** The score the forward pass maximizes, summed over the steps of an alignment. */
  function Score(s: seq<Step>): int
  {
    if |s| == 0 then 0 else Score(s[..|s| - 1]) + StepScore(s[|s| - 1])
  }

  /** A step scores +1 when it is free and -1 when it costs one, so the score is the length less twice the cost. */
  lemma {:induction false} ScoreIsLengthLessCost(s: seq<Step>)
    ensures Score(s) == |s| - 2 * Cost(s)
  {
    if |s| > 0 {
      ScoreIsLengthLessCost(s[..|s| - 1]);
    }
  }

  /**
   * The last step of a nonempty traceback, the cell it came from, and the
   * score it adds; inside the table the as-written traceback takes the
   * same step.
   */
  lemma PathStep(p: seq<int>, t: seq<int>, i: nat, j: nat) returns (i': nat, j': nat, st: Step)
    requires i <= |p| && j <= |t| && 0 < i + j
    ensures i' <= i && j' <= j && i' + j' < i + j
    ensures Path(p, t, i, j) == Path(p, t, i', j') + [st]
    ensures 0 < i && 0 < j ==> EdgePath(p, t, i, j) == EdgePath(p, t, i', j') + [st] && End(p, t, i, j) == End(p, t, i', j')
    ensures Cell(p, t, i, j).0 == Cell(p, t, i', j').0 + StepScore(st)
    ensures st.Diag? ==> i' == i - 1 && j' == j - 1 && st == Diag(p[i - 1], t[j - 1])
    ensures st.Up? ==> i' == i - 1 && j' == j && st == Up(p[i - 1])
    ensures st.Left? ==> i' == i && j' == j - 1 && st == Left(t[j - 1])
    ensures st.Diag? <==> Cell(p, t, i, j).1 == 'D'
    ensures st.Up? <==> Cell(p, t, i, j).1 == 'U'
  {
    var d := Cell(p, t, i, j).1;
    if d == 'D' {
      i', j', st := i - 1, j - 1, Diag(p[i - 1], t[j - 1]);
    } else if d == 'U' {
      i', j', st := i - 1, j, Up(p[i - 1]);
    } else {
      i', j', st := i, j - 1, Left(t[j - 1]);
    }
  }

  /** The traceback as written stops on an edge. */
  lemma {:induction false} EndOnEdge(p: seq<int>, t: seq<int>, i: nat, j: nat)
    requires i <= |p| && j <= |t|
    ensures var e := End(p, t, i, j); (e.0 == 0 || e.1 == 0) && e.0 <= i && e.1 <= j
    decreases i + j
  {
    if i > 0 && j > 0 {
      var i', j', _ := PathStep(p, t, i, j);
      EndOnEdge(p, t, i', j');
    }
  }

  /** The tokens of p the traceback as written emits are only p[ie..i]: the prefix before its end is dropped. */
  lemma {:induction false} EdgePathConsumesP(p: seq<int>, t: seq<int>, i: nat, j: nat)
    requires i <= |p| && j <= |t|
    ensures End(p, t, i, j).0 <= i && PTokens(EdgePath(p, t, i, j)) == p[End(p, t, i, j).0..i]
    decreases i + j
  {
    if i > 0 && j > 0 {
      var i', j', st := PathStep(p, t, i, j);
      EdgePathConsumesP(p, t, i', j');
      TokensSnoc(EdgePath(p, t, i', j'), st);
      if !st.Left? {
        SliceSnoc(p, End(p, t, i, j).0, i);
      }
    }
  }

  /** The tokens of t the traceback as written emits are only t[je..j]. */
  lemma {:induction false} EdgePathConsumesT(p: seq<int>, t: seq<int>, i: nat, j: nat)
    requires i <= |p| && j <= |t|
    ensures End(p, t, i, j).1 <= j && TTokens(EdgePath(p, t, i, j)) == t[End(p, t, i, j).1..j]
    decreases i + j
  {
    if i > 0 && j > 0 {
      var i', j', st := PathStep(p, t, i, j);
      EdgePathConsumesT(p, t, i', j');
      TokensSnoc(EdgePath(p, t, i', j'), st);
      if !st.Up? {
        SliceSnoc(t, End(p, t, i, j).1, j);
      }
    }
  }

  /**
   * For p = [1, 2] and t = [2] the traceback as written matches the 2s and
   * stops on the edge: alignseq reports 0 and emits one step, and the
   * leading 1 of p is in neither output. Followed to the corner, the
   * traceback emits it against a gap and reports 1.
   */
  lemma EdgeTracebackDropsToken(p: seq<int>, t: seq<int>)
    requires p == [1, 2] && t == [2]
    ensures EdgePath(p, t, |p|, |t|) == [Diag(2, 2)] && Cost(EdgePath(p, t, |p|, |t|)) == 0
    ensures PTokens(EdgePath(p, t, |p|, |t|)) != p
    ensures Alignment(p, t) == [Up(1), Diag(2, 2)] && Cost(Alignment(p, t)) == 1
  {
    assert Cell(p, t, 1, 1) == (-1, 'D');
    assert Cell(p, t, 2, 1) == (0, 'D');
    assert EdgePath(p, t, 2, 1) == [Diag(2, 2)];
    assert Path(p, t, 1, 0) == [Up(1)];
    assert Path(p, t, 2, 1) == [Up(1), Diag(2, 2)];
    assert PTokens([Diag(2, 2)]) == [2];
    assert Cost([Up(1), Diag(2, 2)]) == Cost([Up(1)]) + 0;
  }

  /** The traceback emits all of p[..i]. */
  lemma {:induction false} PathConsumesP(p: seq<int>, t: seq<int>, i: nat, j: nat)
    requires i <= |p| && j <= |t|
    ensures PTokens(Path(p, t, i, j)) == p[..i]
    decreases i + j
  {
    if 0 < i + j {
      var i', j', st := PathStep(p, t, i, j);
      PathConsumesP(p, t, i', j');
      TokensSnoc(Path(p, t, i', j'), st);
      if !st.Left? {
        assert p[..i] == p[..i - 1] + [p[i - 1]];
      }
    }
  }

  /** The traceback emits all of t[..j]. */
  lemma {:induction false} PathConsumesT(p: seq<int>, t: seq<int>, i: nat, j: nat)
    requires i <= |p| && j <= |t|
    ensures TTokens(Path(p, t, i, j)) == t[..j]
    decreases i + j
  {
    if 0 < i + j {
      var i', j', st := PathStep(p, t, i, j);
      PathConsumesT(p, t, i', j');
      TokensSnoc(Path(p, t, i', j'), st);
      if !st.Up? {
        assert t[..j] == t[..j - 1] + [t[j - 1]];
      }
    }
  }

  /** The score in cell (i, j) is the score of the traceback from it. */
  lemma {:induction false} ScoreOfPath(p: seq<int>, t: seq<int>, i: nat, j: nat)
    requires i <= |p| && j <= |t|
    ensures Cell(p, t, i, j).0 == Score(Path(p, t, i, j))
    decreases i + j
  {
    if 0 < i + j {
      var i', j', st := PathStep(p, t, i, j);
      ScoreOfPath(p, t, i', j');
      var s := Path(p, t, i, j);
      assert s[..|s| - 1] == Path(p, t, i', j') && s[|s| - 1] == st;
    }
  }

  /** No alignment of p[..i] with t[..j] scores more than cell (i, j). */
  lemma {:induction false} CellIsBest(p: seq<int>, t: seq<int>, i: nat, j: nat, s: seq<Step>)
    requires i <= |p| && j <= |t|
    requires PTokens(s) == p[..i] && TTokens(s) == t[..j]
    ensures Score(s) <= Cell(p, t, i, j).0
    decreases |s|
  {
    if |s| > 0 {
      var s', st := s[..|s| - 1], s[|s| - 1];
      assert s == s' + [st];
      TokensSnoc(s', st);
      match st
      case Diag(a, b) =>
        assert i > 0 && j > 0 && a == p[i - 1] && b == t[j - 1];
        assert p[..i - 1] == p[..i][..i - 1] && t[..j - 1] == t[..j][..j - 1];
        CellIsBest(p, t, i - 1, j - 1, s');
      case Up(a) =>
        assert i > 0;
        assert p[..i - 1] == p[..i][..i - 1];
        CellIsBest(p, t, i - 1, j, s');
      case Left(b) =>
        assert j > 0;
        assert t[..j - 1] == t[..j][..j - 1];
        CellIsBest(p, t, i, j - 1, s');
    }
  }

  /**
   * The alignment alignseq writes has the two sequences in full, gaps
   * aside, and the best score over every such alignment.
   */
  lemma AlignmentOptimal(p: seq<int>, t: seq<int>)
    ensures PTokens(Alignment(p, t)) == p && TTokens(Alignment(p, t)) == t
    ensures forall s :: PTokens(s) == p && TTokens(s) == t ==> Score(s) <= Score(Alignment(p, t))
  {
    PathConsumesP(p, t, |p|, |t|);
    PathConsumesT(p, t, |p|, |t|);
    assert p[..|p|] == p && t[..|t|] == t;
    ScoreOfPath(p, t, |p|, |t|);
    forall s | PTokens(s) == p && TTokens(s) == t
      ensures Score(s) <= Score(Alignment(p, t))
    {
      CellIsBest(p, t, |p|, |t|, s);
    }
  }

  function RpOf(s: Step, blank: int): int
  {
    match s
    case Diag(a, _) => a
    case Up(a) => a
    case Left(_) => blank
  }

  function RtOf(s: Step, blank: int): int
  {
    match s
    case Diag(_, b) => b
    case Up(_) => blank
    case Left(b) => b
  }

  function Reversed(s: seq<int>): (r: seq<int>)
    ensures |r| == |s| && forall k :: 0 <= k < |s| ==> r[k] == s[|s| - 1 - k]
  {
    if |s| == 0 then [] else [s[|s| - 1]] + Reversed(s[..|s| - 1])
  }

  lemma ReversedTwice(s: seq<int>)
    ensures Reversed(Reversed(s)) == s
  {
  }

  /** reverse: swap s[i] and s[len-1-i] for i < len/2; the rest of s is untouched. */
  method Reverse(s: array<int>, len: nat)
    requires len <= s.Length
    modifies s
    ensures forall k :: 0 <= k < len ==> s[k] == old(s[len - 1 - k])
    ensures s[..len] == Reversed(old(s[..len]))
    ensures forall k :: len <= k < s.Length ==> s[k] == old(s[k])
  {
    var i, j := 0, len - 1;
    while i < len / 2
      invariant 0 <= i <= len / 2 && j == len - 1 - i
      invariant forall k :: 0 <= k < i ==> s[k] == old(s[len - 1 - k]) && s[len - 1 - k] == old(s[k])
      invariant forall k :: i <= k <= len - 1 - i ==> s[k] == old(s[k])
      invariant forall k :: len <= k < s.Length ==> s[k] == old(s[k])
    {
      s[i], s[j] := s[j], s[i];
      i, j := i + 1, j - 1;
    }
  }

  /** Row r of F and D holds the scores and directions of the forward pass. */
  ghost predicate RowFilled(F: array2<int>, D: array2<char>, p: seq<int>, t: seq<int>, r: nat, n: nat)
    requires r <= |p| && n <= |t| + 1
    requires F.Length0 == D.Length0 == |p| + 1 && F.Length1 == D.Length1 == |t| + 1
    reads F, D
  {
    forall c :: 0 <= c < n ==> F[r, c] == Cell(p, t, r, c).0 && D[r, c] == Cell(p, t, r, c).1
  }

  /** Both output buffers reversed over their first |E| entries, turning the traced steps into forward order. */
  method ReverseBoth(rp: array<int>, rt: array<int>, ghost E: seq<Step>, len: nat, blank: int)
    requires rp != rt && len == |E| && len <= rp.Length && len <= rt.Length
    requires forall q :: 0 <= q < len ==> rp[q] == RpOf(E[len - 1 - q], blank) && rt[q] == RtOf(E[len - 1 - q], blank)
    modifies rp, rt
    ensures forall q :: 0 <= q < len ==> rp[q] == RpOf(E[q], blank) && rt[q] == RtOf(E[q], blank)
    ensures forall q :: len <= q < rp.Length ==> rp[q] == old(rp[q])
    ensures forall q :: len <= q < rt.Length ==> rt[q] == old(rt[q])
  {
    Reverse(rp, len);
    Reverse(rt, len);
  }

  /** The F and D tables of the forward pass. */
  method FillTables(p: seq<int>, t: seq<int>) returns (F: array2<int>, D: array2<char>)
    ensures fresh(F) && fresh(D)
    ensures F.Length0 == D.Length0 == |p| + 1 && F.Length1 == D.Length1 == |t| + 1
    ensures forall i, j :: 0 <= i <= |p| && 0 <= j <= |t| ==>
      F[i, j] == Cell(p, t, i, j).0 && D[i, j] == Cell(p, t, i, j).1
  {
    F := new int[|p| + 1, |t| + 1];
    D := new char[|p| + 1, |t| + 1];
    var i := 1;
    while i <= |p|
      invariant 1 <= i <= |p| + 1
      invariant forall k :: 1 <= k < i ==> F[k, 0] == -k && D[k, 0] == 'U'
    {
      F[i, 0], D[i, 0] := -i, 'U';
      i := i + 1;
    }
    var j := 0;
    while j <= |t|
      invariant 0 <= j <= |t| + 1
      invariant forall k :: 1 <= k <= |p| ==> F[k, 0] == -k && D[k, 0] == 'U'
      invariant forall k :: 0 <= k < j ==> F[0, k] == -k && D[0, k] == 'L'
    {
      F[0, j], D[0, j] := -j, 'L';
      j := j + 1;
    }
    assert RowFilled(F, D, p, t, 0, |t| + 1);
    i := 0;
    while i < |p|
      invariant 0 <= i <= |p|
      invariant forall r :: 0 <= r <= i ==> RowFilled(F, D, p, t, r, F.Length1)
      invariant forall r :: i < r <= |p| ==> F[r, 0] == -r && D[r, 0] == 'U'
    {
      label before:
      FillRow(p, t, F, D, i);
      forall r | 0 <= r <= i
        ensures RowFilled(F, D, p, t, r, F.Length1)
      {
        assert old@before(RowFilled(F, D, p, t, r, F.Length1));
      }
      i := i + 1;
    }
    forall i, j | 0 <= i <= |p| && 0 <= j <= |t|
      ensures F[i, j] == Cell(p, t, i, j).0 && D[i, j] == Cell(p, t, i, j).1
    {
      assert RowFilled(F, D, p, t, i, F.Length1);
    }
  }

  /** Row i+1 of the forward pass, given row i and the left edge. */
  method FillRow(p: seq<int>, t: seq<int>, F: array2<int>, D: array2<char>, i: nat)
    requires i < |p|
    requires F.Length0 == D.Length0 == |p| + 1 && F.Length1 == D.Length1 == |t| + 1
    requires RowFilled(F, D, p, t, i, |t| + 1)
    requires F[i + 1, 0] == -(i + 1) && D[i + 1, 0] == 'U'
    modifies F, D
    ensures RowFilled(F, D, p, t, i + 1, |t| + 1)
    ensures forall r, c :: 0 <= r < F.Length0 && r != i + 1 && 0 <= c < F.Length1 ==>
      F[r, c] == old(F[r, c]) && D[r, c] == old(D[r, c])
  {
    var j := 0;
    while j < |t|
      invariant 0 <= j <= |t|
      invariant RowFilled(F, D, p, t, i + 1, j + 1)
      invariant forall r, c :: 0 <= r < F.Length0 && r != i + 1 && 0 <= c < F.Length1 ==>
        F[r, c] == old(F[r, c]) && D[r, c] == old(D[r, c])
    {
      FillCell(p, t, F, D, i, j);
      j := j + 1;
    }
  }

  /** Cell (i+1, j+1) from its three neighbours, preferring the diagonal, then 'U', then 'L'. */
  method FillCell(p: seq<int>, t: seq<int>, F: array2<int>, D: array2<char>, i: nat, j: nat)
    requires i < |p| && j < |t|
    requires F.Length0 == D.Length0 == |p| + 1 && F.Length1 == D.Length1 == |t| + 1
    requires F[i, j] == Cell(p, t, i, j).0 && F[i, j + 1] == Cell(p, t, i, j + 1).0
    requires F[i + 1, j] == Cell(p, t, i + 1, j).0
    modifies F, D
    ensures F[i + 1, j + 1] == Cell(p, t, i + 1, j + 1).0 && D[i + 1, j + 1] == Cell(p, t, i + 1, j + 1).1
    ensures forall r, c :: 0 <= r < F.Length0 && 0 <= c < F.Length1 && (r, c) != (i + 1, j + 1) ==>
      F[r, c] == old(F[r, c]) && D[r, c] == old(D[r, c])
  {
    var diag := F[i, j] + (if p[i] == t[j] then 1 else -1);
    var pgap := F[i, j + 1] - 1;
    var tgap := F[i + 1, j] - 1;
    if diag >= pgap && diag >= tgap {
      F[i + 1, j + 1], D[i + 1, j + 1] := diag, 'D';
    } else if pgap > diag && pgap >= tgap {
      F[i + 1, j + 1], D[i + 1, j + 1] := pgap, 'U';
    } else {
      F[i + 1, j + 1], D[i + 1, j + 1] := tgap, 'L';
    }
  }

  /**
   * alignseq(p, plen, t, tlen, rp, rt, rlen, blank): the forward pass, the
   * traceback written into rp/rt, then the reversal into forward order and a
   * blank terminator when the alignment is shorter than rlen. The result is
   * the number of mismatches and gaps, or -1 when rlen is too small. The
   * read-only inputs p and t are values; only rp and rt are written. The
   * traceback runs to the corner, so the output holds both sequences in
   * full (AlignmentOptimal); alignseq.c stops at the first edge
   * (EdgeTracebackDropsToken).
   */
  method Align(p: seq<int>, t: seq<int>, rp: array<int>, rt: array<int>, rlen: int, blank: int)
    returns (dist: int)
    requires rp != rt
    requires rlen <= rp.Length && rlen <= rt.Length
    modifies rp, rt
    ensures dist == if |Alignment(p, t)| > Max(rlen, 0) then -1 else Cost(Alignment(p, t))
    ensures forall q :: 0 <= q < |Emitted(p, t, rlen)| ==>
      rp[q] == RpOf(Emitted(p, t, rlen)[q], blank) && rt[q] == RtOf(Emitted(p, t, rlen)[q], blank)
    ensures var e := |Emitted(p, t, rlen)|;
      e < rlen ==> rp[e] == blank && rt[e] == blank
    ensures var e := |Emitted(p, t, rlen)|; var f := if e < rlen then e + 1 else e;
      (forall q :: f <= q < rp.Length ==> rp[q] == old(rp[q])) && (forall q :: f <= q < rt.Length ==> rt[q] == old(rt[q]))
  {
    var F, D := FillTables(p, t);
    dist := Emit(p, t, D, rp, rt, rlen, blank);
  }

  /** The backward pass, then the reversal and the terminator. */
  method Emit(p: seq<int>, t: seq<int>, D: array2<char>, rp: array<int>, rt: array<int>, rlen: int, blank: int)
    returns (dist: int)
    requires rp != rt
    requires rlen <= rp.Length && rlen <= rt.Length
    requires D.Length0 == |p| + 1 && D.Length1 == |t| + 1
    requires forall i, j :: 0 <= i <= |p| && 0 <= j <= |t| ==> D[i, j] == Cell(p, t, i, j).1
    modifies rp, rt
    ensures dist == if |Alignment(p, t)| > Max(rlen, 0) then -1 else Cost(Alignment(p, t))
    ensures forall q :: 0 <= q < |Emitted(p, t, rlen)| ==>
      rp[q] == RpOf(Emitted(p, t, rlen)[q], blank) && rt[q] == RtOf(Emitted(p, t, rlen)[q], blank)
    ensures var e := |Emitted(p, t, rlen)|;
      e < rlen ==> rp[e] == blank && rt[e] == blank
    ensures var e := |Emitted(p, t, rlen)|; var f := if e < rlen then e + 1 else e;
      (forall q :: f <= q < rp.Length ==> rp[q] == old(rp[q])) && (forall q :: f <= q < rt.Length ==> rt[q] == old(rt[q]))
  {
    var rinx;
    dist, rinx := Traceback(p, t, D, rp, rt, rlen, blank);
    ReverseBoth(rp, rt, Emitted(p, t, rlen), rinx, blank);
    if rinx < rlen {
      rp[rinx] := blank;
      rt[rinx] := blank;
    }
  }

  /**
   * What the backward pass has done once rinx steps are out: the cells left
   * to visit trace the front of the full path, rp/rt hold the last rinx
   * steps in reverse order, and dist counts their cost.
   */
  ghost predicate Traced(p: seq<int>, t: seq<int>, full: seq<Step>, i: nat, j: nat, rinx: nat, dist: int,
                         rp: array<int>, rt: array<int>, blank: int)
    requires i <= |p| && j <= |t|
    reads rp, rt
  {
    rinx <= rp.Length && rinx <= rt.Length && Split(full, Path(p, t, i, j), rinx, dist) &&
    forall q :: 0 <= q < rinx ==> rp[q] == RpOf(full[|full| - 1 - q], blank) && rt[q] == RtOf(full[|full| - 1 - q], blank)
  }

  /** full splits into front, still to trace, and a traced tail of rinx steps costing dist. */
  ghost predicate Split(full: seq<Step>, front: seq<Step>, rinx: nat, dist: int)
  {
    rinx <= |full| && full[..|full| - rinx] == front && dist == Cost(full[|full| - rinx..])
  }

  /** Tracing the last step of the front moves it onto the tail. */
  lemma SplitStep(full: seq<Step>, front: seq<Step>, st: Step, rinx: nat, dist: int)
    requires Split(full, front + [st], rinx, dist)
    ensures full[|full| - 1 - rinx] == st && Split(full, front, rinx + 1, dist + StepCost(st))
  {
    var k := |full| - 1 - rinx;
    assert full[k] == (front + [st])[k];
    SuffixCost(full, k);
    assert full[..k] == full[..|full| - rinx][..k];
  }

  /** One iteration of the backward pass, from cell (i, j). */
  method TraceStep(p: seq<int>, t: seq<int>, D: array2<char>, rp: array<int>, rt: array<int>, blank: int,
                   ghost full: seq<Step>, i: nat, j: nat, rinx: nat, dist: int)
    returns (i': nat, j': nat, dist': int)
    requires rp != rt
    requires i <= |p| && j <= |t| && 0 < i + j && rinx < rp.Length && rinx < rt.Length
    requires D.Length0 == |p| + 1 && D.Length1 == |t| + 1
    requires D[i, j] == Cell(p, t, i, j).1
    requires Traced(p, t, full, i, j, rinx, dist, rp, rt, blank)
    modifies rp, rt
    ensures i' <= i && j' <= j && i' + j' < i + j
    ensures Traced(p, t, full, i', j', rinx + 1, dist', rp, rt, blank)
    ensures forall q :: 0 <= q < rp.Length && q != rinx ==> rp[q] == old(rp[q])
    ensures forall q :: 0 <= q < rt.Length && q != rinx ==> rt[q] == old(rt[q])
  {
    ghost var i0, j0, st := PathStep(p, t, i, j);
    SplitStep(full, Path(p, t, i0, j0), st, rinx, dist);
    var s := D[i, j];
    dist' := dist;
    if s == 'D' {
      rp[rinx] := p[i - 1];
      rt[rinx] := t[j - 1];
      if rp[rinx] != rt[rinx] {
        dist' := dist' + 1;
      }
      i', j' := i - 1, j - 1;
    } else if s == 'U' {
      rp[rinx] := p[i - 1];
      rt[rinx] := blank;
      dist' := dist' + 1;
      i', j' := i - 1, j;
    } else {
      rp[rinx] := blank;
      rt[rinx] := t[j - 1];
      dist' := dist' + 1;
      i', j' := i, j - 1;
    }
    assert rp[rinx] == RpOf(st, blank) && rt[rinx] == RtOf(st, blank);
    assert i' == i0 && j' == j0;
  }

  /**
   * The backward pass: steps are written from index 0 in reverse order,
   * one per cell visited, until the corner (0, 0) is reached or rlen steps
   * are out. alignseq.c stops at the first edge instead (EdgePath).
   */
  method Traceback(p: seq<int>, t: seq<int>, D: array2<char>, rp: array<int>, rt: array<int>, rlen: int, blank: int)
    returns (dist: int, rinx: nat)
    requires rp != rt
    requires rlen <= rp.Length && rlen <= rt.Length
    requires D.Length0 == |p| + 1 && D.Length1 == |t| + 1
    requires forall i, j :: 0 <= i <= |p| && 0 <= j <= |t| ==> D[i, j] == Cell(p, t, i, j).1
    modifies rp, rt
    ensures rinx == Min(|Alignment(p, t)|, Max(rlen, 0))
    ensures dist == if |Alignment(p, t)| > Max(rlen, 0) then -1 else Cost(Alignment(p, t))
    ensures forall q :: 0 <= q < rinx ==>
      rp[q] == RpOf(Emitted(p, t, rlen)[rinx - 1 - q], blank) && rt[q] == RtOf(Emitted(p, t, rlen)[rinx - 1 - q], blank)
    ensures forall q :: rinx <= q < rp.Length ==> rp[q] == old(rp[q])
    ensures forall q :: rinx <= q < rt.Length ==> rt[q] == old(rt[q])
  {
    ghost var full := Alignment(p, t);
    dist, rinx := 0, 0;
    var i, j := |p|, |t|;
    assert full[|full|..] == [];
    while i > 0 || j > 0
      invariant 0 <= i <= |p| && 0 <= j <= |t|
      invariant rinx <= Max(rlen, 0)
      invariant Traced(p, t, full, i, j, rinx, dist, rp, rt, blank)
      invariant forall q :: rinx <= q < rp.Length ==> rp[q] == old(rp[q])
      invariant forall q :: rinx <= q < rt.Length ==> rt[q] == old(rt[q])
      decreases i + j
    {
      if rinx >= rlen {
        ghost var i0, j0, st := PathStep(p, t, i, j);
        dist := -1;
        break;
      }
      i, j, dist := TraceStep(p, t, D, rp, rt, blank, full, i, j, rinx, dist);
      rinx := rinx + 1;
    }
    if dist != -1 {
      assert full[..|full| - rinx] == [];
      assert full[|full| - rinx..] == full;
    }
    ghost var E := Emitted(p, t, rlen);
    assert E == full[|full| - rinx..];
    forall q | 0 <= q < rinx
      ensures rp[q] == RpOf(E[rinx - 1 - q], blank) && rt[q] == RtOf(E[rinx - 1 - q], blank)
    {
      assert E[rinx - 1 - q] == full[|full| - 1 - q];
    }
  }

  /** Cost of a suffix, peeled one step at its front. */
  lemma SuffixCost(s: seq<Step>, k: nat)
    requires k < |s|
    ensures Cost(s[k..]) == StepCost(s[k]) + Cost(s[k + 1..])
  {
    assert s[k..] == [s[k]] + s[k + 1..];
    CostAppend([s[k]], s[k + 1..]);
    assert Cost([s[k]]) == Cost([]) + StepCost(s[k]);
  }
}
