/**
 * Connectionist Temporal Classification (src/numeric/ctc.c): arg-max
 * decoding of predictions and labels, merging of repeats and removal of
 * blanks, the blank-padded label, the pruned forward (alpha) and backward
 * (beta) tables in log scale, the per-step probabilities, the loss, its
 * gradient and the accuracy factor.
 *
 * Log-scale floats are LogP values: -INFINITY or a finite real. The
 * transcendental functions are parameters: f(x) stands for
 * log1pf(expf(x)), ln for log and exp for expf. Float rounding is not
 * modelled.
 */
module Ctc {
  import opened Common
  import opened Matrix
  import opened OneHot
  import opened EditDist

  /** A log-scale float: -INFINITY or a finite value. */
  datatype LogP = NegInf | Fin(v: real)

  /** The loss ctc_loss returns: INFINITY or a finite value. */
  datatype LossValue = Infinite | Finite(v: real)

  /** logsumexp: log(exp(a) + exp(b)), with -INFINITY as the identity on either side. */
  function LogSumExp(a: LogP, b: LogP, f: real -> real): LogP
  {
    if a.NegInf? then b
    else if b.NegInf? then a
    else if a.v >= b.v then Fin(a.v + f(b.v - a.v))
    else Fin(b.v + f(a.v - b.v))
  }

  /** The product of two probabilities in log scale: the sum, -INFINITY absorbing. */
  function Times(a: LogP, b: LogP): LogP
  {
    if a.NegInf? || b.NegInf? then NegInf else Fin(a.v + b.v)
  }

  /** -INFINITY is an identity of logsumexp on both sides. */
  lemma LogSumExpIdentity(a: LogP, f: real -> real)
    ensures LogSumExp(NegInf, a, f) == a && LogSumExp(a, NegInf, f) == a
  {
  }

  /** logsumexp does not depend on the order of its arguments. */
  lemma LogSumExpCommutes(a: LogP, b: LogP, f: real -> real)
    ensures LogSumExp(a, b, f) == LogSumExp(b, a, f)
  {
  }

  /** logsumexp is -INFINITY exactly when both arguments are. */
  lemma LogSumExpNegInf(a: LogP, b: LogP, f: real -> real)
    ensures LogSumExp(a, b, f).NegInf? <==> a.NegInf? && b.NegInf?
  {
  }

  // ---------------------------------------------------------------------
  // Label sequences
  // ---------------------------------------------------------------------

  /** No two neighbouring entries are equal. */
  predicate NoRepeats(c: seq<int>)
  {
    forall k :: 0 < k < |c| ==> c[k - 1] != c[k]
  }

  /** Runs of equal consecutive labels merged into one label. */
  function Merge(c: seq<int>): (r: seq<int>)
    ensures |r| <= |c| && (|r| == 0 <==> |c| == 0)
    ensures |c| > 0 ==> r[0] == c[0] && r[|r| - 1] == c[|c| - 1]
  {
    if |c| <= 1 then c
    else
      var m := Merge(c[..|c| - 1]);
      if c[|c| - 1] == m[|m| - 1] then m else m + [c[|c| - 1]]
  }

  /** Merging a sequence extended by one label: the label is kept unless it repeats the last one. */
  lemma MergeSnoc(c: seq<int>, x: int)
    ensures Merge(c + [x]) == if |c| > 0 && x == Merge(c)[|Merge(c)| - 1] then Merge(c) else Merge(c) + [x]
  {
    assert (c + [x])[..|c|] == c;
  }

  /** Merging one more label of c. */
  lemma MergePrefix(c: seq<int>, i: int)
    requires 1 <= i < |c|
    ensures Merge(c[..i + 1]) == if c[i] == Merge(c[..i])[|Merge(c[..i])| - 1] then Merge(c[..i]) else Merge(c[..i]) + [c[i]]
  {
    assert c[..i + 1] == c[..i] + [c[i]];
    MergeSnoc(c[..i], c[i]);
  }

  /** The merged sequence has no repeats. */
  lemma {:induction false} MergeNoRepeats(c: seq<int>)
    ensures NoRepeats(Merge(c))
  {
    if |c| > 1 {
      MergeNoRepeats(c[..|c| - 1]);
    }
  }

  /** Merging keeps exactly the labels that occur. */
  lemma {:induction false} MergeKeepsLabels(c: seq<int>)
    ensures forall x :: x in Merge(c) <==> x in c
  {
    if |c| > 1 {
      var n := |c| - 1;
      MergeKeepsLabels(c[..n]);
      assert c == c[..n] + [c[n]];
      var m := Merge(c[..n]);
      assert c[n] == m[|m| - 1] ==> c[n] in m;
    }
  }

  /** A sequence without repeats is its own merge, so merging is idempotent. */
  lemma {:induction false} MergeOfNoRepeats(c: seq<int>)
    requires NoRepeats(c)
    ensures Merge(c) == c
  {
    if |c| > 1 {
      var n := |c| - 1;
      assert NoRepeats(c[..n]);
      MergeOfNoRepeats(c[..n]);
      assert c == c[..n] + [c[n]];
    }
  }

  /** The labels that are not blank, in order. */
  function Strip(c: seq<int>, blank: int): (r: seq<int>)
    ensures |r| <= |c| && blank !in r
  {
    if |c| == 0 then []
    else Strip(c[..|c| - 1], blank) + if c[|c| - 1] == blank then [] else [c[|c| - 1]]
  }

  /** Stripping keeps exactly the labels other than blank. */
  lemma {:induction false} StripKeepsLabels(c: seq<int>, blank: int)
    ensures forall x :: x in Strip(c, blank) <==> x in c && x != blank
  {
    if |c| > 0 {
      var n := |c| - 1;
      StripKeepsLabels(c[..n], blank);
      assert c == c[..n] + [c[n]];
    }
  }

  /** A sequence without blanks is its own strip. */
  lemma {:induction false} StripOfPlain(c: seq<int>, blank: int)
    requires blank !in c
    ensures Strip(c, blank) == c
  {
    if |c| > 0 {
      var n := |c| - 1;
      assert c == c[..n] + [c[n]];
      StripOfPlain(c[..n], blank);
    }
  }

  /** The decoded label sequence: repeats merged first, blanks removed second. */
  function Collapse(c: seq<int>, blank: int): (r: seq<int>)
    ensures |r| <= |c| && blank !in r
  {
    Strip(Merge(c), blank)
  }

  /** The padded label: a blank first and a blank after every label. */
  function Padded(y: seq<int>, blank: int): (r: seq<int>)
    ensures |r| == 2 * |y| + 1
  {
    if |y| == 0 then [blank] else Padded(y[..|y| - 1], blank) + [y[|y| - 1], blank]
  }

  /** Blanks at the even positions of the padded label, the labels in order at the odd ones. */
  lemma {:induction false} PaddedAt(y: seq<int>, blank: int)
    ensures forall s :: 0 <= s < 2 * |y| + 1 ==> Padded(y, blank)[s] == if s % 2 == 0 then blank else y[s / 2]
  {
    if |y| > 0 {
      var n := |y| - 1;
      PaddedAt(y[..n], blank);
    }
  }

  /** The padded label has no repeats when the labels have no blank. */
  lemma PaddedNoRepeats(y: seq<int>, blank: int)
    requires blank !in y
    ensures NoRepeats(Padded(y, blank))
  {
    var r := Padded(y, blank);
    PaddedAt(y, blank);
    forall k | 0 < k < |r|
      ensures r[k - 1] != r[k]
    {
      if k % 2 == 0 {
        assert y[(k - 1) / 2] in y;
      } else {
        assert y[k / 2] in y;
      }
    }
  }

  /** Stripping a sequence extended by one label. */
  lemma StripSnoc(c: seq<int>, x: int, blank: int)
    ensures Strip(c + [x], blank) == Strip(c, blank) + if x == blank then [] else [x]
  {
    assert (c + [x])[..|c|] == c;
  }

  /** Stripping one more label of c. */
  lemma StripPrefix(c: seq<int>, i: int, blank: int)
    requires 0 <= i < |c|
    ensures Strip(c[..i + 1], blank) == Strip(c[..i], blank) + if c[i] == blank then [] else [c[i]]
  {
    assert c[..i + 1] == c[..i] + [c[i]];
    StripSnoc(c[..i], c[i], blank);
  }

  /** Stripping a label followed by a blank appends the label. */
  lemma StripPair(c: seq<int>, x: int, blank: int)
    requires x != blank
    ensures Strip(c + [x, blank], blank) == Strip(c, blank) + [x]
  {
    assert c + [x, blank] == (c + [x]) + [blank];
    StripSnoc(c + [x], blank, blank);
    StripSnoc(c, x, blank);
  }

  /** Removing the blanks from the padded label gives the labels back. */
  lemma {:induction false} StripPadded(y: seq<int>, blank: int)
    requires blank !in y
    ensures Strip(Padded(y, blank), blank) == y
  {
    if |y| > 0 {
      var n := |y| - 1;
      var y' := y[..n];
      assert y == y' + [y[n]];
      StripPadded(y', blank);
      StripPair(Padded(y', blank), y[n], blank);
    }
  }

  /** The padded label is an alignment that decodes back to the labels. */
  lemma CollapsePadded(y: seq<int>, blank: int)
    requires blank !in y
    ensures Collapse(Padded(y, blank), blank) == y
  {
    PaddedNoRepeats(y, blank);
    MergeOfNoRepeats(Padded(y, blank));
    StripPadded(y, blank);
  }

  // ---------------------------------------------------------------------
  // The transitions and the pruned ranges
  // ---------------------------------------------------------------------

  /** The forward s-2 transition: label[s] is not blank and differs from label[s-2]. */
  predicate Skip(lab: seq<int>, s: int, blank: int)
    requires 0 <= s < |lab|
  {
    s >= 2 && lab[s] != blank && lab[s - 2] != lab[s]
  }

  /** The backward s+2 transition: label[s] is not blank and differs from label[s+2]. */
  predicate SkipBack(lab: seq<int>, s: int, blank: int)
    requires 0 <= s < |lab|
  {
    s + 2 < |lab| && lab[s] != blank && lab[s + 2] != lab[s]
  }

  /** On a padded label, the skip goes from one label to the next exactly when the two labels differ. */
  lemma SkipOnPadded(y: seq<int>, blank: int, s: int)
    requires blank !in y && 0 <= s < 2 * |y| + 1
    ensures Skip(Padded(y, blank), s, blank) <==> s % 2 == 1 && s >= 3 && y[s / 2 - 1] != y[s / 2]
  {
    var r := Padded(y, blank);
    PaddedAt(y, blank);
    if s % 2 == 1 {
      assert y[s / 2] in y;
      if s >= 3 {
        assert (s - 2) / 2 == s / 2 - 1;
      }
    }
  }

  /** On a padded label the backward skip from s is the forward skip into s + 2. */
  lemma SkipMirror(y: seq<int>, blank: int, s: int)
    requires blank !in y && 0 <= s && s + 2 < 2 * |y| + 1
    ensures SkipBack(Padded(y, blank), s, blank) <==> Skip(Padded(y, blank), s + 2, blank)
  {
    var r := Padded(y, blank);
    PaddedAt(y, blank);
    if s % 2 == 1 {
      assert y[s / 2] in y;
      assert y[(s + 2) / 2] in y;
    }
  }

  /** The first entry of row t that can still reach the end of the label in time. */
  function Start(S: int, T: int, t: int): int
  {
    Max(0, S - 2 * (T - t))
  }

  /** One past the last entry of row t reachable from the start of the label. */
  function End(S: int, t: int): int
  {
    Min(S, 2 * (t + 1))
  }

  // ---------------------------------------------------------------------
  // The tables
  // ---------------------------------------------------------------------

  /** The log-scale predictions (T rows of L), the padded label and the blank index. */
  datatype Lattice = Lattice(lp: seq<seq<LogP>>, lab: seq<int>, blank: int)

  /** At least one step, a nonempty label, every label and the blank a column of every row. */
  predicate WellFormed(p: Lattice)
  {
    |p.lp| >= 1 && |p.lab| >= 1 &&
    (forall t :: 0 <= t < |p.lp| ==> 0 <= p.blank < |p.lp[t]|) &&
    (forall t, k :: 0 <= t < |p.lp| && 0 <= k < |p.lab| ==> 0 <= p.lab[k] < |p.lp[t]|)
  }

  /** One cell of either recursion: the logsumexp of up to three predecessors, the third only over a skip. */
  function Combine(a: LogP, b: LogP, c: LogP, skip: bool, f: real -> real): LogP
  {
    var x := LogSumExp(a, b, f);
    if skip then LogSumExp(x, c, f) else x
  }

  /** Row 0 of the forward table: a path starts on the leading blank or on the first label. */
  function FirstAlpha(p: Lattice): (r: seq<LogP>)
    requires WellFormed(p)
    ensures |r| == |p.lab|
  {
    seq(|p.lab|, s requires 0 <= s < |p.lab| =>
      if s == 0 then p.lp[0][p.blank] else if s == 1 then p.lp[0][p.lab[1]] else NegInf)
  }

  /** Forward cell s of row t from row t - 1: stay, advance by one, or skip a blank between distinct labels. */
  function AlphaStep(p: Lattice, f: real -> real, t: int, prev: seq<LogP>, s: int): LogP
    requires WellFormed(p) && 0 <= t < |p.lp| && |prev| == |p.lab| && 0 <= s < |p.lab|
  {
    var b := if s >= 1 then prev[s - 1] else NegInf;
    var c := if s >= 2 then prev[s - 2] else NegInf;
    assert 0 <= p.lab[s] < |p.lp[t]|;
    Times(Combine(prev[s], b, c, Skip(p.lab, s, p.blank), f), p.lp[t][p.lab[s]])
  }

  /** Forward row t >= 1 of ctc_loss: the step inside [Start, End), -INFINITY outside. */
  function NextAlpha(p: Lattice, f: real -> real, t: int, prev: seq<LogP>): (r: seq<LogP>)
    requires WellFormed(p) && 0 <= t < |p.lp| && |prev| == |p.lab|
    ensures |r| == |p.lab|
  {
    var S, T := |p.lab|, |p.lp|;
    seq(S, s requires 0 <= s < S => if s < Start(S, T, t) || s >= End(S, t) then NegInf else AlphaStep(p, f, t, prev, s))
  }

  /** Row t of the forward table of ctc_loss. */
  function AlphaRow(p: Lattice, f: real -> real, t: int): (r: seq<LogP>)
    requires WellFormed(p) && 0 <= t < |p.lp|
    ensures |r| == |p.lab|
    decreases t
  {
    if t == 0 then FirstAlpha(p) else NextAlpha(p, f, t, AlphaRow(p, f, t - 1))
  }

  /** Row t of the forward recursion without pruning. */
  function AlphaFullRow(p: Lattice, f: real -> real, t: int): (r: seq<LogP>)
    requires WellFormed(p) && 0 <= t < |p.lp|
    ensures |r| == |p.lab|
    decreases t
  {
    if t == 0 then FirstAlpha(p)
    else
      var prev := AlphaFullRow(p, f, t - 1);
      seq(|p.lab|, s requires 0 <= s < |p.lab| => AlphaStep(p, f, t, prev, s))
  }

  /** The last row of the backward table: a path ends on the last label or the trailing blank. */
  function LastBeta(p: Lattice): (r: seq<LogP>)
    requires WellFormed(p)
    ensures |r| == |p.lab|
  {
    var S := |p.lab|;
    seq(S, s requires 0 <= s < S => if s == S - 1 || s == S - 2 then Fin(0.0) else NegInf)
  }

  /** Backward cell s of row t from row t + 1, the mirror of AlphaStep. */
  function BetaStep(p: Lattice, f: real -> real, t: int, next: seq<LogP>, s: int): LogP
    requires WellFormed(p) && 0 <= t < |p.lp| - 1 && |next| == |p.lab| && 0 <= s < |p.lab|
  {
    var S, e := |p.lab|, p.lp[t + 1];
    var b := if s + 1 < S then Times(next[s + 1], e[p.lab[s + 1]]) else NegInf;
    var c := if s + 2 < S then Times(next[s + 2], e[p.lab[s + 2]]) else NegInf;
    Combine(Times(next[s], e[p.lab[s]]), b, c, SkipBack(p.lab, s, p.blank), f)
  }

  /** Backward row t < T - 1 of ctc_loss: the step inside [Start, End), -INFINITY outside. */
  function PrevBeta(p: Lattice, f: real -> real, t: int, next: seq<LogP>): (r: seq<LogP>)
    requires WellFormed(p) && 0 <= t < |p.lp| - 1 && |next| == |p.lab|
    ensures |r| == |p.lab|
  {
    var S, T := |p.lab|, |p.lp|;
    seq(S, s requires 0 <= s < S => if s < Start(S, T, t) || s >= End(S, t) then NegInf else BetaStep(p, f, t, next, s))
  }

  /** Row t of the backward table of ctc_loss. */
  function BetaRow(p: Lattice, f: real -> real, t: int): (r: seq<LogP>)
    requires WellFormed(p) && 0 <= t < |p.lp|
    ensures |r| == |p.lab|
    decreases |p.lp| - t
  {
    if t == |p.lp| - 1 then LastBeta(p) else PrevBeta(p, f, t, BetaRow(p, f, t + 1))
  }

  /** Row t of the backward recursion without pruning. */
  function BetaFullRow(p: Lattice, f: real -> real, t: int): (r: seq<LogP>)
    requires WellFormed(p) && 0 <= t < |p.lp|
    ensures |r| == |p.lab|
    decreases |p.lp| - t
  {
    if t == |p.lp| - 1 then LastBeta(p)
    else
      var next := BetaFullRow(p, f, t + 1);
      seq(|p.lab|, s requires 0 <= s < |p.lab| => BetaStep(p, f, t, next, s))
  }

  /** Two label positions per step at most: entries from 2(t+1) on are unreachable from the start. */
  lemma {:induction false} AlphaFullUnreachable(p: Lattice, f: real -> real, t: int)
    requires WellFormed(p) && 0 <= t < |p.lp|
    ensures forall s :: 2 * (t + 1) <= s < |p.lab| ==> AlphaFullRow(p, f, t)[s] == NegInf
  {
    if t > 0 {
      AlphaFullUnreachable(p, f, t - 1);
    }
  }

  /** Entries before S - 2(T - t) cannot reach the end of the label in the steps left. */
  lemma {:induction false} BetaFullUnfinishable(p: Lattice, f: real -> real, t: int)
    requires WellFormed(p) && 0 <= t < |p.lp|
    ensures forall s :: 0 <= s < |p.lab| - 2 * (|p.lp| - t) ==> BetaFullRow(p, f, t)[s] == NegInf
    decreases |p.lp| - t
  {
    if t < |p.lp| - 1 {
      BetaFullUnfinishable(p, f, t + 1);
    }
  }

  /** Pruning leaves every forward entry from Start on as the full recursion has it. */
  lemma {:induction false} AlphaPruned(p: Lattice, f: real -> real, t: int)
    requires WellFormed(p) && 0 <= t < |p.lp|
    ensures forall s :: Start(|p.lab|, |p.lp|, t) <= s < |p.lab| ==> AlphaRow(p, f, t)[s] == AlphaFullRow(p, f, t)[s]
  {
    var S, T := |p.lab|, |p.lp|;
    if t > 0 {
      AlphaPruned(p, f, t - 1);
      AlphaFullUnreachable(p, f, t);
      var prev, prevFull := AlphaRow(p, f, t - 1), AlphaFullRow(p, f, t - 1);
      forall s | Start(S, T, t) <= s < End(S, t)
        ensures AlphaStep(p, f, t, prev, s) == AlphaStep(p, f, t, prevFull, s)
      {
        assert prev[s] == prevFull[s];
        assert s >= 1 ==> prev[s - 1] == prevFull[s - 1];
        assert s >= 2 ==> prev[s - 2] == prevFull[s - 2];
      }
    }
  }

  /** Pruning leaves every backward entry before End as the full recursion has it. */
  lemma {:induction false} BetaPruned(p: Lattice, f: real -> real, t: int)
    requires WellFormed(p) && 0 <= t < |p.lp|
    ensures forall s :: 0 <= s < End(|p.lab|, t) ==> BetaRow(p, f, t)[s] == BetaFullRow(p, f, t)[s]
    decreases |p.lp| - t
  {
    var S, T := |p.lab|, |p.lp|;
    if t < T - 1 {
      BetaPruned(p, f, t + 1);
      BetaFullUnfinishable(p, f, t);
      var next, nextFull := BetaRow(p, f, t + 1), BetaFullRow(p, f, t + 1);
      forall s | Start(S, T, t) <= s < End(S, t)
        ensures BetaStep(p, f, t, next, s) == BetaStep(p, f, t, nextFull, s)
      {
        assert next[s] == nextFull[s];
        assert s + 1 < S ==> next[s + 1] == nextFull[s + 1];
        assert s + 2 < S ==> next[s + 2] == nextFull[s + 2];
      }
    }
  }

  /** Entry by entry products of two rows in log scale. */
  function Products(a: seq<LogP>, b: seq<LogP>): (r: seq<LogP>)
    requires |a| == |b|
    ensures |r| == |a| && forall s :: 0 <= s < |a| ==> r[s] == Times(a[s], b[s])
  {
    seq(|a|, s requires 0 <= s < |a| => Times(a[s], b[s]))
  }

  /** The mass through each label position at step t. */
  function Through(p: Lattice, f: real -> real, t: int): (r: seq<LogP>)
    requires WellFormed(p) && 0 <= t < |p.lp|
    ensures |r| == |p.lab|
  {
    Products(AlphaRow(p, f, t), BetaRow(p, f, t))
  }

  /** Pruning is exact: every position carries the mass of the unpruned tables. */
  lemma PruningExact(p: Lattice, f: real -> real, t: int)
    requires WellFormed(p) && 0 <= t < |p.lp|
    ensures Through(p, f, t) == Products(AlphaFullRow(p, f, t), BetaFullRow(p, f, t))
  {
    AlphaPruned(p, f, t);
    BetaPruned(p, f, t);
    AlphaFullUnreachable(p, f, t);
    BetaFullUnfinishable(p, f, t);
  }

  /** The logsumexp of the first n terms, over the positions holding label l, or (None) over all. */
  function Mass(terms: seq<LogP>, lab: seq<int>, l: Option<int>, n: int, f: real -> real): LogP
    requires |terms| == |lab| && 0 <= n <= |lab|
  {
    if n == 0 then NegInf
    else
      var m := Mass(terms, lab, l, n - 1, f);
      if l.None? || l.value == lab[n - 1] then LogSumExp(m, terms[n - 1], f) else m
  }

  /** The probability of the label at step t (Equation 7.23 of Graves' thesis, in log scale). */
  function Prob(p: Lattice, f: real -> real, t: int): LogP
    requires WellFormed(p) && 0 <= t < |p.lp|
  {
    Mass(Through(p, f, t), p.lab, None, |p.lab|, f)
  }

  /** When no position carries mass, no label does. */
  lemma {:induction false} MassOfLabelBelow(terms: seq<LogP>, lab: seq<int>, l: int, n: int, f: real -> real)
    requires |terms| == |lab| && 0 <= n <= |lab| && Mass(terms, lab, None, n, f).NegInf?
    ensures Mass(terms, lab, Some(l), n, f).NegInf?
  {
    if n > 0 {
      MassOfLabelBelow(terms, lab, l, n - 1, f);
    }
  }

  /** A label absent from the padded label carries no mass. */
  lemma {:induction false} MassOfAbsentLabel(terms: seq<LogP>, lab: seq<int>, l: int, n: int, f: real -> real)
    requires |terms| == |lab| && 0 <= n <= |lab| && l !in lab
    ensures Mass(terms, lab, Some(l), n, f) == NegInf
  {
    if n > 0 {
      MassOfAbsentLabel(terms, lab, l, n - 1, f);
    }
  }

  /** The probabilities of all steps. */
  function Probs(p: Lattice, f: real -> real): (r: seq<LogP>)
    requires WellFormed(p)
    ensures |r| == |p.lp| && forall t :: 0 <= t < |p.lp| ==> r[t] == Prob(p, f, t)
  {
    seq(|p.lp|, t requires 0 <= t < |p.lp| => Prob(p, f, t))
  }

  /** The sum of the first n negated probabilities; INFINITY once one of them is -INFINITY. */
  function NegSum(probs: seq<LogP>, n: int): LossValue
    requires 0 <= n <= |probs|
  {
    if n == 0 then Finite(0.0)
    else
      var acc := NegSum(probs, n - 1);
      if acc.Infinite? || probs[n - 1].NegInf? then Infinite else Finite(acc.v - probs[n - 1].v)
  }

  /** The loss: the mean negated log probability over the steps. */
  function LossOf(probs: seq<LogP>): LossValue
    requires |probs| > 0
  {
    var acc := NegSum(probs, |probs|);
    if acc.Infinite? then Infinite else Finite(acc.v / |probs| as real)
  }

  /** The loss is infinite exactly when some step gives the label probability 0. */
  lemma LossInfinite(probs: seq<LogP>)
    requires |probs| > 0
    ensures LossOf(probs).Infinite? <==> NegInf in probs
  {
    SumInfinite(probs, |probs|);
    assert probs[..|probs|] == probs;
  }

  /** The running sum is infinite exactly when one of its terms is -INFINITY. */
  lemma {:induction false} SumInfinite(probs: seq<LogP>, n: int)
    requires 0 <= n <= |probs|
    ensures NegSum(probs, n).Infinite? <==> NegInf in probs[..n]
  {
    if n > 0 {
      SumInfinite(probs, n - 1);
      assert probs[..n] == probs[..n - 1] + [probs[n - 1]];
    }
  }

  /** A finite loss is the mean of the negated log probabilities. */
  lemma {:induction false} SumFinite(probs: seq<LogP>, n: int)
    requires 0 <= n <= |probs| && NegInf !in probs
    ensures NegSum(probs, n) == Finite(-SumOf(probs, n))
  {
    if n > 0 {
      assert probs[n - 1] in probs;
      SumFinite(probs, n - 1);
    }
  }

  /** The sum of the first n finite values. */
  function SumOf(probs: seq<LogP>, n: int): real
    requires 0 <= n <= |probs| && NegInf !in probs
  {
    if n == 0 then 0.0 else SumOf(probs, n - 1) + (assert probs[n - 1] in probs; probs[n - 1].v)
  }

  /** exp of a log-scale value: 0 for -INFINITY. */
  function ExpOf(a: LogP, exp: real -> real): real
  {
    if a.NegInf? then 0.0 else exp(a.v)
  }

  /**
   * Entry (t, l) of the gradient (Equation 7.29): the predicted probability
   * minus the share of the label probability passing through label l. When
   * the probability of step t is -INFINITY the float difference is NaN: None.
   */
  function Grad(p: Lattice, f: real -> real, exp: real -> real, t: int, l: int): Option<real>
    requires WellFormed(p) && 0 <= t < |p.lp| && 0 <= l < |p.lp[t]|
  {
    GradEntry(p.lp[t][l], Mass(Through(p, f, t), p.lab, Some(l), |p.lab|, f), Prob(p, f, t), exp)
  }

  /** expf(y) - expf(sum - prob) in log scale; NaN (None) when prob is -INFINITY. */
  function GradEntry(y: LogP, sum: LogP, prob: LogP, exp: real -> real): Option<real>
  {
    if prob.NegInf? then None
    else Some(ExpOf(y, exp) - ExpOf(if sum.NegInf? then NegInf else Fin(sum.v - prob.v), exp))
  }

  /** The gradient is NaN exactly at steps of probability 0; a label absent from the padded label gets the predicted probability. */
  lemma GradCases(p: Lattice, f: real -> real, exp: real -> real, t: int, l: int)
    requires WellFormed(p) && 0 <= t < |p.lp| && 0 <= l < |p.lp[t]|
    ensures Grad(p, f, exp, t, l).None? <==> Prob(p, f, t).NegInf?
    ensures l !in p.lab && Prob(p, f, t).Fin? ==> Grad(p, f, exp, t, l) == Some(ExpOf(p.lp[t][l], exp))
  {
    if l !in p.lab {
      MassOfAbsentLabel(Through(p, f, t), p.lab, l, |p.lab|, f);
    }
  }

  // ---------------------------------------------------------------------
  // The batch as ctc_loss sees it
  // ---------------------------------------------------------------------

  /** The first T rows of predictions in log scale. */
  function LogTable(y: Mat, T: int, ln: real -> LogP): (lp: seq<seq<LogP>>)
    requires 0 <= T <= |y|
    ensures |lp| == T && forall i :: 0 <= i < T ==> |lp[i]| == |y[i]|
  {
    seq(T, i requires 0 <= i < T => seq(|y[i]|, j requires 0 <= j < |y[i]| => ln(y[i][j])))
  }

  /** The arg-max of each of the first T rows. */
  function ArgMaxes(y: Mat, T: int): (c: seq<int>)
    requires 0 <= T <= |y|
    ensures |c| == T && forall i :: 0 <= i < T ==> 0 <= c[i] < Max(1, |y[i]|)
  {
    seq(T, i requires 0 <= i < T => FirstArgMax(y[i], |y[i]|) as int)
  }

  /** The label sequence ctc_loss decodes from T rows: arg-max per row, repeats merged, blanks removed. */
  function Decoded(y: Mat, T: int, blank: int): seq<int>
    requires 0 <= T <= |y|
  {
    Collapse(ArgMaxes(y, T), blank)
  }

  /** The lattice of a batch: log predictions and the padded decoded truth. */
  function LatticeOf(yp: Mat, yt: Mat, T: int, blank: int, ln: real -> LogP): Lattice
    requires 0 <= T <= |yp| && T <= |yt|
  {
    Lattice(LogTable(yp, T, ln), Padded(Decoded(yt, T, blank), blank), blank)
  }

  /** Every decoded label is a column index, so the lattice of a nonempty batch is well formed. */
  lemma LatticeWellFormed(yp: Mat, yt: Mat, T: int, L: nat, blank: int, ln: real -> LogP)
    requires 1 <= T && IsMat(yp, |yp|, L) && IsMat(yt, |yt|, L) && T <= |yp| && T <= |yt| && 0 <= blank < L
    ensures WellFormed(LatticeOf(yp, yt, T, blank, ln))
  {
    var c := ArgMaxes(yt, T);
    var y := Decoded(yt, T, blank);
    MergeKeepsLabels(c);
    StripKeepsLabels(Merge(c), blank);
    PaddedAt(y, blank);
    var p := LatticeOf(yp, yt, T, blank, ln);
    forall k | 0 <= k < |p.lab|
      ensures 0 <= p.lab[k] < L
    {
      if k % 2 == 1 {
        assert y[k / 2] in y;
        var i :| 0 <= i < T && c[i] == y[k / 2];
      }
    }
  }

  /** The buffers ctc_loss fills from a nonempty batch hold its lattice. */
  lemma LatticeFits(yp: Mat, yt: Mat, T: int, L: nat, blank: int, ln: real -> LogP, a: array2<LogP>, lab: array<int>, S: int)
    requires 1 <= T && IsMat(yp, |yp|, L) && IsMat(yt, |yt|, L) && T <= |yp| && T <= |yt| && 0 <= blank < L
    requires Mirrors(a, LogTable(yp, T, ln)) && 0 <= S <= lab.Length && lab[..S] == Padded(Decoded(yt, T, blank), blank)
    ensures Fits(LatticeOf(yp, yt, T, blank, ln), a, lab, S, T, blank)
  {
    LatticeWellFormed(yp, yt, T, L, blank, ln);
    forall k | 0 <= k < S
      ensures lab[k] == lab[..S][k]
    {
    }
  }

  /** The array holds the log table. */
  ghost predicate Mirrors(a: array2<LogP>, lp: seq<seq<LogP>>)
    reads a
  {
    |lp| <= a.Length0 && (forall i :: 0 <= i < |lp| ==> |lp[i]| == a.Length1) &&
    forall i, j :: 0 <= i < |lp| && 0 <= j < a.Length1 ==> a[i, j] == lp[i][j]
  }

  /** The CTC context: the buffers ctc_create allocates and ctc_loss fills. */
  class Context {
    const T: int
    const L: int
    const blank: int
    const yp: array2<LogP>
    const ypc: array<int>
    var ypclen: int
    const ytc: array<int>
    var ytclen: int
    const padded: array<int>
    var S: int
    const alpha: array2<LogP>
    const beta: array2<LogP>
    const prob: array<LogP>

    ghost predicate Valid()
      reads this
    {
      T >= 0 && L >= 1 && 0 <= blank < L &&
      yp.Length0 == T && yp.Length1 == L && ypc.Length == T && ytc.Length == T && padded.Length == 2 * T + 1 &&
      alpha.Length0 == T && alpha.Length1 == 2 * T + 1 && beta.Length0 == T && beta.Length1 == 2 * T + 1 &&
      prob.Length == T && ypc != ytc && ypc != padded && ytc != padded && alpha != beta && yp != alpha && yp != beta &&
      0 <= ypclen <= T && 0 <= ytclen <= T && 1 <= S <= 2 * T + 1
    }

    /** The tables hold lattice p over its T steps. */
    ghost predicate Holds(p: Lattice, f: real -> real)
      reads this, yp, padded, alpha, beta, prob
      requires Valid()
    {
      |p.lp| <= T && p.blank == blank && TablesHold(p, f, yp, padded, S, alpha, beta, prob)
    }

    /**
     * ctc_create: buffers for up to T steps of L classes, with the padded
     * label sized 2T+1 and the tables T by 2T+1, all zero.
     */
    constructor (T: int, L: int, blank: int)
      requires T >= 0 && L >= 1 && 0 <= blank < L
      ensures Valid() && this.T == T && this.L == L && this.blank == blank && S == 2 * T + 1
      ensures ypclen == 0 && ytclen == 0
      ensures fresh(yp) && fresh(ypc) && fresh(ytc) && fresh(padded) && fresh(alpha) && fresh(beta) && fresh(prob)
    {
      this.T, this.L, this.blank := T, L, blank;
      S := 2 * T + 1;
      yp := new LogP[T, L]((_, _) => Fin(0.0));
      ypc := new int[T];
      ytc := new int[T];
      padded := new int[2 * T + 1];
      alpha := new LogP[T, 2 * T + 1]((_, _) => Fin(0.0));
      beta := new LogP[T, 2 * T + 1]((_, _) => Fin(0.0));
      prob := new LogP[T](_ => Fin(0.0));
      ypclen, ytclen := 0, 0;
    }

    /**
     * ctc_loss over the first T rows: INFINITY for T = 0; otherwise store
     * the log predictions, decode both label sequences, build the padded
     * label, fill the pruned tables and the per-step probabilities, and
     * return the mean negated log probability.
     */
    method Loss(yp_: array2<real>, yt_: array2<real>, T: int, L: int, ln: real -> LogP, f: real -> real,
                ghost Yp: Mat, ghost Yt: Mat)
      returns (loss: LossValue)
      requires Valid() && 0 <= T <= this.T && L == this.L
      requires T <= yp_.Length0 && yp_.Length1 == L && T <= yt_.Length0 && yt_.Length1 == L
      requires IsMat(Yp, yp_.Length0, L) && forall i, j :: 0 <= i < T && 0 <= j < L ==> Yp[i][j] == yp_[i, j]
      requires IsMat(Yt, yt_.Length0, L) && forall i, j :: 0 <= i < T && 0 <= j < L ==> Yt[i][j] == yt_[i, j]
      modifies this, yp, ypc, ytc, padded, alpha, beta, prob
      ensures Valid()
      ensures T == 0 ==> loss == Infinite && S == old(S) && ypclen == old(ypclen) && ytclen == old(ytclen)
      ensures T > 0 ==> ypc[..ypclen] == Decoded(Yp, T, blank) && ytc[..ytclen] == Decoded(Yt, T, blank)
      ensures T > 0 ==> Holds(LatticeOf(Yp, Yt, T, blank, ln), f)
      ensures T > 0 ==> loss == LossOf(Probs(LatticeOf(Yp, Yt, T, blank, ln), f))
    {
      if T == 0 {
        return Infinite;
      }
      var pn, tn, sn;
      pn, tn, sn, loss := LossInto(yp_, yt_, T, L, blank, ln, f, yp, ypc, ytc, padded, alpha, beta, prob, Yp, Yt);
      SetLengths(pn, tn, sn);
    }

    /** Record the lengths of both decoded sequences and of the padded label. */
    method SetLengths(pn: int, tn: int, sn: int)
      requires Valid() && 0 <= pn <= T && 0 <= tn <= T && 1 <= sn <= 2 * T + 1
      modifies this
      ensures Valid() && ypclen == pn && ytclen == tn && S == sn
    {
      ypclen, ytclen, S := pn, tn, sn;
    }

    /**
     * dLdy_ctc_loss over the tables of the last ctc_loss: entry (t, l) is
     * exp(yp[t][l]) - exp(mass through l - prob[t]); NaN (None) where prob[t]
     * is -INFINITY.
     */
    method Gradient(dy: array2<Option<real>>, T: int, L: int, f: real -> real, exp: real -> real, ghost p: Lattice)
      requires Valid() && Holds(p, f) && |p.lp| == T && L == this.L
      requires T <= dy.Length0 && L <= dy.Length1
      modifies dy
      ensures forall t, l :: 0 <= t < T && 0 <= l < L ==> dy[t, l] == Grad(p, f, exp, t, l)
    {
      assert padded[..S] == p.lab;
      var t := 0;
      while t < T
        invariant 0 <= t <= T
        invariant forall i, l :: 0 <= i < t && 0 <= l < L ==> dy[i, l] == Grad(p, f, exp, i, l)
      {
        GradientRow(dy, yp, alpha, beta, padded, prob, S, t, L, f, exp, p);
        t := t + 1;
      }
    }

    /** ctc_accuracy over the sequences the last ctc_loss decoded. */
    method Accuracy(T: int) returns (acc: real)
      requires Valid()
      ensures acc == AccuracyOf(ypc[..ypclen], ytc[..ytclen], T)
    {
      var fact := Max(ypclen, ytclen);
      if fact == 0 {
        return T as real;
      }
      var pc := Prefix(ypc, ypclen);
      var tc := Prefix(ytc, ytclen);
      var dist := EditDistance(pc, tc);
      acc := (1.0 - dist as real / fact as real) * T as real;
    }
  }

  /** The buffers hold lattice p: its log table and padded label, both tables and the probability of each step. */
  ghost predicate TablesHold(p: Lattice, f: real -> real, yp: array2<LogP>, lab: array<int>, S: int,
                             alpha: array2<LogP>, beta: array2<LogP>, prob: array<LogP>)
    reads yp, lab, alpha, beta, prob
  {
    Fits(p, yp, lab, S, |p.lp|, p.blank) && |p.lp| <= alpha.Length0 && |p.lp| <= beta.Length0 &&
    S <= alpha.Length1 && S <= beta.Length1 && |p.lp| <= prob.Length &&
    (forall t :: 0 <= t < |p.lp| ==> RowHolds(alpha, t, AlphaRow(p, f, t)) && RowHolds(beta, t, BetaRow(p, f, t))) &&
    forall t :: 0 <= t < |p.lp| ==> prob[t] == Prob(p, f, t)
  }

  /**
   * The first part of ctc_loss for T >= 1: the log predictions, both decoded
   * sequences (their lengths are returned) and the padded label (its length
   * is returned).
   */
  method Prepare(yp_: array2<real>, yt_: array2<real>, T: int, L: nat, blank: int, ln: real -> LogP,
                 yp: array2<LogP>, ypc: array<int>, ytc: array<int>, padded: array<int>, ghost Yp: Mat, ghost Yt: Mat)
    returns (pn: int, tn: int, S: int)
    requires 1 <= T <= yp_.Length0 && yp_.Length1 == L && T <= yt_.Length0 && yt_.Length1 == L && 0 <= blank < L
    requires IsMat(Yp, yp_.Length0, L) && forall i, j :: 0 <= i < T && 0 <= j < L ==> Yp[i][j] == yp_[i, j]
    requires IsMat(Yt, yt_.Length0, L) && forall i, j :: 0 <= i < T && 0 <= j < L ==> Yt[i][j] == yt_[i, j]
    requires T <= yp.Length0 && yp.Length1 == L && T <= ypc.Length && T <= ytc.Length && 2 * T + 1 <= padded.Length
    requires ypc != ytc && ypc != padded && ytc != padded
    modifies yp, ypc, ytc, padded
    ensures 0 <= pn <= T && 0 <= tn <= T && 1 <= S <= 2 * T + 1
    ensures ypc[..pn] == Decoded(Yp, T, blank) && ytc[..tn] == Decoded(Yt, T, blank)
    ensures Fits(LatticeOf(Yp, Yt, T, blank, ln), yp, padded, S, T, blank)
  {
    LogInto(yp_, T, yp, ln, Yp);
    pn, tn := DecodeBoth(yp_, yt_, T, L, blank, ypc, ytc, Yp, Yt);
    S := BuildPadded(padded, ytc, tn, T, blank);
    LatticeFits(Yp, Yt, T, L, blank, ln, yp, padded, S);
  }

  /** Both decoded label sequences and their lengths. */
  method DecodeBoth(yp_: array2<real>, yt_: array2<real>, T: int, L: nat, blank: int, ypc: array<int>, ytc: array<int>,
                    ghost Yp: Mat, ghost Yt: Mat)
    returns (pn: int, tn: int)
    requires 1 <= T <= yp_.Length0 && yp_.Length1 == L && T <= yt_.Length0 && yt_.Length1 == L
    requires IsMat(Yp, yp_.Length0, L) && forall i, j :: 0 <= i < T && 0 <= j < L ==> Yp[i][j] == yp_[i, j]
    requires IsMat(Yt, yt_.Length0, L) && forall i, j :: 0 <= i < T && 0 <= j < L ==> Yt[i][j] == yt_[i, j]
    requires T <= ypc.Length && T <= ytc.Length && ypc != ytc
    modifies ypc, ytc
    ensures 0 <= pn <= T && 0 <= tn <= T
    ensures ypc[..pn] == Decoded(Yp, T, blank) && ytc[..tn] == Decoded(Yt, T, blank)
  {
    pn := DecodeLabels(yp_, T, ypc, blank, Yp);
    tn := DecodeLabels(yt_, T, ytc, blank, Yt);
  }

  /**
   * The whole of ctc_loss for T >= 1 over the given buffers: returns the
   * lengths of both decoded sequences, the length of the padded label and
   * the loss.
   */
  method LossInto(yp_: array2<real>, yt_: array2<real>, T: int, L: nat, blank: int, ln: real -> LogP, f: real -> real,
                  yp: array2<LogP>, ypc: array<int>, ytc: array<int>, padded: array<int>,
                  alpha: array2<LogP>, beta: array2<LogP>, prob: array<LogP>, ghost Yp: Mat, ghost Yt: Mat)
    returns (pn: int, tn: int, S: int, loss: LossValue)
    requires 1 <= T <= yp_.Length0 && yp_.Length1 == L && T <= yt_.Length0 && yt_.Length1 == L && 0 <= blank < L
    requires IsMat(Yp, yp_.Length0, L) && forall i, j :: 0 <= i < T && 0 <= j < L ==> Yp[i][j] == yp_[i, j]
    requires IsMat(Yt, yt_.Length0, L) && forall i, j :: 0 <= i < T && 0 <= j < L ==> Yt[i][j] == yt_[i, j]
    requires T <= yp.Length0 && yp.Length1 == L && T <= ypc.Length && T <= ytc.Length && 2 * T + 1 <= padded.Length
    requires ypc != ytc && ypc != padded && ytc != padded && alpha != yp && beta != yp && alpha != beta
    requires T <= alpha.Length0 && 2 * T + 1 <= alpha.Length1 && T <= beta.Length0 && 2 * T + 1 <= beta.Length1 && T <= prob.Length
    modifies yp, ypc, ytc, padded, alpha, beta, prob
    ensures 0 <= pn <= T && 0 <= tn <= T && 1 <= S <= 2 * T + 1
    ensures ypc[..pn] == Decoded(Yp, T, blank) && ytc[..tn] == Decoded(Yt, T, blank)
    ensures TablesHold(LatticeOf(Yp, Yt, T, blank, ln), f, yp, padded, S, alpha, beta, prob)
    ensures loss == LossOf(Probs(LatticeOf(Yp, Yt, T, blank, ln), f))
  {
    ghost var p := LatticeOf(Yp, Yt, T, blank, ln);
    pn, tn, S := Prepare(yp_, yt_, T, L, blank, ln, yp, ypc, ytc, padded, Yp, Yt);
    loss := Score(yp, padded, alpha, beta, prob, S, T, blank, f, p);
  }

  /** Both tables and the step probabilities filled, then the loss summed from them. */
  method Score(yp: array2<LogP>, lab: array<int>, alpha: array2<LogP>, beta: array2<LogP>, prob: array<LogP>,
               S: int, T: int, blank: int, f: real -> real, ghost p: Lattice) returns (loss: LossValue)
    requires Fits(p, yp, lab, S, T, blank) && alpha != yp && beta != yp && alpha != beta && 1 <= T
    requires T <= alpha.Length0 && S <= alpha.Length1 && 2 <= alpha.Length1 && T <= beta.Length0 && S <= beta.Length1 && T <= prob.Length
    modifies alpha, beta, prob
    ensures TablesHold(p, f, yp, lab, S, alpha, beta, prob)
    ensures loss == LossOf(Probs(p, f))
  {
    FillTables(yp, lab, alpha, beta, prob, S, T, blank, f, p);
    loss := LossSum(prob, T);
    assert prob[..T] == Probs(p, f);
  }

  /** Row t of the gradient, from row t of both tables and the probability of step t. */
  method GradientRow(dy: array2<Option<real>>, yp: array2<LogP>, alpha: array2<LogP>, beta: array2<LogP>, lab: array<int>,
                     prob: array<LogP>, S: int, t: int, L: int, f: real -> real, exp: real -> real, ghost p: Lattice)
    requires WellFormed(p) && 0 <= t < |p.lp| && S == |p.lab| && S <= lab.Length && lab[..S] == p.lab
    requires t < alpha.Length0 && t < beta.Length0 && S <= alpha.Length1 && S <= beta.Length1
    requires RowHolds(alpha, t, AlphaRow(p, f, t)) && RowHolds(beta, t, BetaRow(p, f, t))
    requires t < prob.Length && prob[t] == Prob(p, f, t)
    requires t < yp.Length0 && L == yp.Length1 == |p.lp[t]| && forall l :: 0 <= l < L ==> yp[t, l] == p.lp[t][l]
    requires t < dy.Length0 && L <= dy.Length1
    modifies dy
    ensures forall l :: 0 <= l < L ==> dy[t, l] == Grad(p, f, exp, t, l)
    ensures forall i, l :: 0 <= i < dy.Length0 && 0 <= l < dy.Length1 && i != t ==> dy[i, l] == old(dy[i, l])
  {
    var l := 0;
    while l < L
      invariant 0 <= l <= L
      invariant forall k :: 0 <= k < l ==> dy[t, k] == Grad(p, f, exp, t, k)
      invariant forall i, k :: 0 <= i < dy.Length0 && 0 <= k < dy.Length1 && i != t ==> dy[i, k] == old(dy[i, k])
    {
      GradientCell(dy, yp, alpha, beta, lab, prob, S, t, l, f, exp, p);
      l := l + 1;
    }
  }

  /** Entry (t, l) of the gradient. */
  method GradientCell(dy: array2<Option<real>>, yp: array2<LogP>, alpha: array2<LogP>, beta: array2<LogP>, lab: array<int>,
                      prob: array<LogP>, S: int, t: int, l: int, f: real -> real, exp: real -> real, ghost p: Lattice)
    requires WellFormed(p) && 0 <= t < |p.lp| && S == |p.lab| && S <= lab.Length && lab[..S] == p.lab
    requires t < alpha.Length0 && t < beta.Length0 && S <= alpha.Length1 && S <= beta.Length1
    requires RowHolds(alpha, t, AlphaRow(p, f, t)) && RowHolds(beta, t, BetaRow(p, f, t))
    requires t < prob.Length && prob[t] == Prob(p, f, t)
    requires t < yp.Length0 && yp.Length1 == |p.lp[t]| && 0 <= l < yp.Length1 && yp[t, l] == p.lp[t][l]
    requires t < dy.Length0 && l < dy.Length1
    modifies dy
    ensures dy[t, l] == Grad(p, f, exp, t, l)
    ensures forall i, k :: 0 <= i < dy.Length0 && 0 <= k < dy.Length1 && (i != t || k != l) ==> dy[i, k] == old(dy[i, k])
  {
    var sum := MassAt(alpha, beta, lab, t, S, Some(l), f, Through(p, f, t));
    dy[t, l] := GradEntry(yp[t, l], sum, prob[t], exp);
  }

  /** A fresh array holding the first n entries of a. */
  method Prefix(a: array<int>, n: int) returns (b: array<int>)
    requires 0 <= n <= a.Length
    ensures fresh(b) && b[..] == a[..n]
  {
    b := new int[n];
    var i := 0;
    while i < n
      invariant 0 <= i <= n
      invariant forall k :: 0 <= k < i ==> b[k] == a[k]
    {
      b[i] := a[i];
      i := i + 1;
    }
  }

  /** The log of the first T rows, entry by entry. */
  method LogInto(src: array2<real>, T: int, dst: array2<LogP>, ln: real -> LogP, ghost m: Mat)
    requires 0 <= T <= src.Length0 && T <= dst.Length0 && src.Length1 == dst.Length1
    requires IsMat(m, src.Length0, src.Length1) && forall i, j :: 0 <= i < T && 0 <= j < src.Length1 ==> m[i][j] == src[i, j]
    modifies dst
    ensures Mirrors(dst, LogTable(m, T, ln))
  {
    var i := 0;
    while i < T
      invariant 0 <= i <= T
      invariant forall r, j :: 0 <= r < i && 0 <= j < dst.Length1 ==> dst[r, j] == ln(src[r, j])
    {
      var j := 0;
      while j < dst.Length1
        invariant 0 <= j <= dst.Length1
        invariant forall r, k :: 0 <= r < i && 0 <= k < dst.Length1 ==> dst[r, k] == ln(src[r, k])
        invariant forall k :: 0 <= k < j ==> dst[i, k] == ln(src[i, k])
      {
        dst[i, j] := ln(src[i, j]);
        j := j + 1;
      }
      i := i + 1;
    }
  }

  /** Decode T rows into c, merge the repeats and remove the blanks, in place; the length of the result. */
  method DecodeLabels(y: array2<real>, T: int, c: array<int>, blank: int, ghost m: Mat) returns (len: int)
    requires 1 <= T <= y.Length0 && T <= c.Length
    requires IsMat(m, y.Length0, y.Length1) && forall i, j :: 0 <= i < T && 0 <= j < y.Length1 ==> m[i][j] == y[i, j]
    modifies c
    ensures 0 <= len <= T && c[..len] == Decoded(m, T, blank)
  {
    var i := 0;
    while i < T
      invariant 0 <= i <= T
      invariant forall k :: 0 <= k < i ==> c[k] == FirstArgMax(m[k], |m[k]|)
    {
      c[i] := RowArgMax(y, i);
      assert RowOf(y, i) == m[i];
      i := i + 1;
    }
    assert c[..T] == ArgMaxes(m, T);
    var n := MergeInPlace(c, T);
    len := StripInPlace(c, n, blank);
  }

  /** The first loop over a decoded sequence: each label unequal to the last kept one is kept. */
  method MergeInPlace(c: array<int>, n: int) returns (len: int)
    requires 1 <= n <= c.Length
    modifies c
    ensures 1 <= len <= n && c[..len] == Merge(old(c[..n]))
  {
    ghost var c0 := c[..n];
    var j := 0;
    var i := 1;
    assert c0[..1] == [c0[0]];
    while i < n
      invariant 1 <= i <= n && 0 <= j < i
      invariant c[..j + 1] == Merge(c0[..i])
      invariant forall k :: i <= k < n ==> c[k] == c0[k]
    {
      j := MergeStep(c, i, j, c0);
      i := i + 1;
    }
    assert c0[..n] == c0;
    len := j + 1;
  }

  /** One step of the merge loop: c[i] is kept after c[j] unless it repeats it. */
  method MergeStep(c: array<int>, i: int, j: int, ghost c0: seq<int>) returns (j': int)
    requires 0 <= j < i < |c0| <= c.Length
    requires c[..j + 1] == Merge(c0[..i]) && c[i] == c0[i]
    modifies c
    ensures j <= j' <= j + 1 && j' <= i
    ensures c[..j' + 1] == Merge(c0[..i + 1])
    ensures forall k :: i < k < c.Length ==> c[k] == old(c[k])
  {
    MergePrefix(c0, i);
    ghost var m := c[..j + 1];
    assert m[j] == c[j];
    j' := j;
    if c[i] != c[j] {
      j' := j + 1;
      c[j'] := c[i];
      assert c[..j' + 1] == m + [c0[i]];
    }
  }

  /** The second loop: every label other than blank is moved down, in order. */
  method StripInPlace(c: array<int>, n: int, blank: int) returns (len: int)
    requires 0 <= n <= c.Length
    modifies c
    ensures 0 <= len <= n && c[..len] == Strip(old(c[..n]), blank)
  {
    ghost var c0 := c[..n];
    var j := 0;
    var i := 0;
    while i < n
      invariant 0 <= j <= i <= n
      invariant c[..j] == Strip(c0[..i], blank)
      invariant forall k :: i <= k < n ==> c[k] == c0[k]
    {
      j := StripStep(c, i, j, blank, c0);
      i := i + 1;
    }
    assert c0[..n] == c0;
    len := j;
  }

  /** One step of the strip loop: c[i] moves down to c[j] unless it is the blank. */
  method StripStep(c: array<int>, i: int, j: int, blank: int, ghost c0: seq<int>) returns (j': int)
    requires 0 <= j <= i < |c0| <= c.Length
    requires c[..j] == Strip(c0[..i], blank) && c[i] == c0[i]
    modifies c
    ensures j <= j' <= j + 1 && j' <= i + 1
    ensures c[..j'] == Strip(c0[..i + 1], blank)
    ensures forall k :: i < k < c.Length ==> c[k] == old(c[k])
  {
    StripPrefix(c0, i, blank);
    ghost var r := c[..j];
    j' := j;
    if c[i] != blank {
      c[j] := c[i];
      assert c[..j + 1] == r + [c0[i]];
      j' := j + 1;
    }
  }

  /** The padded label: a blank, then each of the n labels followed by a blank. */
  method BuildPadded(lab: array<int>, y: array<int>, n: int, T: int, blank: int) returns (S: int)
    requires lab != y && 0 <= n <= y.Length && n <= T && 2 * T + 1 <= lab.Length
    modifies lab
    ensures S == 2 * n + 1 && lab[..S] == Padded(y[..n], blank)
  {
    lab[0] := blank;
    var i := 0;
    S := 1;
    while i < n && S < 2 * T + 1
      invariant 0 <= i <= n && S == 2 * i + 1
      invariant lab[..S] == Padded(y[..i], blank)
    {
      assert y[..i + 1][..i] == y[..i];
      lab[S] := y[i];
      S := S + 1;
      lab[S] := blank;
      S := S + 1;
      i := i + 1;
    }
  }

  /** Every entry of the first T rows and S columns becomes -INFINITY. */
  method FillNegInf(a: array2<LogP>, T: int, S: int)
    requires 0 <= T <= a.Length0 && 0 <= S <= a.Length1
    modifies a
    ensures forall t, s :: 0 <= t < T && 0 <= s < S ==> a[t, s] == NegInf
  {
    var t := 0;
    while t < T
      invariant 0 <= t <= T
      invariant forall i, s :: 0 <= i < t && 0 <= s < S ==> a[i, s] == NegInf
    {
      var s := 0;
      while s < S
        invariant 0 <= s <= S
        invariant forall i, k :: 0 <= i < t && 0 <= k < S ==> a[i, k] == NegInf
        invariant forall k :: 0 <= k < s ==> a[t, k] == NegInf
      {
        a[t, s] := NegInf;
        s := s + 1;
      }
      t := t + 1;
    }
  }

  /** The arrays the table loops read hold lattice p: its log table, its padded label and its blank. */
  ghost predicate Fits(p: Lattice, yp: array2<LogP>, lab: array<int>, S: int, T: int, blank: int)
    reads yp, lab
  {
    WellFormed(p) && |p.lp| == T && S == |p.lab| && S <= lab.Length && (forall k :: 0 <= k < S ==> lab[k] == p.lab[k]) &&
    p.blank == blank && Mirrors(yp, p.lp)
  }

  /** The bounds every table loop relies on. */
  lemma FitsBounds(p: Lattice, yp: array2<LogP>, lab: array<int>, S: int, T: int, blank: int)
    requires Fits(p, yp, lab, S, T, blank)
    ensures 1 <= T <= yp.Length0 && 1 <= S && 0 <= blank < yp.Length1
    ensures forall k :: 0 <= k < S ==> lab[k] == p.lab[k] && 0 <= lab[k] < yp.Length1
  {
    assert |p.lp[0]| == yp.Length1;
  }

  /** Row t of a holds r in its first |r| columns. */
  ghost predicate RowHolds(a: array2<LogP>, t: int, r: seq<LogP>)
    reads a
    requires 0 <= t < a.Length0 && |r| <= a.Length1
  {
    forall s :: 0 <= s < |r| ==> a[t, s] == r[s]
  }

  /**
   * Row 0 of the forward table (Equations 7.5 to 7.7). With a padded
   * label of length 1, column 1 still receives the blank's prediction.
   */
  method AlphaFirst(alpha: array2<LogP>, yp: array2<LogP>, lab: array<int>, S: int, T: int, blank: int, ghost p: Lattice)
    requires Fits(p, yp, lab, S, T, blank) && alpha != yp && T <= alpha.Length0 && S <= alpha.Length1 && 2 <= alpha.Length1
    modifies alpha
    ensures RowHolds(alpha, 0, FirstAlpha(p))
    ensures S == 1 ==> alpha[0, 1] == yp[0, blank]
    ensures forall i, s :: 0 < i < alpha.Length0 && 0 <= s < alpha.Length1 ==> alpha[i, s] == old(alpha[i, s])
  {
    FitsBounds(p, yp, lab, S, T, blank);
    alpha[0, 0] := yp[0, blank];
    if S > 1 {
      alpha[0, 1] := yp[0, lab[1]];
    } else {
      alpha[0, 1] := yp[0, blank];
    }
    var s := 2;
    while s < S
      invariant 2 <= s && (S >= 2 ==> s <= S)
      invariant forall k :: 0 <= k < S && k < s ==> alpha[0, k] == FirstAlpha(p)[k]
      invariant S == 1 ==> alpha[0, 1] == yp[0, blank]
      invariant forall i, k :: 0 < i < alpha.Length0 && 0 <= k < alpha.Length1 ==> alpha[i, k] == old(alpha[i, k])
    {
      alpha[0, s] := NegInf;
      s := s + 1;
    }
  }

  /**
   * Row t >= 1 of the forward table from row t - 1 (Equations 7.8 and 7.9):
   * -INFINITY before Start, the three-way logsumexp up to End; the columns
   * from End on keep their -INFINITY.
   */
  method AlphaNext(alpha: array2<LogP>, yp: array2<LogP>, lab: array<int>, S: int, T: int, blank: int, f: real -> real,
                   t: int, ghost p: Lattice, ghost prev: seq<LogP>)
    requires Fits(p, yp, lab, S, T, blank) && alpha != yp && T <= alpha.Length0 && S <= alpha.Length1
    requires 1 <= t < T && |prev| == S && RowHolds(alpha, t - 1, prev)
    requires forall s :: 0 <= s < S ==> alpha[t, s] == NegInf
    modifies alpha
    ensures RowHolds(alpha, t, NextAlpha(p, f, t, prev))
    ensures forall i, s :: 0 <= i < alpha.Length0 && 0 <= s < alpha.Length1 && i != t ==> alpha[i, s] == old(alpha[i, s])
  {
    FitsBounds(p, yp, lab, S, T, blank);
    var start := S - 2 * (T - t);
    if start < 0 {
      start := 0;
    }
    var end := 2 * (t + 1);
    if end > S {
      end := S;
    }
    ClearRange(alpha, t, 0, start);
    ghost var row := NextAlpha(p, f, t, prev);
    var s := start;
    while s < end
      invariant start <= s <= S && (start <= end ==> s <= end) && |row| == S
      invariant forall k :: start <= k < s ==> alpha[t, k] == row[k]
      invariant forall k :: 0 <= k < S && !(start <= k < s) ==> alpha[t, k] == NegInf
      invariant forall i, k :: 0 <= i < alpha.Length0 && 0 <= k < alpha.Length1 && i != t ==> alpha[i, k] == old(alpha[i, k])
    {
      var v := AlphaCell(alpha, yp, lab, S, T, blank, f, t, s, p, prev);
      alpha[t, s] := v;
      s := s + 1;
    }
  }

  /** The body of the forward loop at column s of row t. */
  method AlphaCell(alpha: array2<LogP>, yp: array2<LogP>, lab: array<int>, S: int, T: int, blank: int, f: real -> real,
                   t: int, s: int, ghost p: Lattice, ghost prev: seq<LogP>)
    returns (v: LogP)
    requires Fits(p, yp, lab, S, T, blank) && T <= alpha.Length0 && S <= alpha.Length1
    requires 1 <= t < T && Start(S, T, t) <= s < End(S, t) && |prev| == S && RowHolds(alpha, t - 1, prev)
    ensures v == NextAlpha(p, f, t, prev)[s]
  {
    FitsBounds(p, yp, lab, S, T, blank);
    var ls := lab[s];
    var ats := alpha[t - 1, s];
    if s >= 1 {
      ats := LogSumExp(ats, alpha[t - 1, s - 1], f);
    }
    if s >= 2 && !(ls == blank || lab[s - 2] == ls) {
      ats := LogSumExp(ats, alpha[t - 1, s - 2], f);
    }
    v := Times(ats, yp[t, ls]);
    assert v == AlphaStep(p, f, t, prev, s);
  }

  /** Columns from lo up to hi of row t become -INFINITY; nothing else changes. */
  method ClearRange(a: array2<LogP>, t: int, lo: int, hi: int)
    requires 0 <= t < a.Length0 && 0 <= lo <= hi <= a.Length1
    modifies a
    ensures forall k :: lo <= k < hi ==> a[t, k] == NegInf
    ensures forall i, k :: 0 <= i < a.Length0 && 0 <= k < a.Length1 && !(i == t && lo <= k < hi) ==> a[i, k] == old(a[i, k])
  {
    var s := lo;
    while s < hi
      invariant lo <= s <= hi
      invariant forall k :: lo <= k < s ==> a[t, k] == NegInf
      invariant forall i, k :: 0 <= i < a.Length0 && 0 <= k < a.Length1 && !(i == t && lo <= k < s) ==> a[i, k] == old(a[i, k])
    {
      a[t, s] := NegInf;
      s := s + 1;
    }
  }

  /** The whole forward table, row by row. */
  method AlphaTable(alpha: array2<LogP>, yp: array2<LogP>, lab: array<int>, S: int, T: int, blank: int, f: real -> real,
                    ghost p: Lattice)
    requires Fits(p, yp, lab, S, T, blank) && alpha != yp && T <= alpha.Length0 && S <= alpha.Length1 && 2 <= alpha.Length1
    requires forall t, s :: 0 <= t < T && 0 <= s < S ==> alpha[t, s] == NegInf
    modifies alpha
    ensures forall t :: 0 <= t < T ==> RowHolds(alpha, t, AlphaRow(p, f, t))
  {
    AlphaFirst(alpha, yp, lab, S, T, blank, p);
    var t := 1;
    while t < T
      invariant 1 <= t <= T
      invariant forall i, s :: 0 <= i < t && 0 <= s < S ==> alpha[i, s] == AlphaRow(p, f, i)[s]
      invariant forall i, s :: t <= i < T && 0 <= s < S ==> alpha[i, s] == NegInf
    {
      ghost var prev := AlphaRow(p, f, t - 1);
      AlphaNext(alpha, yp, lab, S, T, blank, f, t, p, prev);
      assert AlphaRow(p, f, t) == NextAlpha(p, f, t, prev);
      t := t + 1;
    }
  }

  /** The last row of the backward table (Equations 7.12 to 7.14). */
  method BetaLast(beta: array2<LogP>, S: int, T: int, ghost p: Lattice)
    requires WellFormed(p) && |p.lp| == T && S == |p.lab| && T <= beta.Length0 && S <= beta.Length1
    modifies beta
    ensures RowHolds(beta, T - 1, LastBeta(p))
    ensures forall i, s :: 0 <= i < beta.Length0 && 0 <= s < beta.Length1 && i != T - 1 ==> beta[i, s] == old(beta[i, s])
  {
    beta[T - 1, S - 1] := Fin(0.0);
    if S > 1 {
      beta[T - 1, S - 2] := Fin(0.0);
    }
    var s := S - 3;
    while s >= 0
      invariant -2 <= s <= S - 3
      invariant forall k :: 0 <= k < S && s < k ==> beta[T - 1, k] == LastBeta(p)[k]
      invariant forall i, k :: 0 <= i < beta.Length0 && 0 <= k < beta.Length1 && i != T - 1 ==> beta[i, k] == old(beta[i, k])
    {
      beta[T - 1, s] := NegInf;
      s := s - 1;
    }
  }

  /**
   * Row t < T - 1 of the backward table from row t + 1 (Equations 7.15 and
   * 7.16): -INFINITY from End on, the three-way logsumexp from Start; the
   * columns before Start keep their -INFINITY.
   */
  method BetaPrev(beta: array2<LogP>, yp: array2<LogP>, lab: array<int>, S: int, T: int, blank: int, f: real -> real,
                  t: int, ghost p: Lattice, ghost next: seq<LogP>)
    requires Fits(p, yp, lab, S, T, blank) && beta != yp && T <= beta.Length0 && S <= beta.Length1
    requires 0 <= t < T - 1 && |next| == S && RowHolds(beta, t + 1, next)
    requires forall s :: 0 <= s < S ==> beta[t, s] == NegInf
    modifies beta
    ensures RowHolds(beta, t, PrevBeta(p, f, t, next))
    ensures forall i, s :: 0 <= i < beta.Length0 && 0 <= s < beta.Length1 && i != t ==> beta[i, s] == old(beta[i, s])
  {
    FitsBounds(p, yp, lab, S, T, blank);
    var start := S - 2 * (T - t);
    if start < 0 {
      start := 0;
    }
    var end := 2 * (t + 1);
    if end > S {
      end := S;
    }
    ClearRange(beta, t, end, S);
    ghost var row := PrevBeta(p, f, t, next);
    var s := start;
    while s < end
      invariant start <= s && (start <= end ==> s <= end)
      invariant forall k :: 0 <= k < S ==> beta[t, k] == (if k < s || k >= end then row[k] else NegInf)
      invariant forall i, k :: 0 <= i < beta.Length0 && 0 <= k < beta.Length1 && i != t ==> beta[i, k] == old(beta[i, k])
    {
      var v := BetaCell(beta, yp, lab, S, T, blank, f, t, s, p, next);
      assert row[s] == v;
      beta[t, s] := v;
      s := s + 1;
    }
  }

  /** The body of the backward loop at column s of row t. */
  method BetaCell(beta: array2<LogP>, yp: array2<LogP>, lab: array<int>, S: int, T: int, blank: int, f: real -> real,
                  t: int, s: int, ghost p: Lattice, ghost next: seq<LogP>)
    returns (v: LogP)
    requires Fits(p, yp, lab, S, T, blank) && T <= beta.Length0 && S <= beta.Length1
    requires 0 <= t < T - 1 && 0 <= s < S && |next| == S && RowHolds(beta, t + 1, next)
    ensures v == BetaStep(p, f, t, next, s)
  {
    FitsBounds(p, yp, lab, S, T, blank);
    var bts := Times(beta[t + 1, s], yp[t + 1, lab[s]]);
    if s + 1 < S {
      bts := LogSumExp(bts, Times(beta[t + 1, s + 1], yp[t + 1, lab[s + 1]]), f);
    }
    if s + 2 < S && !(lab[s] == blank || lab[s + 2] == lab[s]) {
      bts := LogSumExp(bts, Times(beta[t + 1, s + 2], yp[t + 1, lab[s + 2]]), f);
    }
    v := bts;
  }

  /** The whole backward table, from the last row down. */
  method BetaTable(beta: array2<LogP>, yp: array2<LogP>, lab: array<int>, S: int, T: int, blank: int, f: real -> real,
                   ghost p: Lattice)
    requires Fits(p, yp, lab, S, T, blank) && beta != yp && T <= beta.Length0 && S <= beta.Length1
    requires forall t, s :: 0 <= t < T && 0 <= s < S ==> beta[t, s] == NegInf
    modifies beta
    ensures forall t :: 0 <= t < T ==> RowHolds(beta, t, BetaRow(p, f, t))
  {
    BetaLast(beta, S, T, p);
    var t := T - 2;
    while t >= 0
      invariant -1 <= t <= T - 2
      invariant forall i, s :: t < i < T && 0 <= s < S ==> beta[i, s] == BetaRow(p, f, i)[s]
      invariant forall i, s :: 0 <= i <= t && 0 <= s < S ==> beta[i, s] == NegInf
    {
      ghost var next := BetaRow(p, f, t + 1);
      BetaPrev(beta, yp, lab, S, T, blank, f, t, p, next);
      assert BetaRow(p, f, t) == PrevBeta(p, f, t, next);
      t := t - 1;
    }
  }

  /** Both tables, cleared to -INFINITY and filled, then the probability of every step. */
  method FillTables(yp: array2<LogP>, lab: array<int>, alpha: array2<LogP>, beta: array2<LogP>, prob: array<LogP>,
                    S: int, T: int, blank: int, f: real -> real, ghost p: Lattice)
    requires Fits(p, yp, lab, S, T, blank) && alpha != yp && beta != yp && alpha != beta
    requires T <= alpha.Length0 && S <= alpha.Length1 && 2 <= alpha.Length1 && T <= beta.Length0 && S <= beta.Length1 && T <= prob.Length
    modifies alpha, beta, prob
    ensures TablesHold(p, f, yp, lab, S, alpha, beta, prob)
  {
    FillNegInf(alpha, T, S);
    FillNegInf(beta, T, S);
    AlphaTable(alpha, yp, lab, S, T, blank, f, p);
    BetaTable(beta, yp, lab, S, T, blank, f, p);
    assert lab[..S] == p.lab;
    ProbTable(prob, alpha, beta, lab, S, T, f, p);
  }

  /**
   * The logsumexp of alpha[t][s] + beta[t][s] over the first S positions,
   * those holding label l or (None) all of them (Equations 7.23 and 7.24).
   */
  method MassAt(alpha: array2<LogP>, beta: array2<LogP>, lab: array<int>, t: int, S: int, l: Option<int>, f: real -> real,
                ghost terms: seq<LogP>)
    returns (sum: LogP)
    requires 0 <= t < alpha.Length0 && t < beta.Length0 && S <= alpha.Length1 && S <= beta.Length1 && S <= lab.Length
    requires |terms| == S && forall s :: 0 <= s < S ==> terms[s] == Times(alpha[t, s], beta[t, s])
    ensures sum == Mass(terms, lab[..S], l, S, f)
  {
    sum := NegInf;
    var s := 0;
    while s < S
      invariant 0 <= s <= S
      invariant sum == Mass(terms, lab[..S], l, s, f)
    {
      if l.None? || l.value == lab[s] {
        sum := LogSumExp(sum, Times(alpha[t, s], beta[t, s]), f);
      }
      s := s + 1;
    }
  }

  /** The probability of the label at every step, from the filled tables. */
  method ProbTable(prob: array<LogP>, alpha: array2<LogP>, beta: array2<LogP>, lab: array<int>, S: int, T: int,
                   f: real -> real, ghost p: Lattice)
    requires WellFormed(p) && |p.lp| == T && S == |p.lab| && S <= lab.Length && lab[..S] == p.lab
    requires T <= prob.Length && T <= alpha.Length0 && T <= beta.Length0 && S <= alpha.Length1 && S <= beta.Length1
    requires forall t :: 0 <= t < T ==> RowHolds(alpha, t, AlphaRow(p, f, t)) && RowHolds(beta, t, BetaRow(p, f, t))
    modifies prob
    ensures forall t :: 0 <= t < T ==> prob[t] == Prob(p, f, t)
  {
    var t := 0;
    while t < T
      invariant 0 <= t <= T
      invariant forall i :: 0 <= i < t ==> prob[i] == Prob(p, f, i)
    {
      var v := StepProb(alpha, beta, lab, S, t, f, p);
      prob[t] := v;
      t := t + 1;
    }
  }

  /** The probability of the label at step t, from row t of both tables. */
  method StepProb(alpha: array2<LogP>, beta: array2<LogP>, lab: array<int>, S: int, t: int, f: real -> real, ghost p: Lattice)
    returns (v: LogP)
    requires WellFormed(p) && 0 <= t < |p.lp| && S == |p.lab| && S <= lab.Length && lab[..S] == p.lab
    requires t < alpha.Length0 && t < beta.Length0 && S <= alpha.Length1 && S <= beta.Length1
    requires RowHolds(alpha, t, AlphaRow(p, f, t)) && RowHolds(beta, t, BetaRow(p, f, t))
    ensures v == Prob(p, f, t)
  {
    v := MassAt(alpha, beta, lab, t, S, None, f, Through(p, f, t));
  }

  /** The mean of the negated probabilities, INFINITY once one of them is -INFINITY. */
  method LossSum(prob: array<LogP>, T: int) returns (loss: LossValue)
    requires 1 <= T <= prob.Length
    ensures loss == LossOf(prob[..T])
  {
    var acc := Finite(0.0);
    var t := 0;
    while t < T
      invariant 0 <= t <= T
      invariant acc == NegSum(prob[..T], t)
    {
      acc := if acc.Infinite? || prob[t].NegInf? then Infinite else Finite(acc.v - prob[t].v);
      t := t + 1;
    }
    loss := if acc.Infinite? then Infinite else Finite(acc.v / T as real);
  }

  // ---------------------------------------------------------------------
  // The accuracy factor
  // ---------------------------------------------------------------------

  /** ctc_accuracy: T when both sequences are empty, else (1 - dist / longer length) * T. */
  function AccuracyOf(pc: seq<int>, tc: seq<int>, T: int): real
  {
    var fact := Max(|pc|, |tc|);
    if fact == 0 then T as real else (1.0 - Lev(pc, tc) as real / fact as real) * T as real
  }

  /** (1 - d / fact) T lies in [0, T] for d <= fact, and is T (when T > 0) only for d = 0. */
  lemma FactorArith(d: nat, fact: nat, T: nat)
    requires 0 < fact && d <= fact
    ensures 0.0 <= (1.0 - d as real / fact as real) * T as real <= T as real
    ensures T > 0 && (1.0 - d as real / fact as real) * T as real == T as real ==> d == 0
  {
    var q := d as real / fact as real;
    assert 0.0 <= q <= 1.0;
    assert q == 0.0 ==> d == 0;
  }

  /** The factor lies between 0 and T, and is T exactly when the decoded sequences agree. */
  lemma AccuracyRange(pc: seq<int>, tc: seq<int>, T: nat)
    ensures 0.0 <= AccuracyOf(pc, tc, T) <= T as real
    ensures T > 0 ==> (AccuracyOf(pc, tc, T) == T as real <==> pc == tc)
  {
    var fact := Max(|pc|, |tc|);
    if fact > 0 {
      var d := Lev(pc, tc);
      LevBounds(pc, tc);
      FactorArith(d, fact, T);
      if pc == tc {
        LevSelf(pc);
      }
      if d == 0 {
        LevZero(pc, tc);
      }
    }
  }
}
