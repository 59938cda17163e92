/**
 * Label helpers of the TIMIT phoneme trainer (src/prog/timit.c): counting
 * end-of-phoneme marks and removing blanks and repeats from a label list.
 */
module Timit {
  /** End-of-phoneme marker: the reduced phoneme count, added to a frame's label. */
  const EOP: int := 39

  /** An entry carrying the end-of-phoneme mark loses it. */
  function Unmark(x: int): (y: int)
    ensures x >= EOP ==> y == x - EOP
    ensures x < EOP ==> y == x
  {
    if x >= EOP then x - EOP else x
  }

  /** How many entries carry the end-of-phoneme mark. */
  function CountMarked(s: seq<int>): (n: nat)
    ensures n <= |s|
  {
    if |s| == 0 then 0 else CountMarked(s[..|s| - 1]) + if s[|s| - 1] >= EOP then 1 else 0
  }

  /** Labels below 2*EOP carry the mark at most once, so unmarking leaves nothing marked. */
  lemma {:induction false} UnmarkClears(s: seq<int>)
    requires forall i :: 0 <= i < |s| ==> s[i] < 2 * EOP
    ensures CountMarked(seq(|s|, i requires 0 <= i < |s| => Unmark(s[i]))) == 0
  {
    var u := seq(|s|, i requires 0 <= i < |s| => Unmark(s[i]));
    if |s| > 0 {
      var s' := s[..|s| - 1];
      UnmarkClears(s');
      assert u[..|u| - 1] == seq(|s'|, i requires 0 <= i < |s'| => Unmark(s'[i]));
    }
  }

  /** count_phoneme: counts the marked entries among the first len and unmarks them in place. */
  method CountPhoneme(yc: array<int>, len: int) returns (cnt: int)
    requires len <= yc.Length
    modifies yc
    ensures var n := if len < 0 then 0 else len;
      cnt == CountMarked(old(yc[..n])) &&
      (forall i :: 0 <= i < n ==> yc[i] == Unmark(old(yc[i]))) &&
      (forall i :: n <= i < yc.Length ==> yc[i] == old(yc[i]))
  {
    var n := if len < 0 then 0 else len;
    cnt := 0;
    var i := 0;
    while i < n
      invariant 0 <= i <= n
      invariant cnt == CountMarked(old(yc[..i]))
      invariant forall k :: 0 <= k < i ==> yc[k] == Unmark(old(yc[k]))
      invariant forall k :: i <= k < yc.Length ==> yc[k] == old(yc[k])
    {
      assert old(yc[..i + 1])[..i] == old(yc[..i]);
      if yc[i] >= EOP {
        yc[i] := yc[i] - EOP;
        cnt := cnt + 1;
      }
      i := i + 1;
    }
  }

  /**
   * What dedup_labels keeps: scanning left to right, a label is dropped if
   * it is the blank or equals the last label kept.
   */
  function Dedup(s: seq<int>, blank: int): (d: seq<int>)
    ensures |d| <= |s|
  {
    if |s| == 0 then []
    else
      var d := Dedup(s[..|s| - 1], blank);
      var x := s[|s| - 1];
      if x == blank || (|d| > 0 && d[|d| - 1] == x) then d else d + [x]
  }

  /** The blanks removed. */
  function Strip(s: seq<int>, blank: int): (r: seq<int>)
  {
    if |s| == 0 then [] else Strip(s[..|s| - 1], blank) + if s[|s| - 1] == blank then [] else [s[|s| - 1]]
  }

  /** Runs of equal neighbours collapsed to one. */
  function Merge(s: seq<int>): (r: seq<int>)
    ensures |s| > 0 ==> |r| > 0 && r[|r| - 1] == s[|s| - 1]
  {
    if |s| == 0 then []
    else
      var r := Merge(s[..|s| - 1]);
      if |r| > 0 && r[|r| - 1] == s[|s| - 1] then r else r + [s[|s| - 1]]
  }

  /** dedup_labels strips the blanks first and merges repeats second: a, blank, a gives a. */
  lemma {:induction false} DedupIsMergeOfStrip(s: seq<int>, blank: int)
    ensures Dedup(s, blank) == Merge(Strip(s, blank))
  {
    if |s| > 0 {
      DedupIsMergeOfStrip(s[..|s| - 1], blank);
      var st := Strip(s[..|s| - 1], blank);
      if s[|s| - 1] != blank {
        assert Strip(s, blank) == st + [s[|s| - 1]];
        assert (st + [s[|s| - 1]])[..|st|] == st;
      } else {
        assert Strip(s, blank) == st;
      }
    }
  }

  /** The kept list holds no blank and no two equal neighbours. */
  lemma {:induction false} DedupClean(s: seq<int>, blank: int)
    ensures forall i :: 0 <= i < |Dedup(s, blank)| ==> Dedup(s, blank)[i] != blank
    ensures forall i :: 0 < i < |Dedup(s, blank)| ==> Dedup(s, blank)[i - 1] != Dedup(s, blank)[i]
  {
    if |s| > 0 {
      DedupClean(s[..|s| - 1], blank);
    }
  }

  /** A clean list is its own dedup, so dedup_labels is idempotent. */
  lemma {:induction false} DedupOfClean(s: seq<int>, blank: int)
    requires forall i :: 0 <= i < |s| ==> s[i] != blank
    requires forall i :: 0 < i < |s| ==> s[i - 1] != s[i]
    ensures Dedup(s, blank) == s
  {
    if |s| > 0 {
      DedupOfClean(s[..|s| - 1], blank);
      assert s == s[..|s| - 1] + [s[|s| - 1]];
    }
  }

  lemma DedupIdempotent(s: seq<int>, blank: int)
    ensures Dedup(Dedup(s, blank), blank) == Dedup(s, blank)
  {
    DedupClean(s, blank);
    DedupOfClean(Dedup(s, blank), blank);
  }

  /** dedup_labels: compacts the first len labels in place and returns the kept count. */
  method DedupLabels(labels: array<int>, len: int, blank: int) returns (k: int)
    requires len <= labels.Length
    modifies labels
    ensures var n := if len < 0 then 0 else len;
      0 <= k <= n && labels[..k] == Dedup(old(labels[..n]), blank) &&
      forall i :: k <= i < labels.Length ==> labels[i] == old(labels[i])
  {
    ghost var s := labels[..];
    var n := if len < 0 then 0 else len;
    var j := 0;
    k := 0;
    while j < n
      invariant 0 <= k <= j <= n
      invariant labels[..k] == Dedup(s[..j], blank)
      invariant forall i :: k <= i < labels.Length ==> labels[i] == s[i]
    {
      assert s[..j + 1][..j] == s[..j];
      if labels[j] != blank {
        if k == 0 || labels[k - 1] != labels[j] {
          labels[k] := labels[j];
          k := k + 1;
          assert labels[..k] == labels[..k - 1] + [labels[k - 1]];
        }
      }
      j := j + 1;
    }
    assert old(labels[..n]) == s[..j];
  }
}
