/**
 * Top-n similarity search (src/search/findsim.c): scan the data set once,
 * keep the topn entries with the greatest cosine similarity to the query
 * in a small buffer kept sorted in ascending order, then emit them in
 * descending order. The cosine similarity of data vector i to the query
 * is given as cs[i]; how it is computed is not part of this model.
 */
module FindSim {
  import opened Common

  /** A COSSIM record: a data vector's index and its similarity to the query. */
  datatype Entry = Entry(ix: int, cos: real)

  /** qsort_compare_asc, as "x comes no later than y": by similarity, then by index. */
  predicate LessEq(x: Entry, y: Entry)
  {
    x.cos < y.cos || (x.cos == y.cos && x.ix <= y.ix)
  }

  predicate Ascending(s: seq<Entry>)
  {
    forall a, b :: 0 <= a < b < |s| ==> LessEq(s[a], s[b])
  }

  predicate NoDup(s: seq<Entry>)
  {
    forall a, b :: 0 <= a < b < |s| ==> s[a] != s[b]
  }

  /** Insert e into an ascending sequence. */
  function InsertAsc(s: seq<Entry>, e: Entry): (r: seq<Entry>)
    ensures |r| == |s| + 1
  {
    if |s| == 0 then [e]
    else if LessEq(e, s[0]) then [e] + s
    else [s[0]] + InsertAsc(s[1..], e)
  }

  /**
   * sort_asc: qsort with qsort_compare_asc. The comparator is a total
   * order, so the sorted result is unique; it is written here as an
   * insertion sort.
   */
  function SortAsc(s: seq<Entry>): (r: seq<Entry>)
    ensures |r| == |s|
  {
    if |s| == 0 then [] else InsertAsc(SortAsc(s[..|s| - 1]), s[|s| - 1])
  }

  /**
   * sort_desc: qsort with qsort_compare_desc, the reverse comparator;
   * its unique result is the ascending order reversed.
   */
  function SortDesc(s: seq<Entry>): (r: seq<Entry>)
    ensures |r| == |s|
  {
    var a := SortAsc(s);
    seq(|a|, k requires 0 <= k < |a| => a[|a| - 1 - k])
  }

  lemma InsertAscMembers(s: seq<Entry>, e: Entry, x: Entry)
    ensures x in InsertAsc(s, e) <==> x in s || x == e
  {
    if |s| > 0 && !LessEq(e, s[0]) {
      InsertAscMembers(s[1..], e, x);
      assert s == [s[0]] + s[1..];
    }
  }

  lemma {:induction false} InsertAscPermutes(s: seq<Entry>, e: Entry)
    ensures multiset(InsertAsc(s, e)) == multiset(s) + multiset{e}
    decreases |s|
  {
    if |s| > 0 && !LessEq(e, s[0]) {
      InsertAscPermutes(s[1..], e);
      assert s == [s[0]] + s[1..];
    }
  }

  lemma {:induction false} InsertAscAscending(s: seq<Entry>, e: Entry)
    requires Ascending(s)
    ensures Ascending(InsertAsc(s, e))
    decreases |s|
  {
    if |s| == 0 {
    } else if LessEq(e, s[0]) {
      var r := [e] + s;
      forall a, b | 0 <= a < b < |r|
        ensures LessEq(r[a], r[b])
      {
        if a > 0 {
          assert r[a] == s[a - 1] && r[b] == s[b - 1];
        } else if b > 1 {
          assert LessEq(s[0], s[b - 1]);
        }
      }
    } else {
      InsertAscAscending(s[1..], e);
      var t := InsertAsc(s[1..], e);
      var r := [s[0]] + t;
      forall a, b | 0 <= a < b < |r|
        ensures LessEq(r[a], r[b])
      {
        if a == 0 {
          InsertAscMembers(s[1..], e, r[b]);
          if r[b] != e {
            var k :| 0 <= k < |s[1..]| && s[1..][k] == r[b];
            assert LessEq(s[0], s[k + 1]);
          }
        } else {
          assert r[a] == t[a - 1] && r[b] == t[b - 1];
        }
      }
    }
  }

  lemma {:induction false} InsertAscNoDup(s: seq<Entry>, e: Entry)
    requires NoDup(s) && e !in s
    ensures NoDup(InsertAsc(s, e))
    decreases |s|
  {
    if |s| == 0 {
    } else if LessEq(e, s[0]) {
      var r := [e] + s;
      forall a, b | 0 <= a < b < |r|
        ensures r[a] != r[b]
      {
        if a > 0 {
          assert r[a] == s[a - 1] && r[b] == s[b - 1];
        } else {
          assert r[b] == s[b - 1];
        }
      }
    } else {
      assert s == [s[0]] + s[1..];
      InsertAscNoDup(s[1..], e);
      var t := InsertAsc(s[1..], e);
      var r := [s[0]] + t;
      forall a, b | 0 <= a < b < |r|
        ensures r[a] != r[b]
      {
        if a == 0 {
          InsertAscMembers(s[1..], e, r[b]);
          if r[b] != e {
            var k :| 0 <= k < |s[1..]| && s[1..][k] == r[b];
            assert s[k + 1] == r[b];
          }
        } else {
          assert r[a] == t[a - 1] && r[b] == t[b - 1];
        }
      }
    }
  }

  /** sort_asc keeps exactly the entries it was given. */
  lemma {:induction false} SortedMembers(s: seq<Entry>, x: Entry)
    ensures x in SortAsc(s) <==> x in s
    decreases |s|
  {
    if |s| > 0 {
      var p := s[..|s| - 1];
      SortedMembers(p, x);
      InsertAscMembers(SortAsc(p), s[|s| - 1], x);
      assert s == p + [s[|s| - 1]];
    }
  }

  /** sort_asc gives a rearrangement of its input. */
  lemma {:induction false} SortAscPermutes(s: seq<Entry>)
    ensures multiset(SortAsc(s)) == multiset(s)
    decreases |s|
  {
    if |s| > 0 {
      var p, e := s[..|s| - 1], s[|s| - 1];
      SortAscPermutes(p);
      InsertAscPermutes(SortAsc(p), e);
      assert s == p + [e];
    }
  }

  /** sort_asc gives an ascending sequence. */
  lemma {:induction false} SortAscAscending(s: seq<Entry>)
    ensures Ascending(SortAsc(s))
    decreases |s|
  {
    if |s| > 0 {
      var p := s[..|s| - 1];
      SortAscAscending(p);
      InsertAscAscending(SortAsc(p), s[|s| - 1]);
    }
  }

  /** sort_asc gives a sorted rearrangement of its input. */
  lemma SortAscSorts(s: seq<Entry>)
    ensures multiset(SortAsc(s)) == multiset(s)
    ensures Ascending(SortAsc(s))
  {
    SortAscPermutes(s);
    SortAscAscending(s);
  }

  /** What the buffer loop relies on after a sort: ascending, still without duplicates, the same entries. */
  lemma SortFacts(t: seq<Entry>)
    requires NoDup(t)
    ensures Ascending(SortAsc(t)) && NoDup(SortAsc(t)) && |SortAsc(t)| == |t|
    ensures forall x :: x in SortAsc(t) <==> x in t
  {
    SortAscAscending(t);
    SortAscNoDup(t);
    forall x
      ensures x in SortAsc(t) <==> x in t
    {
      SortedMembers(t, x);
    }
  }

  /** Sorting a sequence without duplicates leaves none. */
  lemma {:induction false} SortAscNoDup(s: seq<Entry>)
    requires NoDup(s)
    ensures NoDup(SortAsc(s))
    decreases |s|
  {
    if |s| > 0 {
      var p, e := s[..|s| - 1], s[|s| - 1];
      SortAscNoDup(p);
      SortedMembers(p, e);
      InsertAscNoDup(SortAsc(p), e);
    }
  }

  /**
   * One step of the scan, for data vector e.ix with similarity e.cos: a
   * buffer that is not yet full takes the entry; a full one replaces its
   * smallest entry when e is strictly more similar. A buffer of size 0 is
   * left alone (see ScanStepAsWritten).
   */
  function ScanStep(sim: seq<Entry>, topn: int, e: Entry): seq<Entry>
  {
    if |sim| < topn then SortAsc(sim + [e])
    else if |sim| > 0 && e.cos > sim[0].cos then SortAsc(sim[0 := e])
    else sim
  }

  /**
   * The step exactly as find_most_similar writes it: with a full buffer
   * it reads sim[0] unconditionally, which for topn == 0 lies outside the
   * buffer (None).
   */
  function ScanStepAsWritten(sim: seq<Entry>, topn: int, e: Entry): Option<seq<Entry>>
  {
    if |sim| < topn then Some(SortAsc(sim + [e]))
    else if |sim| == 0 then None
    else if e.cos > sim[0].cos then Some(SortAsc(sim[0 := e]))
    else Some(sim)
  }

  /** With topn == 0 the first data vector already makes the loop read past its buffer. */
  lemma ZeroTopnReadsPastBuffer(c: real)
    ensures ScanStepAsWritten([], 0, Entry(0, c)).None?
  {
  }

  /** For a positive topn the written code and ScanStep agree. */
  lemma ScanStepAgrees(sim: seq<Entry>, topn: int, e: Entry)
    requires topn >= 1 && |sim| <= topn
    ensures ScanStepAsWritten(sim, topn, e) == Some(ScanStep(sim, topn, e))
  {
  }

  /** The buffer after the first i data vectors. */
  function Scan(cs: seq<real>, topn: int, i: nat): seq<Entry>
    requires i <= |cs|
  {
    if i == 0 then [] else ScanStep(Scan(cs, topn, i - 1), topn, Entry(i - 1, cs[i - 1]))
  }

  /**
   * What the buffer holds after i vectors: min(i, topn) entries, sorted,
   * without duplicates, each a true (index, similarity) pair seen so far;
   * every vector seen so far is kept while the buffer is not full, and
   * every vector left out is no more similar than any kept one.
   */
  predicate Holds(sim: seq<Entry>, cs: seq<real>, topn: int, i: nat)
    requires i <= |cs|
  {
    |sim| == Min(i, if topn < 0 then 0 else topn)
    && Ascending(sim) && NoDup(sim)
    && (forall x :: x in sim ==> 0 <= x.ix < i && x.cos == cs[x.ix])
    && (i <= topn ==> forall j :: 0 <= j < i ==> Entry(j, cs[j]) in sim)
    && (forall j, x :: 0 <= j < i && Entry(j, cs[j]) !in sim && x in sim ==> cs[j] <= x.cos)
  }

  lemma {:induction false} ScanHolds(cs: seq<real>, topn: int, i: nat)
    requires i <= |cs|
    ensures Holds(Scan(cs, topn, i), cs, topn, i)
  {
    if i > 0 {
      ScanHolds(cs, topn, i - 1);
      var sim := Scan(cs, topn, i - 1);
      var e := Entry(i - 1, cs[i - 1]);
      if |sim| < topn {
        HoldsAfterAppend(sim, cs, topn, i);
      } else if |sim| > 0 && e.cos > sim[0].cos {
        HoldsAfterReplace(sim, cs, topn, i);
      } else {
        HoldsAfterSkip(sim, cs, topn, i);
      }
    }
  }

  /** The buffer holds min(i, topn) entries. */
  lemma ScanLength(cs: seq<real>, topn: int, i: nat)
    requires i <= |cs|
    ensures |Scan(cs, topn, i)| == Min(i, if topn < 0 then 0 else topn)
  {
    ScanHolds(cs, topn, i);
  }

  /** The first entry of an ascending buffer has the least similarity. */
  lemma FirstIsLeast(sim: seq<Entry>, x: Entry)
    requires Ascending(sim) && x in sim
    ensures sim[0].cos <= x.cos
  {
    var k :| 0 <= k < |sim| && sim[k] == x;
    if k > 0 {
      assert LessEq(sim[0], sim[k]);
    }
  }

  /** A buffer that is not full takes the next vector. */
  lemma HoldsAfterAppend(sim: seq<Entry>, cs: seq<real>, topn: int, i: nat)
    requires 1 <= i <= |cs| && Holds(sim, cs, topn, i - 1) && |sim| < topn
    ensures Holds(SortAsc(sim + [Entry(i - 1, cs[i - 1])]), cs, topn, i)
  {
    var e := Entry(i - 1, cs[i - 1]);
    var t := sim + [e];
    var r := SortAsc(t);
    assert e !in sim;
    assert NoDup(t) by {
      forall a, b | 0 <= a < b < |t|
        ensures t[a] != t[b]
      {
        if b == |sim| {
          assert t[a] in sim;
        }
      }
    }
    SortFacts(t);
    forall x
      ensures x in r <==> x in sim || x == e
    {
      assert x in t <==> x in sim || x == e;
    }
    HoldsWithNew(sim, r, cs, topn, i);
  }

  /** A buffer that is not full, extended by the next vector, as any sorted sequence of those entries. */
  lemma HoldsWithNew(sim: seq<Entry>, r: seq<Entry>, cs: seq<real>, topn: int, i: nat)
    requires 1 <= i <= |cs| && Holds(sim, cs, topn, i - 1) && |sim| < topn
    requires Ascending(r) && NoDup(r) && |r| == |sim| + 1
    requires forall x :: x in r <==> x in sim || x == Entry(i - 1, cs[i - 1])
    ensures Holds(r, cs, topn, i)
  {
  }

  /** A full buffer gives up its least similar entry for a strictly more similar vector. */
  lemma HoldsAfterReplace(sim: seq<Entry>, cs: seq<real>, topn: int, i: nat)
    requires 1 <= i <= |cs| && Holds(sim, cs, topn, i - 1) && |sim| >= topn
    requires |sim| > 0 && cs[i - 1] > sim[0].cos
    ensures Holds(SortAsc(sim[0 := Entry(i - 1, cs[i - 1])]), cs, topn, i)
  {
    var e := Entry(i - 1, cs[i - 1]);
    var t := sim[0 := e];
    var r := SortAsc(t);
    assert e !in sim;
    forall x
      ensures x in t <==> x == e || (x in sim && x != sim[0])
    {
      if x in sim && x != sim[0] {
        var k :| 0 <= k < |sim| && sim[k] == x;
        assert t[k] == x;
      }
      if x in t && x != e {
        var k :| 0 <= k < |t| && t[k] == x;
        assert k != 0 && sim[k] == x && sim[0] != sim[k];
      }
      assert t[0] == e;
    }
    assert NoDup(t) by {
      forall a, b | 0 <= a < b < |t|
        ensures t[a] != t[b]
      {
        if a == 0 {
          assert t[b] == sim[b] && t[b] in sim;
        }
      }
    }
    SortFacts(t);
    HoldsWithReplaced(sim, r, cs, topn, i);
  }

  /** A full buffer whose least similar entry gave way to the next vector, as any sorted sequence of those entries. */
  lemma HoldsWithReplaced(sim: seq<Entry>, r: seq<Entry>, cs: seq<real>, topn: int, i: nat)
    requires 1 <= i <= |cs| && Holds(sim, cs, topn, i - 1) && |sim| >= topn
    requires |sim| > 0 && cs[i - 1] > sim[0].cos
    requires Ascending(r) && NoDup(r) && |r| == |sim|
    requires forall x :: x in r <==> x == Entry(i - 1, cs[i - 1]) || (x in sim && x != sim[0])
    ensures Holds(r, cs, topn, i)
  {
    var e := Entry(i - 1, cs[i - 1]);
    forall j, x | 0 <= j < i && Entry(j, cs[j]) !in r && x in r
      ensures cs[j] <= x.cos
    {
      FirstIsLeast(sim, sim[0]);
      if x != e {
        FirstIsLeast(sim, x);
      }
      if Entry(j, cs[j]) != sim[0] {
        assert Entry(j, cs[j]) !in sim;
        assert cs[j] <= sim[0].cos;
      }
    }
  }

  /** A full buffer keeps its entries when the next vector is not more similar. */
  lemma HoldsAfterSkip(sim: seq<Entry>, cs: seq<real>, topn: int, i: nat)
    requires 1 <= i <= |cs| && Holds(sim, cs, topn, i - 1) && |sim| >= topn
    requires !(|sim| > 0 && cs[i - 1] > sim[0].cos)
    ensures Holds(sim, cs, topn, i)
  {
    forall x | x in sim
      ensures cs[i - 1] <= x.cos
    {
      FirstIsLeast(sim, x);
    }
  }

  /** What find_most_similar emits: the final buffer in descending order. */
  function TopN(cs: seq<real>, topn: int): seq<Entry>
  {
    SortDesc(Scan(cs, topn, |cs|))
  }

  /**
   * The result of find_most_similar: min(|cs|, topn) distinct data vectors
   * with their similarities, in descending order of similarity and then
   * of index, and no vector left out is more similar than one kept.
   */
  lemma TopNCorrect(cs: seq<real>, topn: int)
    ensures var r := TopN(cs, topn);
      |r| == Min(|cs|, if topn < 0 then 0 else topn)
      && (forall k :: 0 <= k < |r| ==> 0 <= r[k].ix < |cs| && r[k].cos == cs[r[k].ix])
      && (forall a, b :: 0 <= a < b < |r| ==>
            r[a].cos > r[b].cos || (r[a].cos == r[b].cos && r[a].ix > r[b].ix))
      && (forall j, k :: 0 <= j < |cs| && 0 <= k < |r| && Entry(j, cs[j]) !in r ==> cs[j] <= r[k].cos)
  {
    var sim := Scan(cs, topn, |cs|);
    ScanHolds(cs, topn, |cs|);
    SortDescOrder(sim);
    var r := TopN(cs, topn);
    forall k | 0 <= k < |r|
      ensures 0 <= r[k].ix < |cs| && r[k].cos == cs[r[k].ix]
    {
      SortDescMembers(sim, r[k]);
    }
    forall j, k | 0 <= j < |cs| && 0 <= k < |r| && Entry(j, cs[j]) !in r
      ensures cs[j] <= r[k].cos
    {
      SortDescMembers(sim, r[k]);
      SortDescMembers(sim, Entry(j, cs[j]));
    }
  }

  /** sort_desc keeps exactly the entries it was given. */
  lemma SortDescMembers(s: seq<Entry>, x: Entry)
    ensures x in SortDesc(s) <==> x in s
  {
    var a, r := SortAsc(s), SortDesc(s);
    SortedMembers(s, x);
    if x in a {
      var k :| 0 <= k < |a| && a[k] == x;
      assert r[|a| - 1 - k] == x;
    }
    if x in r {
      var k :| 0 <= k < |r| && r[k] == x;
      assert a[|a| - 1 - k] == x;
    }
  }

  /** Without duplicates, sort_desc orders strictly by similarity, then by index, both descending. */
  lemma SortDescOrder(s: seq<Entry>)
    requires NoDup(s)
    ensures var r := SortDesc(s);
      forall p, q :: 0 <= p < q < |r| ==> r[p].cos > r[q].cos || (r[p].cos == r[q].cos && r[p].ix > r[q].ix)
  {
    var a, r := SortAsc(s), SortDesc(s);
    SortAscSorts(s);
    SortAscNoDup(s);
    forall p, q | 0 <= p < q < |r|
      ensures r[p].cos > r[q].cos || (r[p].cos == r[q].cos && r[p].ix > r[q].ix)
    {
      assert r[p] == a[|a| - 1 - p] && r[q] == a[|a| - 1 - q];
      assert LessEq(r[q], r[p]) && r[q] != r[p];
    }
  }

  /**
   * find_most_similar, with the cosine similarities given as cs. The
   * scan buffer is a local sequence rebuilt by each sort. The buffer size
   * topn must not be negative; topn == 0 is handled as ScanStep does.
   */
  method FindMostSimilar(cs: seq<real>, similar: array<int>, similarity: array<real>, topn: int)
    returns (cnt: int)
    requires topn >= 0
    requires similar.Length >= topn && similarity.Length >= topn
    modifies similar, similarity
    ensures cnt == |TopN(cs, topn)| == Min(|cs|, topn)
    ensures forall k :: 0 <= k < cnt ==> similar[k] == TopN(cs, topn)[k].ix && similarity[k] == TopN(cs, topn)[k].cos
    ensures forall k :: cnt <= k < similar.Length ==> similar[k] == old(similar[k])
    ensures forall k :: cnt <= k < similarity.Length ==> similarity[k] == old(similarity[k])
  {
    var sim: seq<Entry> := [];
    cnt := 0;
    var i := 0;
    while i < |cs|
      invariant 0 <= i <= |cs|
      invariant sim == Scan(cs, topn, i) && cnt == |sim|
    {
      var cossim := cs[i];
      if cnt < topn {
        sim := SortAsc(sim + [Entry(i, cossim)]);
        cnt := cnt + 1;
      } else if cnt > 0 && cossim > sim[0].cos {
        sim := SortAsc(sim[0 := Entry(i, cossim)]);
      }
      i := i + 1;
    }
    sim := SortDesc(sim);
    ScanLength(cs, topn, |cs|);
    CopyIndices(sim, similar, cnt, topn);
    CopySimilarities(sim, similarity, cnt, topn);
  }

  /** The first output loop: similar[k] = sim[k].data_ix. */
  method CopyIndices(sim: seq<Entry>, similar: array<int>, cnt: int, topn: int)
    requires 0 <= cnt <= |sim| && cnt <= topn <= similar.Length
    modifies similar
    ensures forall k :: 0 <= k < cnt ==> similar[k] == sim[k].ix
    ensures forall k :: cnt <= k < similar.Length ==> similar[k] == old(similar[k])
  {
    var k := 0;
    while k < cnt && k < topn
      invariant 0 <= k <= cnt
      invariant forall k' :: 0 <= k' < k ==> similar[k'] == sim[k'].ix
      invariant forall k' :: k <= k' < similar.Length ==> similar[k'] == old(similar[k'])
    {
      similar[k] := sim[k].ix;
      k := k + 1;
    }
  }

  /** The second output loop: similarity[k] = sim[k].cossim. */
  method CopySimilarities(sim: seq<Entry>, similarity: array<real>, cnt: int, topn: int)
    requires 0 <= cnt <= |sim| && cnt <= topn <= similarity.Length
    modifies similarity
    ensures forall k :: 0 <= k < cnt ==> similarity[k] == sim[k].cos
    ensures forall k :: cnt <= k < similarity.Length ==> similarity[k] == old(similarity[k])
  {
    var k := 0;
    while k < cnt && k < topn
      invariant 0 <= k <= cnt
      invariant forall k' :: 0 <= k' < k ==> similarity[k'] == sim[k'].cos
      invariant forall k' :: k <= k' < similarity.Length ==> similarity[k'] == old(similarity[k'])
    {
      similarity[k] := sim[k].cos;
      k := k + 1;
    }
  }
}
