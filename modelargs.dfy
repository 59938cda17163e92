/**
 * The keyword arguments and the training schedule of model_fit
 * (src/model/model.c): find_kwarg locates the value of key=value in a
 * space-separated string, get_kw_int reads it with atoi, and
 * get_epoch_params picks the learning rate and weight decay of an epoch
 * from a schedule "<e>:<l>:<w>,...". A position in a string stands for a
 * C pointer into it; the strings hold no NUL.
 */
module ModelArgs {
  import opened Common

  /** key occurs in s at position p. */
  predicate OccursAt(s: string, key: string, p: int)
  {
    0 <= p && p + |key| <= |s| && s[p..p + |key|] == key
  }

  /** strstr: the first position at or after from where key occurs. */
  function FirstOccurrence(s: string, key: string, from: nat): (r: Option<nat>)
    requires from <= |s|
    ensures r.Some? ==> from <= r.value && OccursAt(s, key, r.value)
    ensures r.Some? ==> forall q :: from <= q < r.value ==> !OccursAt(s, key, q)
    ensures r.None? ==> forall q :: from <= q <= |s| ==> !OccursAt(s, key, q)
    decreases |s| - from
  {
    if OccursAt(s, key, from) then Some(from)
    else if from == |s| then None
    else FirstOccurrence(s, key, from + 1)
  }

  /** The first position at or after i that is not a space. */
  function SkipSpaces(s: string, i: nat): (r: nat)
    requires i <= |s|
    ensures i <= r <= |s|
    ensures forall k :: i <= k < r ==> s[k] == ' '
    ensures r < |s| ==> s[r] != ' '
    decreases |s| - i
  {
    if i < |s| && s[i] == ' ' then SkipSpaces(s, i + 1) else i
  }

  /**
   * Where find_kwarg points: only the first occurrence of key is looked
   * at; it must start the string or follow a space, and be followed by
   * spaces, '=' and spaces; the value starts after them.
   */
  function KwargValue(s: string, key: string): Option<nat>
  {
    match FirstOccurrence(s, key, 0)
    case None => None
    case Some(p) =>
      if p != 0 && s[p - 1] != ' ' then None
      else
        var q := SkipSpaces(s, p + |key|);
        if q < |s| && s[q] == '=' then Some(SkipSpaces(s, q + 1)) else None
  }

  /**
   * find_kwarg: a NULL string or key finds nothing; otherwise the pointer
   * walk is the one KwargValue describes.
   */
  method FindKwarg(kwargs: Option<string>, key: Option<string>) returns (r: Option<nat>)
    ensures kwargs.None? || key.None? ==> r.None?
    ensures kwargs.Some? && key.Some? ==> r == KwargValue(kwargs.value, key.value)
  {
    if kwargs.None? || key.None? {
      return None;
    }
    var s, k := kwargs.value, key.value;
    var found := FindFirst(s, k);
    if found.None? || (found.value != 0 && s[found.value - 1] != ' ') {
      return None;
    }
    var q := SkipBlanks(s, found.value + |k|);
    if q == |s| || s[q] != '=' {
      return None;
    }
    var v := SkipBlanks(s, q + 1);
    r := Some(v);
  }

  /** The strstr of find_kwarg: a left-to-right scan for the first occurrence of key. */
  method FindFirst(s: string, key: string) returns (r: Option<nat>)
    ensures r == FirstOccurrence(s, key, 0)
  {
    var p := 0;
    while p <= |s| && !OccursAt(s, key, p)
      invariant 0 <= p <= |s| + 1
      invariant FirstOccurrence(s, key, 0) == if p <= |s| then FirstOccurrence(s, key, p) else None
      decreases |s| + 1 - p
    {
      p := p + 1;
    }
    r := if p <= |s| then Some(p) else None;
  }

  /** One of find_kwarg's space-skipping loops, started at i. */
  method SkipBlanks(s: string, i: nat) returns (p: nat)
    requires i <= |s|
    ensures p == SkipSpaces(s, i)
  {
    p := i;
    while p < |s| && s[p] == ' '
      invariant i <= p <= |s|
      invariant SkipSpaces(s, p) == SkipSpaces(s, i)
    {
      p := p + 1;
    }
  }

  /**
   * The shape find_kwarg accepts: key first occurs at p, at the start or
   * after a space; from the key's end to q only spaces, s[q] is '=', and
   * from there to v only spaces.
   */
  ghost predicate KwargShape(s: string, key: string, p: nat, q: nat, v: nat)
  {
    p + |key| <= q < v <= |s| && FirstOccurrence(s, key, 0) == Some(p) &&
    (p == 0 || s[p - 1] == ' ') && s[q] == '=' && Spaces(s, p + |key|, q) && Spaces(s, q + 1, v)
  }

  /** What a found value means: the string has that shape, and the value does not start with a space. */
  lemma KwargValueMeans(s: string, key: string, v: nat)
    requires KwargValue(s, key) == Some(v)
    ensures exists p: nat, q: nat :: KwargShape(s, key, p, q, v)
    ensures v < |s| ==> s[v] != ' '
  {
    var p: nat := FirstOccurrence(s, key, 0).value;
    var q: nat := SkipSpaces(s, p + |key|);
    assert KwargShape(s, key, p, q, v);
  }

  /** Conversely, a string of that shape yields the value at v. */
  lemma KwargShapeFound(s: string, key: string, p: nat, q: nat, v: nat)
    requires KwargShape(s, key, p, q, v) && (v < |s| ==> s[v] != ' ')
    ensures KwargValue(s, key) == Some(v)
  {
    SkipSpacesTo(s, p + |key|, q);
    SkipSpacesTo(s, q + 1, v);
  }

  /** Skipping a run of spaces lands on the first non-space after it. */
  lemma {:induction false} SkipSpacesTo(s: string, i: nat, j: nat)
    requires i <= j <= |s| && Spaces(s, i, j) && (j < |s| ==> s[j] != ' ')
    ensures SkipSpaces(s, i) == j
    decreases j - i
  {
    if i < j {
      SkipSpacesTo(s, i + 1, j);
    }
  }

  /** s[i..j] is all spaces. */
  predicate Spaces(s: string, i: nat, j: nat)
    requires i <= j <= |s|
  {
    forall k :: i <= k < j ==> s[k] == ' '
  }

  /** A key written key=value at the start of the string is found, and its value follows the '='. */
  lemma KwargAtStart(key: string, v: string)
    requires |v| > 0 ==> v[0] != ' '
    ensures KwargValue(key + "=" + v, key) == Some(|key| + 1)
  {
    var s := key + "=" + v;
    assert OccursAt(s, key, 0) by { assert s[0..|key|] == key; }
    assert s[|key|] == '=';
  }

  /**
   * Only the first occurrence counts: in "reshuffle=0 shuffle=1" the key
   * shuffle is first seen inside reshuffle, which does not follow a space,
   * so the later shuffle=1 is never found.
   */
  lemma OnlyFirstOccurrence()
    ensures KwargValue("reshuffle=0 shuffle=1", "shuffle") == None
    ensures OccursAt("reshuffle=0 shuffle=1", "shuffle", 12)
  {
    var s := "reshuffle=0 shuffle=1";
    assert OccursAt(s, "shuffle", 2) by { assert s[2..9] == "shuffle"; }
    assert !OccursAt(s, "shuffle", 0) by { assert s[0..7][0] == 'r'; }
    assert !OccursAt(s, "shuffle", 1) by { assert s[1..8][0] == 'e'; }
    assert FirstOccurrence(s, "shuffle", 2) == Some(2);
    assert FirstOccurrence(s, "shuffle", 1) == Some(2);
    assert s[12..19] == "shuffle";
  }

  /** The value of a decimal digit. */
  predicate IsDigit(c: char)
  {
    '0' <= c <= '9'
  }

  /** isspace in the C locale. */
  predicate IsSpace(c: char)
  {
    c == ' ' || c == '\t' || c == '\n' || c == '\r' || c as int == 11 || c as int == 12
  }

  /** The number written by the digits ds, most significant first. */
  function DigitsValue(ds: string): (r: nat)
    requires forall k :: 0 <= k < |ds| ==> IsDigit(ds[k])
  {
    if |ds| == 0 then 0
    else
      assert IsDigit(ds[|ds| - 1]);
      DigitsValue(ds[..|ds| - 1]) * 10 + (ds[|ds| - 1] as int - '0' as int)
  }

  /** The length of the run of digits that starts s. */
  function DigitRun(s: string): (n: nat)
    ensures n <= |s| && (forall k :: 0 <= k < n ==> IsDigit(s[k])) && (n < |s| ==> !IsDigit(s[n]))
  {
    if |s| > 0 && IsDigit(s[0]) then 1 + DigitRun(s[1..]) else 0
  }

  /**
   * atoi: leading white space, an optional sign, then the longest run of
   * digits; no digits read as 0.
   */
  function Atoi(s: string): int
  {
    if |s| > 0 && IsSpace(s[0]) then Atoi(s[1..])
    else if |s| > 0 && (s[0] == '-' || s[0] == '+') then
      var n: int := DigitsValue(s[1..1 + DigitRun(s[1..])]);
      if s[0] == '-' then -n else n
    else DigitsValue(s[..DigitRun(s)])
  }

  /** The decimal writing of n, as printf("%d") gives it. */
  function Decimal(n: nat): (ds: string)
    ensures |ds| > 0 && forall k :: 0 <= k < |ds| ==> IsDigit(ds[k])
  {
    var d := ['0' + (n % 10) as char];
    if n < 10 then d else Decimal(n / 10) + d
  }

  /** Reading back a written number gives the number. */
  lemma {:induction false} DigitsOfDecimal(n: nat)
    ensures DigitsValue(Decimal(n)) == n
  {
    var ds := Decimal(n);
    if n >= 10 {
      assert ds[..|ds| - 1] == Decimal(n / 10);
      DigitsOfDecimal(n / 10);
    }
  }

  /** atoi reads back what printf("%d") writes, for a nonnegative number. */
  lemma AtoiOfDecimal(n: nat)
    ensures Atoi(Decimal(n)) == n
  {
    var ds := Decimal(n);
    assert DigitRun(ds) == |ds| by { DigitRunAll(ds); }
    assert ds[..|ds|] == ds;
    DigitsOfDecimal(n);
  }

  /** A string made only of digits is one run. */
  lemma {:induction false} DigitRunAll(ds: string)
    requires forall k :: 0 <= k < |ds| ==> IsDigit(ds[k])
    ensures DigitRun(ds) == |ds|
  {
    if |ds| > 0 {
      DigitRunAll(ds[1..]);
    }
  }

  /** get_kw_int: the value found for key read with atoi, else val unchanged. */
  method GetKwInt(kwargs: Option<string>, key: string, val: int) returns (r: int)
    ensures kwargs.None? ==> r == val
    ensures kwargs.Some? ==> r == match KwargValue(kwargs.value, key)
      case Some(v) => Atoi(kwargs.value[v..])
      case None => val
  {
    var sval := FindKwarg(kwargs, Some(key));
    r := if sval.Some? then Atoi(kwargs.value[sval.value..]) else val;
  }

  /** A keyword written key=<n> at the start of the string sets the value to n. */
  lemma KwIntAtStart(key: string, n: nat)
    ensures KwargValue(key + "=" + Decimal(n), key) == Some(|key| + 1)
    ensures Atoi((key + "=" + Decimal(n))[|key| + 1..]) == n
  {
    var ds := Decimal(n);
    assert ds[0] != ' ' by { assert IsDigit(ds[0]); }
    KwargAtStart(key, ds);
    assert (key + "=" + ds)[|key| + 1..] == ds;
    AtoiOfDecimal(n);
  }

  /** EOF, as sscanf returns it for input that ends before the first conversion. */
  const EOF: int := -1

  /**
   * What sscanf(sch, "%d:%f:%f", &e, &l, &w) yields: the number of
   * conversions (or EOF) and the converted values; only the first count
   * of e, l, w are meaningful.
   */
  datatype Scan = Scan(count: int, e: int, l: real, w: real)

  /** The position just after the first ',' at or after i, if any. */
  function AfterComma(s: string, i: nat): (r: Option<nat>)
    requires i <= |s|
    ensures r.Some? ==> i < r.value <= |s| && s[r.value - 1] == ','
    ensures r.Some? ==> forall k :: i <= k < r.value - 1 ==> s[k] != ','
    ensures r.None? ==> forall k :: i <= k < |s| ==> s[k] != ','
    decreases |s| - i
  {
    if i == |s| then None
    else if s[i] == ',' then Some(i + 1)
    else AfterComma(s, i + 1)
  }

  /** Where the schedule walk goes after the segment at i: past the next ',', or nowhere at the end of the string. */
  function NextSegment(s: string, i: nat): (r: Option<nat>)
    requires i <= |s|
    ensures r.Some? ==> i < r.value < |s|
  {
    match AfterComma(s, i)
    case None => None
    case Some(j) => if j == |s| then None else Some(j)
  }

  /**
   * The scans get_epoch_params sees, one per segment, from the segment at
   * i on: the walk stops at a scan of 0 conversions or EOF, or when no
   * segment follows.
   */
  function Segments(s: string, i: nat, scan: string -> Scan): (r: seq<Scan>)
    requires i <= |s|
    ensures forall k :: 0 <= k < |r| ==> r[k].count != 0 && r[k].count != EOF
    decreases |s| - i
  {
    var c := scan(s[i..]);
    if c.count == 0 || c.count == EOF then []
    else [c] + match NextSegment(s, i) case None => [] case Some(j) => Segments(s, j, scan)
  }

  /**
   * The walk over the segments segs with te epochs counted so far: every
   * segment read sets the rates it has values for, and the walk stops at
   * the first segment whose cumulative epoch count exceeds epoch.
   */
  function Select(segs: seq<Scan>, epoch: int, te: int, lr: real, wd: real): (real, real)
    decreases |segs|
  {
    if |segs| == 0 then (lr, wd)
    else
      var c := segs[0];
      var wd' := if c.count >= 3 then c.w else wd;
      var lr' := if c.count >= 2 then c.l else lr;
      if epoch < te + c.e then (lr', wd') else Select(segs[1..], epoch, te + c.e, lr', wd')
  }

  /** get_epoch_params as one function of the string position, as the loop walks it. */
  function ParamsFrom(s: string, i: Option<nat>, epoch: int, te: int, lr: real, wd: real,
                      scan: string -> Scan): (real, real)
    requires i.Some? ==> i.value <= |s|
    decreases if i.Some? then |s| - i.value + 1 else 0
  {
    if i.None? then (lr, wd)
    else
      var c := scan(s[i.value..]);
      if c.count == 0 || c.count == EOF then (lr, wd)
      else
        var wd' := if c.count >= 3 then c.w else wd;
        var lr' := if c.count >= 2 then c.l else lr;
        if epoch < te + c.e then (lr', wd')
        else ParamsFrom(s, NextSegment(s, i.value), epoch, te + c.e, lr', wd', scan)
  }

  /** The walk over the string is the selection over its segments. */
  lemma {:induction false} ParamsAreSelect(s: string, i: nat, epoch: int, te: int, lr: real, wd: real,
                                           scan: string -> Scan)
    requires i <= |s|
    ensures ParamsFrom(s, Some(i), epoch, te, lr, wd, scan) == Select(Segments(s, i, scan), epoch, te, lr, wd)
    decreases |s| - i
  {
    var c := scan(s[i..]);
    if c.count != 0 && c.count != EOF {
      var segs := Segments(s, i, scan);
      var wd' := if c.count >= 3 then c.w else wd;
      var lr' := if c.count >= 2 then c.l else lr;
      match NextSegment(s, i)
      case None =>
        assert segs == [c];
      case Some(j) =>
        assert segs[1..] == Segments(s, j, scan);
        ParamsAreSelect(s, j, epoch, te + c.e, lr', wd', scan);
    }
  }

  /**
   * get_epoch_params: lr and wd are in-out; they keep their values when the
   * schedule has nothing for them.
   */
  method GetEpochParams(sch: string, epoch: int, lr: real, wd: real, scan: string -> Scan)
    returns (lr': real, wd': real)
    ensures (lr', wd') == Select(Segments(sch, 0, scan), epoch, 0, lr, wd)
  {
    ParamsAreSelect(sch, 0, epoch, 0, lr, wd, scan);
    lr', wd' := lr, wd;
    var te := 0;
    var i: Option<nat> := Some(0);
    while i.Some?
      invariant i.Some? ==> i.value <= |sch|
      invariant ParamsFrom(sch, i, epoch, te, lr', wd', scan) == ParamsFrom(sch, Some(0), epoch, 0, lr, wd, scan)
      decreases if i.Some? then |sch| - i.value + 1 else 0
    {
      var c := scan(sch[i.value..]);
      if c.count == 0 || c.count == EOF {
        break;
      }
      te := te + c.e;
      if c.count >= 3 {
        wd' := c.w;
      }
      if c.count >= 2 {
        lr' := c.l;
      }
      if epoch < te {
        break;
      }
      i := NextComma(sch, i.value);
    }
  }

  /** The step of get_epoch_params to the segment after the next ',', or to none at the end of the string. */
  method NextComma(s: string, i: nat) returns (r: Option<nat>)
    requires i <= |s|
    ensures r == NextSegment(s, i)
  {
    var j := i;
    while j < |s| && s[j] != ','
      invariant i <= j <= |s|
      invariant AfterComma(s, j) == AfterComma(s, i)
    {
      j := j + 1;
    }
    if j == |s| || j + 1 == |s| {
      r := None;
    } else {
      r := Some(j + 1);
    }
  }

  /** The epochs the first k segments cover together. */
  function Total(segs: seq<Scan>, k: nat): int
    requires k <= |segs|
  {
    if k == 0 then 0 else Total(segs, k - 1) + segs[k - 1].e
  }

  /** Every segment gives all three values. */
  predicate Complete(segs: seq<Scan>)
  {
    forall k :: 0 <= k < |segs| ==> segs[k].count >= 3
  }

  /**
   * In a schedule of complete segments, epoch gets the rates of the first
   * segment whose cumulative epoch count exceeds it.
   */
  lemma SelectFirstCovering(segs: seq<Scan>, epoch: int, lr: real, wd: real, k: nat)
    requires Complete(segs) && k < |segs|
    requires epoch < Total(segs, k + 1)
    requires forall j :: 1 <= j <= k ==> Total(segs, j) <= epoch
    ensures Select(segs, epoch, 0, lr, wd) == (segs[k].l, segs[k].w)
  {
    SelectShift(segs, epoch, 0, lr, wd, k);
  }

  /** The walk started at te over segs, restated from the offsets Total gives. */
  lemma {:induction false} SelectShift(segs: seq<Scan>, epoch: int, te: int, lr: real, wd: real, k: nat)
    requires Complete(segs) && k < |segs|
    requires epoch < te + Total(segs, k + 1)
    requires forall j :: 1 <= j <= k ==> te + Total(segs, j) <= epoch
    ensures Select(segs, epoch, te, lr, wd) == (segs[k].l, segs[k].w)
    decreases k
  {
    var c := segs[0];
    assert Total(segs, 1) == c.e;
    if k > 0 {
      var rest := segs[1..];
      assert te + Total(segs, 1) <= epoch;
      forall j | 1 <= j <= k - 1
        ensures te + c.e + Total(rest, j) <= epoch
      {
        TotalShift(segs, j);
        assert te + Total(segs, j + 1) <= epoch;
      }
      TotalShift(segs, k);
      SelectShift(rest, epoch, te + c.e, c.l, c.w, k - 1);
    }
  }

  /** Total over the segments after the first, restated from the whole. */
  lemma {:induction false} TotalShift(segs: seq<Scan>, k: nat)
    requires k < |segs|
    ensures Total(segs, k + 1) == segs[0].e + Total(segs[1..], k)
  {
    if k > 0 {
      TotalShift(segs, k - 1);
    }
  }

  /** Past the whole schedule, the rates of its last segment stay in force. */
  lemma {:induction false} SelectPastEnd(segs: seq<Scan>, epoch: int, te: int, lr: real, wd: real)
    requires Complete(segs) && |segs| > 0
    requires forall j :: 1 <= j <= |segs| ==> te + Total(segs, j) <= epoch
    ensures Select(segs, epoch, te, lr, wd) == (segs[|segs| - 1].l, segs[|segs| - 1].w)
    decreases |segs|
  {
    var c := segs[0];
    assert Total(segs, 1) == c.e;
    assert te + Total(segs, 1) <= epoch;
    if |segs| > 1 {
      var rest := segs[1..];
      forall j | 1 <= j <= |rest|
        ensures te + c.e + Total(rest, j) <= epoch
      {
        TotalShift(segs, j);
        assert te + Total(segs, j + 1) <= epoch;
      }
      SelectPastEnd(rest, epoch, te + c.e, c.l, c.w);
    }
  }
}
