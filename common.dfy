/**
 * Shared vocabulary of the model: optional values and real-valued
 * sums that several components of the trainer fold over.
 */
module Common {
  datatype Option<T> = None | Some(value: T)

  /** Sum of a sequence of reals, folded from the front. */
  function Sum(s: seq<real>): real
  {
    if |s| == 0 then 0.0 else Sum(s[..|s| - 1]) + s[|s| - 1]
  }

  /** Extending a prefix by one entry adds that entry to its sum. */
  lemma SumPrefixStep(e: seq<real>, i: nat)
    requires i < |e|
    ensures Sum(e[..i + 1]) == Sum(e[..i]) + e[i]
  {
    assert e[..i + 1][..i] == e[..i];
  }

  /** Sum of a sequence of integers, folded from the front. */
  function SumInt(s: seq<int>): int
  {
    if |s| == 0 then 0 else SumInt(s[..|s| - 1]) + s[|s| - 1]
  }

  lemma {:induction false} SumIntNonNeg(s: seq<int>)
    requires forall i :: 0 <= i < |s| ==> s[i] >= 0
    ensures SumInt(s) >= 0
  {
    if |s| > 0 {
      SumIntNonNeg(s[..|s| - 1]);
    }
  }

  /** The sum of a concatenation is the sum of the sums. */
  lemma {:induction false} SumIntAppend(a: seq<int>, b: seq<int>)
    ensures SumInt(a + b) == SumInt(a) + SumInt(b)
    decreases |b|
  {
    if |b| > 0 {
      var n := |b| - 1;
      assert (a + b)[..|a + b| - 1] == a + b[..n];
      SumIntAppend(a, b[..n]);
    } else {
      assert a + b == a;
    }
  }

  /** Dividing every entry by s divides the sum by s. */
  lemma {:induction false} SumDivided(e: seq<real>, q: seq<real>, s: real)
    requires s != 0.0 && |q| == |e| && forall i :: 0 <= i < |e| ==> q[i] == e[i] / s
    ensures Sum(q) == Sum(e) / s
  {
    if |e| > 0 {
      SumDivided(e[..|e| - 1], q[..|q| - 1], s);
    }
  }

  /** Every entry of e multiplied by c. */
  function Times(c: real, e: seq<real>): (q: seq<real>)
    ensures |q| == |e| && forall i :: 0 <= i < |e| ==> q[i] == c * e[i]
  {
    seq(|e|, i requires 0 <= i < |e| => c * e[i])
  }

  /** Every entry of e is c times the entry of f at the same index. */
  ghost predicate InProportion(e: seq<real>, f: seq<real>, c: real)
  {
    |e| == |f| && forall i :: 0 <= i < |e| ==> e[i] == c * f[i]
  }

  /** Entries in proportion c have sums in proportion c. */
  lemma {:induction false} SumProportional(e: seq<real>, f: seq<real>, c: real)
    requires InProportion(e, f, c)
    ensures Sum(e) == c * Sum(f)
  {
    if |e| > 0 {
      var n := |e| - 1;
      assert InProportion(e[..n], f[..n], c);
      SumProportional(e[..n], f[..n], c);
      Distribute(c, Sum(f[..n]), f[n]);
    }
  }

  lemma Distribute(c: real, a: real, b: real)
    ensures c * a + c * b == c * (a + b)
  {
  }

  function Max(a: int, b: int): (m: int)
    ensures m >= a && m >= b && (m == a || m == b)
  {
    if a >= b then a else b
  }

  function Min(a: int, b: int): (m: int)
    ensures m <= a && m <= b && (m == a || m == b)
  {
    if a <= b then a else b
  }

  /** ASCII lower case, the folding strcasecmp and strncasecmp compare under. */
  function Lower(c: char): char
  {
    if 'A' <= c <= 'Z' then (c as int + 32) as char else c
  }

  /** strcasecmp(a, b) == 0: the strings are equal once both are lower-cased. */
  predicate SameIgnoringCase(a: string, b: string)
  {
    |a| == |b| && forall i :: 0 <= i < |a| ==> Lower(a[i]) == Lower(b[i])
  }

  /**
   * The C math library functions the trainer calls are uninterpreted here;
   * each is passed in as a parameter, constrained only by the range facts
   * the model relies on.
   */
  type ExpFn = f: real -> real | forall x :: f(x) > 0.0 witness (_: real) => 1.0
  type TanhFn = real -> real
  type SqrtFn = real -> real
  type LogFn = real -> real

  /** The range of tanh, assumed by those lemmas that need it. */
  ghost predicate IsTanh(tanh: TanhFn)
  {
    forall x :: -1.0 < tanh(x) < 1.0
  }
}
