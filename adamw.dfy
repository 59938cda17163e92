/**
 * AdamW: Adam with decoupled weight decay. One update rule moves a weight,
 * its first moment m and its second moment v from the weight's gradient;
 * adamw_update applies it to every element of a weight matrix after
 * clipping the gradient matrix in place.
 */
module AdamW {
  import opened Common
  import opened Clip

  const Beta1: real := 0.9
  const Beta2: real := 0.999
  const Epsilon: real := 0.0000001

  /** The band adamw_update clips every gradient into before the updates. */
  const GradMin: real := 0.000000000001
  const GradMax: real := 10.0

  /** One weight together with its two moments. */
  datatype Moments = Moments(w: real, m: real, v: real)

  /** A product of two numbers in [0, 1] lies in [0, a]. */
  lemma ProductInUnit(a: real, b: real)
    requires 0.0 <= a <= 1.0 && 0.0 <= b <= 1.0
    ensures 0.0 <= a * b <= a
  {
    assert a * (1.0 - b) >= 0.0;
  }

  /** pow(b, n) for a step number n. */
  function Pow(b: real, n: nat): (p: real)
    ensures 0.0 <= b <= 1.0 ==> 0.0 <= p <= 1.0
    ensures 0.0 <= b < 1.0 && n >= 1 ==> p <= b
  {
    if n == 0 then 1.0
    else
      var q := Pow(b, n - 1);
      assert n == 1 ==> q == 1.0;
      assert 0.0 <= b < 1.0 && n >= 2 ==> q <= b;
      if 0.0 <= b <= 1.0 then ProductInUnit(b, q); b * q else b * q
  }

  /** Dividing by a positive number keeps the sign. */
  lemma QuotientSign(x: real, d: real)
    requires d > 0.0
    ensures x >= 0.0 ==> x / d >= 0.0
    ensures x > 0.0 ==> x / d > 0.0
    ensures x < 0.0 ==> x / d < 0.0
  {
    var q := x / d;
    assert q * d == x;
    if q < 0.0 { assert q * d < 0.0; }
    if q > 0.0 { assert q * d > 0.0; }
  }

  /** The bias-correction divisor 1 - beta^n is positive from the first step on. */
  lemma CorrectionPositive(beta: real, n: nat)
    requires 0.0 <= beta < 1.0 && n >= 1
    ensures 1.0 - Pow(beta, n) > 0.0
  {
  }

  /** x * x is never negative. */
  lemma SquareNonNegative(x: real)
    ensures x * x >= 0.0
  {
  }

  /** The first-moment update: an exponential average of the gradients. */
  function FirstMoment(m: real, g: real): (r: real)
    ensures m == g ==> r == g
  {
    Beta1 * m + (1.0 - Beta1) * g
  }

  /** The second-moment update: an exponential average of the squared gradients. */
  function SecondMoment(v: real, g: real): (r: real)
    ensures v >= 0.0 ==> r >= 0.0
  {
    SquareNonNegative(g);
    Beta2 * v + (1.0 - Beta2) * g * g
  }

  /** A moment divided by its bias correction 1 - beta^n. */
  function Corrected(x: real, beta: real, n: nat): (r: real)
    requires 0.0 <= beta < 1.0 && n >= 1
    ensures x >= 0.0 ==> r >= 0.0
    ensures x > 0.0 ==> r > 0.0
    ensures x < 0.0 ==> r < 0.0
  {
    CorrectionPositive(beta, n);
    QuotientSign(x, 1.0 - Pow(beta, n));
    x / (1.0 - Pow(beta, n))
  }

  /** sqrt is a square root: it is never negative on a nonnegative argument. */
  ghost predicate IsRoot(sqrt: real -> real)
  {
    forall x :: 0.0 <= x ==> 0.0 <= sqrt(x)
  }

  /**
   * The AdamW rule for one element at step n: None when the second moment
   * is negative on entry (the rule aborts), otherwise the new weight and
   * moments.
   */
  function Step(e: Moments, g: real, lr: real, wd: real, n: nat, sqrt: real -> real): (r: Option<Moments>)
    requires n >= 1 && IsRoot(sqrt)
    ensures r.None? <==> e.v < 0.0
    ensures r.Some? ==> r.value.v >= 0.0
    ensures r.Some? ==> r.value.m == FirstMoment(e.m, g) && r.value.v == SecondMoment(e.v, g)
  {
    if e.v < 0.0 then None
    else
      var m := FirstMoment(e.m, g);
      var v := SecondMoment(e.v, g);
      var vh := Corrected(v, Beta2, n);
      assert sqrt(vh) >= 0.0;
      var ag := Corrected(m, Beta1, n) / (sqrt(vh) + Epsilon);
      Some(Moments(e.w - lr * (ag + wd * e.w), m, v))
  }

  /** The step applied to gradients gs at steps n, n+1, ...; None once a step aborts. */
  function Run(e: Moments, gs: seq<real>, lr: real, wd: real, n: nat, sqrt: real -> real): (r: Option<Moments>)
    requires n >= 1 && IsRoot(sqrt)
    decreases |gs|
  {
    if |gs| == 0 then Some(e)
    else match Step(e, gs[0], lr, wd, n, sqrt)
      case None => None
      case Some(e') => Run(e', gs[1..], lr, wd, n + 1, sqrt)
  }

  /**
   * Starting from a nonnegative second moment the rule never aborts, however
   * many steps are taken: the abort guards against corrupted state only.
   */
  lemma {:induction false} RunNeverAborts(e: Moments, gs: seq<real>, lr: real, wd: real, n: nat, sqrt: real -> real)
    requires n >= 1 && IsRoot(sqrt) && e.v >= 0.0
    ensures Run(e, gs, lr, wd, n, sqrt).Some?
    ensures Run(e, gs, lr, wd, n, sqrt).value.v >= 0.0
    decreases |gs|
  {
    if |gs| > 0 {
      var e' := Step(e, gs[0], lr, wd, n, sqrt).value;
      RunNeverAborts(e', gs[1..], lr, wd, n + 1, sqrt);
    }
  }

  /**
   * On the first step from zero moments the bias correction is exact: the
   * corrected moments are the gradient and its square.
   */
  lemma FirstStepUnbiased(g: real)
    ensures Corrected(FirstMoment(0.0, g), Beta1, 1) == g
    ensures Corrected(SecondMoment(0.0, g), Beta2, 1) == g * g
  {
  }

  /**
   * The adaptive part of the step moves the weight against the sign of the
   * new first moment; what remains is the decoupled decay lr * wd * w.
   */
  lemma StepAgainstMoment(e: Moments, g: real, lr: real, wd: real, n: nat, sqrt: real -> real)
    requires n >= 1 && IsRoot(sqrt) && e.v >= 0.0 && lr > 0.0
    ensures var r := Step(e, g, lr, wd, n, sqrt).value;
      var decayed := e.w - lr * wd * e.w;
      (r.m > 0.0 ==> r.w < decayed) && (r.m < 0.0 ==> r.w > decayed) && (r.m == 0.0 ==> r.w == decayed)
  {
    var m := FirstMoment(e.m, g);
    var vh := Corrected(SecondMoment(e.v, g), Beta2, n);
    assert sqrt(vh) >= 0.0;
    var mh := Corrected(m, Beta1, n);
    var ag := mh / (sqrt(vh) + Epsilon);
    assert m > 0.0 ==> ag > 0.0;
    assert m < 0.0 ==> ag < 0.0;
    assert lr * (ag + wd * e.w) == lr * ag + lr * wd * e.w;
  }

  /** With no gradient and no momentum the step is pure weight decay. */
  lemma ZeroGradientDecays(w: real, v: real, lr: real, wd: real, n: nat, sqrt: real -> real)
    requires n >= 1 && IsRoot(sqrt) && v >= 0.0
    ensures Step(Moments(w, 0.0, v), 0.0, lr, wd, n, sqrt) == Some(Moments(w * (1.0 - lr * wd), 0.0, Beta2 * v))
  {
    assert FirstMoment(0.0, 0.0) == 0.0;
    assert SecondMoment(v, 0.0) == Beta2 * v;
    var vh := Corrected(SecondMoment(v, 0.0), Beta2, n);
    assert sqrt(vh) >= 0.0;
    assert Corrected(0.0, Beta1, n) == 0.0;
    assert 0.0 / (sqrt(vh) + Epsilon) == 0.0;
    assert w - lr * (0.0 + wd * w) == w * (1.0 - lr * wd);
    var r := Step(Moments(w, 0.0, v), 0.0, lr, wd, n, sqrt);
    assert r.value.m == 0.0;
    assert r.value.v == Beta2 * v;
    assert r.value.w == w - lr * (0.0 + wd * w);
  }

  /** The adamw rule on element (i, j), in place; false when it aborts on a negative v. */
  method UpdateElement(w: array2<real>, g: array2<real>, m: array2<real>, v: array2<real>, i: nat, j: nat,
                       lr: real, wd: real, n: nat, sqrt: real -> real)
    returns (ok: bool)
    requires w != m && w != v && m != v && g != w && g != m && g != v
    requires i < w.Length0 && j < w.Length1
    requires g.Length0 == m.Length0 == v.Length0 == w.Length0
    requires g.Length1 == m.Length1 == v.Length1 == w.Length1
    requires n >= 1 && IsRoot(sqrt)
    modifies w, m, v
    ensures ok <==> old(v[i, j]) >= 0.0
    ensures !ok ==> v[i, j] == old(v[i, j])
    ensures ok ==> Step(Moments(old(w[i, j]), old(m[i, j]), old(v[i, j])), g[i, j], lr, wd, n, sqrt)
                   == Some(Moments(w[i, j], m[i, j], v[i, j]))
    ensures forall i', j' :: 0 <= i' < w.Length0 && 0 <= j' < w.Length1 && (i' != i || j' != j) ==>
      w[i', j'] == old(w[i', j']) && m[i', j'] == old(m[i', j']) && v[i', j'] == old(v[i', j'])
  {
    if v[i, j] < 0.0 {
      return false;
    }
    var gij := g[i, j];
    m[i, j] := FirstMoment(m[i, j], gij);
    v[i, j] := SecondMoment(v[i, j], gij);
    var mh := Corrected(m[i, j], Beta1, n);
    var vh := Corrected(v[i, j], Beta2, n);
    assert sqrt(vh) >= 0.0;
    var ag := mh / (sqrt(vh) + Epsilon);
    w[i, j] := w[i, j] - lr * (ag + wd * w[i, j]);
    ok := true;
    assert Step(Moments(old(w[i, j]), old(m[i, j]), old(v[i, j])), gij, lr, wd, n, sqrt).value.m == m[i, j];
    assert Step(Moments(old(w[i, j]), old(m[i, j]), old(v[i, j])), gij, lr, wd, n, sqrt).value.v == v[i, j];
    assert Step(Moments(old(w[i, j]), old(m[i, j]), old(v[i, j])), gij, lr, wd, n, sqrt).value.w == w[i, j];
  }

  /**
   * adamw_update: clips the gradients in place, then applies the rule to
   * every element of the M x N matrices, each independently. It reports
   * false when some second moment was negative (the program exits there).
   */
  method AdamWUpdate(w: array2<real>, g: array2<real>, m: array2<real>, v: array2<real>,
                     lr: real, wd: real, n: nat, sqrt: real -> real)
    returns (ok: bool)
    requires w != m && w != v && m != v && g != w && g != m && g != v
    requires g.Length0 == m.Length0 == v.Length0 == w.Length0
    requires g.Length1 == m.Length1 == v.Length1 == w.Length1
    requires n >= 1 && IsRoot(sqrt)
    modifies w, g, m, v
    ensures forall i, j :: 0 <= i < g.Length0 && 0 <= j < g.Length1 ==>
      g[i, j] == ClipValue(old(g[i, j]), GradMin, GradMax)
    ensures ok <==> forall i, j :: 0 <= i < v.Length0 && 0 <= j < v.Length1 ==> old(v[i, j]) >= 0.0
    ensures ok ==> forall i, j :: 0 <= i < w.Length0 && 0 <= j < w.Length1 ==>
      Step(Moments(old(w[i, j]), old(m[i, j]), old(v[i, j])), g[i, j], lr, wd, n, sqrt)
        == Some(Moments(w[i, j], m[i, j], v[i, j]))
  {
    ClipGradients(g, GradMin, GradMax);
    var i := 0;
    while i < w.Length0
      invariant 0 <= i <= w.Length0
      invariant forall i', j :: 0 <= i' < g.Length0 && 0 <= j < g.Length1 ==>
        g[i', j] == ClipValue(old(g[i', j]), GradMin, GradMax)
      invariant forall i', j :: 0 <= i' < i && 0 <= j < w.Length1 ==>
        old(v[i', j]) >= 0.0 &&
        Step(Moments(old(w[i', j]), old(m[i', j]), old(v[i', j])), g[i', j], lr, wd, n, sqrt)
          == Some(Moments(w[i', j], m[i', j], v[i', j]))
      invariant forall i', j :: i <= i' < w.Length0 && 0 <= j < w.Length1 ==>
        w[i', j] == old(w[i', j]) && m[i', j] == old(m[i', j]) && v[i', j] == old(v[i', j])
    {
      ok := UpdateRow(w, g, m, v, i, lr, wd, n, sqrt);
      if !ok {
        return;
      }
      i := i + 1;
    }
    ok := true;
  }

  /** The inner loop of adamw_update over row i. */
  method UpdateRow(w: array2<real>, g: array2<real>, m: array2<real>, v: array2<real>, i: nat,
                   lr: real, wd: real, n: nat, sqrt: real -> real)
    returns (ok: bool)
    requires w != m && w != v && m != v && g != w && g != m && g != v
    requires i < w.Length0
    requires g.Length0 == m.Length0 == v.Length0 == w.Length0
    requires g.Length1 == m.Length1 == v.Length1 == w.Length1
    requires n >= 1 && IsRoot(sqrt)
    modifies w, m, v
    ensures ok <==> forall j :: 0 <= j < w.Length1 ==> old(v[i, j]) >= 0.0
    ensures !ok ==> exists j :: 0 <= j < w.Length1 && v[i, j] == old(v[i, j]) < 0.0
    ensures ok ==> forall j :: 0 <= j < w.Length1 ==>
      Step(Moments(old(w[i, j]), old(m[i, j]), old(v[i, j])), g[i, j], lr, wd, n, sqrt)
        == Some(Moments(w[i, j], m[i, j], v[i, j]))
    ensures forall i', j :: 0 <= i' < w.Length0 && 0 <= j < w.Length1 && i' != i ==>
      w[i', j] == old(w[i', j]) && m[i', j] == old(m[i', j]) && v[i', j] == old(v[i', j])
  {
    var j := 0;
    while j < w.Length1
      invariant 0 <= j <= w.Length1
      invariant forall j' :: 0 <= j' < j ==>
        old(v[i, j']) >= 0.0 &&
        Step(Moments(old(w[i, j']), old(m[i, j']), old(v[i, j'])), g[i, j'], lr, wd, n, sqrt)
          == Some(Moments(w[i, j'], m[i, j'], v[i, j']))
      invariant forall i', j' :: 0 <= i' < w.Length0 && 0 <= j' < w.Length1 && (i' != i || j' >= j) ==>
        w[i', j'] == old(w[i', j']) && m[i', j'] == old(m[i', j']) && v[i', j'] == old(v[i', j'])
    {
      ok := UpdateElement(w, g, m, v, i, j, lr, wd, n, sqrt);
      if !ok {
        assert v[i, j] == old(v[i, j]) < 0.0;
        return;
      }
      j := j + 1;
    }
    ok := true;
  }
}
