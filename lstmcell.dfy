/**
 * What one LSTM layer computes (src/model/lstm.h), stated on values: the
 * gates, candidate, cell and hidden state of every time step of the
 * forward pass, and the deltas, carried gradients, weight gradients and
 * input gradients of the backward pass. The in-place class in module Lstm
 * is proved against these functions.
 */
module LstmCell {
  import opened Common
  import opened Matrix
  import opened Activation
  import opened Layer

  /** The eight weight matrices: Wf, Wi, Wc, Wo (D x S) and Uf, Ui, Uc, Uo (S x S). */
  datatype Weights = Weights(wf: Mat, wi: Mat, wc: Mat, wo: Mat, uf: Mat, ui: Mat, uc: Mat, uo: Mat)

  predicate WeightsFit(w: Weights, D: nat, S: nat)
  {
    IsMat(w.wf, D, S) && IsMat(w.wi, D, S) && IsMat(w.wc, D, S) && IsMat(w.wo, D, S) &&
    IsMat(w.uf, S, S) && IsMat(w.ui, S, S) && IsMat(w.uc, S, S) && IsMat(w.uo, S, S)
  }

  /** x @ W + hp @ U: what a gate (or the candidate) is activated from. */
  function GateInput(x: seq<real>, hp: seq<real>, W: Mat, U: Mat, S: nat): (r: seq<real>)
    requires IsMat(W, |x|, S) && IsMat(U, |hp|, S)
    ensures |r| == S
  {
    seq(S, j requires 0 <= j < S => Dot(x, Col(W, j)) + Dot(hp, Col(U, j)))
  }

  /** The values one time step produces: gates f, i, o, candidate cc, cell c, hidden h. */
  datatype Cell = Cell(f: seq<real>, i: seq<real>, o: seq<real>, cc: seq<real>, c: seq<real>, h: seq<real>)

  /** A gate: the activation of x @ W + hp @ U. */
  function Gate(x: seq<real>, hp: seq<real>, W: Mat, U: Mat, tag: char, exp: ExpFn): (r: seq<real>)
    requires IsMat(W, |x|, |hp|) && IsMat(U, |hp|, |hp|)
    ensures |r| == |hp|
  {
    ActivateRow(tag, GateInput(x, hp, W, U, |hp|), exp)
  }

  /** The candidate cell state: tanh of x @ Wc + hp @ Uc. */
  function Candidate(x: seq<real>, hp: seq<real>, W: Mat, U: Mat, tanh: TanhFn): (r: seq<real>)
    requires IsMat(W, |x|, |hp|) && IsMat(U, |hp|, |hp|)
    ensures |r| == |hp|
    ensures IsTanh(tanh) ==> forall j :: 0 <= j < |hp| ==> -1.0 < r[j] < 1.0
  {
    var pre := GateInput(x, hp, W, U, |hp|);
    seq(|hp|, j requires 0 <= j < |hp| => tanh(pre[j]))
  }

  /** The new cell state f * cp + i * cc, elementwise. */
  function CellState(f: seq<real>, i: seq<real>, cc: seq<real>, cp: seq<real>): (r: seq<real>)
    requires |f| == |cp| && |i| == |cp| && |cc| == |cp|
    ensures |r| == |cp|
  {
    seq(|cp|, j requires 0 <= j < |cp| => f[j] * cp[j] + i[j] * cc[j])
  }

  /** The new hidden state o * tanh(c), elementwise. */
  function HiddenState(o: seq<real>, c: seq<real>, tanh: TanhFn): (r: seq<real>)
    requires |o| == |c|
    ensures |r| == |c|
  {
    seq(|c|, j requires 0 <= j < |c| => o[j] * tanh(c[j]))
  }

  /**
   * One step of lstm_forward from input x, previous hidden state hp and
   * previous cell state cp: the gates f, i, o, the candidate cc, then
   * c = f * cp + i * cc and h = o * tanh(c).
   */
  function StepCell(x: seq<real>, hp: seq<real>, cp: seq<real>, w: Weights, tag: char, exp: ExpFn, tanh: TanhFn): (r: Cell)
    requires WeightsFit(w, |x|, |hp|) && |cp| == |hp|
    ensures |r.f| == |hp| && |r.i| == |hp| && |r.o| == |hp|
    ensures |r.cc| == |hp| && |r.c| == |hp| && |r.h| == |hp|
  {
    var f := Gate(x, hp, w.wf, w.uf, tag, exp);
    var i := Gate(x, hp, w.wi, w.ui, tag, exp);
    var o := Gate(x, hp, w.wo, w.uo, tag, exp);
    var cc := Candidate(x, hp, w.wc, w.uc, tanh);
    var c := CellState(f, i, cc, cp);
    Cell(f, i, o, cc, c, HiddenState(o, c, tanh))
  }

  /** A batch X of input rows fits the weights, and the initial states have S entries. */
  predicate Fits(X: Mat, w: Weights, h0: seq<real>, c0: seq<real>)
  {
    WeightsFit(w, |w.wf|, |h0|) && |c0| == |h0| && forall t :: 0 <= t < |X| ==> |X[t]| == |w.wf|
  }

  /** Time step t of the forward pass over X, started from hidden state h0 and cell state c0. */
  function CellAt(X: Mat, w: Weights, h0: seq<real>, c0: seq<real>, tag: char, exp: ExpFn, tanh: TanhFn, t: nat): (r: Cell)
    requires Fits(X, w, h0, c0) && t < |X|
    ensures |r.c| == |h0| && |r.h| == |h0|
    decreases t
  {
    if t == 0 then StepCell(X[0], h0, c0, w, tag, exp, tanh)
    else
      var p := CellAt(X, w, h0, c0, tag, exp, tanh, t - 1);
      StepCell(X[t], p.h, p.c, w, tag, exp, tanh)
  }

  /** The hidden state step t starts from: h0 for the first step, else the previous step's. */
  function HiddenBefore(X: Mat, w: Weights, h0: seq<real>, c0: seq<real>, tag: char, exp: ExpFn, tanh: TanhFn, t: nat): (r: seq<real>)
    requires Fits(X, w, h0, c0) && t <= |X|
    ensures |r| == |h0|
  {
    if t == 0 then h0 else CellAt(X, w, h0, c0, tag, exp, tanh, t - 1).h
  }

  /** The cell state step t starts from. */
  function CellBefore(X: Mat, w: Weights, h0: seq<real>, c0: seq<real>, tag: char, exp: ExpFn, tanh: TanhFn, t: nat): (r: seq<real>)
    requires Fits(X, w, h0, c0) && t <= |X|
    ensures |r| == |h0|
  {
    if t == 0 then c0 else CellAt(X, w, h0, c0, tag, exp, tanh, t - 1).c
  }

  function Abs(x: real): real
  {
    if x < 0.0 then -x else x
  }

  /** A factor strictly between 0 and 1 scales a nonnegative value down. */
  lemma ScaledDown(a: real, y: real)
    requires 0.0 < a < 1.0 && 0.0 <= y
    ensures 0.0 <= a * y <= y
  {
  }

  /** A factor strictly between 0 and 1 does not increase the magnitude. */
  lemma ShrinkingFactor(a: real, x: real)
    requires 0.0 < a < 1.0
    ensures Abs(a * x) <= Abs(x)
  {
    ScaledDown(a, Abs(x));
    assert Abs(a * x) == a * Abs(x);
  }

  /** The product of a factor in (0, 1) and a value in (-1, 1) lies in (-1, 1). */
  lemma ProductInOpenUnit(a: real, y: real)
    requires 0.0 < a < 1.0 && -1.0 < y < 1.0
    ensures -1.0 < a * y < 1.0
  {
    ScaledDown(a, Abs(y));
    assert Abs(a * y) == a * Abs(y);
  }

  predicate InUnit(v: seq<real>)
  {
    forall j :: 0 <= j < |v| ==> 0.0 < v[j] < 1.0
  }

  /** A sigmoid gate lies in (0, 1). */
  lemma SigmoidGate(x: seq<real>, hp: seq<real>, W: Mat, U: Mat, tag: char, exp: ExpFn)
    requires IsMat(W, |x|, |hp|) && IsMat(U, |hp|, |hp|) && tag == 's'
    ensures InUnit(Gate(x, hp, W, U, tag, exp))
  {
    ActivatedRange(tag, GateInput(x, hp, W, U, |hp|), exp);
  }

  /** Gates in (0, 1) and a candidate in (-1, 1) add less than 1 to the magnitude of the cell. */
  lemma CellGrowth(f: seq<real>, i: seq<real>, cc: seq<real>, cp: seq<real>)
    requires |f| == |cp| && |i| == |cp| && |cc| == |cp| && InUnit(f) && InUnit(i)
    requires forall j :: 0 <= j < |cc| ==> -1.0 < cc[j] < 1.0
    ensures forall j :: 0 <= j < |cp| ==> Abs(CellState(f, i, cc, cp)[j]) < Abs(cp[j]) + 1.0
  {
    forall j | 0 <= j < |cp|
      ensures Abs(CellState(f, i, cc, cp)[j]) < Abs(cp[j]) + 1.0
    {
      ShrinkingFactor(f[j], cp[j]);
      ProductInOpenUnit(i[j], cc[j]);
    }
  }

  lemma TanhRange(tanh: TanhFn, x: real)
    requires IsTanh(tanh)
    ensures -1.0 < tanh(x) < 1.0
  {
  }

  /** An output gate in (0, 1) keeps the hidden state in (-1, 1). */
  lemma HiddenBounded(o: seq<real>, c: seq<real>, tanh: TanhFn)
    requires |o| == |c| && InUnit(o) && IsTanh(tanh)
    ensures forall j :: 0 <= j < |c| ==> -1.0 < HiddenState(o, c, tanh)[j] < 1.0
  {
    forall j | 0 <= j < |c|
      ensures -1.0 < HiddenState(o, c, tanh)[j] < 1.0
    {
      TanhRange(tanh, c[j]);
      ProductInOpenUnit(o[j], tanh(c[j]));
    }
  }

  /** With a sigmoid output gate every hidden value of a step lies in (-1, 1). */
  lemma SigmoidHiddenStep(x: seq<real>, hp: seq<real>, cp: seq<real>, w: Weights, tag: char, exp: ExpFn, tanh: TanhFn)
    requires WeightsFit(w, |x|, |hp|) && |cp| == |hp| && tag == 's' && IsTanh(tanh)
    ensures var r := StepCell(x, hp, cp, w, tag, exp, tanh);
      forall j :: 0 <= j < |hp| ==> -1.0 < r.h[j] < 1.0
  {
    var r := StepCell(x, hp, cp, w, tag, exp, tanh);
    SigmoidGate(x, hp, w.wo, w.uo, tag, exp);
    assert r.o == Gate(x, hp, w.wo, w.uo, tag, exp);
    assert r.h == HiddenState(r.o, r.c, tanh);
    HiddenBounded(r.o, r.c, tanh);
  }

  lemma SigmoidForgetInput(x: seq<real>, hp: seq<real>, w: Weights, tag: char, exp: ExpFn, r: Cell)
    requires WeightsFit(w, |x|, |hp|) && tag == 's'
    requires r.f == Gate(x, hp, w.wf, w.uf, tag, exp) && r.i == Gate(x, hp, w.wi, w.ui, tag, exp)
    ensures InUnit(r.f) && InUnit(r.i)
  {
    SigmoidGate(x, hp, w.wf, w.uf, tag, exp);
    SigmoidGate(x, hp, w.wi, w.ui, tag, exp);
  }

  /** With sigmoid forget and input gates a step adds less than 1 to the magnitude of each cell value. */
  lemma SigmoidCellStep(x: seq<real>, hp: seq<real>, cp: seq<real>, w: Weights, tag: char, exp: ExpFn, tanh: TanhFn)
    requires WeightsFit(w, |x|, |hp|) && |cp| == |hp| && tag == 's' && IsTanh(tanh)
    ensures var r := StepCell(x, hp, cp, w, tag, exp, tanh);
      forall j :: 0 <= j < |hp| ==> Abs(r.c[j]) < Abs(cp[j]) + 1.0
  {
    var r := StepCell(x, hp, cp, w, tag, exp, tanh);
    SigmoidForgetInput(x, hp, w, tag, exp, r);
    assert r.c == CellState(r.f, r.i, r.cc, cp);
    CellGrowth(r.f, r.i, r.cc, cp);
  }

  /** Step t is the step function applied to row t and the states before it. */
  lemma CellAtIsStep(X: Mat, w: Weights, h0: seq<real>, c0: seq<real>, tag: char, exp: ExpFn, tanh: TanhFn, t: nat)
    requires Fits(X, w, h0, c0) && t < |X|
    ensures WeightsFit(w, |X[t]|, |h0|)
    ensures CellAt(X, w, h0, c0, tag, exp, tanh, t)
         == StepCell(X[t], HiddenBefore(X, w, h0, c0, tag, exp, tanh, t), CellBefore(X, w, h0, c0, tag, exp, tanh, t), w, tag, exp, tanh)
  {
  }

  /** With sigmoid gates every hidden value of every step lies in (-1, 1). */
  lemma SigmoidHiddenBounded(X: Mat, w: Weights, h0: seq<real>, c0: seq<real>, tag: char, exp: ExpFn, tanh: TanhFn, t: nat)
    requires Fits(X, w, h0, c0) && t < |X| && tag == 's' && IsTanh(tanh)
    ensures forall j :: 0 <= j < |h0| ==> -1.0 < CellAt(X, w, h0, c0, tag, exp, tanh, t).h[j] < 1.0
  {
    CellAtIsStep(X, w, h0, c0, tag, exp, tanh, t);
    SigmoidHiddenStep(X[t], HiddenBefore(X, w, h0, c0, tag, exp, tanh, t), CellBefore(X, w, h0, c0, tag, exp, tanh, t),
                      w, tag, exp, tanh);
  }

  /** Each value of c exceeds the magnitude of the matching value of cp by less than 1. */
  ghost predicate GrewLessThanOne(c: seq<real>, cp: seq<real>)
  {
    |c| == |cp| && forall j :: 0 <= j < |c| ==> Abs(c[j]) < Abs(cp[j]) + 1.0
  }

  /** With sigmoid gates step t adds less than 1 to the magnitude of each cell value it starts from. */
  lemma SigmoidCellAtStep(X: Mat, w: Weights, h0: seq<real>, c0: seq<real>, tag: char, exp: ExpFn, tanh: TanhFn, t: nat)
    requires Fits(X, w, h0, c0) && t < |X| && tag == 's' && IsTanh(tanh)
    ensures GrewLessThanOne(CellBefore(X, w, h0, c0, tag, exp, tanh, t + 1), CellBefore(X, w, h0, c0, tag, exp, tanh, t))
  {
    CellAtIsStep(X, w, h0, c0, tag, exp, tanh, t);
    SigmoidCellStep(X[t], HiddenBefore(X, w, h0, c0, tag, exp, tanh, t), CellBefore(X, w, h0, c0, tag, exp, tanh, t),
                    w, tag, exp, tanh);
  }

  /** SigmoidCellAtStep for steps 0..t. */
  lemma SigmoidGrowthSteps(X: Mat, w: Weights, h0: seq<real>, c0: seq<real>, tag: char, exp: ExpFn, tanh: TanhFn, t: nat)
    requires Fits(X, w, h0, c0) && t < |X| && tag == 's' && IsTanh(tanh)
    ensures forall k :: 0 <= k <= t ==>
      GrewLessThanOne(CellBefore(X, w, h0, c0, tag, exp, tanh, k + 1), CellBefore(X, w, h0, c0, tag, exp, tanh, k))
  {
    forall k | 0 <= k <= t
      ensures GrewLessThanOne(CellBefore(X, w, h0, c0, tag, exp, tanh, k + 1), CellBefore(X, w, h0, c0, tag, exp, tanh, k))
    {
      SigmoidCellAtStep(X, w, h0, c0, tag, exp, tanh, k);
    }
  }

  /** A forward pass whose cell values grow by less than 1 per step has grown by less than t after t steps. */
  lemma {:induction false} CellGrowthBounded(X: Mat, w: Weights, h0: seq<real>, c0: seq<real>, tag: char, exp: ExpFn, tanh: TanhFn, t: nat)
    requires Fits(X, w, h0, c0) && 0 < t <= |X|
    requires forall k :: 0 <= k < t ==>
      GrewLessThanOne(CellBefore(X, w, h0, c0, tag, exp, tanh, k + 1), CellBefore(X, w, h0, c0, tag, exp, tanh, k))
    ensures var c := CellBefore(X, w, h0, c0, tag, exp, tanh, t);
      forall j :: 0 <= j < |h0| ==> Abs(c[j]) < Abs(c0[j]) + t as real
  {
    assert GrewLessThanOne(CellBefore(X, w, h0, c0, tag, exp, tanh, t), CellBefore(X, w, h0, c0, tag, exp, tanh, t - 1));
    if t > 1 {
      CellGrowthBounded(X, w, h0, c0, tag, exp, tanh, t - 1);
    }
  }

  /**
   * With sigmoid gates the cell values grow by less than 1 per step: after
   * step t each is below the initial magnitude plus t + 1.
   */
  lemma SigmoidCellBounded(X: Mat, w: Weights, h0: seq<real>, c0: seq<real>, tag: char, exp: ExpFn, tanh: TanhFn, t: nat)
    requires Fits(X, w, h0, c0) && t < |X| && tag == 's' && IsTanh(tanh)
    ensures var c := CellAt(X, w, h0, c0, tag, exp, tanh, t).c;
      forall j :: 0 <= j < |h0| ==> Abs(c[j]) < Abs(c0[j]) + (t + 1) as real
  {
    SigmoidGrowthSteps(X, w, h0, c0, tag, exp, tanh, t);
    CellGrowthBounded(X, w, h0, c0, tag, exp, tanh, t + 1);
  }

  /**
   * The layer state lstm_forward leaves for the backward pass: f, i, o
   * (B x S), and cc, c, h ((B+1) x S, where row t+1 holds step t and row 0
   * the state before the first step).
   */
  datatype Trace = Trace(f: Mat, i: Mat, o: Mat, cc: Mat, c: Mat, h: Mat)

  /** What lstm_backward reads: the trace, dy (B x S), the input X (B x D), the weights and the tag. */
  datatype Pass = Pass(tr: Trace, dy: Mat, X: Mat, w: Weights, tag: char)

  /** The shapes of a pass: B = |dy|, D = the rows of Wf, S = the rows of Uf. */
  predicate PassFits(p: Pass)
  {
    var B := |p.dy|;
    var D := |p.w.wf|;
    var S := |p.w.uf|;
    IsMat(p.tr.f, B, S) && IsMat(p.tr.i, B, S) && IsMat(p.tr.o, B, S) &&
    IsMat(p.tr.cc, B + 1, S) && IsMat(p.tr.c, B + 1, S) && IsMat(p.tr.h, B + 1, S) &&
    IsMat(p.dy, B, S) && IsMat(p.X, B, D) && WeightsFit(p.w, D, S)
  }

  /** The gradients carried from step t to step t-1: dh_next and dc_next. */
  datatype Carry = Carry(dh: seq<real>, dc: seq<real>)

  /** The local gradients of one step. */
  datatype Deltas = Deltas(dh: seq<real>, dout: seq<real>, dc: seq<real>, dcc: seq<real>, di: seq<real>, df: seq<real>)

  /** dh = dy[t] + dh_next. */
  function HiddenDelta(dyRow: seq<real>, next: seq<real>): (r: seq<real>)
    requires |dyRow| == |next|
    ensures |r| == |next|
  {
    seq(|next|, j requires 0 <= j < |next| => dyRow[j] + next[j])
  }

  /** One entry of each delta, as lstm_backward computes it per unit j. */
  function OutputEntry(dh: real, c: real, o: real, tag: char, tanh: TanhFn): real
  {
    dh * tanh(c) * GateDerivative(tag, o)
  }

  function CellEntry(dh: real, o: real, c: real, next: real, tanh: TanhFn): real
  {
    dh * o * DTanh(tanh, c) + next
  }

  function CandidateEntry(dc: real, i: real, cc: real): real
  {
    dc * i * DTanhX(cc)
  }

  function GateEntry(dc: real, v: real, g: real, tag: char): real
  {
    dc * v * GateDerivative(tag, g)
  }

  /** One entry of an outer product, as addoutermul adds it. */
  function OuterEntry(u: real, d: real): real
  {
    u * d
  }

  /** dc_next: the forget gate times the cell delta. */
  function CellCarryEntry(f: real, dc: real): real
  {
    f * dc
  }

  /** The output gate's delta: dh * tanh(c[t]) * d_activate(o[t]). */
  function OutputDelta(dh: seq<real>, c: seq<real>, o: seq<real>, tag: char, tanh: TanhFn): (r: seq<real>)
    requires |c| == |dh| && |o| == |dh|
    ensures |r| == |dh|
  {
    seq(|dh|, j requires 0 <= j < |dh| => OutputEntry(dh[j], c[j], o[j], tag, tanh))
  }

  /** The cell's delta: dh * o[t] * d_tanh(c[t]) + dc_next. */
  function CellDelta(dh: seq<real>, o: seq<real>, c: seq<real>, next: seq<real>, tanh: TanhFn): (r: seq<real>)
    requires |o| == |dh| && |c| == |dh| && |next| == |dh|
    ensures |r| == |dh|
  {
    seq(|dh|, j requires 0 <= j < |dh| => CellEntry(dh[j], o[j], c[j], next[j], tanh))
  }

  /** The candidate's delta: dc * i[t] * d_tanh_x(cc[t]), the derivative taken through tanh's output. */
  function CandidateDelta(dc: seq<real>, i: seq<real>, cc: seq<real>): (r: seq<real>)
    requires |i| == |dc| && |cc| == |dc|
    ensures |r| == |dc|
  {
    seq(|dc|, j requires 0 <= j < |dc| => CandidateEntry(dc[j], i[j], cc[j]))
  }

  /**
   * The delta of the input gate (v = cc[t], g = i[t]) or the forget gate
   * (v = the previous cell state, g = f[t]): dc * v * d_activate(g).
   */
  function GateDelta(dc: seq<real>, v: seq<real>, g: seq<real>, tag: char): (r: seq<real>)
    requires |v| == |dc| && |g| == |dc|
    ensures |r| == |dc|
  {
    seq(|dc|, j requires 0 <= j < |dc| => GateEntry(dc[j], v[j], g[j], tag))
  }

  /** The deltas of step t given what later steps carry back. */
  function DeltasOf(p: Pass, tanh: TanhFn, t: nat, next: Carry): (d: Deltas)
    requires PassFits(p) && t < |p.dy| && |next.dh| == |p.w.uf| && |next.dc| == |p.w.uf|
    ensures |d.dh| == |p.w.uf| && |d.dout| == |p.w.uf| && |d.dc| == |p.w.uf|
    ensures |d.dcc| == |p.w.uf| && |d.di| == |p.w.uf| && |d.df| == |p.w.uf|
  {
    var tr := p.tr;
    var dh := HiddenDelta(p.dy[t], next.dh);
    var dout := OutputDelta(dh, tr.c[t + 1], tr.o[t], p.tag, tanh);
    var dc := CellDelta(dh, tr.o[t], tr.c[t + 1], next.dc, tanh);
    var dcc := CandidateDelta(dc, tr.i[t], tr.cc[t + 1]);
    var di := GateDelta(dc, tr.cc[t + 1], tr.i[t], p.tag);
    var df := GateDelta(dc, tr.c[t], tr.f[t], p.tag);
    Deltas(dh, dout, dc, dcc, di, df)
  }

  /** The gate deltas in the order of the gradient buffers: f, i, c, o. */
  function Gates(d: Deltas): (g: seq<seq<real>>)
    ensures |g| == 4
  {
    [d.df, d.di, d.dcc, d.dout]
  }

  /** The first n deltas of ds can be multiplied into row j of each of the first n matrices of ms. */
  predicate InnerFits(ds: seq<seq<real>>, ms: seq<Mat>, j: nat, n: nat)
  {
    n <= |ds| && n <= |ms| && forall k :: 0 <= k < n ==> j < |ms[k]| && |ms[k][j]| == |ds[k]|
  }

  /** Sum over the first n deltas of ds[k] @ ms[k]^T, entry j: what addinnermul accumulates. */
  function InnerSum(ds: seq<seq<real>>, ms: seq<Mat>, j: nat, n: nat): real
    requires InnerFits(ds, ms, j, n)
  {
    if n == 0 then 0.0 else InnerSum(ds, ms, j, n - 1) + Dot(ds[n - 1], ms[n - 1][j])
  }

  /** What step t passes back: dh_next = the gate deltas through the U matrices, dc_next = f[t] * dc. */
  function NextCarry(p: Pass, t: nat, d: Deltas): (r: Carry)
    requires PassFits(p) && t < |p.dy|
    requires |d.dc| == |p.w.uf| && |d.dcc| == |p.w.uf| && |d.di| == |p.w.uf| && |d.df| == |p.w.uf| && |d.dout| == |p.w.uf|
    ensures |r.dh| == |p.w.uf| && |r.dc| == |p.w.uf|
  {
    var S := |p.w.uf|;
    var us := [p.w.uf, p.w.ui, p.w.uc, p.w.uo];
    Carry(seq(S, j requires 0 <= j < S => InnerSum(Gates(d), us, j, 4)),
          seq(S, j requires 0 <= j < S => CellCarryEntry(p.tr.f[t][j], d.dc[j])))
  }

  /** S zeros. */
  function Zeros(S: nat): (z: seq<real>)
    ensures |z| == S && forall j :: 0 <= j < S ==> z[j] == 0.0
  {
    seq(S, _ => 0.0)
  }

  /** What reaches step t-1 after steps B-1 down to t: nothing at t = B. */
  function CarryAt(p: Pass, tanh: TanhFn, t: nat): (r: Carry)
    requires PassFits(p) && t <= |p.dy|
    ensures |r.dh| == |p.w.uf| && |r.dc| == |p.w.uf|
    decreases |p.dy| - t
  {
    if t == |p.dy| then Carry(Zeros(|p.w.uf|), Zeros(|p.w.uf|))
    else NextCarry(p, t, DeltasOf(p, tanh, t, CarryAt(p, tanh, t + 1)))
  }

  /** The deltas of step t in the backward pass. */
  function DeltasAt(p: Pass, tanh: TanhFn, t: nat): (d: Deltas)
    requires PassFits(p) && t < |p.dy|
    ensures |d.dh| == |p.w.uf| && |d.dout| == |p.w.uf| && |d.dc| == |p.w.uf|
    ensures |d.dcc| == |p.w.uf| && |d.di| == |p.w.uf| && |d.df| == |p.w.uf|
  {
    DeltasOf(p, tanh, t, CarryAt(p, tanh, t + 1))
  }

  /** Row t of the input gradient: the gate deltas through the W matrices. */
  function InputGrad(p: Pass, tanh: TanhFn, t: nat): (r: seq<real>)
    requires PassFits(p) && t < |p.dy|
    ensures |r| == |p.w.wf|
  {
    var ws := [p.w.wf, p.w.wi, p.w.wc, p.w.wo];
    seq(|p.w.wf|, j requires 0 <= j < |p.w.wf| => InnerSum(Gates(DeltasAt(p, tanh, t)), ws, j, 4))
  }

  /** The rows of gradient buffer k (Wf, Wi, Wc, Wo, Uf, Ui, Uc, Uo): D for the W's, S for the U's. */
  function GradRows(p: Pass, k: nat): nat
  {
    if k < 4 then |p.w.wf| else |p.w.uf|
  }

  /**
   * Entry (a, b) of gradient buffer k over steps t..B-1: the sum of the
   * outer products of the step's input (x[t] for the W's, the previous
   * hidden state for the U's) with the matching gate delta.
   */
  function GradFrom(p: Pass, tanh: TanhFn, k: nat, a: nat, b: nat, t: nat): real
    requires PassFits(p) && t <= |p.dy| && k < 8 && a < GradRows(p, k) && b < |p.w.uf|
    decreases |p.dy| - t
  {
    if t == |p.dy| then 0.0
    else
      var input := if k < 4 then p.X[t][a] else p.tr.h[t][a];
      GradFrom(p, tanh, k, a, b, t + 1) + OuterEntry(input, Gates(DeltasAt(p, tanh, t))[k % 4][b])
  }

  predicate AllZero(v: seq<real>)
  {
    forall j :: 0 <= j < |v| ==> v[j] == 0.0
  }

  lemma {:induction false} InnerSumZero(ds: seq<seq<real>>, ms: seq<Mat>, j: nat, n: nat)
    requires InnerFits(ds, ms, j, n)
    requires forall k :: 0 <= k < n ==> AllZero(ds[k])
    ensures InnerSum(ds, ms, j, n) == 0.0
  {
    if n > 0 {
      InnerSumZero(ds, ms, j, n - 1);
      DotZeroLeft(ds[n - 1], ms[n - 1][j]);
    }
  }

  /** No upstream gradient: nothing is carried back and every delta is zero. */
  lemma {:induction false} ZeroUpstreamCarry(p: Pass, tanh: TanhFn, t: nat)
    requires PassFits(p) && t <= |p.dy| && forall s :: 0 <= s < |p.dy| ==> AllZero(p.dy[s])
    ensures AllZero(CarryAt(p, tanh, t).dh) && AllZero(CarryAt(p, tanh, t).dc)
    ensures t < |p.dy| ==> forall k :: 0 <= k < 4 ==> AllZero(Gates(DeltasAt(p, tanh, t))[k])
    decreases |p.dy| - t
  {
    if t < |p.dy| {
      ZeroUpstreamCarry(p, tanh, t + 1);
      var d := DeltasAt(p, tanh, t);
      assert AllZero(d.dh);
      assert AllZero(d.dc);
      var gs := Gates(d);
      assert forall k :: 0 <= k < 4 ==> AllZero(gs[k]);
      var us := [p.w.uf, p.w.ui, p.w.uc, p.w.uo];
      forall j | 0 <= j < |p.w.uf|
        ensures InnerSum(gs, us, j, 4) == 0.0
      {
        InnerSumZero(gs, us, j, 4);
      }
    }
  }

  /** No upstream gradient: every weight gradient entry is zero from step t on. */
  lemma {:induction false} ZeroUpstreamGradient(p: Pass, tanh: TanhFn, k: nat, a: nat, b: nat, t: nat)
    requires PassFits(p) && forall s :: 0 <= s < |p.dy| ==> AllZero(p.dy[s])
    requires t <= |p.dy| && k < 8 && a < GradRows(p, k) && b < |p.w.uf|
    ensures GradFrom(p, tanh, k, a, b, t) == 0.0
    decreases |p.dy| - t
  {
    if t < |p.dy| {
      ZeroUpstreamGradient(p, tanh, k, a, b, t + 1);
      ZeroUpstreamCarry(p, tanh, t);
      var g := Gates(DeltasAt(p, tanh, t))[k % 4];
      assert g[b] == 0.0;
    }
  }

  /** No upstream gradient: the input gradient of every step is zero. */
  lemma ZeroUpstreamInput(p: Pass, tanh: TanhFn, t: nat)
    requires PassFits(p) && forall s :: 0 <= s < |p.dy| ==> AllZero(p.dy[s])
    requires t < |p.dy|
    ensures AllZero(InputGrad(p, tanh, t))
  {
    ZeroUpstreamCarry(p, tanh, t);
    var gs := Gates(DeltasAt(p, tanh, t));
    var ws := [p.w.wf, p.w.wi, p.w.wc, p.w.wo];
    forall j | 0 <= j < |p.w.wf|
      ensures InnerSum(gs, ws, j, 4) == 0.0
    {
      InnerSumZero(gs, ws, j, 4);
    }
  }
}
