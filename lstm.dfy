/**
 * The LSTM layer (src/model/lstm.c, src/model/lstm.h) as the object the C
 * code updates in place: eight weight matrices, the per-step buffers the
 * forward pass fills and the backward pass reads, and the hidden and cell
 * state kept from one batch to the next. Each pass is proved against the
 * value model of module LstmCell.
 */
module Lstm {
  import opened Common
  import opened Matrix
  import opened Activation
  import opened Layer
  import opened LstmCell

  /**
   * What lstm_init allocates once and lstm_set_batch_size keeps: the eight
   * weight matrices Wf, Wi, Wc, Wo (D x S) and Uf, Ui, Uc, Uo (S x S), and
   * the hidden and cell state ph, pc carried from the last step of one
   * batch to the next. The arrays are fixed once allocated; their entries
   * change.
   */
  class Params {
    const D: nat
    const S: nat
    const Wf: array2<real>
    const Wi: array2<real>
    const Wc: array2<real>
    const Wo: array2<real>
    const Uf: array2<real>
    const Ui: array2<real>
    const Uc: array2<real>
    const Uo: array2<real>
    const ph: array<real>
    const pc: array<real>

    ghost predicate Valid()
    {
      Wf.Length0 == D && Wf.Length1 == S && Wi.Length0 == D && Wi.Length1 == S &&
      Wc.Length0 == D && Wc.Length1 == S && Wo.Length0 == D && Wo.Length1 == S &&
      Uf.Length0 == S && Uf.Length1 == S && Ui.Length0 == S && Ui.Length1 == S &&
      Uc.Length0 == S && Uc.Length1 == S && Uo.Length0 == S && Uo.Length1 == S &&
      Wf != Wi && Wf != Wc && Wf != Wo && Wf != Uf && Wf != Ui && Wf != Uc && Wf != Uo &&
      Wi != Wc && Wi != Wo && Wi != Uf && Wi != Ui && Wi != Uc && Wi != Uo && Wc != Wo &&
      Wc != Uf && Wc != Ui && Wc != Uc && Wc != Uo && Wo != Uf && Wo != Ui && Wo != Uc &&
      Wo != Uo && Uf != Ui && Uf != Uc && Uf != Uo && Ui != Uc && Ui != Uo && Uc != Uo &&
      ph.Length == S && pc.Length == S && ph != pc
    }

    /** A buffer that is none of the weight matrices. */
    ghost predicate Apart(a: array2<real>)
    {
      a != Wf && a != Wi && a != Wc && a != Wo && a != Uf && a != Ui && a != Uc && a != Uo
    }

    /** The weights as values. */
    ghost function Value(): (w: Weights)
      reads Wf, Wi, Wc, Wo, Uf, Ui, Uc, Uo
      requires Valid()
      ensures WeightsFit(w, D, S)
    {
      Weights(Snap(Wf), Snap(Wi), Snap(Wc), Snap(Wo), Snap(Uf), Snap(Ui), Snap(Uc), Snap(Uo))
    }

    /** The carried state is zero. */
    ghost predicate Forgotten()
      reads ph, pc
    {
      (forall j :: 0 <= j < ph.Length ==> ph[j] == 0.0) && (forall j :: 0 <= j < pc.Length ==> pc[j] == 0.0)
    }

    /**
     * The allocations of lstm_init: the weights (whose random initial
     * values are not modelled) and the zeroed carried state, all apart
     * from the per-batch buffers st allocated just before.
     */
    constructor (inputDim: nat, units: nat, st: Steps)
      ensures Valid() && D == inputDim && S == units && Forgotten()
      ensures Apart(st.f) && Apart(st.i) && Apart(st.o) && Apart(st.cc) && Apart(st.c) && Apart(st.h)
    {
      D := inputDim;
      S := units;
      Wf := new real[inputDim, units];
      Wi := new real[inputDim, units];
      Wc := new real[inputDim, units];
      Wo := new real[inputDim, units];
      Uf := new real[units, units];
      Ui := new real[units, units];
      Uc := new real[units, units];
      Uo := new real[units, units];
      ph := new real[units](_ => 0.0);
      pc := new real[units](_ => 0.0);
    }
  }

  /**
   * The per-batch buffers the forward pass fills and the backward pass
   * reads: gates f, i, o (B x S), and candidate cc, cell c and hidden h
   * ((B+1) x S), where row t+1 holds step t and row 0 the state before
   * step 0. lstm_init and lstm_set_batch_size allocate them zeroed.
   */
  class Steps {
    const B: nat
    const S: nat
    const f: array2<real>
    const i: array2<real>
    const o: array2<real>
    const cc: array2<real>
    const c: array2<real>
    const h: array2<real>

    ghost predicate Valid()
    {
      f.Length0 == B && f.Length1 == S && i.Length0 == B && i.Length1 == S && o.Length0 == B && o.Length1 == S &&
      cc.Length0 == B + 1 && cc.Length1 == S && c.Length0 == B + 1 && c.Length1 == S &&
      h.Length0 == B + 1 && h.Length1 == S &&
      f != i && f != o && f != cc && f != c && f != h && i != o && i != cc && i != c && i != h &&
      o != cc && o != c && o != h && cc != c && cc != h && c != h
    }

    /** An array that is none of the buffers. */
    ghost predicate Outside(a: array2<real>)
    {
      a != f && a != i && a != o && a != cc && a != c && a != h
    }

    /** Every buffer holds zeros. */
    ghost predicate Cleared()
      reads f, i, o, cc, c, h
    {
      IsZero(f) && IsZero(i) && IsZero(o) && IsZero(cc) && IsZero(c) && IsZero(h)
    }

    /** Fresh zeroed buffers, apart from the weights of p when there are any. */
    constructor (batchSize: nat, units: nat, p: Params?)
      ensures Valid() && B == batchSize && S == units && Cleared()
      ensures p != null ==> p.Apart(f) && p.Apart(i) && p.Apart(o) && p.Apart(cc) && p.Apart(c) && p.Apart(h)
    {
      B := batchSize;
      S := units;
      f := new real[batchSize, units]((_, _) => 0.0);
      i := new real[batchSize, units]((_, _) => 0.0);
      o := new real[batchSize, units]((_, _) => 0.0);
      cc := new real[batchSize + 1, units]((_, _) => 0.0);
      c := new real[batchSize + 1, units]((_, _) => 0.0);
      h := new real[batchSize + 1, units]((_, _) => 0.0);
    }

    /** The fltclr calls of lstm_set_batch_size for an unchanged batch size. */
    method Clear()
      requires Valid()
      modifies f, i, o, cc, c, h
      ensures Cleared()
    {
      Matrix.Clear(f);
      Matrix.Clear(i);
      Matrix.Clear(o);
      Matrix.Clear(cc);
      Matrix.Clear(h);
      Matrix.Clear(c);
    }
  }

  /**
   * An LSTM layer (struct lstm_s). Its buffers sit in two objects that
   * follow the two lifetimes the C code gives them: Params, allocated by
   * lstm_init, and Steps, replaced by lstm_set_batch_size.
   */
  class Lstm {
    /** Number of units (the size of the hidden state). */
    const S: nat
    const activation: char
    /** Whether the state of the last step is carried into the next batch. */
    const stateful: bool
    /** Input dimension (with the bias) and batch size; both 0 until Init. */
    var D: nat
    var B: nat
    var p: Params
    var st: Steps

    /** The shapes of every buffer, and the per-batch buffers apart from the weights. */
    ghost predicate Valid()
      reads this
    {
      IsActivation(activation) &&
      p.Valid() && p.D == D && p.S == S && st.Valid() && st.B == B && st.S == S &&
      p.Apart(st.f) && p.Apart(st.i) && p.Apart(st.o) && p.Apart(st.cc) && p.Apart(st.c) && p.Apart(st.h)
    }

    /** The state lstm_create leaves: units, tag and the stateful flag; nothing sized yet. */
    constructor (units: nat, tag: char, keepState: bool)
      requires IsActivation(tag)
      ensures Valid() && S == units && activation == tag && stateful == keepState && D == 0 && B == 0
    {
      S := units;
      activation := tag;
      stateful := keepState;
      D := 0;
      B := 0;
      var ns := new Steps(0, units, null);
      st := ns;
      p := new Params(0, units, ns);
    }

    /**
     * lstm_init: sets D and B, allocates the weights, the per-batch buffers
     * zeroed and the carried state zeroed.
     */
    method Init(inputDim: nat, batchSize: nat)
      requires Valid()
      modifies this
      ensures Valid() && D == inputDim && B == batchSize
      ensures st.Cleared() && p.Forgotten()
    {
      var ns := new Steps(batchSize, S, null);
      var np := new Params(inputDim, S, ns);
      D, B, p, st := inputDim, batchSize, np, ns;
    }

    /**
     * lstm_set_batch_size: nothing before Init (B == 0); a new size
     * reallocates the per-batch buffers zeroed, the same size clears them.
     * The weights and the carried state are left alone.
     */
    method SetBatchSize(batchSize: nat)
      requires Valid()
      modifies this, st.f, st.i, st.o, st.cc, st.c, st.h
      ensures Valid() && D == old(D) && p == old(p)
      ensures old(B) == 0 ==> B == 0 && st == old(st) && unchanged(st.f, st.i, st.o, st.cc, st.c, st.h)
      ensures old(B) != 0 ==> B == batchSize && st.Cleared()
      ensures old(B) != 0 && batchSize != old(B) ==> fresh(st)
    {
      if B == 0 {
        return;
      }
      if batchSize != B {
        var ns := new Steps(batchSize, S, p);
        B, st := batchSize, ns;
      } else {
        st.Clear();
      }
    }

    /**
     * lstm_forward over the batch x (B x D): clears the buffers, starts
     * from the carried state when stateful and from zeros otherwise, runs
     * every time step, and carries the state of the last step into ph and
     * pc. The buffers end up holding CellAt for every step.
     */
    method Forward(x: array2<real>, exp: ExpFn, tanh: TanhFn)
      requires Valid() && x.Length0 == B && x.Length1 == D && st.Outside(x)
      modifies st.f, st.i, st.o, st.cc, st.c, st.h, p.ph, p.pc
      ensures Forwarded(st, p, x, Initial(stateful, old(p.ph[..]), S), Initial(stateful, old(p.pc[..]), S), activation, exp, tanh, B)
      ensures p.ph[..] == HiddenBefore(Snap(x), p.Value(), Initial(stateful, old(p.ph[..]), S), Initial(stateful, old(p.pc[..]), S), activation, exp, tanh, B)
      ensures p.pc[..] == CellBefore(Snap(x), p.Value(), Initial(stateful, old(p.ph[..]), S), Initial(stateful, old(p.pc[..]), S), activation, exp, tanh, B)
    {
      ghost var h0, c0 := Initial(stateful, p.ph[..], S), Initial(stateful, p.pc[..], S);
      assert Shaped(st, p, x);
      StartForward(st, p, x, stateful, activation, exp, tanh);
      var t := 0;
      while t < B
        invariant t <= B
        invariant Forwarded(st, p, x, h0, c0, activation, exp, tanh, t)
      {
        ForwardStep(st, p, x, t, h0, c0, activation, exp, tanh);
        t := t + 1;
      }
      SaveState(st, p, x, h0, c0, activation, exp, tanh);
    }

    /**
     * lstm_backward: from dy (B x S), the input x (B x D) and the state the
     * forward pass left, the eight weight gradients into g (cleared first),
     * the input gradient into dx when it is present, and the state of the
     * last step carried into ph and pc.
     */
    method Backward(dy: array2<real>, x: array2<real>, g: seq<array2<real>>, dx: array2?<real>, tanh: TanhFn)
      requires Valid() && BackShaped(st, p, x, dy, g, dx)
      modifies g[0], g[1], g[2], g[3], g[4], g[5], g[6], g[7]
      modifies dx, p.ph, p.pc
      ensures GradsHold(g, old(PassOf(st, p, x, dy, activation)), tanh, 0)
      ensures InputsHold(dx, old(PassOf(st, p, x, dy, activation)), tanh, 0)
      ensures p.ph[..] == RowOf(st.h, B) && p.pc[..] == RowOf(st.c, B)
    {
      ghost var P := PassOf(st, p, x, dy, activation);
      Gradients(st, p, x, dy, g, dx, activation, tanh, P);
      KeepLast(st, p);
    }

    /** lstm_reset: forgets the carried hidden and cell state. */
    method Reset()
      requires Valid()
      modifies p.ph, p.pc
      ensures p.Forgotten()
    {
      ClearVec(p.ph);
      ClearVec(p.pc);
    }
  }

  /**
   * The state lstm_forward starts a batch from: the carried state when the
   * layer is stateful, zeros otherwise.
   */
  function Initial(stateful: bool, carried: seq<real>, S: nat): (r: seq<real>)
    requires |carried| == S
    ensures |r| == S
    ensures stateful ==> r == carried
    ensures !stateful ==> forall j :: 0 <= j < S ==> r[j] == 0.0
  {
    if stateful then carried else Zeros(S)
  }

  /** Step r of the forward pass is stored: in row r of f, i, o and in row r + 1 of cc, c, h. */
  ghost predicate Stored(F: Mat, I: Mat, O: Mat, CC: Mat, C: Mat, H: Mat, r: nat, cell: Cell)
  {
    r < |F| && r < |I| && r < |O| && r + 1 < |CC| && r + 1 < |C| && r + 1 < |H| &&
    F[r] == cell.f && I[r] == cell.i && O[r] == cell.o && CC[r + 1] == cell.cc && C[r + 1] == cell.c && H[r + 1] == cell.h
  }

  /** The rows step r is stored in still hold the zeros fltclr left. */
  ghost predicate Unwritten(F: Mat, I: Mat, O: Mat, CC: Mat, C: Mat, H: Mat, r: nat, S: nat)
  {
    r < |F| && r < |I| && r < |O| && r + 1 < |CC| && r + 1 < |C| && r + 1 < |H| &&
    F[r] == Zeros(S) && I[r] == Zeros(S) && O[r] == Zeros(S) && CC[r + 1] == Zeros(S) && C[r + 1] == Zeros(S) && H[r + 1] == Zeros(S)
  }

  /**
   * The buffers (as values) once lstm_forward has run steps 0..t-1 over X
   * from hidden state h0 and cell state c0: row 0 of h and c holds the
   * initial state and row 0 of cc zeros, every step so far is stored, and
   * the rows of the later steps are still clear.
   */
  ghost predicate ForwardedTo(F: Mat, I: Mat, O: Mat, CC: Mat, C: Mat, H: Mat, X: Mat, w: Weights, h0: seq<real>, c0: seq<real>,
                              tag: char, exp: ExpFn, tanh: TanhFn, t: nat)
    requires Fits(X, w, h0, c0) && t <= |X|
  {
    var B, S := |X|, |h0|;
    IsMat(F, B, S) && IsMat(I, B, S) && IsMat(O, B, S) && IsMat(CC, B + 1, S) && IsMat(C, B + 1, S) && IsMat(H, B + 1, S) &&
    H[0] == h0 && C[0] == c0 && CC[0] == Zeros(S) &&
    (forall r :: 0 <= r < t ==> Stored(F, I, O, CC, C, H, r, CellAt(X, w, h0, c0, tag, exp, tanh, r))) &&
    (forall r :: t <= r < B ==> Unwritten(F, I, O, CC, C, H, r, S))
  }

  /** Once steps 0..t-1 are stored, rows t of h and c hold the state step t starts from. */
  lemma StateBefore(F: Mat, I: Mat, O: Mat, CC: Mat, C: Mat, H: Mat, X: Mat, w: Weights, h0: seq<real>, c0: seq<real>,
                    tag: char, exp: ExpFn, tanh: TanhFn, t: nat)
    requires Fits(X, w, h0, c0) && t <= |X|
    requires ForwardedTo(F, I, O, CC, C, H, X, w, h0, c0, tag, exp, tanh, t)
    ensures H[t] == HiddenBefore(X, w, h0, c0, tag, exp, tanh, t)
    ensures C[t] == CellBefore(X, w, h0, c0, tag, exp, tanh, t)
  {
    if t > 0 {
      assert Stored(F, I, O, CC, C, H, t - 1, CellAt(X, w, h0, c0, tag, exp, tanh, t - 1));
    }
  }

  /** Storing step t in its rows advances the forward state from t to t + 1. */
  lemma ForwardAdvance(F: Mat, I: Mat, O: Mat, CC: Mat, C: Mat, H: Mat, X: Mat, w: Weights, h0: seq<real>, c0: seq<real>,
                       tag: char, exp: ExpFn, tanh: TanhFn, t: nat, cell: Cell)
    requires Fits(X, w, h0, c0) && t < |X|
    requires ForwardedTo(F, I, O, CC, C, H, X, w, h0, c0, tag, exp, tanh, t)
    requires cell == CellAt(X, w, h0, c0, tag, exp, tanh, t)
    ensures ForwardedTo(F[t := cell.f], I[t := cell.i], O[t := cell.o], CC[t + 1 := cell.cc], C[t + 1 := cell.c], H[t + 1 := cell.h],
                        X, w, h0, c0, tag, exp, tanh, t + 1)
  {
    CellAtIsStep(X, w, h0, c0, tag, exp, tanh, t);
    var F', I', O' := F[t := cell.f], I[t := cell.i], O[t := cell.o];
    var CC', C', H' := CC[t + 1 := cell.cc], C[t + 1 := cell.c], H[t + 1 := cell.h];
    forall r | 0 <= r < t + 1
      ensures Stored(F', I', O', CC', C', H', r, CellAt(X, w, h0, c0, tag, exp, tanh, r))
    {
      if r < t {
        assert Stored(F, I, O, CC, C, H, r, CellAt(X, w, h0, c0, tag, exp, tanh, r));
      }
    }
    forall r | t + 1 <= r < |X|
      ensures Unwritten(F', I', O', CC', C', H', r, |h0|)
    {
      assert Unwritten(F, I, O, CC, C, H, r, |h0|);
    }
  }

  /**
   * One gate row of lstm_forward, from a cleared row t of g: x[t] @ W and
   * h[t-1] @ U added in (addvecmatmul), then activated.
   */
  method GateRow(g: array2<real>, t: nat, x: array2<real>, W: array2<real>, h: array2<real>, U: array2<real>, tag: char, exp: ExpFn)
    requires g != x && g != W && g != h && g != U
    requires t < g.Length0 && t < x.Length0 && t < h.Length0
    requires W.Length0 == x.Length1 && W.Length1 == g.Length1 && U.Length0 == h.Length1 == g.Length1 && U.Length1 == g.Length1
    requires Snap(g)[t] == Zeros(g.Length1)
    modifies g
    ensures Snap(g) == old(Snap(g))[t := Gate(Snap(x)[t], Snap(h)[t], Snap(W), Snap(U), tag, exp)]
  {
    ghost var G := Snap(g);
    ghost var xr, hr := Snap(x)[t], Snap(h)[t];
    AddVecMatMul(g, t, x, t, W);
    AddVecMatMul(g, t, h, t, U);
    ghost var pre := GateInput(xr, hr, Snap(W), Snap(U), g.Length1);
    forall j | 0 <= j < g.Length1
      ensures g[t, j] == pre[j]
    {
      ColOfSnap(W, j);
      ColOfSnap(U, j);
      RowOfSnap(x, t);
      RowOfSnap(h, t);
      assert G[t][j] == 0.0;
    }
    assert RowOf(g, t) == pre;
    ApplyActivation(g, t, t + 1, tag, exp);
    ghost var v := Gate(xr, hr, Snap(W), Snap(U), tag, exp);
    assert RowOf(g, t) == v;
    SnapRowUpdate(g, G, t, v);
  }

  /** The candidate row r of cc, from a cleared row: x[t] @ Wc + h[t-1] @ Uc, then tanh of each entry. */
  method CandidateRow(cc: array2<real>, r: nat, x: array2<real>, t: nat, W: array2<real>, h: array2<real>, U: array2<real>, tanh: TanhFn)
    requires cc != x && cc != W && cc != h && cc != U
    requires r < cc.Length0 && t < x.Length0 && t < h.Length0
    requires W.Length0 == x.Length1 && W.Length1 == cc.Length1 && U.Length0 == h.Length1 == cc.Length1 && U.Length1 == cc.Length1
    requires Snap(cc)[r] == Zeros(cc.Length1)
    modifies cc
    ensures Snap(cc) == old(Snap(cc))[r := Candidate(Snap(x)[t], Snap(h)[t], Snap(W), Snap(U), tanh)]
  {
    ghost var G := Snap(cc);
    ghost var xr, hr := Snap(x)[t], Snap(h)[t];
    AddVecMatMul(cc, r, x, t, W);
    AddVecMatMul(cc, r, h, t, U);
    ghost var pre := GateInput(xr, hr, Snap(W), Snap(U), cc.Length1);
    forall j | 0 <= j < cc.Length1
      ensures cc[r, j] == pre[j]
    {
      ColOfSnap(W, j);
      ColOfSnap(U, j);
      RowOfSnap(x, t);
      RowOfSnap(h, t);
      assert G[r][j] == 0.0;
    }
    MapRows(cc, r, r + 1, tanh);
    SnapRowUpdate(cc, G, r, Candidate(xr, hr, Snap(W), Snap(U), tanh));
  }

  /** Row t + 1 of c: f[t] * c[t-1] + i[t] * cc[t], elementwise. */
  method CellRow(c: array2<real>, t: nat, f: array2<real>, i: array2<real>, cc: array2<real>)
    requires c != f && c != i && c != cc
    requires t + 1 < c.Length0 && t < f.Length0 && t < i.Length0 && t + 1 < cc.Length0
    requires f.Length1 == c.Length1 && i.Length1 == c.Length1 && cc.Length1 == c.Length1
    modifies c
    ensures Snap(c) == old(Snap(c))[t + 1 := CellState(Snap(f)[t], Snap(i)[t], Snap(cc)[t + 1], old(Snap(c))[t])]
  {
    ghost var G := Snap(c);
    var j := 0;
    while j < c.Length1
      invariant 0 <= j <= c.Length1
      invariant forall a, b :: 0 <= a < c.Length0 && 0 <= b < c.Length1 ==>
        c[a, b] == if a == t + 1 && b < j then f[t, b] * G[t][b] + i[t, b] * cc[t + 1, b] else G[a][b]
    {
      c[t + 1, j] := f[t, j] * c[t, j] + i[t, j] * cc[t + 1, j];
      j := j + 1;
    }
    SnapRowUpdate(c, G, t + 1, CellState(Snap(f)[t], Snap(i)[t], Snap(cc)[t + 1], G[t]));
  }

  /** Row t + 1 of h: o[t] * tanh(c[t]), elementwise. */
  method HiddenRow(h: array2<real>, t: nat, o: array2<real>, c: array2<real>, tanh: TanhFn)
    requires h != o && h != c
    requires t + 1 < h.Length0 && t < o.Length0 && t + 1 < c.Length0
    requires o.Length1 == h.Length1 && c.Length1 == h.Length1
    modifies h
    ensures Snap(h) == old(Snap(h))[t + 1 := HiddenState(Snap(o)[t], Snap(c)[t + 1], tanh)]
  {
    ghost var G := Snap(h);
    var j := 0;
    while j < h.Length1
      invariant 0 <= j <= h.Length1
      invariant forall a, b :: 0 <= a < h.Length0 && 0 <= b < h.Length1 ==>
        h[a, b] == if a == t + 1 && b < j then o[t, b] * tanh(c[t + 1, b]) else G[a][b]
    {
      h[t + 1, j] := o[t, j] * tanh(c[t + 1, j]);
      j := j + 1;
    }
    SnapRowUpdate(h, G, t + 1, HiddenState(Snap(o)[t], Snap(c)[t + 1], tanh));
  }

  /** ForwardedTo, read off the buffers of st, the weights of p and the input x. */
  ghost predicate Forwarded(st: Steps, p: Params, x: array2<real>, h0: seq<real>, c0: seq<real>, tag: char, exp: ExpFn, tanh: TanhFn, t: nat)
    reads st.f, st.i, st.o, st.cc, st.c, st.h, p.Wf, p.Wi, p.Wc, p.Wo, p.Uf, p.Ui, p.Uc, p.Uo, x
  {
    p.Valid() && t <= x.Length0 && Fits(Snap(x), p.Value(), h0, c0) &&
    ForwardedTo(Snap(st.f), Snap(st.i), Snap(st.o), Snap(st.cc), Snap(st.c), Snap(st.h), Snap(x), p.Value(), h0, c0, tag, exp, tanh, t)
  }

  /** The buffers of st, x and the weights of p have the shapes lstm_forward indexes them with, and x is no buffer. */
  ghost predicate Shaped(st: Steps, p: Params, x: array2<real>)
  {
    st.Valid() && p.Valid() && st.S == p.S && x.Length0 == st.B && x.Length1 == p.D && st.Outside(x) &&
    p.Apart(st.f) && p.Apart(st.i) && p.Apart(st.o) && p.Apart(st.cc) && p.Apart(st.c) && p.Apart(st.h)
  }

  /** Cleared buffers with the initial state in row 0 of h and c are the forward state before step 0. */
  lemma ForwardStart(st: Steps, p: Params, x: array2<real>, h0: seq<real>, c0: seq<real>, tag: char, exp: ExpFn, tanh: TanhFn)
    requires Shaped(st, p, x) && |h0| == st.S && |c0| == st.S
    requires IsZero(st.f) && IsZero(st.i) && IsZero(st.o) && IsZero(st.cc)
    requires RowOf(st.h, 0) == h0 && RowOf(st.c, 0) == c0
    requires forall r, j :: 1 <= r <= st.B && 0 <= j < st.S ==> st.h[r, j] == 0.0 && st.c[r, j] == 0.0
    ensures Forwarded(st, p, x, h0, c0, tag, exp, tanh, 0)
  {
    var F, I, O, CC, C, H := Snap(st.f), Snap(st.i), Snap(st.o), Snap(st.cc), Snap(st.c), Snap(st.h);
    var S := st.S;
    RowOfSnap(st.h, 0);
    RowOfSnap(st.c, 0);
    assert CC[0] == Zeros(S);
    forall r | 0 <= r < st.B
      ensures Unwritten(F, I, O, CC, C, H, r, S)
    {
      assert F[r] == Zeros(S) && I[r] == Zeros(S) && O[r] == Zeros(S);
      assert CC[r + 1] == Zeros(S) && C[r + 1] == Zeros(S) && H[r + 1] == Zeros(S);
    }
  }

  /**
   * The start of lstm_forward: every buffer cleared, then row 0 of h and c
   * set to the carried state when stateful, cleared otherwise.
   */
  method StartForward(st: Steps, p: Params, x: array2<real>, stateful: bool, tag: char, exp: ExpFn, tanh: TanhFn)
    requires Shaped(st, p, x)
    modifies st.f, st.i, st.o, st.cc, st.c, st.h
    ensures Forwarded(st, p, x, Initial(stateful, p.ph[..], p.S), Initial(stateful, p.pc[..], p.S), tag, exp, tanh, 0)
  {
    st.Clear();
    if stateful {
      CopyToRow(st.h, 0, p.ph);
      CopyToRow(st.c, 0, p.pc);
    } else {
      ClearRow(st.h, 0);
      ClearRow(st.c, 0);
    }
    ForwardStart(st, p, x, Initial(stateful, p.ph[..], p.S), Initial(stateful, p.pc[..], p.S), tag, exp, tanh);
  }

  /** The end of lstm_forward and lstm_backward: the hidden and cell state of the last step carried into ph and pc. */
  method SaveState(st: Steps, p: Params, x: array2<real>, ghost h0: seq<real>, ghost c0: seq<real>, tag: char, exp: ExpFn, tanh: TanhFn)
    requires Shaped(st, p, x)
    requires Forwarded(st, p, x, h0, c0, tag, exp, tanh, st.B)
    modifies p.ph, p.pc
    ensures Forwarded(st, p, x, h0, c0, tag, exp, tanh, st.B)
    ensures p.ph[..] == HiddenBefore(Snap(x), p.Value(), h0, c0, tag, exp, tanh, st.B)
    ensures p.pc[..] == CellBefore(Snap(x), p.Value(), h0, c0, tag, exp, tanh, st.B)
  {
    StateBefore(Snap(st.f), Snap(st.i), Snap(st.o), Snap(st.cc), Snap(st.c), Snap(st.h), Snap(x), p.Value(), h0, c0, tag, exp, tanh, st.B);
    RowOfSnap(st.h, st.B);
    RowOfSnap(st.c, st.B);
    KeepLast(st, p);
  }

  /** The hidden and cell state after the last step, rows B of h and c, into ph and pc. */
  method KeepLast(st: Steps, p: Params)
    requires st.Valid() && p.Valid() && st.S == p.S
    modifies p.ph, p.pc
    ensures p.ph[..] == RowOf(st.h, st.B) && p.pc[..] == RowOf(st.c, st.B)
  {
    CopyFromRow(p.ph, st.h, st.B);
    CopyFromRow(p.pc, st.c, st.B);
  }

  /** Step t of the loop of lstm_forward: gates f, i, o, candidate cc, cell c and hidden h for input row t. */
  method ForwardStep(st: Steps, p: Params, x: array2<real>, t: nat, ghost h0: seq<real>, ghost c0: seq<real>, tag: char, exp: ExpFn, tanh: TanhFn)
    requires Shaped(st, p, x) && t < st.B
    requires Forwarded(st, p, x, h0, c0, tag, exp, tanh, t)
    modifies st.f, st.i, st.o, st.cc, st.c, st.h
    ensures Forwarded(st, p, x, h0, c0, tag, exp, tanh, t + 1)
  {
    ghost var X, w := Snap(x), p.Value();
    ghost var F, I, O, CC, C, H := Snap(st.f), Snap(st.i), Snap(st.o), Snap(st.cc), Snap(st.c), Snap(st.h);
    StateBefore(F, I, O, CC, C, H, X, w, h0, c0, tag, exp, tanh, t);
    assert Unwritten(F, I, O, CC, C, H, t, st.S);
    GateRow(st.f, t, x, p.Wf, st.h, p.Uf, tag, exp);
    GateRow(st.i, t, x, p.Wi, st.h, p.Ui, tag, exp);
    GateRow(st.o, t, x, p.Wo, st.h, p.Uo, tag, exp);
    CandidateRow(st.cc, t + 1, x, t, p.Wc, st.h, p.Uc, tanh);
    CellRow(st.c, t, st.f, st.i, st.cc);
    HiddenRow(st.h, t, st.o, st.c, tanh);
    CellAtIsStep(X, w, h0, c0, tag, exp, tanh, t);
    ghost var cell := CellAt(X, w, h0, c0, tag, exp, tanh, t);
    ForwardAdvance(F, I, O, CC, C, H, X, w, h0, c0, tag, exp, tanh, t, cell);
  }

  /** The pass lstm_backward works on, read off the buffers, dy, x and the weights. */
  ghost function PassOf(st: Steps, p: Params, x: array2<real>, dy: array2<real>, tag: char): (P: Pass)
    reads st.f, st.i, st.o, st.cc, st.c, st.h, p.Wf, p.Wi, p.Wc, p.Wo, p.Uf, p.Ui, p.Uc, p.Uo, x, dy
    requires p.Valid()
    ensures Shaped(st, p, x) && dy.Length0 == st.B && dy.Length1 == st.S ==>
      PassFits(P) && |P.dy| == st.B && |P.w.uf| == st.S && |P.w.wf| == p.D
  {
    Pass(Trace(Snap(st.f), Snap(st.i), Snap(st.o), Snap(st.cc), Snap(st.c), Snap(st.h)), Snap(dy), Snap(x), p.Value(), tag)
  }

  /** An array lstm_backward may write: none of the buffers, weights, x or dy it reads. */
  ghost predicate Free(st: Steps, p: Params, x: array2<real>, dy: array2<real>, a: array2<real>)
  {
    st.Outside(a) && p.Apart(a) && a != x && a != dy
  }

  /**
   * The shapes lstm_backward indexes its arguments with: dy is B x S, the
   * eight gradient buffers g have the shapes of Wf, Wi, Wc, Wo, Uf, Ui, Uc,
   * Uo and are distinct, and dx, when present, is B x D; everything written
   * is apart from everything read.
   */
  ghost predicate BackShaped(st: Steps, p: Params, x: array2<real>, dy: array2<real>, g: seq<array2<real>>, dx: array2?<real>)
  {
    Shaped(st, p, x) && dy.Length0 == st.B && dy.Length1 == st.S && |g| == 8 &&
    (forall k :: 0 <= k < 8 ==> g[k].Length0 == (if k < 4 then p.D else p.S) && g[k].Length1 == p.S && Free(st, p, x, dy, g[k])) &&
    (forall k, k' :: 0 <= k < k' < 8 ==> g[k] != g[k']) &&
    (dx != null ==> dx.Length0 == st.B && dx.Length1 == p.D && Free(st, p, x, dy, dx) && forall k :: 0 <= k < 8 ==> g[k] != dx)
  }

  /** Gradient buffer k holds the sums over steps t..B-1. */
  ghost predicate GradHolds(m: array2<real>, P: Pass, tanh: TanhFn, k: nat, t: nat)
    reads m
    requires PassFits(P) && t <= |P.dy| && k < 8
  {
    m.Length0 == GradRows(P, k) && m.Length1 == |P.w.uf| &&
    forall a, b :: 0 <= a < m.Length0 && 0 <= b < m.Length1 ==> m[a, b] == GradFrom(P, tanh, k, a, b, t)
  }

  /** Rows 0 and 1 of n hold dh_next and dc_next. */
  ghost predicate CarryHolds(n: array2<real>, c: Carry)
    reads n
  {
    n.Length0 == 2 && RowOf(n, 0) == c.dh && RowOf(n, 1) == c.dc
  }

  /** Rows 0..5 of dd hold dh, do, dc, dcc, di, df. */
  ghost predicate DeltasIn(dd: array2<real>, d: Deltas)
    reads dd
  {
    dd.Length0 == 6 && RowOf(dd, 0) == d.dh && RowOf(dd, 1) == d.dout && RowOf(dd, 2) == d.dc &&
    RowOf(dd, 3) == d.dcc && RowOf(dd, 4) == d.di && RowOf(dd, 5) == d.df
  }

  /** The row of dd holding the delta of gradient buffer k: df, di, dcc, do for k % 4 = 0, 1, 2, 3. */
  function DeltaRow(k: nat): (r: nat)
    ensures r < 6
  {
    if k % 4 == 0 then 5 else if k % 4 == 1 then 4 else if k % 4 == 2 then 3 else 1
  }

  lemma DeltaRowIsGate(dd: array2<real>, d: Deltas, k: nat)
    requires DeltasIn(dd, d)
    ensures RowOf(dd, DeltaRow(k)) == Gates(d)[k % 4]
  {
  }

  /** Entry b of each delta of step s, written out. */
  lemma DeltasEntries(P: Pass, tanh: TanhFn, s: nat, b: nat)
    requires PassFits(P) && s < |P.dy| && b < |P.w.uf|
    ensures var d, c, tr := DeltasAt(P, tanh, s), CarryAt(P, tanh, s + 1), P.tr;
      d.dh[b] == P.dy[s][b] + c.dh[b] &&
      d.dout[b] == OutputEntry(d.dh[b], tr.c[s + 1][b], tr.o[s][b], P.tag, tanh) &&
      d.dc[b] == CellEntry(d.dh[b], tr.o[s][b], tr.c[s + 1][b], c.dc[b], tanh) &&
      d.dcc[b] == CandidateEntry(d.dc[b], tr.i[s][b], tr.cc[s + 1][b]) &&
      d.di[b] == GateEntry(d.dc[b], tr.cc[s + 1][b], tr.i[s][b], P.tag) &&
      d.df[b] == GateEntry(d.dc[b], tr.c[s][b], tr.f[s][b], P.tag)
  {
  }

  /** Column j of m set to v, every other entry kept. */
  method SetColumn(m: array2<real>, j: nat, v: seq<real>)
    requires j < m.Length1 && |v| == m.Length0
    modifies m
    ensures forall a, b :: 0 <= a < m.Length0 && 0 <= b < m.Length1 ==> m[a, b] == if b == j then v[a] else old(m[a, b])
  {
    var a := 0;
    while a < m.Length0
      invariant 0 <= a <= m.Length0
      invariant forall a', b :: 0 <= a' < m.Length0 && 0 <= b < m.Length1 ==>
        m[a', b] == if b == j && a' < a then v[a'] else old(m[a', b])
    {
      m[a, j] := v[a];
      a := a + 1;
    }
  }

  /** Columns 0..j-1 of dd hold the six deltas. */
  ghost predicate ColumnsHold(dd: array2<real>, d: Deltas, j: nat)
    reads dd
  {
    dd.Length0 == 6 && j <= dd.Length1 &&
    |d.dh| == |d.dout| == |d.dc| == |d.dcc| == |d.di| == |d.df| == dd.Length1 &&
    forall b :: 0 <= b < j ==>
      dd[0, b] == d.dh[b] && dd[1, b] == d.dout[b] && dd[2, b] == d.dc[b] &&
      dd[3, b] == d.dcc[b] && dd[4, b] == d.di[b] && dd[5, b] == d.df[b]
  }

  /** Writes column j of the deltas. */
  method StoreColumn(dd: array2<real>, ghost d: Deltas, j: nat, v: seq<real>)
    requires ColumnsHold(dd, d, j) && j < dd.Length1
    requires v == [d.dh[j], d.dout[j], d.dc[j], d.dcc[j], d.di[j], d.df[j]]
    modifies dd
    ensures ColumnsHold(dd, d, j + 1)
  {
    SetColumn(dd, j, v);
  }

  /** All columns of the deltas written: the six rows are the six deltas. */
  lemma ColumnsDone(dd: array2<real>, d: Deltas)
    requires ColumnsHold(dd, d, dd.Length1)
    ensures DeltasIn(dd, d)
  {
    assert RowOf(dd, 0) == d.dh && RowOf(dd, 1) == d.dout && RowOf(dd, 2) == d.dc;
    assert RowOf(dd, 3) == d.dcc && RowOf(dd, 4) == d.di && RowOf(dd, 5) == d.df;
  }

  /** The six deltas of step s of lstm_backward must be read off: what holds of the arguments of ComputeDeltas. */
  ghost predicate DeltaInputs(dd: array2<real>, st: Steps, dy: array2<real>, n: array2<real>, s: nat, tag: char, tanh: TanhFn, P: Pass)
    reads st.f, st.i, st.o, st.cc, st.c, st.h, dy, n
  {
    st.Valid() && s < st.B && dy.Length0 == st.B && dy.Length1 == st.S &&
    dd.Length0 == 6 && dd.Length1 == st.S && n.Length1 == st.S && st.Outside(dd) && dd != dy && dd != n &&
    PassFits(P) && |P.dy| == st.B && |P.w.uf| == st.S && P.tag == tag && P.dy == Snap(dy) &&
    P.tr == Trace(Snap(st.f), Snap(st.i), Snap(st.o), Snap(st.cc), Snap(st.c), Snap(st.h)) &&
    CarryHolds(n, CarryAt(P, tanh, s + 1))
  }

  /** Unit j of the deltas of step s. */
  method DeltaColumn(dd: array2<real>, st: Steps, dy: array2<real>, n: array2<real>, s: nat, j: nat, tag: char, tanh: TanhFn, ghost P: Pass)
    requires DeltaInputs(dd, st, dy, n, s, tag, tanh, P) && j < st.S
    requires ColumnsHold(dd, DeltasAt(P, tanh, s), j)
    modifies dd
    ensures ColumnsHold(dd, DeltasAt(P, tanh, s), j + 1)
  {
    ghost var d := DeltasAt(P, tanh, s);
    DeltasEntries(P, tanh, s, j);
    assert n[0, j] == CarryAt(P, tanh, s + 1).dh[j] && n[1, j] == CarryAt(P, tanh, s + 1).dc[j];
    assert P.tr.o[s][j] == st.o[s, j] && P.tr.c[s + 1][j] == st.c[s + 1, j] && P.tr.i[s][j] == st.i[s, j];
    assert P.tr.cc[s + 1][j] == st.cc[s + 1, j] && P.tr.c[s][j] == st.c[s, j] && P.tr.f[s][j] == st.f[s, j];
    assert P.dy[s][j] == dy[s, j];
    var dh := dy[s, j] + n[0, j];
    assert dh == d.dh[j];
    var dout := OutputEntry(dh, st.c[s + 1, j], st.o[s, j], tag, tanh);
    assert dout == d.dout[j];
    var dc := CellEntry(dh, st.o[s, j], st.c[s + 1, j], n[1, j], tanh);
    assert dc == d.dc[j];
    var dcc := CandidateEntry(dc, st.i[s, j], st.cc[s + 1, j]);
    assert dcc == d.dcc[j];
    var di := GateEntry(dc, st.cc[s + 1, j], st.i[s, j], tag);
    assert di == d.di[j];
    var df := GateEntry(dc, st.c[s, j], st.f[s, j], tag);
    assert df == d.df[j];
    StoreColumn(dd, d, j, [dh, dout, dc, dcc, di, df]);
  }

  /**
   * The deltas of step s of lstm_backward, from dy[s], the carry in n and
   * the state the forward pass left: dh, do, dc, dcc, di, df.
   */
  method ComputeDeltas(dd: array2<real>, st: Steps, dy: array2<real>, n: array2<real>, s: nat, tag: char, tanh: TanhFn, ghost P: Pass)
    requires DeltaInputs(dd, st, dy, n, s, tag, tanh, P)
    modifies dd
    ensures DeltasIn(dd, DeltasAt(P, tanh, s))
  {
    var j := 0;
    while j < st.S
      invariant 0 <= j <= st.S
      invariant ColumnsHold(dd, DeltasAt(P, tanh, s), j)
    {
      DeltaColumn(dd, st, dy, n, s, j, tag, tanh, P);
      j := j + 1;
    }
    ColumnsDone(dd, DeltasAt(P, tanh, s));
  }

  /**
   * addoutermul for gradient buffer k at step s: the input row s (x for Wf,
   * Wi, Wc, Wo; the previous hidden state for Uf, Ui, Uc, Uo) outer the
   * gate delta, added in.
   */
  method OuterStep(m: array2<real>, input: array2<real>, dd: array2<real>, s: nat, k: nat, ghost P: Pass, ghost tanh: TanhFn)
    requires PassFits(P) && s < |P.dy| && k < 8
    requires GradHolds(m, P, tanh, k, s + 1)
    requires m != input && m != dd && s < input.Length0 && input.Length1 == m.Length0
    requires forall a :: 0 <= a < m.Length0 ==> input[s, a] == if k < 4 then P.X[s][a] else P.tr.h[s][a]
    requires DeltasIn(dd, DeltasAt(P, tanh, s)) && dd.Length1 == m.Length1
    modifies m
    ensures GradHolds(m, P, tanh, k, s)
  {
    ghost var gate := Gates(DeltasAt(P, tanh, s))[k % 4];
    DeltaRowIsGate(dd, DeltasAt(P, tanh, s), k);
    assert forall a, b :: 0 <= a < m.Length0 && 0 <= b < m.Length1 ==>
      GradFrom(P, tanh, k, a, b, s) == m[a, b] + OuterEntry(input[s, a], dd[DeltaRow(k), b]);
    AddOuter(m, input, s, dd, DeltaRow(k));
  }

  /** addoutermul with each added entry written as OuterEntry. */
  method AddOuter(m: array2<real>, v: array2<real>, vi: nat, w: array2<real>, wi: nat)
    requires m != v && m != w
    requires vi < v.Length0 && wi < w.Length0
    requires v.Length1 == m.Length0 && w.Length1 == m.Length1
    modifies m
    ensures forall i, j :: 0 <= i < m.Length0 && 0 <= j < m.Length1 ==> m[i, j] == old(m[i, j] + OuterEntry(v[vi, i], w[wi, j]))
  {
    AddOuterMul(m, v, vi, w, wi);
  }

  /**
   * The eight addoutermul updates of step s. The C code runs them in the
   * order o, c, i, f; each touches its own buffer once, so the order does
   * not matter.
   */
  method AccumulateGrads(g: seq<array2<real>>, x: array2<real>, h: array2<real>, dd: array2<real>, s: nat, ghost P: Pass, ghost tanh: TanhFn)
    requires PassFits(P) && s < |P.dy| && |g| == 8
    requires P.X == Snap(x) && P.tr.h == Snap(h) && DeltasIn(dd, DeltasAt(P, tanh, s)) && dd.Length1 == |P.w.uf|
    requires forall k :: 0 <= k < 8 ==> g[k] != x && g[k] != h && g[k] != dd
    requires forall k, k' :: 0 <= k < k' < 8 ==> g[k] != g[k']
    requires GradsHold(g, P, tanh, s + 1)
    modifies g[0], g[1], g[2], g[3], g[4], g[5], g[6], g[7]
    ensures GradsHold(g, P, tanh, s)
  {
    var k := 0;
    while k < 8
      invariant k <= 8
      invariant forall k' :: 0 <= k' < k ==> GradHolds(g[k'], P, tanh, k', s)
      invariant forall k' :: k <= k' < 8 ==> GradHolds(g[k'], P, tanh, k', s + 1)
    {
      var input := if k < 4 then x else h;
      assert forall a :: 0 <= a < input.Length1 ==> input[s, a] == if k < 4 then P.X[s][a] else P.tr.h[s][a];
      OuterStep(g[k], input, dd, s, k, P, tanh);
      k := k + 1;
    }
  }

  /** Row vi of v holds the sums of the first m terms of InnerSum. */
  ghost predicate InnerUpTo(v: array2<real>, vi: nat, ds: seq<seq<real>>, ms: seq<Mat>, m: nat)
    requires vi < v.Length0
    reads v
  {
    m <= |ds| && forall j :: 0 <= j < v.Length1 ==> InnerFits(ds, ms, j, |ds|) && v[vi, j] == InnerSum(ds, ms, j, m)
  }

  /** Row row of dd times M^T added into row vi of v: one more term of InnerSum. */
  method AddInnerTerm(v: array2<real>, vi: nat, dd: array2<real>, row: nat, M: array2<real>,
                      ghost ds: seq<seq<real>>, ghost ms: seq<Mat>, ghost m: nat)
    requires v != dd && v != M && vi < v.Length0 && row < dd.Length0 && dd.Length1 == M.Length1 && v.Length1 == M.Length0
    requires m < |ds| && m < |ms| && ds[m] == RowOf(dd, row) && ms[m] == Snap(M)
    requires InnerUpTo(v, vi, ds, ms, m)
    modifies v
    ensures InnerUpTo(v, vi, ds, ms, m + 1)
    ensures forall i, j :: 0 <= i < v.Length0 && 0 <= j < v.Length1 && i != vi ==> v[i, j] == old(v[i, j])
  {
    AddInnerMul(v, vi, dd, row, M);
    forall j | 0 <= j < v.Length1
      ensures InnerFits(ds, ms, j, |ds|) && v[vi, j] == InnerSum(ds, ms, j, m + 1)
    {
      RowOfSnap(M, j);
    }
  }

  /**
   * The four gate deltas df, di, dcc, do (rows 5, 4, 3, 1 of dd) times the
   * transposes of M0..M3 added into row vi of v, as lstm_backward does for
   * dh_next and for dx.
   */
  method AddGateTerms(v: array2<real>, vi: nat, dd: array2<real>, M0: array2<real>, M1: array2<real>, M2: array2<real>, M3: array2<real>,
                      ghost ds: seq<seq<real>>, ghost ms: seq<Mat>)
    requires v != dd && v != M0 && v != M1 && v != M2 && v != M3 && vi < v.Length0 && dd.Length0 == 6
    requires M0.Length0 == v.Length1 && M1.Length0 == v.Length1 && M2.Length0 == v.Length1 && M3.Length0 == v.Length1
    requires M0.Length1 == dd.Length1 && M1.Length1 == dd.Length1 && M2.Length1 == dd.Length1 && M3.Length1 == dd.Length1
    requires ds == [RowOf(dd, 5), RowOf(dd, 4), RowOf(dd, 3), RowOf(dd, 1)] && ms == [Snap(M0), Snap(M1), Snap(M2), Snap(M3)]
    requires InnerUpTo(v, vi, ds, ms, 0)
    modifies v
    ensures InnerUpTo(v, vi, ds, ms, 4)
    ensures forall i, j :: 0 <= i < v.Length0 && 0 <= j < v.Length1 && i != vi ==> v[i, j] == old(v[i, j])
  {
    AddInnerTerm(v, vi, dd, 5, M0, ds, ms, 0);
    AddInnerTerm(v, vi, dd, 4, M1, ds, ms, 1);
    AddInnerTerm(v, vi, dd, 3, M2, ds, ms, 2);
    AddInnerTerm(v, vi, dd, 1, M3, ds, ms, 3);
  }

  /** dh_next after step s: row 0 of n cleared, then df @ Uf^T, di @ Ui^T, dcc @ Uc^T and do @ Uo^T added in. */
  method CarryHidden(n: array2<real>, dd: array2<real>, p: Params, s: nat, ghost P: Pass, ghost tanh: TanhFn)
    requires p.Valid() && PassFits(P) && s < |P.dy| && P.w == p.Value()
    requires DeltasIn(dd, DeltasAt(P, tanh, s)) && dd.Length1 == p.S
    requires n.Length0 == 2 && n.Length1 == p.S && n != dd && p.Apart(n)
    modifies n
    ensures RowOf(n, 0) == NextCarry(P, s, DeltasAt(P, tanh, s)).dh
    ensures RowOf(n, 1) == old(RowOf(n, 1))
  {
    ghost var ds, us := Gates(DeltasAt(P, tanh, s)), [P.w.uf, P.w.ui, P.w.uc, P.w.uo];
    ClearRow(n, 0);
    AddGateTerms(n, 0, dd, p.Uf, p.Ui, p.Uc, p.Uo, ds, us);
  }

  /** dc_next after step s: f[s] * dc, into row 1 of n. */
  method CarryCell(n: array2<real>, dd: array2<real>, f: array2<real>, s: nat, ghost P: Pass, ghost tanh: TanhFn)
    requires PassFits(P) && s < |P.dy| && P.tr.f == Snap(f)
    requires DeltasIn(dd, DeltasAt(P, tanh, s)) && dd.Length1 == |P.w.uf|
    requires n.Length0 == 2 && n.Length1 == |P.w.uf| && n != dd && n != f
    modifies n
    ensures RowOf(n, 1) == NextCarry(P, s, DeltasAt(P, tanh, s)).dc
    ensures RowOf(n, 0) == old(RowOf(n, 0))
  {
    ghost var d := DeltasAt(P, tanh, s);
    ghost var want := NextCarry(P, s, d).dc;
    assert forall b :: 0 <= b < n.Length1 ==> want[b] == CellCarryEntry(f[s, b], dd[2, b]) by {
      forall b | 0 <= b < n.Length1
        ensures want[b] == CellCarryEntry(f[s, b], dd[2, b])
      {
        assert d.dc[b] == dd[2, b] && P.tr.f[s][b] == f[s, b];
      }
    }
    CellCarryRow(n, 1, f, s, dd, 2);
    ghost var row := RowOf(n, 1);
    assert |row| == |want|;
    forall b | 0 <= b < n.Length1
      ensures row[b] == want[b]
    {
      assert row[b] == n[1, b] == old(CellCarryEntry(f[s, b], dd[2, b]));
    }
    assert row == want;
  }

  /** Row r of n set to CellCarryEntry of row a of u and row b of v, elementwise; other rows kept. */
  method CellCarryRow(n: array2<real>, r: nat, u: array2<real>, a: nat, v: array2<real>, b: nat)
    requires n != u && n != v && r < n.Length0 && a < u.Length0 && b < v.Length0
    requires u.Length1 == n.Length1 && v.Length1 == n.Length1
    modifies n
    ensures forall i, j :: 0 <= i < n.Length0 && 0 <= j < n.Length1 ==> n[i, j] == if i == r then old(CellCarryEntry(u[a, j], v[b, j])) else old(n[i, j])
  {
    var j := 0;
    while j < n.Length1
      invariant 0 <= j <= n.Length1
      invariant forall i, j' :: 0 <= i < n.Length0 && 0 <= j' < n.Length1 ==>
        n[i, j'] == if i == r && j' < j then CellCarryEntry(u[a, j'], v[b, j']) else old(n[i, j'])
    {
      n[r, j] := CellCarryEntry(u[a, j], v[b, j]);
      j := j + 1;
    }
  }

  /** dh_next and dc_next after step s: what step s passes back to step s - 1. */
  method CarryStep(n: array2<real>, dd: array2<real>, p: Params, f: array2<real>, s: nat, ghost P: Pass, ghost tanh: TanhFn)
    requires p.Valid() && PassFits(P) && s < |P.dy| && P.w == p.Value() && P.tr.f == Snap(f)
    requires DeltasIn(dd, DeltasAt(P, tanh, s)) && dd.Length1 == p.S
    requires n.Length0 == 2 && n.Length1 == p.S && n != dd && n != f && p.Apart(n)
    modifies n
    ensures CarryHolds(n, CarryAt(P, tanh, s))
  {
    CarryHidden(n, dd, p, s, P, tanh);
    CarryCell(n, dd, f, s, P, tanh);
  }

  /** Row s of dx: cleared, then df @ Wf^T, di @ Wi^T, dcc @ Wc^T and do @ Wo^T added in. */
  method InputRow(dx: array2<real>, dd: array2<real>, p: Params, s: nat, ghost P: Pass, ghost tanh: TanhFn)
    requires p.Valid() && PassFits(P) && s < |P.dy| && P.w == p.Value()
    requires DeltasIn(dd, DeltasAt(P, tanh, s)) && dd.Length1 == p.S
    requires s < dx.Length0 && dx.Length1 == p.D && dx != dd && p.Apart(dx)
    modifies dx
    ensures RowOf(dx, s) == InputGrad(P, tanh, s)
    ensures forall i, j :: 0 <= i < dx.Length0 && 0 <= j < dx.Length1 && i != s ==> dx[i, j] == old(dx[i, j])
  {
    ghost var ds, ws := Gates(DeltasAt(P, tanh, s)), [P.w.wf, P.w.wi, P.w.wc, P.w.wo];
    ClearRow(dx, s);
    AddGateTerms(dx, s, dd, p.Wf, p.Wi, p.Wc, p.Wo, ds, ws);
  }

  /**
   * The state of lstm_backward once steps B-1 down to t are done: every
   * gradient buffer holds its sum over those steps, n holds what step t
   * passes back, and rows t..B-1 of dx (when present) hold the input
   * gradients.
   */
  ghost predicate BackedTo(g: seq<array2<real>>, n: array2<real>, dx: array2?<real>, P: Pass, tanh: TanhFn, t: nat)
    requires |g| == 8
    reads g[0], g[1], g[2], g[3], g[4], g[5], g[6], g[7], n, dx
  {
    PassFits(P) && t <= |P.dy| && GradsHold(g, P, tanh, t) &&
    n.Length1 == |P.w.uf| && CarryHolds(n, CarryAt(P, tanh, t)) && InputsHold(dx, P, tanh, t)
  }

  /** Every gradient buffer holds its sum over steps t..B-1. */
  ghost predicate GradsHold(g: seq<array2<real>>, P: Pass, tanh: TanhFn, t: nat)
    requires |g| == 8 && PassFits(P) && t <= |P.dy|
    reads g[0], g[1], g[2], g[3], g[4], g[5], g[6], g[7]
  {
    forall k :: 0 <= k < 8 ==> GradHolds(g[k], P, tanh, k, t)
  }

  /** Rows t..B-1 of dx, when present, hold the input gradients. */
  ghost predicate InputsHold(dx: array2?<real>, P: Pass, tanh: TanhFn, t: nat)
    reads dx
    requires PassFits(P)
  {
    dx != null ==> (dx.Length0 == |P.dy| && dx.Length1 == |P.w.wf| &&
                    forall r :: t <= r < |P.dy| ==> RowOf(dx, r) == InputGrad(P, tanh, r))
  }

  /** The scratch arrays of lstm_backward: dd for the six deltas, n for dh_next and dc_next, apart from everything else. */
  ghost predicate Scratch(st: Steps, p: Params, x: array2<real>, dy: array2<real>, g: seq<array2<real>>, dx: array2?<real>,
                          dd: array2<real>, n: array2<real>)
  {
    dd.Length0 == 6 && dd.Length1 == st.S && n.Length0 == 2 && n.Length1 == st.S &&
    Free(st, p, x, dy, dd) && Free(st, p, x, dy, n) && dd != n &&
    (forall k :: 0 <= k < |g| ==> g[k] != dd && g[k] != n) && dx != dd && dx != n
  }

  /** The rows of dx after step s. */
  lemma InputRowsAdvance(dx: array2<real>, P: Pass, tanh: TanhFn, s: nat, D: seq<seq<real>>)
    requires PassFits(P) && s < |P.dy| && dx.Length0 == |P.dy| && dx.Length1 == |P.w.wf|
    requires IsMat(D, dx.Length0, dx.Length1) && forall r :: s < r < |P.dy| ==> D[r] == InputGrad(P, tanh, r)
    requires RowOf(dx, s) == InputGrad(P, tanh, s)
    requires forall i, j :: 0 <= i < dx.Length0 && 0 <= j < dx.Length1 && i != s ==> dx[i, j] == D[i][j]
    ensures forall r :: s <= r < |P.dy| ==> RowOf(dx, r) == InputGrad(P, tanh, r)
  {
    forall r | s < r < |P.dy|
      ensures RowOf(dx, r) == InputGrad(P, tanh, r)
    {
      assert RowOf(dx, r) == D[r];
    }
  }

  /** The input gradient of step s, when dx is present. */
  method InputStep(dx: array2?<real>, dd: array2<real>, p: Params, s: nat, ghost P: Pass, ghost tanh: TanhFn)
    requires p.Valid() && PassFits(P) && s < |P.dy| && P.w == p.Value()
    requires DeltasIn(dd, DeltasAt(P, tanh, s)) && dd.Length1 == p.S
    requires InputsHold(dx, P, tanh, s + 1) && dx != dd && (dx != null ==> p.Apart(dx))
    modifies dx
    ensures InputsHold(dx, P, tanh, s)
  {
    if dx != null {
      ghost var D := Snap(dx);
      assert forall r :: s < r < |P.dy| ==> D[r] == InputGrad(P, tanh, r) by {
        forall r | s < r < |P.dy|
          ensures D[r] == InputGrad(P, tanh, r)
        {
          RowOfSnap(dx, r);
        }
      }
      InputRow(dx, dd, p, s, P, tanh);
      InputRowsAdvance(dx, P, tanh, s, D);
    }
  }

  /** The part of step s of lstm_backward that writes no gradient buffer: deltas, carry, and the input gradient. */
  method LocalStep(st: Steps, p: Params, x: array2<real>, dy: array2<real>, g: seq<array2<real>>, dx: array2?<real>,
                   dd: array2<real>, n: array2<real>, s: nat, tag: char, tanh: TanhFn, ghost P: Pass)
    requires BackShaped(st, p, x, dy, g, dx) && Scratch(st, p, x, dy, g, dx, dd, n) && s < st.B
    requires P == PassOf(st, p, x, dy, tag)
    requires CarryHolds(n, CarryAt(P, tanh, s + 1)) && InputsHold(dx, P, tanh, s + 1)
    modifies dx, dd, n
    ensures DeltasIn(dd, DeltasAt(P, tanh, s)) && CarryHolds(n, CarryAt(P, tanh, s)) && InputsHold(dx, P, tanh, s)
  {
    ComputeDeltas(dd, st, dy, n, s, tag, tanh, P);
    CarryStep(n, dd, p, st.f, s, P, tanh);
    InputStep(dx, dd, p, s, P, tanh);
  }

  /** Step s of the loop of lstm_backward: deltas, carry, input gradient, then the gradient updates. */
  method BackStep(st: Steps, p: Params, x: array2<real>, dy: array2<real>, g: seq<array2<real>>, dx: array2?<real>,
                  dd: array2<real>, n: array2<real>, s: nat, tag: char, tanh: TanhFn, ghost P: Pass)
    requires BackShaped(st, p, x, dy, g, dx) && Scratch(st, p, x, dy, g, dx, dd, n) && s < st.B
    requires P == PassOf(st, p, x, dy, tag)
    requires BackedTo(g, n, dx, P, tanh, s + 1)
    modifies g[0], g[1], g[2], g[3], g[4], g[5], g[6], g[7]
    modifies dx, dd, n
    ensures BackedTo(g, n, dx, P, tanh, s) && P == PassOf(st, p, x, dy, tag)
  {
    LocalStep(st, p, x, dy, g, dx, dd, n, s, tag, tanh, P);
    AccumulateGrads(g, x, st.h, dd, s, P, tanh);
  }

  /** The loop of lstm_backward, over steps B-1 down to 0, from cleared gradients and zero dh_next, dc_next. */
  method BackwardLoop(st: Steps, p: Params, x: array2<real>, dy: array2<real>, g: seq<array2<real>>, dx: array2?<real>,
                      dd: array2<real>, n: array2<real>, tag: char, tanh: TanhFn, ghost P: Pass)
    requires BackShaped(st, p, x, dy, g, dx) && Scratch(st, p, x, dy, g, dx, dd, n)
    requires P == PassOf(st, p, x, dy, tag)
    requires GradsHold(g, P, tanh, st.B)
    requires forall a, b :: 0 <= a < 2 && 0 <= b < st.S ==> n[a, b] == 0.0
    modifies g[0], g[1], g[2], g[3], g[4], g[5], g[6], g[7], dx, dd, n
    ensures GradsHold(g, P, tanh, 0) && InputsHold(dx, P, tanh, 0)
  {
    assert RowOf(n, 0) == Zeros(st.S) && RowOf(n, 1) == Zeros(st.S);
    var t: nat := st.B;
    while t > 0
      invariant t <= st.B
      invariant P == PassOf(st, p, x, dy, tag)
      invariant BackedTo(g, n, dx, P, tanh, t)
    {
      var s: nat := t - 1;
      assert s + 1 == t;
      BackStep(st, p, x, dy, g, dx, dd, n, s, tag, tanh, P);
      t := s;
    }
  }

  /** The gradients of lstm_backward: cleared buffers, zero dh_next and dc_next, then the loop over the steps. */
  method Gradients(st: Steps, p: Params, x: array2<real>, dy: array2<real>, g: seq<array2<real>>, dx: array2?<real>,
                   tag: char, tanh: TanhFn, ghost P: Pass)
    requires BackShaped(st, p, x, dy, g, dx) && P == PassOf(st, p, x, dy, tag)
    modifies g[0], g[1], g[2], g[3], g[4], g[5], g[6], g[7], dx
    ensures GradsHold(g, P, tanh, 0) && InputsHold(dx, P, tanh, 0)
  {
    ClearGrads(g, P, tanh);
    var dd := new real[6, st.S];
    var n := new real[2, st.S]((_, _) => 0.0);
    BackwardLoop(st, p, x, dy, g, dx, dd, n, tag, tanh, P);
  }

  /** fltclr on the eight gradient buffers: the sums over no steps. */
  method ClearGrads(g: seq<array2<real>>, ghost P: Pass, ghost tanh: TanhFn)
    requires PassFits(P) && |g| == 8
    requires forall k :: 0 <= k < 8 ==> g[k].Length0 == GradRows(P, k) && g[k].Length1 == |P.w.uf|
    requires forall k, k' :: 0 <= k < k' < 8 ==> g[k] != g[k']
    modifies g[0], g[1], g[2], g[3], g[4], g[5], g[6], g[7]
    ensures GradsHold(g, P, tanh, |P.dy|)
  {
    var k := 0;
    while k < 8
      invariant k <= 8
      invariant forall k' :: 0 <= k' < k ==> GradHolds(g[k'], P, tanh, k', |P.dy|)
    {
      Matrix.Clear(g[k]);
      k := k + 1;
    }
  }

  /** Every entry of the array is 0. */
  ghost predicate IsZero(m: array2<real>)
    reads m
  {
    forall a, b :: 0 <= a < m.Length0 && 0 <= b < m.Length1 ==> m[a, b] == 0.0
  }

  /**
   * lstm_create: the layer for a valid activation name, None (the program
   * exits) for any other; any nonzero stateful argument means stateful.
   */
  method Create(units: nat, name: string, stateful: int) returns (l: Option<Lstm>)
    ensures l.None? <==> ActivationTag(name).None?
    ensures l.Some? ==> fresh(l.value) && l.value.Valid() && l.value.S == units && l.value.D == 0 && l.value.B == 0
    ensures l.Some? ==> Some(l.value.activation) == ActivationTag(name) && l.value.stateful == (stateful != 0)
  {
    var tag := ActivationTag(name);
    if tag.None? {
      return None;
    }
    var layer := new Lstm(units, tag.value, stateful != 0);
    l := Some(layer);
  }
}
