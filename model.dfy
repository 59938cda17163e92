/**
 * The model container (src/model/model.c, src/model/model.h): a fixed
 * number of layer slots that model_add fills in order, model_compile's
 * choice of loss and optimizer, the chaining of layer dimensions and the
 * gradient buffers it allocates, model_set_batch_size, the weight update
 * after every batch, and the control flow of model_fit. A layer is held
 * here by its type code, its unit count, the dimensions compile gave it
 * and whether it carries state between batches; the layers' own passes are
 * modules Dense and Lstm.
 */
module Model {
  import opened Common
  import opened Matrix
  import opened Clip
  import opened AdamW
  import opened ModelArgs

  /** The type code of a slot no layer has been added to. */
  const Empty: char := 0 as char

  /** The type code model_add records for a type name, compared ignoring case; Empty for any other name. */
  function LayerCode(name: string): (r: char)
    ensures r == 'd' <==> SameIgnoringCase("dense", name)
    ensures r == 'l' <==> SameIgnoringCase("lstm", name)
    ensures r == Empty <==> !SameIgnoringCase("dense", name) && !SameIgnoringCase("lstm", name)
  {
    var c := if SameIgnoringCase("dense", name) then 'd' else Empty;
    if SameIgnoringCase("lstm", name) then 'l' else c
  }

  /**
   * The loss code model_compile stores: each known name sets its code and
   * any other name leaves the previous code in place.
   */
  function LossCode(name: string, prev: char): (r: char)
    ensures SameIgnoringCase("mean-square-error", name) ==> r == 'm'
    ensures SameIgnoringCase("cross-entropy", name) ==> r == 'c'
    ensures SameIgnoringCase("ctc", name) ==> r == 'C'
    ensures (!SameIgnoringCase("mean-square-error", name) && !SameIgnoringCase("cross-entropy", name) &&
             !SameIgnoringCase("ctc", name)) ==> r == prev
  {
    var a := if SameIgnoringCase("mean-square-error", name) then 'm' else prev;
    var b := if SameIgnoringCase("cross-entropy", name) then 'c' else a;
    if SameIgnoringCase("ctc", name) then 'C' else b
  }

  /** The optimizer code model_compile stores, in the same way. */
  function OptimizerCode(name: string, prev: char): (r: char)
    ensures SameIgnoringCase("linear", name) ==> r == 'l'
    ensures SameIgnoringCase("adamw", name) ==> r == 'a'
    ensures !SameIgnoringCase("linear", name) && !SameIgnoringCase("adamw", name) ==> r == prev
  {
    var a := if SameIgnoringCase("linear", name) then 'l' else prev;
    if SameIgnoringCase("adamw", name) then 'a' else a
  }

  /**
   * The name check runs only against the code already stored: once a first
   * compile has set a loss, a later compile with an unknown loss name keeps
   * it and does not stop.
   */
  lemma UnknownLossKeepsEarlier(name: string, prev: char)
    requires prev != Empty
    requires !SameIgnoringCase("mean-square-error", name) && !SameIgnoringCase("cross-entropy", name)
    requires !SameIgnoringCase("ctc", name)
    ensures LossCode(name, prev) == prev != Empty
  {
  }

  /** The first empty slot of ts, or |ts| when every slot is taken. */
  function FirstEmpty(ts: seq<char>): (r: nat)
    ensures r <= |ts| && (forall k :: 0 <= k < r ==> ts[k] != Empty) && (r < |ts| ==> ts[r] == Empty)
  {
    if |ts| == 0 || ts[0] == Empty then 0 else 1 + FirstEmpty(ts[1..])
  }

  /** The filled slots come first. */
  ghost predicate Packed(ts: seq<char>)
  {
    forall i, j :: 0 <= i < j < |ts| && ts[i] == Empty ==> ts[j] == Empty
  }

  /**
   * model_add on a packed model keeps it packed and moves the first empty
   * slot one on: layers take the slots in the order they are added.
   */
  lemma AddKeepsPacked(ts: seq<char>, c: char)
    requires Packed(ts) && FirstEmpty(ts) < |ts| && c != Empty
    ensures Packed(ts[FirstEmpty(ts) := c])
    ensures FirstEmpty(ts[FirstEmpty(ts) := c]) == FirstEmpty(ts) + 1
  {
    var i := FirstEmpty(ts);
    var ts' := ts[i := c];
    if i + 1 < |ts| {
      assert ts'[i + 1] == Empty;
    }
  }

  /** The input dimension model_compile gives the layer in slot i: the units of the nearest filled slot before it, or d0. */
  function DimBefore(ts: seq<char>, us: seq<nat>, d0: nat, i: nat): nat
    requires i <= |ts| == |us|
  {
    if i == 0 then d0 else if ts[i - 1] != Empty then us[i - 1] else DimBefore(ts, us, d0, i - 1)
  }

  /** The number of gradient buffers of a layer: dense 1 or 3, LSTM 8 or 24, for the linear and adamw optimizers. */
  function NumGrads(code: char, opt: char): nat
  {
    if code == 'd' then (if opt == 'l' then 1 else if opt == 'a' then 3 else 0)
    else if code == 'l' then (if opt == 'l' then 8 else if opt == 'a' then 24 else 0)
    else 0
  }

  /** The number of weight matrices of a layer: Wx, or Wf, Wi, Wc, Wo, Uf, Ui, Uc, Uo. */
  function NumWeights(code: char): nat
  {
    if code == 'd' then 1 else if code == 'l' then 8 else 0
  }

  /** The rows of gradient buffer j: S for the LSTM buffers whose (j / 4) % 2 is 1, D otherwise. */
  function GradRows(code: char, D: nat, S: nat, j: nat): nat
  {
    if code == 'l' && (j / 4) % 2 == 1 then S else D
  }

  /**
   * The buffer layout model_update relies on: each optimizer keeps one
   * buffer per weight matrix per role, and for adamw the buffers k, k + n
   * and k + 2n of a layer with n weight matrices have the same rows; for
   * the LSTM the first four are D x S (the W matrices) and the next four
   * S x S (the U matrices).
   */
  lemma GradLayout(code: char, opt: char, D: nat, S: nat, k: nat)
    requires (code == 'd' || code == 'l') && (opt == 'l' || opt == 'a') && k < NumWeights(code)
    ensures NumGrads(code, opt) == NumWeights(code) * (if opt == 'a' then 3 else 1)
    ensures GradRows(code, D, S, k + NumWeights(code)) == GradRows(code, D, S, k)
    ensures GradRows(code, D, S, k + 2 * NumWeights(code)) == GradRows(code, D, S, k)
    ensures code == 'l' ==> GradRows(code, D, S, k) == if k < 4 then D else S
  {
    if code == 'l' {
      assert (k + 8) / 4 == k / 4 + 2;
      assert (k + 16) / 4 == k / 4 + 4;
    }
  }

  /** The batch sizes after model_set_batch_size(b): a layer takes b unless its slot is empty or it was never sized. */
  function Resized(ts: seq<char>, bs: seq<nat>, b: nat): (r: seq<nat>)
    requires |ts| == |bs|
    ensures |r| == |bs|
    ensures forall i :: 0 <= i < |bs| ==> r[i] == if ts[i] != Empty && bs[i] != 0 then b else bs[i]
  {
    if |bs| == 0 then []
    else [if ts[0] != Empty && bs[0] != 0 then b else bs[0]] + Resized(ts[1..], bs[1..], b)
  }

  /** Resizing twice to the same size is resizing once. */
  lemma ResizedIdempotent(ts: seq<char>, bs: seq<nat>, b: nat)
    requires |ts| == |bs|
    ensures Resized(ts, Resized(ts, bs, b), b) == Resized(ts, bs, b)
  {
  }

  /**
   * When every filled slot shares a nonzero batch size, as compile leaves
   * them, they all share the new one afterwards; a size of 0 at compile
   * time leaves the layers at 0 for good.
   */
  lemma ResizedShared(ts: seq<char>, bs: seq<nat>, b0: nat, b: nat)
    requires |ts| == |bs|
    requires forall i :: 0 <= i < |bs| && ts[i] != Empty ==> bs[i] == b0
    ensures b0 != 0 ==> forall i :: 0 <= i < |bs| && ts[i] != Empty ==> Resized(ts, bs, b)[i] == b
    ensures b0 == 0 ==> forall i :: 0 <= i < |bs| && ts[i] != Empty ==> Resized(ts, bs, b)[i] == 0
  {
  }

  /** No layer carries state from an earlier batch. */
  predicate AllClear(cs: seq<bool>)
  {
    forall i :: 0 <= i < |cs| ==> !cs[i]
  }

  /** The index of the first 0 in counts. */
  function FirstZero(counts: seq<nat>): (r: nat)
    requires 0 in counts
    ensures r < |counts| && counts[r] == 0 && forall k :: 0 <= k < r ==> counts[k] != 0
  {
    if counts[0] == 0 then 0 else 1 + FirstZero(counts[1..])
  }

  /** The sum of the first n counts. */
  function CountSum(counts: seq<nat>, n: nat): nat
    requires n <= |counts|
  {
    if n == 0 then 0 else CountSum(counts, n - 1) + counts[n - 1]
  }

  /**
   * The learning rate and weight decay in force during epoch e of
   * model_fit: each epoch's get_epoch_params starts from the previous
   * epoch's values; without a schedule they are the arguments.
   */
  function RatesAt(sch: Option<string>, e: nat, lr: real, wd: real, scan: string -> Scan): (real, real)
  {
    var prev := if e == 0 then (lr, wd) else RatesAt(sch, e - 1, lr, wd, scan);
    if sch.None? then prev else Select(Segments(sch.value, 0, scan), e, 0, prev.0, prev.1)
  }

  /**
   * With a schedule of complete segments the previous epoch's rates do not
   * matter: epoch e gets the segment that covers it, and past the end the
   * last segment.
   */
  lemma ScheduleCovers(s: string, e: nat, lr: real, wd: real, scan: string -> Scan, k: nat)
    requires Complete(Segments(s, 0, scan)) && k < |Segments(s, 0, scan)|
    requires e < Total(Segments(s, 0, scan), k + 1)
    requires forall j :: 1 <= j <= k ==> Total(Segments(s, 0, scan), j) <= e
    ensures RatesAt(Some(s), e, lr, wd, scan) == (Segments(s, 0, scan)[k].l, Segments(s, 0, scan)[k].w)
  {
    var prev := if e == 0 then (lr, wd) else RatesAt(Some(s), e - 1, lr, wd, scan);
    SelectFirstCovering(Segments(s, 0, scan), e, prev.0, prev.1, k);
  }

  class Model {
    const numLayers: nat
    const inputDim: nat
    /** 1 when a bias input is appended to every sample, else 0. */
    const addBias: nat
    const normalize: bool
    var batchSize: nat
    /** Per slot: the type code ('d', 'l' or Empty), the units S, the input dimension D and the batch size B. */
    var types: seq<char>
    var units: seq<nat>
    var dims: seq<nat>
    var batches: seq<nat>
    /** Per slot: the layer keeps its state between batches (a stateful LSTM). */
    var keeps: seq<bool>
    /** Per slot: the layer holds state left by an earlier batch. */
    var carried: seq<bool>
    var outputDim: nat
    var lossFunc: char
    var optimizer: char
    var updateCnt: nat
    /** The length of the mean and sdev vectors, once allocated. */
    var statsDim: Option<int>
    /** The batch size and class count the CTC context was created with, if one was. */
    var ctc: Option<(nat, nat)>
    /** Per slot: the gradient buffers. */
    var grads: seq<seq<array2<real>>>

    ghost predicate Valid()
      reads this
    {
      |types| == numLayers && |units| == numLayers && |dims| == numLayers && |batches| == numLayers &&
      |keeps| == numLayers && |carried| == numLayers && |grads| == numLayers && addBias <= 1 &&
      (forall i :: 0 <= i < numLayers ==> types[i] == Empty || types[i] == 'd' || types[i] == 'l') &&
      (forall i :: 0 <= i < numLayers && !keeps[i] ==> !carried[i]) &&
      (forall i :: 0 <= i < numLayers && keeps[i] ==> types[i] == 'l')
    }

    /** model_create: every slot empty, nothing compiled. */
    constructor (layers: nat, batch: nat, input: nat, bias: int, norm: int)
      ensures Valid() && numLayers == layers && batchSize == batch && inputDim == input
      ensures addBias == (if bias != 0 then 1 else 0) && normalize == (norm != 0)
      ensures types == seq(layers, _ => Empty) && carried == seq(layers, _ => false)
      ensures lossFunc == Empty && optimizer == Empty && updateCnt == 0
      ensures statsDim.None? && ctc.None? && grads == seq(layers, _ => [])
    {
      numLayers := layers;
      batchSize := batch;
      inputDim := input;
      addBias := if bias != 0 then 1 else 0;
      normalize := norm != 0;
      types := seq(layers, _ => Empty);
      units := seq(layers, _ => 0);
      dims := seq(layers, _ => 0);
      batches := seq(layers, _ => 0);
      keeps := seq(layers, _ => false);
      carried := seq(layers, _ => false);
      outputDim := 0;
      lossFunc := Empty;
      optimizer := Empty;
      updateCnt := 0;
      statsDim := None;
      ctc := None;
      grads := seq(layers, _ => []);
    }

    /**
     * model_add: puts a layer of S units, of the named type, in the first
     * empty slot. false where the program exits: every slot taken, or a
     * type name other than dense and lstm.
     */
    method Add(name: string, S: nat, stateful: bool) returns (ok: bool)
      requires Valid()
      modifies this
      ensures Valid()
      ensures ok <==> FirstEmpty(old(types)) < numLayers && LayerCode(name) != Empty
      ensures ok ==> types == old(types)[FirstEmpty(old(types)) := LayerCode(name)]
      ensures ok ==> units == old(units)[FirstEmpty(old(types)) := S]
      ensures ok ==> keeps == old(keeps)[FirstEmpty(old(types)) := LayerCode(name) == 'l' && stateful]
      ensures !ok ==> types == old(types) && units == old(units) && keeps == old(keeps)
      ensures dims == old(dims) && batches == old(batches) && carried == old(carried) && grads == old(grads)
      ensures batchSize == old(batchSize) && outputDim == old(outputDim) && lossFunc == old(lossFunc)
      ensures optimizer == old(optimizer) && updateCnt == old(updateCnt) && statsDim == old(statsDim) && ctc == old(ctc)
    {
      var i := 0;
      while i < numLayers && types[i] != Empty
        invariant i <= numLayers && forall k :: 0 <= k < i ==> types[k] != Empty
      {
        i := i + 1;
      }
      if i >= numLayers {
        return false;
      }
      var code := LayerCode(name);
      if code == Empty {
        return false;
      }
      types := types[i := code];
      units := units[i := S];
      keeps := keeps[i := code == 'l' && stateful];
      ok := true;
    }

    /**
     * model_set_batch_size: nothing for the current size; otherwise every
     * layer is resized and a CTC context is recreated for the new size.
     */
    method SetBatchSize(b: nat)
      requires Valid()
      modifies this`batchSize, this`batches, this`ctc
      ensures Valid() && batchSize == b
      ensures b == old(batchSize) ==> batches == old(batches) && ctc == old(ctc)
      ensures b != old(batchSize) ==> batches == Resized(types, old(batches), b)
      ensures b != old(batchSize) ==> ctc == if old(ctc).Some? then Some((b, outputDim)) else None
    {
      if batchSize == b {
        return;
      }
      batchSize := b;
      var i := 0;
      while i < numLayers
        invariant Valid() && i <= numLayers && batchSize == b && ctc == old(ctc)
        invariant forall k :: 0 <= k < numLayers ==>
          batches[k] == if k < i && types[k] != Empty && old(batches[k]) != 0 then b else old(batches[k])
      {
        if types[i] != Empty && batches[i] != 0 {
          batches := batches[i := b];
        }
        i := i + 1;
      }
      assert batches == Resized(types, old(batches), b);
      if ctc.Some? {
        ctc := Some((batchSize, outputDim));
      }
    }

    /** reset_state: lstm_reset on every LSTM slot (dense_reset does nothing); no layer carries state afterwards. */
    method ResetState()
      requires Valid()
      modifies this`carried
      ensures Valid() && AllClear(carried)
    {
      var i := 0;
      while i < numLayers
        invariant Valid() && i <= numLayers && forall k :: 0 <= k < i ==> !carried[k]
      {
        if types[i] == 'l' {
          carried := carried[i := false];
        }
        i := i + 1;
      }
    }

    /** What the forward pass of a batch leaves behind: every layer that keeps its state now carries some. */
    method RunBatch()
      requires Valid()
      modifies this`carried
      ensures Valid() && carried == keeps
    {
      carried := keeps;
    }

    /**
     * One epoch of model_fit's training loop, over the counts batch_copy
     * returns: the loop ends at the first count of 0, the state is reset
     * before the first batch and after every batch shorter than the batch
     * size. starts tells for each batch whether it began with no carried
     * state; samples is the number of samples seen.
     */
    method FitEpoch(counts: seq<nat>) returns (starts: seq<bool>, samples: nat)
      requires Valid() && 0 in counts
      modifies this`carried
      ensures Valid()
      ensures EpochStarts(starts, counts) && samples == CountSum(counts, |starts|)
      ensures AllClear(carried) <==> |starts| == 0 || counts[|starts| - 1] < batchSize || true !in keeps
    {
      ResetState();
      starts := [];
      samples := 0;
      var k := 0;
      while true
        invariant Valid() && k <= FirstZero(counts) && |starts| == k && samples == CountSum(counts, k)
        invariant forall j :: 0 <= j < k ==> (starts[j] <==> j == 0 || counts[j - 1] < batchSize || true !in keeps)
        invariant AllClear(carried) <==> k == 0 || counts[k - 1] < batchSize || true !in keeps
        decreases FirstZero(counts) - k
      {
        var cnt := counts[k];
        if cnt == 0 {
          break;
        }
        starts := starts + [AllClear(carried)];
        RunBatch();
        samples := samples + cnt;
        if cnt < batchSize {
          ResetState();
        }
        k := k + 1;
      }
    }

    /**
     * The batches of an epoch over counts are the ones before the first 0,
     * and batch k begins with no carried state exactly when it is the
     * first, or the one before it was short, or no layer keeps state.
     */
    ghost predicate EpochStarts(starts: seq<bool>, counts: seq<nat>)
      reads this
      requires 0 in counts
    {
      |starts| == FirstZero(counts) &&
      forall k :: 0 <= k < |starts| ==> (starts[k] <==> k == 0 || counts[k - 1] < batchSize || true !in keeps)
    }

    /**
     * model_fit's epoch loop: each epoch takes its rates from the schedule,
     * when there is one, then runs FitEpoch over that epoch's counts.
     * rates[e] are the learning rate and weight decay of epoch e.
     */
    method Fit(epochs: seq<seq<nat>>, lr: real, wd: real, sch: Option<string>, scan: string -> Scan)
      returns (rates: seq<(real, real)>, starts: seq<seq<bool>>)
      requires Valid() && forall e :: 0 <= e < |epochs| ==> 0 in epochs[e]
      modifies this`carried
      ensures Valid() && |rates| == |epochs| && |starts| == |epochs|
      ensures forall e :: 0 <= e < |epochs| ==> rates[e] == RatesAt(sch, e, lr, wd, scan)
      ensures forall e :: 0 <= e < |epochs| ==> EpochStarts(starts[e], epochs[e])
    {
      var l, w := lr, wd;
      rates, starts := [], [];
      var e := 0;
      while e < |epochs|
        invariant Valid() && e <= |epochs| && |rates| == e && |starts| == e
        invariant (l, w) == if e == 0 then (lr, wd) else RatesAt(sch, e - 1, lr, wd, scan)
        invariant forall e' :: 0 <= e' < e ==> rates[e'] == RatesAt(sch, e', lr, wd, scan)
        invariant forall e' :: 0 <= e' < e ==> EpochStarts(starts[e'], epochs[e'])
      {
        if sch.Some? {
          l, w := GetEpochParams(sch.value, e, l, w, scan);
        }
        rates := rates + [(l, w)];
        var st, _ := FitEpoch(epochs[e]);
        starts := starts + [st];
        e := e + 1;
      }
    }

    /**
     * model_update: counts the update (the count is the adamw step number),
     * then updates every filled slot's weights ws[j] from its buffers with
     * UpdateLayer. false where the program exits: a negative second moment.
     */
    method Update(ws: seq<seq<array2<real>>>, lr: real, wd: real, sqrt: real -> real) returns (ok: bool)
      requires Valid() && GradsShaped() && (optimizer == 'l' || optimizer == 'a') && IsRoot(sqrt)
      requires |ws| == numLayers && WeightsShaped(ws)
      requires forall j :: 0 <= j < numLayers && types[j] != Empty ==> Apart(ws[j], grads[j])
      requires forall j, j' :: 0 <= j < numLayers && 0 <= j' < numLayers && j != j' && types[j] != Empty && types[j'] != Empty ==>
        Disjoint(ws[j], ws[j']) && Disjoint(ws[j], grads[j']) && Disjoint(grads[j], grads[j'])
      modifies this`updateCnt
      modifies set j, k | 0 <= j < numLayers && types[j] != Empty && 0 <= k < |ws[j]| :: ws[j][k]
      modifies set j, k | 0 <= j < numLayers && types[j] != Empty && 0 <= k < |grads[j]| :: grads[j][k]
      ensures updateCnt == old(updateCnt) + 1
      ensures ok <==> optimizer == 'l' || forall j :: 0 <= j < numLayers && types[j] != Empty ==>
        MomentsNonNegative(old(Snaps(grads[j])), |ws[j]|)
      ensures ok ==> forall j :: 0 <= j < numLayers && types[j] != Empty ==>
        LayerDone(ws[j], grads[j], old(Snaps(ws[j])), old(Snaps(grads[j])), optimizer, lr, wd, updateCnt, sqrt)
    {
      var uc := updateCnt + 1;
      var ts := types;
      var present := seq(numLayers, j requires 0 <= j < |ts| => ts[j] != Empty);
      forall j | 0 <= j < numLayers && present[j]
        ensures (optimizer == 'l' && |grads[j]| == |ws[j]|) || (optimizer == 'a' && |grads[j]| == 3 * |ws[j]|)
        ensures PairsShaped(ws[j], grads[j], optimizer)
      {
        LayerPairsShaped(ws, j);
      }
      ok := UpdateSlots(ws, grads, present, optimizer, lr, wd, uc, sqrt);
      updateCnt := uc;
    }

    /** The shapes compile gives the buffers are the ones model_update needs. */
    lemma LayerPairsShaped(ws: seq<seq<array2<real>>>, j: nat)
      requires Valid() && GradsShaped() && (optimizer == 'l' || optimizer == 'a')
      requires |ws| == numLayers && WeightsShaped(ws) && j < numLayers && types[j] != Empty
      ensures (optimizer == 'l' && |grads[j]| == |ws[j]|) || (optimizer == 'a' && |grads[j]| == 3 * |ws[j]|)
      ensures PairsShaped(ws[j], grads[j], optimizer)
    {
      forall k | 0 <= k < |ws[j]|
        ensures GradRows(types[j], dims[j], units[j], k + |ws[j]|) == GradRows(types[j], dims[j], units[j], k)
        ensures GradRows(types[j], dims[j], units[j], k + 2 * |ws[j]|) == GradRows(types[j], dims[j], units[j], k)
      {
        GradLayout(types[j], optimizer, dims[j], units[j], k);
      }
      GradLayout(types[j], optimizer, dims[j], units[j], 0);
    }

    /** The weight matrices ws[j] of every filled slot match its gradient buffers. */
    ghost predicate WeightsShaped(ws: seq<seq<array2<real>>>)
      reads this
      requires Valid() && |ws| == numLayers
    {
      forall j :: 0 <= j < numLayers && types[j] != Empty ==>
        |ws[j]| == NumWeights(types[j]) &&
        forall k :: 0 <= k < |ws[j]| ==>
          ws[j][k].Length0 == GradRows(types[j], dims[j], units[j], k) && ws[j][k].Length1 == units[j]
    }

    /** Every filled slot has the gradient buffers the optimizer needs, shaped as model_compile allocates them. */
    ghost predicate GradsShaped()
      reads this
      requires Valid()
    {
      forall i :: 0 <= i < numLayers && types[i] != Empty ==>
        |grads[i]| == NumGrads(types[i], optimizer) &&
        forall j :: 0 <= j < |grads[i]| ==>
          grads[i][j].Length0 == GradRows(types[i], dims[i], units[i], j) && grads[i][j].Length1 == units[i]
    }

    /** No two gradient buffers of filled slots are the same array. */
    ghost predicate GradsApart()
      reads this
      requires Valid()
    {
      forall i, j, i', j' :: (0 <= i < numLayers && 0 <= i' < numLayers && types[i] != Empty && types[i'] != Empty &&
                              0 <= j < |grads[i]| && 0 <= j' < |grads[i']| && (i != i' || j != j')) ==> grads[i][j] != grads[i'][j']
    }

    /**
     * model_compile: stores the loss and optimizer codes, then chains the
     * dimensions (the first layer gets inputDim + addBias, each later
     * layer the previous layer's units), takes the output dimension from
     * the last slot, creates the CTC context for the ctc loss, and
     * allocates zeroed gradient buffers. false where the program exits:
     * no loss or optimizer code, or no slots.
     */
    method Compile(lossName: string, optName: string) returns (ok: bool)
      requires Valid()
      modifies this
      ensures Valid()
      ensures lossFunc == LossCode(lossName, old(lossFunc))
      ensures lossFunc != Empty ==> optimizer == OptimizerCode(optName, old(optimizer))
      ensures lossFunc == Empty ==> optimizer == old(optimizer)
      ensures ok <==> lossFunc != Empty && optimizer != Empty && numLayers >= 1
      ensures types == old(types) && units == old(units) && keeps == old(keeps) && carried == old(carried)
      ensures batchSize == old(batchSize) && updateCnt == old(updateCnt)
      ensures !ok ==> dims == old(dims) && batches == old(batches) && outputDim == old(outputDim) &&
                      statsDim == old(statsDim) && ctc == old(ctc) && grads == old(grads)
      ensures ok ==> statsDim == if normalize then Some(inputDim - (1 - addBias)) else old(statsDim)
      ensures ok ==> forall i :: 0 <= i < numLayers ==>
        dims[i] == (if types[i] != Empty then DimBefore(types, units, inputDim + addBias, i) else old(dims[i])) &&
        batches[i] == (if types[i] != Empty then batchSize else old(batches[i]))
      ensures ok ==> outputDim == if types[numLayers - 1] != Empty then units[numLayers - 1] else old(outputDim)
      ensures ok ==> ctc == if lossFunc == 'C' then Some((batchSize, outputDim)) else old(ctc)
      ensures ok ==> GradsShaped() && GradsApart()
      ensures ok ==> forall i :: 0 <= i < numLayers && types[i] == Empty ==> grads[i] == old(grads[i])
      ensures ok ==> forall i, j :: 0 <= i < numLayers && types[i] != Empty && 0 <= j < |grads[i]| ==> fresh(grads[i][j])
      ensures ok ==> forall i, j, r, c :: (0 <= i < numLayers && types[i] != Empty && 0 <= j < |grads[i]| &&
                                           0 <= r < grads[i][j].Length0 && 0 <= c < grads[i][j].Length1) ==> grads[i][j][r, c] == 0.0
    {
      lossFunc := LossCode(lossName, lossFunc);
      if lossFunc == Empty {
        return false;
      }
      optimizer := OptimizerCode(optName, optimizer);
      if optimizer == Empty {
        return false;
      }
      if numLayers < 1 {
        return false;
      }
      Build();
      ok := true;
    }

    /** The part of model_compile after the checks, on a model with at least one slot. */
    method Build()
      requires Valid() && numLayers >= 1
      modifies this`statsDim, this`dims, this`batches, this`outputDim, this`ctc, this`grads
      ensures Valid()
      ensures statsDim == if normalize then Some(inputDim - (1 - addBias)) else old(statsDim)
      ensures forall i :: 0 <= i < numLayers ==>
        dims[i] == (if types[i] != Empty then DimBefore(types, units, inputDim + addBias, i) else old(dims[i])) &&
        batches[i] == (if types[i] != Empty then batchSize else old(batches[i]))
      ensures outputDim == if types[numLayers - 1] != Empty then units[numLayers - 1] else old(outputDim)
      ensures ctc == if lossFunc == 'C' then Some((batchSize, outputDim)) else old(ctc)
      ensures GradsShaped() && GradsApart()
      ensures forall i :: 0 <= i < numLayers && types[i] == Empty ==> grads[i] == old(grads[i])
      ensures forall i, j :: 0 <= i < numLayers && types[i] != Empty && 0 <= j < |grads[i]| ==> fresh(grads[i][j])
      ensures forall i, j, r, c :: (0 <= i < numLayers && types[i] != Empty && 0 <= j < |grads[i]| &&
                                    0 <= r < grads[i][j].Length0 && 0 <= c < grads[i][j].Length1) ==> grads[i][j][r, c] == 0.0
    {
      if normalize {
        statsDim := Some(inputDim - (1 - addBias));
      }
      ChainLayers();
      var last := numLayers - 1;
      if types[last] != Empty {
        outputDim := units[last];
      }
      if lossFunc == 'C' {
        ctc := Some((batchSize, outputDim));
      }
      AllocateGrads();
    }

    /** The dimension loop of model_compile: dense_init or lstm_init on every filled slot. */
    method ChainLayers()
      requires Valid()
      modifies this`dims, this`batches
      ensures Valid()
      ensures forall i :: 0 <= i < numLayers ==>
        dims[i] == (if types[i] != Empty then DimBefore(types, units, inputDim + addBias, i) else old(dims[i])) &&
        batches[i] == (if types[i] != Empty then batchSize else old(batches[i]))
    {
      var D := inputDim + addBias;
      var i := 0;
      while i < numLayers
        invariant Valid() && i <= numLayers && D == DimBefore(types, units, inputDim + addBias, i)
        invariant forall k :: 0 <= k < numLayers ==>
          dims[k] == (if k < i && types[k] != Empty then DimBefore(types, units, inputDim + addBias, k) else old(dims[k])) &&
          batches[k] == (if k < i && types[k] != Empty then batchSize else old(batches[k]))
      {
        if types[i] != Empty {
          dims := dims[i := D];
          batches := batches[i := batchSize];
          D := units[i];
        }
        i := i + 1;
      }
    }

    /** The allocation loop of model_compile: NumGrads zeroed buffers per filled slot. */
    method AllocateGrads()
      requires Valid()
      modifies this`grads
      ensures Valid() && GradsShaped() && GradsApart()
      ensures forall i :: 0 <= i < numLayers && types[i] == Empty ==> grads[i] == old(grads[i])
      ensures forall i, j :: 0 <= i < numLayers && types[i] != Empty && 0 <= j < |grads[i]| ==> fresh(grads[i][j])
      ensures forall i, j, r, c :: (0 <= i < numLayers && types[i] != Empty && 0 <= j < |grads[i]| &&
                                    0 <= r < grads[i][j].Length0 && 0 <= c < grads[i][j].Length1) ==> grads[i][j][r, c] == 0.0
    {
      var i := 0;
      while i < numLayers
        invariant Valid() && i <= numLayers
        invariant forall k :: i <= k < numLayers ==> grads[k] == old(grads[k])
        invariant forall k :: 0 <= k < i && types[k] == Empty ==> grads[k] == old(grads[k])
        invariant forall k :: 0 <= k < i && types[k] != Empty ==> LayerGrads(k)
        invariant forall k, j :: 0 <= k < i && types[k] != Empty && 0 <= j < |grads[k]| ==> fresh(grads[k][j])
        invariant forall k, j, k', j' :: (0 <= k < i && 0 <= k' < i && types[k] != Empty && types[k'] != Empty &&
                                          0 <= j < |grads[k]| && 0 <= j' < |grads[k']| && (k != k' || j != j')) ==> grads[k][j] != grads[k'][j']
      {
        if types[i] != Empty {
          var g := NewGrads(types[i], optimizer, dims[i], units[i]);
          grads := grads[i := g];
        }
        i := i + 1;
      }
    }

    /** Slot k's buffers are fresh, shaped and zero. */
    ghost predicate LayerGrads(k: nat)
      reads this, if k < |grads| then set j | 0 <= j < |grads[k]| :: grads[k][j] else {}
      requires Valid() && k < numLayers
    {
      |grads[k]| == NumGrads(types[k], optimizer) &&
      forall j :: 0 <= j < |grads[k]| ==>
        grads[k][j].Length0 == GradRows(types[k], dims[k], units[k], j) && grads[k][j].Length1 == units[k] &&
        forall r, c :: 0 <= r < grads[k][j].Length0 && 0 <= c < grads[k][j].Length1 ==> grads[k][j][r, c] == 0.0
    }
  }

  /** The buffers of one layer: NumGrads fresh zeroed arrays, buffer j with GradRows rows and S columns. */
  method NewGrads(code: char, opt: char, D: nat, S: nat) returns (g: seq<array2<real>>)
    ensures |g| == NumGrads(code, opt)
    ensures forall j :: 0 <= j < |g| ==> fresh(g[j]) && g[j].Length0 == GradRows(code, D, S, j) && g[j].Length1 == S
    ensures forall j :: 0 <= j < |g| ==> forall r, c :: 0 <= r < g[j].Length0 && 0 <= c < g[j].Length1 ==> g[j][r, c] == 0.0
    ensures forall j, j' :: 0 <= j < j' < |g| ==> g[j] != g[j']
  {
    var ng := NumGrads(code, opt);
    g := [];
    var j := 0;
    while j < ng
      invariant j <= ng && |g| == j
      invariant forall k :: 0 <= k < j ==> fresh(g[k]) && g[k].Length0 == GradRows(code, D, S, k) && g[k].Length1 == S
      invariant forall k :: 0 <= k < j ==> forall r, c :: 0 <= r < g[k].Length0 && 0 <= c < g[k].Length1 ==> g[k][r, c] == 0.0
      invariant forall k, k' :: 0 <= k < k' < j ==> g[k] != g[k']
    {
      var a := new real[GradRows(code, D, S, j), S]((_, _) => 0.0);
      g := g + [a];
      j := j + 1;
    }
  }

  /** Every array of the list is a different array. */
  predicate Distinct(xs: seq<array2<real>>)
  {
    forall a, b :: 0 <= a < b < |xs| ==> xs[a] != xs[b]
  }

  /** The contents of a list of matrices. */
  ghost function Snaps(xs: seq<array2<real>>): (r: seq<Mat>)
    reads set k | 0 <= k < |xs| :: xs[k]
    ensures |r| == |xs| && forall k :: 0 <= k < |xs| ==> r[k] == Snap(xs[k])
  {
    seq(|xs|, k requires 0 <= k < |xs| reads if 0 <= k < |xs| then {xs[k]} else {} => Snap(xs[k]))
  }

  /** One element of linear_update: w -= lr * (g + wd * w), with g already clipped. */
  function LinearStep(w: real, g: real, lr: real, wd: real): real
  {
    w - lr * (g + wd * w)
  }

  /**
   * Without weight decay a linear step moves the weight against the sign of
   * the gradient it was given, by lr times the clipped magnitude, which lies
   * in [lr * GradMin, lr * GradMax]; a zero gradient is clipped to -GradMin
   * and so still moves the weight up.
   */
  lemma LinearStepDescends(w: real, g: real, lr: real)
    requires lr > 0.0
    ensures LinearStep(w, ClipValue(g, GradMin, GradMax), lr, 0.0) < w <==> g > 0.0
    ensures lr * GradMin <= Abs(w - LinearStep(w, ClipValue(g, GradMin, GradMax), lr, 0.0)) <= lr * GradMax
  {
    var c := ClipValue(g, GradMin, GradMax);
    assert GradMin <= Abs(c) <= GradMax && (c > 0.0 <==> g > 0.0) && c != 0.0;
    assert LinearStep(w, c, lr, 0.0) == w - lr * c;
    var d := lr * Abs(c);
    assert lr * GradMin <= d <= lr * GradMax by {
      assert lr * (Abs(c) - GradMin) >= 0.0;
      assert lr * (GradMax - Abs(c)) >= 0.0;
    }
    if c > 0.0 {
      assert lr * c == d;
    } else {
      assert lr * c == -d;
    }
  }

  /** linear_update: clips the gradients in place, then moves every weight by its clipped gradient. */
  method LinearUpdate(w: array2<real>, g: array2<real>, lr: real, wd: real)
    requires w != g && g.Length0 == w.Length0 && g.Length1 == w.Length1
    modifies w, g
    ensures LinearDone(w, g, old(Snap(w)), old(Snap(g)), lr, wd)
  {
    ClipGradients(g, GradMin, GradMax);
    var i := 0;
    while i < w.Length0
      invariant i <= w.Length0
      invariant forall i', j :: 0 <= i' < g.Length0 && 0 <= j < g.Length1 ==>
        g[i', j] == ClipValue(old(g[i', j]), GradMin, GradMax)
      invariant forall i', j :: 0 <= i' < w.Length0 && 0 <= j < w.Length1 ==>
        w[i', j] == if i' < i then LinearStep(old(w[i', j]), g[i', j], lr, wd) else old(w[i', j])
    {
      var j := 0;
      while j < w.Length1
        invariant j <= w.Length1
        invariant forall i', j' :: 0 <= i' < g.Length0 && 0 <= j' < g.Length1 ==>
          g[i', j'] == ClipValue(old(g[i', j']), GradMin, GradMax)
        invariant forall i', j' :: 0 <= i' < w.Length0 && 0 <= j' < w.Length1 ==>
          w[i', j'] == if i' < i || (i' == i && j' < j) then LinearStep(old(w[i', j']), g[i', j'], lr, wd) else old(w[i', j'])
      {
        w[i, j] := w[i, j] - lr * (g[i, j] + wd * w[i, j]);
        j := j + 1;
      }
      i := i + 1;
    }
  }

  /** The linear update of one weight matrix has been applied; W0 and G0 are its weights and gradients before. */
  ghost predicate LinearDone(w: array2<real>, g: array2<real>, W0: Mat, G0: Mat, lr: real, wd: real)
    reads w, g
  {
    IsMat(W0, w.Length0, w.Length1) && IsMat(G0, w.Length0, w.Length1) &&
    g.Length0 == w.Length0 && g.Length1 == w.Length1 &&
    forall i, j :: 0 <= i < w.Length0 && 0 <= j < w.Length1 ==>
      g[i, j] == ClipValue(G0[i][j], GradMin, GradMax) && w[i, j] == LinearStep(W0[i][j], g[i, j], lr, wd)
  }

  /** The adamw update of one weight matrix with moments m and v has been applied, at step n. */
  ghost predicate AdamDone(w: array2<real>, g: array2<real>, m: array2<real>, v: array2<real>,
                           W0: Mat, G0: Mat, M0: Mat, V0: Mat, lr: real, wd: real, n: nat, sqrt: real -> real)
    reads w, g, m, v
    requires n >= 1 && IsRoot(sqrt)
  {
    IsMat(W0, w.Length0, w.Length1) && IsMat(G0, w.Length0, w.Length1) &&
    IsMat(M0, w.Length0, w.Length1) && IsMat(V0, w.Length0, w.Length1) &&
    g.Length0 == m.Length0 == v.Length0 == w.Length0 && g.Length1 == m.Length1 == v.Length1 == w.Length1 &&
    forall i, j :: 0 <= i < w.Length0 && 0 <= j < w.Length1 ==>
      g[i, j] == ClipValue(G0[i][j], GradMin, GradMax) &&
      Step(Moments(W0[i][j], M0[i][j], V0[i][j]), g[i, j], lr, wd, n, sqrt) == Some(Moments(w[i, j], m[i, j], v[i, j]))
  }

  /** The second moments (buffers 2n .. 3n-1 of G0) are nonnegative, so adamw does not stop. */
  ghost predicate MomentsNonNegative(G0: seq<Mat>, n: nat)
  {
    |G0| == 3 * n && forall a :: 2 * n <= a < 3 * n ==> NonNegative(G0[a])
  }

  /**
   * A layer's update has been applied: weight matrix k with gradient
   * buffer k, and for adamw with moments k + n and k + 2n, where n is the
   * number of weight matrices.
   */
  ghost predicate LayerDone(ws: seq<array2<real>>, gs: seq<array2<real>>, W0: seq<Mat>, G0: seq<Mat>,
                            opt: char, lr: real, wd: real, uc: nat, sqrt: real -> real)
    reads set k | 0 <= k < |ws| :: ws[k], set k | 0 <= k < |gs| :: gs[k]
    requires uc >= 1 && IsRoot(sqrt)
  {
    var n := |ws|;
    |W0| == n && |G0| == |gs| &&
    (opt == 'l' ==> |gs| == n && forall k :: 0 <= k < n ==> LinearDone(ws[k], gs[k], W0[k], G0[k], lr, wd)) &&
    (opt == 'a' ==> |gs| == 3 * n && forall k :: 0 <= k < n ==>
      AdamDone(ws[k], gs[k], gs[k + n], gs[k + 2 * n], W0[k], G0[k], G0[k + n], G0[k + 2 * n], lr, wd, uc, sqrt))
  }

  /** No array of xs is an array of ys. */
  predicate Disjoint(xs: seq<array2<real>>, ys: seq<array2<real>>)
  {
    forall a, b :: 0 <= a < |xs| && 0 <= b < |ys| ==> xs[a] != ys[b]
  }

  /** No array appears twice among the weights ws and the buffers gs. */
  predicate Apart(ws: seq<array2<real>>, gs: seq<array2<real>>)
  {
    Distinct(ws) && Distinct(gs) && Disjoint(ws, gs)
  }

  /** Every buffer that model_update pairs with weight matrix k has that matrix's shape. */
  predicate PairsShaped(ws: seq<array2<real>>, gs: seq<array2<real>>, opt: char)
    requires (opt == 'l' && |gs| == |ws|) || (opt == 'a' && |gs| == 3 * |ws|)
  {
    var n := |ws|;
    forall k :: 0 <= k < n ==>
      gs[k].Length0 == ws[k].Length0 && gs[k].Length1 == ws[k].Length1 &&
      (opt == 'a' ==> gs[k + n].Length0 == gs[k + 2 * n].Length0 == ws[k].Length0 &&
                      gs[k + n].Length1 == gs[k + 2 * n].Length1 == ws[k].Length1)
  }

  /**
   * The body of model_update for one layer: linear_update of weight
   * matrix k with buffer k, or adamw_update with buffers k, k + n and
   * k + 2n, for every k. false where adamw stops on a negative moment.
   */
  method UpdateLayer(ws: seq<array2<real>>, gs: seq<array2<real>>, opt: char, lr: real, wd: real, uc: nat,
                     sqrt: real -> real) returns (ok: bool)
    requires (opt == 'l' && |gs| == |ws|) || (opt == 'a' && |gs| == 3 * |ws|)
    requires Apart(ws, gs) && PairsShaped(ws, gs, opt) && uc >= 1 && IsRoot(sqrt)
    modifies set k | 0 <= k < |ws| :: ws[k], set k | 0 <= k < |gs| :: gs[k]
    ensures ok <==> opt == 'l' || MomentsNonNegative(old(Snaps(gs)), |ws|)
    ensures ok ==> LayerDone(ws, gs, old(Snaps(ws)), old(Snaps(gs)), opt, lr, wd, uc, sqrt)
  {
    ghost var W0, G0 := Snaps(ws), Snaps(gs);
    var n := |ws|;
    var k := 0;
    while k < n
      invariant k <= n
      invariant forall k' :: 0 <= k' < k ==> PairDone(ws, gs, k', W0, G0, opt, lr, wd, uc, sqrt)
      invariant forall a :: k <= a < n ==> Snap(ws[a]) == W0[a] && Snap(gs[a]) == G0[a]
      invariant opt == 'a' ==> forall a :: (n + k <= a < 2 * n || 2 * n + k <= a < 3 * n) ==> Snap(gs[a]) == G0[a]
    {
      ok := UpdatePair(ws, gs, k, opt, lr, wd, uc, sqrt, W0, G0);
      if !ok {
        assert !NonNegative(G0[k + 2 * n]);
        return;
      }
      k := k + 1;
    }
    PairsMakeLayer(ws, gs, W0, G0, opt, lr, wd, uc, sqrt);
    ok := true;
  }

  /** Once every weight matrix of a layer has had its update, the layer has. */
  lemma PairsMakeLayer(ws: seq<array2<real>>, gs: seq<array2<real>>, W0: seq<Mat>, G0: seq<Mat>,
                       opt: char, lr: real, wd: real, uc: nat, sqrt: real -> real)
    requires (opt == 'l' && |gs| == |ws|) || (opt == 'a' && |gs| == 3 * |ws|)
    requires |W0| == |ws| && |G0| == |gs| && uc >= 1 && IsRoot(sqrt)
    requires forall k :: 0 <= k < |ws| ==> PairDone(ws, gs, k, W0, G0, opt, lr, wd, uc, sqrt)
    ensures opt == 'a' ==> MomentsNonNegative(G0, |ws|)
    ensures LayerDone(ws, gs, W0, G0, opt, lr, wd, uc, sqrt)
  {
    var n := |ws|;
    if opt == 'a' {
      forall a | 2 * n <= a < 3 * n
        ensures NonNegative(G0[a])
      {
        assert PairDone(ws, gs, a - 2 * n, W0, G0, opt, lr, wd, uc, sqrt);
      }
      forall k | 0 <= k < n
        ensures AdamDone(ws[k], gs[k], gs[k + n], gs[k + 2 * n], W0[k], G0[k], G0[k + n], G0[k + 2 * n], lr, wd, uc, sqrt)
      {
        assert PairDone(ws, gs, k, W0, G0, opt, lr, wd, uc, sqrt);
      }
    } else {
      forall k | 0 <= k < n
        ensures LinearDone(ws[k], gs[k], W0[k], G0[k], lr, wd)
      {
        assert PairDone(ws, gs, k, W0, G0, opt, lr, wd, uc, sqrt);
      }
    }
  }

  /** Every present slot j pairs its weights ws[j] with buffers gs[j] as model_update needs. */
  predicate SlotsReady(wss: seq<seq<array2<real>>>, gss: seq<seq<array2<real>>>, present: seq<bool>, opt: char)
  {
    |wss| == |gss| == |present| &&
    (forall j :: 0 <= j < |wss| && present[j] ==>
      ((opt == 'l' && |gss[j]| == |wss[j]|) || (opt == 'a' && |gss[j]| == 3 * |wss[j]|)) &&
      Apart(wss[j], gss[j]) && PairsShaped(wss[j], gss[j], opt)) &&
    (forall j, j' :: 0 <= j < |wss| && 0 <= j' < |wss| && j != j' && present[j] && present[j'] ==>
      Disjoint(wss[j], wss[j']) && Disjoint(wss[j], gss[j']) && Disjoint(gss[j], gss[j']))
  }

  /**
   * The loop of model_update over the layers: UpdateLayer on every present
   * slot in order, stopping at the first that fails.
   */
  method UpdateSlots(wss: seq<seq<array2<real>>>, gss: seq<seq<array2<real>>>, present: seq<bool>,
                     opt: char, lr: real, wd: real, uc: nat, sqrt: real -> real) returns (ok: bool)
    requires SlotsReady(wss, gss, present, opt) && (opt == 'l' || opt == 'a') && uc >= 1 && IsRoot(sqrt)
    modifies set j, k | 0 <= j < |wss| && present[j] && 0 <= k < |wss[j]| :: wss[j][k]
    modifies set j, k | 0 <= j < |gss| && present[j] && 0 <= k < |gss[j]| :: gss[j][k]
    ensures ok <==> opt == 'l' || forall j :: 0 <= j < |wss| && present[j] ==> MomentsNonNegative(old(Snaps(gss[j])), |wss[j]|)
    ensures ok ==> forall j :: 0 <= j < |wss| && present[j] ==>
      LayerDone(wss[j], gss[j], old(Snaps(wss[j])), old(Snaps(gss[j])), opt, lr, wd, uc, sqrt)
  {
    ghost var WS := seq(|wss|, j requires 0 <= j < |wss|
      reads if 0 <= j < |wss| then set k | 0 <= k < |wss[j]| :: wss[j][k] else {} => Snaps(wss[j]));
    ghost var GS := seq(|gss|, j requires 0 <= j < |gss|
      reads if 0 <= j < |gss| then set k | 0 <= k < |gss[j]| :: gss[j][k] else {} => Snaps(gss[j]));
    var j := 0;
    while j < |wss|
      invariant j <= |wss| && |WS| == |GS| == |wss|
      invariant forall j' :: 0 <= j' < j && present[j'] ==> SlotDone(wss, gss, j', WS[j'], GS[j'], opt, lr, wd, uc, sqrt)
      invariant forall j' :: j <= j' < |wss| && present[j'] ==> Snaps(wss[j']) == WS[j'] && Snaps(gss[j']) == GS[j']
    {
      if present[j] {
        ok := UpdateSlot(wss, gss, present, j, opt, lr, wd, uc, sqrt, WS, GS);
        if !ok {
          return;
        }
      }
      j := j + 1;
    }
    ok := true;
  }

  /** Slot j has had its update; for adamw its second moments were nonnegative. */
  ghost predicate SlotDone(wss: seq<seq<array2<real>>>, gss: seq<seq<array2<real>>>, j: nat, W0: seq<Mat>, G0: seq<Mat>,
                           opt: char, lr: real, wd: real, uc: nat, sqrt: real -> real)
    requires j < |wss| == |gss| && uc >= 1 && IsRoot(sqrt)
    reads set k | 0 <= k < |wss[j]| :: wss[j][k], set k | 0 <= k < |gss[j]| :: gss[j][k]
  {
    (opt == 'l' || MomentsNonNegative(G0, |wss[j]|)) && LayerDone(wss[j], gss[j], W0, G0, opt, lr, wd, uc, sqrt)
  }

  /** UpdateLayer on slot j, leaving every other present slot as it was. */
  method UpdateSlot(wss: seq<seq<array2<real>>>, gss: seq<seq<array2<real>>>, present: seq<bool>, j: nat,
                    opt: char, lr: real, wd: real, uc: nat, sqrt: real -> real,
                    ghost WS: seq<seq<Mat>>, ghost GS: seq<seq<Mat>>) returns (ok: bool)
    requires SlotsReady(wss, gss, present, opt) && (opt == 'l' || opt == 'a') && uc >= 1 && IsRoot(sqrt)
    requires j < |wss| && present[j] && |WS| == |GS| == |wss|
    requires Snaps(wss[j]) == WS[j] && Snaps(gss[j]) == GS[j]
    modifies set k | 0 <= k < |wss[j]| :: wss[j][k], set k | 0 <= k < |gss[j]| :: gss[j][k]
    ensures ok <==> opt == 'l' || MomentsNonNegative(GS[j], |wss[j]|)
    ensures ok ==> SlotDone(wss, gss, j, WS[j], GS[j], opt, lr, wd, uc, sqrt)
    ensures forall j' :: 0 <= j' < |wss| && j' != j && present[j'] ==>
      Snaps(wss[j']) == old(Snaps(wss[j'])) && Snaps(gss[j']) == old(Snaps(gss[j']))
    ensures forall j' :: (0 <= j' < |wss| && j' != j && present[j'] &&
      old(SlotDone(wss, gss, j', WS[j'], GS[j'], opt, lr, wd, uc, sqrt))) ==> SlotDone(wss, gss, j', WS[j'], GS[j'], opt, lr, wd, uc, sqrt)
  {
    ok := UpdateLayer(wss[j], gss[j], opt, lr, wd, uc, sqrt);
  }

  /** Weight matrix k of a layer has had its update; for adamw its second moments were nonnegative. */
  ghost predicate PairDone(ws: seq<array2<real>>, gs: seq<array2<real>>, k: nat, W0: seq<Mat>, G0: seq<Mat>,
                           opt: char, lr: real, wd: real, uc: nat, sqrt: real -> real)
    requires (opt == 'l' && |gs| == |ws|) || (opt == 'a' && |gs| == 3 * |ws|)
    requires k < |ws| && |W0| == |ws| && |G0| == |gs| && uc >= 1 && IsRoot(sqrt)
    reads ws[k], gs[k], if opt == 'a' then {gs[k + |ws|], gs[k + 2 * |ws|]} else {}
  {
    var n := |ws|;
    (opt == 'l' ==> LinearDone(ws[k], gs[k], W0[k], G0[k], lr, wd)) &&
    (opt == 'a' ==> NonNegative(G0[k + 2 * n]) &&
                    AdamDone(ws[k], gs[k], gs[k + n], gs[k + 2 * n], W0[k], G0[k], G0[k + n], G0[k + 2 * n], lr, wd, uc, sqrt))
  }

  /** Every entry of the matrix is nonnegative. */
  ghost predicate NonNegative(V: Mat)
  {
    forall i, j :: 0 <= i < |V| && 0 <= j < |V[i]| ==> V[i][j] >= 0.0
  }

  /** One line of model_update: the update of weight matrix k; W0 and G0 are the contents at the start of the layer. */
  method UpdatePair(ws: seq<array2<real>>, gs: seq<array2<real>>, k: nat, opt: char, lr: real, wd: real, uc: nat,
                    sqrt: real -> real, ghost W0: seq<Mat>, ghost G0: seq<Mat>) returns (ok: bool)
    requires (opt == 'l' && |gs| == |ws|) || (opt == 'a' && |gs| == 3 * |ws|)
    requires Apart(ws, gs) && PairsShaped(ws, gs, opt) && uc >= 1 && IsRoot(sqrt)
    requires k < |ws| && |W0| == |ws| && |G0| == |gs|
    requires Snap(ws[k]) == W0[k] && Snap(gs[k]) == G0[k]
    requires opt == 'a' ==> Snap(gs[k + |ws|]) == G0[k + |ws|] && Snap(gs[k + 2 * |ws|]) == G0[k + 2 * |ws|]
    modifies ws[k], gs[k], if opt == 'a' then {gs[k + |ws|], gs[k + 2 * |ws|]} else {}
    ensures ok <==> opt == 'l' || NonNegative(G0[k + 2 * |ws|])
    ensures ok ==> PairDone(ws, gs, k, W0, G0, opt, lr, wd, uc, sqrt)
    ensures forall a :: 0 <= a < |ws| && a != k ==> Snap(ws[a]) == old(Snap(ws[a]))
    ensures forall a :: 0 <= a < |gs| && a != k && (opt == 'a' ==> a != k + |ws| && a != k + 2 * |ws|) ==>
      Snap(gs[a]) == old(Snap(gs[a]))
    ensures forall k' :: 0 <= k' < |ws| && k' != k && old(PairDone(ws, gs, k', W0, G0, opt, lr, wd, uc, sqrt)) ==>
      PairDone(ws, gs, k', W0, G0, opt, lr, wd, uc, sqrt)
  {
    var n := |ws|;
    if opt == 'l' {
      LinearUpdate(ws[k], gs[k], lr, wd);
      ok := true;
    } else {
      ok := AdamWUpdate(ws[k], gs[k], gs[k + n], gs[k + 2 * n], lr, wd, uc, sqrt);
    }
  }
}
