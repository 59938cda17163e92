/**
 * Frame packing of the training set (src/data/prepdata.c, prepare_data):
 * the sequences are shuffled in place, then every frame of every sample
 * becomes one row of x (its FRAME_SIZE features followed by the bias 1.0)
 * with the sample's expected output as the same row of y, until
 * max_vectors rows are filled. seq_len receives the number of rows each
 * processed sequence contributed.
 */
module PrepData {
  import opened Common
  import opened Random
  import opened Shuffling
  import opened Matrix

  const FRAME_SIZE: int := 14
  const MAX_FRAMES: int := 32
  const NUM_CLASSES: int := 64

  /** A phoneme sample: its frames of features and its expected output vector. */
  datatype Sample = Sample(frames: seq<seq<real>>, expected: seq<real>)

  /** A sequence of samples (num_samples is the length of samples). */
  datatype Sequence = Sequence(samples: seq<Sample>)

  /** One packed vector: the features of a frame and the label of its sample. */
  datatype Row = Row(features: seq<real>, output: seq<real>)

  /** The fixed-size buffers of sample.h hold at most MAX_FRAMES frames of FRAME_SIZE features and NUM_CLASSES outputs. */
  predicate SampleFits(s: Sample)
  {
    |s.frames| <= MAX_FRAMES && |s.expected| == NUM_CLASSES &&
    forall f :: 0 <= f < |s.frames| ==> |s.frames[f]| == FRAME_SIZE
  }

  predicate SequenceFits(q: Sequence)
  {
    forall i :: 0 <= i < |q.samples| ==> SampleFits(q.samples[i])
  }

  /** The rows of one sample: one per frame, in frame order. */
  function FrameRows(s: Sample): (r: seq<Row>)
    ensures |r| == |s.frames|
  {
    seq(|s.frames|, f requires 0 <= f < |s.frames| => Row(s.frames[f], s.expected))
  }

  /** The rows of a list of samples, in order. */
  function SampleRows(samples: seq<Sample>): seq<Row>
  {
    if |samples| == 0 then [] else SampleRows(samples[..|samples| - 1]) + FrameRows(samples[|samples| - 1])
  }

  /** The rows of all sequences, in order. */
  function AllRows(seqs: seq<Sequence>): seq<Row>
  {
    if |seqs| == 0 then [] else SampleRows(seqs[0].samples) + AllRows(seqs[1..])
  }

  /** The rows packed and the per-sequence counts written to seq_len. */
  datatype Packing = Packing(rows: seq<Row>, lens: seq<int>)

  /**
   * Packing the sequences into room rows: a sequence that fills the room
   * contributes what fits and ends the packing; otherwise it contributes
   * all its rows and packing goes on with the next sequence.
   */
  function Pack(seqs: seq<Sequence>, room: int): (p: Packing)
    requires room > 0
    ensures |p.rows| <= room && |p.lens| <= |seqs|
  {
    if |seqs| == 0 then Packing([], [])
    else
      var r := SampleRows(seqs[0].samples);
      if |r| >= room then Packing(r[..room], [room])
      else
        var p := Pack(seqs[1..], room - |r|);
        Packing(r + p.rows, [|r|] + p.lens)
  }

  /** The counts written to seq_len add up to the number of rows returned. */
  lemma {:induction false} PackCountsAddUp(seqs: seq<Sequence>, room: int)
    requires room > 0
    ensures SumInt(Pack(seqs, room).lens) == |Pack(seqs, room).rows|
  {
    if |seqs| > 0 {
      var r := SampleRows(seqs[0].samples);
      if |r| >= room {
        assert SumInt([room]) == SumInt([]) + room;
      } else {
        var p := Pack(seqs[1..], room - |r|);
        PackCountsAddUp(seqs[1..], room - |r|);
        SumIntAppend([|r|], p.lens);
        assert SumInt([|r|]) == SumInt([]) + |r|;
      }
    }
  }

  /** The rows returned are the first min(room, total) rows of all sequences, in order. */
  lemma {:induction false} PackIsPrefix(seqs: seq<Sequence>, room: int)
    requires room > 0
    ensures |Pack(seqs, room).rows| == Min(room, |AllRows(seqs)|)
    ensures Pack(seqs, room).rows == AllRows(seqs)[..|Pack(seqs, room).rows|]
  {
    if |seqs| > 0 {
      var r := SampleRows(seqs[0].samples);
      if |r| < room {
        PackIsPrefix(seqs[1..], room - |r|);
        var p := Pack(seqs[1..], room - |r|);
        assert AllRows(seqs)[..|r| + |p.rows|] == r + AllRows(seqs[1..])[..|p.rows|];
      } else {
        assert AllRows(seqs)[..room] == r[..room];
      }
    }
  }

  /** The samples that have at least one frame. */
  function NonEmpty(samples: seq<Sample>): seq<Sample>
  {
    if |samples| == 0 then []
    else if |samples[|samples| - 1].frames| == 0 then NonEmpty(samples[..|samples| - 1])
    else NonEmpty(samples[..|samples| - 1]) + [samples[|samples| - 1]]
  }

  /** Samples without frames contribute nothing: dropping them leaves the rows as they are. */
  lemma {:induction false} EmptySamplesSkipped(samples: seq<Sample>)
    ensures SampleRows(NonEmpty(samples)) == SampleRows(samples)
  {
    if |samples| > 0 {
      var n := |samples| - 1;
      EmptySamplesSkipped(samples[..n]);
      var ne := NonEmpty(samples[..n]);
      if |samples[n].frames| == 0 {
        assert FrameRows(samples[n]) == [];
      } else {
        assert (ne + [samples[n]])[..|ne|] == ne;
      }
    }
  }

  /** Row k of x and y holds row: the features, the bias 1.0 in the last column, the label. */
  ghost predicate Stored(x: array2<real>, y: array2<real>, k: int, row: Row)
    requires 0 <= k < x.Length0 && k < y.Length0 && x.Length1 == FRAME_SIZE + 1 && y.Length1 >= NUM_CLASSES
    requires |row.features| == FRAME_SIZE && |row.output| == NUM_CLASSES
    reads x, y
  {
    (forall c :: 0 <= c < FRAME_SIZE ==> x[k, c] == row.features[c]) && x[k, FRAME_SIZE] == 1.0 &&
    forall c :: 0 <= c < NUM_CLASSES ==> y[k, c] == row.output[c]
  }

  /** Every row of a well-formed sample list has FRAME_SIZE features and NUM_CLASSES outputs. */
  ghost predicate RowsFit(rows: seq<Row>)
  {
    forall k :: 0 <= k < |rows| ==> |rows[k].features| == FRAME_SIZE && |rows[k].output| == NUM_CLASSES
  }

  lemma {:induction false} SampleRowsFit(samples: seq<Sample>)
    requires forall i :: 0 <= i < |samples| ==> SampleFits(samples[i])
    ensures RowsFit(SampleRows(samples))
  {
    if |samples| > 0 {
      SampleRowsFit(samples[..|samples| - 1]);
    }
  }

  lemma {:induction false} PackRowsFit(seqs: seq<Sequence>, room: int)
    requires room > 0 && forall i :: 0 <= i < |seqs| ==> SequenceFits(seqs[i])
    ensures RowsFit(Pack(seqs, room).rows)
  {
    if |seqs| > 0 {
      SampleRowsFit(seqs[0].samples);
      var r := SampleRows(seqs[0].samples);
      if |r| < room {
        PackRowsFit(seqs[1..], room - |r|);
      }
    }
  }

  /** The rows emitted once the samples before sinx and the first finx frames of sample sinx are packed. */
  function Emitted(samples: seq<Sample>, sinx: int, finx: int): seq<Row>
    requires 0 <= sinx <= |samples|
    requires sinx < |samples| ==> 0 <= finx <= |samples[sinx].frames|
  {
    SampleRows(samples[..sinx]) + (if sinx < |samples| then FrameRows(samples[sinx])[..finx] else [])
  }

  /** What has been emitted is a prefix of all the rows of the samples. */
  lemma EmittedIsPrefix(samples: seq<Sample>, sinx: int, finx: int)
    requires 0 <= sinx < |samples| && 0 <= finx <= |samples[sinx].frames|
    ensures Emitted(samples, sinx, finx) <= SampleRows(samples)
  {
    SampleRowsPrefix(samples, sinx + 1);
    assert samples[..sinx + 1][..sinx] == samples[..sinx];
  }

  lemma {:induction false} SampleRowsPrefix(samples: seq<Sample>, n: int)
    requires 0 <= n <= |samples|
    ensures SampleRows(samples[..n]) <= SampleRows(samples)
    decreases |samples|
  {
    if n < |samples| {
      var m := |samples| - 1;
      assert samples[..m][..n] == samples[..n];
      SampleRowsPrefix(samples[..m], n);
    } else {
      assert samples[..n] == samples;
    }
  }

  /** The label loop: y[row][i] := label[i] for the NUM_CLASSES outputs. */
  method CopyLabel(y: array2<real>, row: int, output: seq<real>)
    requires 0 <= row < y.Length0 && y.Length1 >= NUM_CLASSES && |output| == NUM_CLASSES
    modifies y
    ensures forall c :: 0 <= c < NUM_CLASSES ==> y[row, c] == output[c]
    ensures forall i, c :: 0 <= i < y.Length0 && 0 <= c < y.Length1 && !(i == row && c < NUM_CLASSES) ==>
      y[i, c] == old(y[i, c])
  {
    var i := 0;
    while i < NUM_CLASSES
      invariant 0 <= i <= NUM_CLASSES
      invariant forall c :: 0 <= c < i ==> y[row, c] == output[c]
      invariant forall r, c :: 0 <= r < y.Length0 && 0 <= c < y.Length1 && !(r == row && c < i) ==>
        y[r, c] == old(y[r, c])
    {
      y[row, i] := output[i];
      i := i + 1;
    }
  }

  /**
   * The state of x and y while a sequence is packed from row nvec0 on: rows
   * nvec0 up to nvec hold the first rows of all, row nvec starts with the
   * parameters of partial, and every other cell still has its value in X and Y.
   */
  ghost predicate Filled(x: array2<real>, y: array2<real>, X: Mat, Y: Mat, nvec0: int, nvec: int,
                         all: seq<Row>, partial: seq<real>)
    reads x, y
  {
    x.Length1 == FRAME_SIZE + 1 && y.Length1 >= NUM_CLASSES && x != y &&
    0 <= nvec0 <= nvec < x.Length0 && nvec < y.Length0 && |partial| <= FRAME_SIZE &&
    RowsFit(all) && nvec - nvec0 <= |all| &&
    IsMat(X, x.Length0, x.Length1) && IsMat(Y, y.Length0, y.Length1) &&
    (forall k :: 0 <= k < nvec - nvec0 ==> Stored(x, y, nvec0 + k, all[k])) &&
    (forall c :: 0 <= c < |partial| ==> x[nvec, c] == partial[c]) &&
    (forall i, c :: 0 <= i < x.Length0 && 0 <= c < x.Length1 && !(nvec0 <= i < nvec) && !(i == nvec && c < |partial|) ==>
      x[i, c] == X[i][c]) &&
    (forall i, c :: 0 <= i < y.Length0 && 0 <= c < y.Length1 && !(nvec0 <= i < nvec && c < NUM_CLASSES) ==>
      y[i, c] == Y[i][c])
  }

  /** `x[nvec][vinx++] = features[finx][pinx++]`: one more parameter of the current row. */
  method WriteParameter(x: array2<real>, y: array2<real>, ghost X: Mat, ghost Y: Mat, nvec0: int, nvec: int,
                        ghost all: seq<Row>, ghost partial: seq<real>, vinx: int, v: real)
    requires Filled(x, y, X, Y, nvec0, nvec, all, partial) && vinx == |partial| < FRAME_SIZE
    modifies x
    ensures Filled(x, y, X, Y, nvec0, nvec, all, partial + [v])
  {
    x[nvec, vinx] := v;
  }

  /** The completion of row nvec: the bias in column vinx == D - 1, then the label. */
  method CompleteVector(x: array2<real>, y: array2<real>, ghost X: Mat, ghost Y: Mat, nvec0: int, nvec: int,
                        ghost all: seq<Row>, ghost partial: seq<real>, vinx: int, output: seq<real>)
    requires Filled(x, y, X, Y, nvec0, nvec, all, partial) && vinx == |partial| == FRAME_SIZE
    requires nvec - nvec0 < |all| && all[nvec - nvec0] == Row(partial, output)
    modifies x, y
    ensures forall k :: 0 <= k <= nvec - nvec0 ==> Stored(x, y, nvec0 + k, all[k])
    ensures forall i, c :: 0 <= i < x.Length0 && 0 <= c < x.Length1 && !(nvec0 <= i <= nvec) ==> x[i, c] == X[i][c]
    ensures forall i, c :: 0 <= i < y.Length0 && 0 <= c < y.Length1 && !(nvec0 <= i <= nvec && c < NUM_CLASSES) ==>
      y[i, c] == Y[i][c]
  {
    x[nvec, vinx] := 1.0;
    CopyLabel(y, nvec, output);
  }

  /**
   * The loop state of the sample loop between iterations: sample sinx,
   * frame finx and parameter pinx are next; the rows emitted so far fill
   * x and y from row nvec0 on, and row nvec holds the parameters copied so far.
   */
  ghost predicate Packed(x: array2<real>, y: array2<real>, X: Mat, Y: Mat, samples: seq<Sample>, nvec0: int, max: int,
                          nvec: int, sinx: int, finx: int, pinx: int, partial: seq<real>)
    reads x, y
  {
    0 <= sinx <= |samples| && 0 <= pinx < FRAME_SIZE && pinx == |partial| && 0 <= finx <= MAX_FRAMES &&
    (forall i :: 0 <= i < |samples| ==> SampleFits(samples[i])) &&
    (sinx < |samples| ==> finx <= |samples[sinx].frames|) &&
    (sinx < |samples| && |samples[sinx].frames| > 0 ==> finx < |samples[sinx].frames|) &&
    (pinx > 0 ==> sinx < |samples| && finx < |samples[sinx].frames| && partial == samples[sinx].frames[finx][..pinx]) &&
    nvec == nvec0 + |Emitted(samples, sinx, finx)| && nvec < max && max <= x.Length0 && max <= y.Length0 &&
    Emitted(samples, sinx, finx) <= SampleRows(samples) &&
    Filled(x, y, X, Y, nvec0, nvec, SampleRows(samples), partial)
  }

  /** A measure the sample loop decreases: samples left, then frames left, then parameters left. */
  function Remaining(nsamples: int, sinx: int, finx: int, pinx: int): int
  {
    (nsamples - sinx) * 1000 + (MAX_FRAMES - finx) * 20 + (FRAME_SIZE - pinx)
  }

  /**
   * One pass of the sample loop of prepare_data: skip a sample without
   * frames, or copy one parameter; a completed frame completes the row and
   * ends the loop (stop) once max rows are filled; a completed sample moves
   * on to the next.
   */
  method PackStep(x: array2<real>, y: array2<real>, q: Sequence, nvec0: int, max: int,
                  nvec: int, sinx: int, finx: int, pinx: int,
                  ghost X: Mat, ghost Y: Mat, ghost partial: seq<real>)
    returns (nvec': int, sinx': int, finx': int, pinx': int, stop: bool, ghost partial': seq<real>)
    requires sinx < |q.samples|
    requires Packed(x, y, X, Y, q.samples, nvec0, max, nvec, sinx, finx, pinx, partial)
    modifies x, y
    ensures stop ==> nvec' == max && nvec' - nvec0 <= |SampleRows(q.samples)|
    ensures stop ==> forall k :: 0 <= k < nvec' - nvec0 ==> Stored(x, y, nvec0 + k, SampleRows(q.samples)[k])
    ensures stop ==> forall i, c :: 0 <= i < x.Length0 && 0 <= c < x.Length1 && !(nvec0 <= i < nvec') ==> x[i, c] == X[i][c]
    ensures stop ==> forall i, c :: 0 <= i < y.Length0 && 0 <= c < y.Length1 && !(nvec0 <= i < nvec' && c < NUM_CLASSES) ==>
      y[i, c] == Y[i][c]
    ensures !stop ==> Packed(x, y, X, Y, q.samples, nvec0, max, nvec', sinx', finx', pinx', partial')
    ensures !stop ==> 0 <= Remaining(|q.samples|, sinx', finx', pinx') < Remaining(|q.samples|, sinx, finx, pinx)
  {
    ghost var samples := q.samples;
    nvec', sinx', finx', pinx', stop, partial' := nvec, sinx, finx, pinx, false, partial;
    var nfrm := |q.samples[sinx].frames|;
    assert SampleFits(q.samples[sinx]);
    if nfrm == 0 {
      NextSample(samples, sinx);
      sinx' := sinx + 1;
      return;
    }
    var frame := q.samples[sinx].frames[finx];
    var vinx := pinx;
    WriteParameter(x, y, X, Y, nvec0, nvec, SampleRows(samples), partial, vinx, frame[pinx]);
    assert partial + [frame[pinx]] == frame[..pinx + 1];
    partial' := frame[..pinx + 1];
    vinx := vinx + 1;
    pinx' := pinx + 1;
    if pinx' >= FRAME_SIZE {
      pinx' := 0;
      finx' := finx + 1;
    }
    if pinx' == 0 {
      CompleteRow(samples, sinx, finx');
      EmittedIsPrefix(samples, sinx, finx');
      assert frame[..FRAME_SIZE] == frame;
      CompleteVector(x, y, X, Y, nvec0, nvec, SampleRows(samples), partial', vinx, q.samples[sinx].expected);
      vinx := 0;
      partial' := [];
      nvec' := nvec + 1;
      if nvec' >= max {
        stop := true;
        return;
      }
    }
    if finx' >= nfrm {
      NextSample(samples, sinx);
      finx' := 0;
      sinx' := sinx + 1;
    }
  }

  /**
   * The sample loop for one sequence: parameters are copied one at a time
   * into row nvec; a completed frame completes the row (bias and label);
   * the loop stops early once max rows are filled.
   */
  method PackSequence(x: array2<real>, y: array2<real>, q: Sequence, nvec0: int, max: int) returns (nvec: int)
    requires x != y
    requires 0 <= nvec0 < max <= x.Length0 && max <= y.Length0
    requires x.Length1 == FRAME_SIZE + 1 && y.Length1 >= NUM_CLASSES
    requires SequenceFits(q)
    modifies x, y
    ensures var r := SampleRows(q.samples);
      nvec == nvec0 + Min(|r|, max - nvec0) && RowsFit(r) &&
      forall k :: 0 <= k < nvec - nvec0 ==> Stored(x, y, nvec0 + k, r[k])
    ensures forall i, c :: 0 <= i < x.Length0 && 0 <= c < x.Length1 && !(nvec0 <= i < nvec) ==> x[i, c] == old(x[i, c])
    ensures forall i, c :: 0 <= i < y.Length0 && 0 <= c < y.Length1 && !(nvec0 <= i < nvec && c < NUM_CLASSES) ==>
      y[i, c] == old(y[i, c])
  {
    ghost var X, Y := Snap(x), Snap(y);
    SampleRowsFit(q.samples);
    nvec := nvec0;
    var sinx, finx, pinx := 0, 0, 0;
    ghost var partial: seq<real> := [];
    var stop := false;
    while sinx < |q.samples|
      invariant Packed(x, y, X, Y, q.samples, nvec0, max, nvec, sinx, finx, pinx, partial)
      decreases Remaining(|q.samples|, sinx, finx, pinx)
    {
      nvec, sinx, finx, pinx, stop, partial := PackStep(x, y, q, nvec0, max, nvec, sinx, finx, pinx, X, Y, partial);
      if stop {
        return;
      }
    }
    assert q.samples[..sinx] == q.samples;
  }

  /** Once every frame of sample sinx is packed, what was emitted is all the rows of the first sinx + 1 samples. */
  lemma NextSample(samples: seq<Sample>, sinx: int)
    requires 0 <= sinx < |samples|
    ensures Emitted(samples, sinx + 1, 0) == Emitted(samples, sinx, |samples[sinx].frames|)
  {
    assert samples[..sinx + 1][..sinx] == samples[..sinx];
    assert FrameRows(samples[sinx])[..|samples[sinx].frames|] == FrameRows(samples[sinx]);
  }

  /** Completing frame finx - 1 of sample sinx appends its row to what was emitted. */
  lemma CompleteRow(samples: seq<Sample>, sinx: int, finx: int)
    requires 0 <= sinx < |samples| && 1 <= finx <= |samples[sinx].frames|
    ensures Emitted(samples, sinx, finx) == Emitted(samples, sinx, finx - 1) + [FrameRows(samples[sinx])[finx - 1]]
  {
    var fr := FrameRows(samples[sinx]);
    assert fr[..finx] == fr[..finx - 1] + [fr[finx - 1]];
  }

  /** Two packings one after the other. */
  function Append(a: Packing, b: Packing): Packing
  {
    Packing(a.rows + b.rows, a.lens + b.lens)
  }

  /** One step of Pack: a sequence whose rows do not fill the room. */
  lemma PackUnfold(seqs: seq<Sequence>, i: int, room: int)
    requires 0 <= i < |seqs| && room > 0 && |SampleRows(seqs[i].samples)| < room
    ensures var r := SampleRows(seqs[i].samples);
      Pack(seqs[i..], room) == Append(Packing(r, [|r|]), Pack(seqs[i + 1..], room - |r|))
  {
    assert seqs[i..][1..] == seqs[i + 1..];
  }

  /**
   * The bookkeeping of the sequence loop of prepare_data after seqinx
   * sequences: done is what they packed, which Pack of the rest completes
   * (or is all of Pack once max rows are filled).
   */
  ghost predicate Accounted(S: seq<Sequence>, max: int, seqinx: int, nvec: int, done: Packing)
  {
    0 <= seqinx <= |S| && 0 <= nvec <= max && 0 < max &&
    (forall i :: 0 <= i < |S| ==> SequenceFits(S[i])) &&
    (nvec < max ==> Pack(S, max) == Append(done, Pack(S[seqinx..], max - nvec))) &&
    (nvec == max ==> Pack(S, max) == done) &&
    nvec == |done.rows| && |done.lens| == seqinx && RowsFit(done.rows)
  }

  /** Packing one more sequence, as much of it as fits, keeps the bookkeeping. */
  lemma PackAdvance(S: seq<Sequence>, max: int, seqinx: int, nvec: int, done: Packing)
    requires Accounted(S, max, seqinx, nvec, done) && nvec < max && seqinx < |S|
    ensures var r := SampleRows(S[seqinx].samples);
      var n := Min(|r|, max - nvec);
      Accounted(S, max, seqinx + 1, nvec + n, Append(done, Packing(r[..n], [n])))
  {
    var r := SampleRows(S[seqinx].samples);
    SampleRowsFit(S[seqinx].samples);
    var n := Min(|r|, max - nvec);
    RowsFitAppend(done.rows, r[..n]);
    var done' := Append(done, Packing(r[..n], [n]));
    if |r| < max - nvec {
      PackUnfold(S, seqinx, max - nvec);
      assert r[..|r|] == r;
      AppendAssoc(done, Packing(r, [|r|]), Pack(S[seqinx + 1..], max - nvec - |r|));
      assert Pack(S, max) == Append(done', Pack(S[seqinx + 1..], max - (nvec + n)));
    } else {
      assert S[seqinx..][0] == S[seqinx];
      assert Pack(S[seqinx..], max - nvec) == Packing(r[..n], [n]);
      assert Pack(S, max) == done';
    }
  }

  lemma AppendAssoc(a: Packing, b: Packing, c: Packing)
    ensures Append(Append(a, b), c) == Append(a, Append(b, c))
  {
    assert (a.rows + b.rows) + c.rows == a.rows + (b.rows + c.rows);
    assert (a.lens + b.lens) + c.lens == a.lens + (b.lens + c.lens);
  }

  /** Rows that fit, followed by rows that fit. */
  lemma RowsFitAppend(a: seq<Row>, b: seq<Row>)
    requires RowsFit(a) && RowsFit(b)
    ensures RowsFit(a + b)
  {
    assert forall k :: |a| <= k < |a + b| ==> (a + b)[k] == b[k - |a|];
  }

  /**
   * What x and y hold after seqinx sequences of the sequence loop of
   * prepare_data: the bookkeeping holds, and x and y hold done's rows and
   * nothing else.
   */
  ghost predicate RowsStored(x: array2<real>, y: array2<real>, X: Mat, Y: Mat, S: seq<Sequence>, max: int,
                             seqinx: int, nvec: int, done: Packing)
    reads x, y
  {
    x.Length1 == FRAME_SIZE + 1 && y.Length1 >= NUM_CLASSES && x != y &&
    max <= x.Length0 && max <= y.Length0 && IsMat(X, x.Length0, x.Length1) && IsMat(Y, y.Length0, y.Length1) &&
    Accounted(S, max, seqinx, nvec, done) &&
    (forall k :: 0 <= k < nvec ==> Stored(x, y, k, done.rows[k])) &&
    (forall i, c :: nvec <= i < x.Length0 && 0 <= c < x.Length1 ==> x[i, c] == X[i][c]) &&
    (forall i, c :: 0 <= i < y.Length0 && 0 <= c < y.Length1 && !(i < nvec && c < NUM_CLASSES) ==> y[i, c] == Y[i][c])
  }

  /** The state of the sequence loop of prepare_data: the rows stored, and seqLen holding done's counts. */
  ghost predicate Prepared(x: array2<real>, y: array2<real>, X: Mat, Y: Mat, S: seq<Sequence>, max: int,
                           seqLen: array<int>, L: seq<int>, seqinx: int, nvec: int, done: Packing)
    reads x, y, seqLen
  {
    RowsStored(x, y, X, Y, S, max, seqinx, nvec, done) && seqLen.Length == |S| == |L| &&
    forall k :: 0 <= k < seqLen.Length ==> seqLen[k] == if k < seqinx then done.lens[k] else L[k]
  }

  /** One pass of the sequence loop: seq_len[seqinx] := 0, then the sample loop counts its rows into it. */
  method PrepareSequence(x: array2<real>, y: array2<real>, q: Sequence, seqLen: array<int>, seqinx: int, nvec: int,
                         max: int, ghost X: Mat, ghost Y: Mat, ghost S: seq<Sequence>, ghost L: seq<int>,
                         ghost done: Packing)
    returns (next: int, ghost done': Packing)
    requires Prepared(x, y, X, Y, S, max, seqLen, L, seqinx, nvec, done)
    requires nvec < max && seqinx < |S| && q == S[seqinx]
    modifies x, y, seqLen
    ensures Prepared(x, y, X, Y, S, max, seqLen, L, seqinx + 1, next, done')
  {
    seqLen[seqinx] := 0;
    next, done' := PackNext(x, y, q, nvec, max, X, Y, S, seqinx, done);
    seqLen[seqinx] := seqLen[seqinx] + (next - nvec);
  }

  /** The sample loop of one pass packs the next sequence's rows after done's. */
  method PackNext(x: array2<real>, y: array2<real>, q: Sequence, nvec: int, max: int,
                  ghost X: Mat, ghost Y: Mat, ghost S: seq<Sequence>, ghost seqinx: int, ghost done: Packing)
    returns (next: int, ghost done': Packing)
    requires RowsStored(x, y, X, Y, S, max, seqinx, nvec, done)
    requires nvec < max && seqinx < |S| && q == S[seqinx]
    modifies x, y
    ensures RowsStored(x, y, X, Y, S, max, seqinx + 1, next, done')
    ensures |done'.lens| == seqinx + 1 && done'.lens[..seqinx] == done.lens && done'.lens[seqinx] == next - nvec
  {
    ghost var r := SampleRows(S[seqinx].samples);
    PackAdvance(S, max, seqinx, nvec, done);
    next := PackSequence(x, y, q, nvec, max);
    done' := Append(done, Packing(r[..next - nvec], [next - nvec]));
    forall k | 0 <= k < next
      ensures Stored(x, y, k, done'.rows[k])
    {
      if k < nvec {
        assert done'.rows[k] == done.rows[k];
        assert old(Stored(x, y, k, done.rows[k]));
      } else {
        assert done'.rows[k] == r[k - nvec];
      }
    }
  }

  /**
   * prepare_data: shuffle the sequences with three passes, then pack the
   * frames of the shuffled sequences into at most maxVectors rows of x and
   * y as Pack describes; seqLen receives the per-sequence counts of the
   * sequences processed and keeps its other entries. The result is the
   * number of rows filled.
   */
  method PrepareData(x: array2<real>, y: array2<real>, maxVectors: int, sequences: array<Sequence>,
                     seqLen: array<int>, rng: Lrng) returns (nvec: int)
    requires x != y
    requires x.Length1 == FRAME_SIZE + 1 && y.Length1 >= NUM_CLASSES
    requires 1 <= maxVectors <= x.Length0 && maxVectors <= y.Length0
    requires seqLen.Length == sequences.Length
    requires forall i :: 0 <= i < sequences.Length ==> SequenceFits(sequences[i])
    requires rng.Valid()
    modifies x, y, sequences, seqLen, rng
    ensures rng.Valid() && (sequences[..], rng.seed) == Passes(old(sequences[..]), old(rng.seed), 3)
    ensures var p := Pack(sequences[..], maxVectors);
      nvec == |p.rows| && RowsFit(p.rows) &&
      (forall k :: 0 <= k < nvec ==> Stored(x, y, k, p.rows[k])) &&
      forall k :: 0 <= k < seqLen.Length ==> seqLen[k] == if k < |p.lens| then p.lens[k] else old(seqLen[k])
    ensures forall i, c :: nvec <= i < x.Length0 && 0 <= c < x.Length1 ==> x[i, c] == old(x[i, c])
    ensures forall i, c :: 0 <= i < y.Length0 && 0 <= c < y.Length1 && !(i < nvec && c < NUM_CLASSES) ==>
      y[i, c] == old(y[i, c])
  {
    ghost var L := seqLen[..];
    Shuffle(sequences, rng);
    PassesPermute(old(sequences[..]), old(rng.seed), 3);
    ghost var S, seed := sequences[..], rng.seed;
    assert forall i :: 0 <= i < |S| ==> SequenceFits(S[i]) by {
      forall i | 0 <= i < |S|
        ensures SequenceFits(S[i])
      {
        assert S[i] in multiset(old(sequences[..]));
      }
    }
    ghost var X, Y := Snap(x), Snap(y);
    ghost var done := Packing([], []);
    nvec := 0;
    var seqinx := 0;
    assert S[0..] == S;
    while seqinx < sequences.Length
      invariant sequences[..] == S && rng.Valid() && rng.seed == seed
      invariant Prepared(x, y, X, Y, S, maxVectors, seqLen, L, seqinx, nvec, done) && nvec < maxVectors
    {
      nvec, done := PrepareSequence(x, y, sequences[seqinx], seqLen, seqinx, nvec, maxVectors, X, Y, S, L, done);
      if nvec >= maxVectors {
        break;
      }
      seqinx := seqinx + 1;
    }
    if nvec < maxVectors {
      assert S[seqinx..] == [] && done.rows + [] == done.rows && done.lens + [] == done.lens;
    }
  }
}
