/**
 * The batch iterator (src/data/batch.c). In sequence mode it serves the
 * vectors of one sequence at a time, never mixing two sequences in a
 * batch; otherwise it serves vectors in order, or in the order of a
 * shuffled index array. Short batches are padded, and the returned count
 * says how many rows are real.
 */
module BatchIter {
  import opened Common
  import opened Random
  import opened Shuffling

  /** Where the iterator stands: the current sequence and the next vector in it (or overall). */
  datatype Cursor = Cursor(curSeq: int, curVec: int)

  // ---------------------------------------------------------------------
  // What one batch_copy serves, over the index arrays as sequences
  // ---------------------------------------------------------------------

  /** In sequence mode: the next up-to-B vectors of the current sequence, as rows of x. */
  function SeqServed(off: seq<int>, len: seq<int>, B: nat, c: Cursor): (rows: seq<int>)
    requires |off| == |len| && c.curVec >= 0
    ensures |rows| <= B
  {
    if 0 <= c.curSeq < |len| && c.curVec < len[c.curSeq] then
      seq(Min(B, len[c.curSeq] - c.curVec), k => off[c.curSeq] + c.curVec + k)
    else []
  }

  /** In sequence mode: the cursor after a batch; a finished sequence moves on to the next one. */
  function SeqNext(off: seq<int>, len: seq<int>, B: nat, c: Cursor): Cursor
    requires |off| == |len| && c.curVec >= 0
  {
    if 0 <= c.curSeq < |len| then
      var v := c.curVec + |SeqServed(off, len, B, c)|;
      if v >= len[c.curSeq] then Cursor(c.curSeq + 1, 0) else Cursor(c.curSeq, v)
    else c
  }

  /** The number of vectors a batch takes from num vectors with the cursor at curVec. */
  function Take(num: int, B: nat, curVec: int): (n: nat)
    ensures n <= B
  {
    if curVec < num then Min(B, num - curVec) else 0
  }

  /** In shuffled vector mode: the next entries of the index array. */
  function VecServed(vec: seq<int>, B: nat, curVec: nat): (rows: seq<int>)
    ensures |rows| <= B
  {
    seq(Take(|vec|, B, curVec), k requires 0 <= k < Take(|vec|, B, curVec) => vec[curVec + k])
  }

  /** In plain vector mode: the next rows in order. */
  function PlainServed(num: int, B: nat, curVec: int): (rows: seq<int>)
    ensures |rows| <= B
  {
    seq(Take(num, B, curVec), k => curVec + k)
  }

  /** Every offset/length pair describes rows inside x. */
  predicate SeqFits(pairs: seq<(int, int)>, rows: int)
  {
    forall k :: 0 <= k < |pairs| ==> 0 <= pairs[k].0 && 0 <= pairs[k].1 && pairs[k].0 + pairs[k].1 <= rows
  }

  /** Every index names a row of x. */
  predicate VecFits(vec: seq<int>, rows: int)
  {
    forall k :: 0 <= k < |vec| ==> 0 <= vec[k] < rows
  }

  /** The offsets and lengths side by side. */
  function Zip(off: seq<int>, len: seq<int>): (z: seq<(int, int)>)
    requires |off| == |len|
    ensures |z| == |off| && forall k :: 0 <= k < |z| ==> z[k] == (off[k], len[k])
  {
    seq(|off|, k requires 0 <= k < |off| => (off[k], len[k]))
  }

  /** A rearrangement keeps every entry in range. */
  lemma SeqFitsPermuted(p: seq<(int, int)>, q: seq<(int, int)>, rows: int)
    requires SeqFits(p, rows) && multiset(q) == multiset(p)
    ensures SeqFits(q, rows)
  {
    forall k | 0 <= k < |q|
      ensures 0 <= q[k].0 && 0 <= q[k].1 && q[k].0 + q[k].1 <= rows
    {
      assert q[k] in multiset(p);
      var i :| 0 <= i < |p| && p[i] == q[k];
    }
  }

  /** A rearrangement keeps every index in range. */
  lemma VecFitsPermuted(p: seq<int>, q: seq<int>, rows: int)
    requires VecFits(p, rows) && multiset(q) == multiset(p)
    ensures VecFits(q, rows)
  {
    forall k | 0 <= k < |q|
      ensures 0 <= q[k] < rows
    {
      assert q[k] in multiset(p);
      var i :| 0 <= i < |p| && p[i] == q[k];
    }
  }

  /** Prefix sums of nonnegative lengths grow up to the total. */
  lemma {:induction false} PrefixBelowTotal(len: seq<int>, i: nat, n: nat)
    requires i <= n <= |len| && forall k :: 0 <= k < |len| ==> len[k] >= 0
    ensures SumInt(len[..i]) <= SumInt(len[..n])
    decreases n - i
  {
    if i < n {
      PrefixBelowTotal(len, i + 1, n);
      assert len[..i + 1][..i] == len[..i];
    }
  }

  /** In sequence mode: every row from the cursor on, sequence after sequence. */
  function SeqRows(off: seq<int>, len: seq<int>, c: Cursor): seq<int>
    requires |off| == |len| && c.curVec >= 0
    decreases |len| - c.curSeq
  {
    if 0 <= c.curSeq < |len| then
      seq(Max(0, len[c.curSeq] - c.curVec), k => off[c.curSeq] + c.curVec + k) +
      SeqRows(off, len, Cursor(c.curSeq + 1, 0))
    else []
  }

  /** In sequence mode: everything repeated batch_copy calls serve until the data is exhausted. */
  function SeqDrain(off: seq<int>, len: seq<int>, B: nat, c: Cursor): seq<int>
    requires |off| == |len| && c.curVec >= 0 && B >= 1
    decreases |len| - c.curSeq, if 0 <= c.curSeq < |len| then len[c.curSeq] - c.curVec else 0
  {
    if 0 <= c.curSeq < |len| then
      SeqServed(off, len, B, c) + SeqDrain(off, len, B, SeqNext(off, len, B, c))
    else []
  }

  /** A batch in sequence mode lies inside the current sequence and continues from the cursor. */
  lemma SeqBatchInOneSequence(off: seq<int>, len: seq<int>, B: nat, c: Cursor)
    requires |off| == |len| && c.curVec >= 0 && 0 <= c.curSeq < |len|
    ensures forall k :: 0 <= k < |SeqServed(off, len, B, c)| ==>
      off[c.curSeq] <= SeqServed(off, len, B, c)[k] < off[c.curSeq] + len[c.curSeq] &&
      SeqServed(off, len, B, c)[k] == off[c.curSeq] + c.curVec + k
  {
  }

  /** With B at least 1, successive batches serve every remaining row exactly once, in order. */
  lemma {:induction false} SeqDrainServesAll(off: seq<int>, len: seq<int>, B: nat, c: Cursor)
    requires |off| == |len| && c.curVec >= 0 && B >= 1
    ensures SeqDrain(off, len, B, c) == SeqRows(off, len, c)
    decreases |len| - c.curSeq, if 0 <= c.curSeq < |len| then len[c.curSeq] - c.curVec else 0
  {
    if 0 <= c.curSeq < |len| {
      var n := SeqNext(off, len, B, c);
      SeqDrainServesAll(off, len, B, n);
      var run := seq(Max(0, len[c.curSeq] - c.curVec), k => off[c.curSeq] + c.curVec + k);
      var served := SeqServed(off, len, B, c);
      if n.curSeq == c.curSeq {
        var rest := seq(Max(0, len[n.curSeq] - n.curVec), k => off[n.curSeq] + n.curVec + k);
        assert run == served + rest;
      } else {
        assert run == served;
      }
    }
  }

  /** In vector mode: everything repeated batch_copy calls serve until the data is exhausted. */
  function VecDrain(vec: seq<int>, B: nat, curVec: nat): seq<int>
    requires B >= 1
    decreases |vec| - curVec
  {
    if curVec < |vec| then VecServed(vec, B, curVec) + VecDrain(vec, B, curVec + |VecServed(vec, B, curVec)|)
    else []
  }

  /** With B at least 1, successive batches serve the rest of the index array, in order. */
  lemma {:induction false} VecDrainServesAll(vec: seq<int>, B: nat, curVec: nat)
    requires B >= 1 && curVec <= |vec|
    ensures VecDrain(vec, B, curVec) == vec[curVec..]
    decreases |vec| - curVec
  {
    if curVec < |vec| {
      var m := |VecServed(vec, B, curVec)|;
      VecDrainServesAll(vec, B, curVec + m);
      assert vec[curVec..] == VecServed(vec, B, curVec) + vec[curVec + m..];
    }
  }

  /** Plain vector mode serves exactly what an identity index array would. */
  lemma PlainIsIdentity(num: nat, B: nat, curVec: nat)
    ensures PlainServed(num, B, curVec) == VecServed(seq(num, k => k), B, curVec)
  {
  }

  /** Past the end of the data a batch serves nothing and the cursor stays. */
  lemma ExhaustedServesNothing(off: seq<int>, len: seq<int>, vec: seq<int>, B: nat, c: Cursor)
    requires |off| == |len| && c.curVec >= 0 && c.curSeq >= |len|
    requires c.curVec >= |vec|
    ensures SeqServed(off, len, B, c) == [] && SeqNext(off, len, B, c) == c
    ensures VecServed(vec, B, c.curVec) == [] && PlainServed(|vec|, B, c.curVec) == []
  {
  }

  /** The batch iterator. */
  class Batch {
    const x: array2<real>
    const y: array2?<real>
    const D: int
    const N: int
    const B: nat
    const shuffle: bool
    const addBias: bool
    const num: int
    const shufSeq: array?<int>
    const shufLen: array?<int>
    const shufVec: array?<int>
    var curSeq: int
    var curVec: int

    /** The width of a served row: D, plus one for the bias. */
    function Db(): int
    {
      D + if addBias then 1 else 0
    }

    ghost predicate Valid()
      reads this, shufSeq, shufLen, shufVec
    {
      x.Length1 == D && N >= 0 && num >= 0 &&
      (y != null ==> y.Length0 == x.Length0 && y.Length1 == N) &&
      (shufSeq == null <==> shufLen == null) &&
      (shufSeq != null ==>
        shufSeq != shufLen && shufSeq.Length == num && shufLen.Length == num && shufVec == null &&
        SeqFits(Zip(shufSeq[..], shufLen[..]), x.Length0)) &&
      (shufSeq == null && shufVec != null ==> shufVec.Length == num && VecFits(shufVec[..], x.Length0)) &&
      (shufSeq == null && shufVec == null ==> num <= x.Length0) &&
      0 <= curSeq && 0 <= curVec
    }

    /** The rows the next batch_copy serves. */
    ghost function Served(): seq<int>
      requires Valid()
      reads this, shufSeq, shufLen, shufVec
    {
      if shufSeq != null then SeqServed(shufSeq[..], shufLen[..], B, Cursor(curSeq, curVec))
      else if shufVec != null then VecServed(shufVec[..], B, curVec)
      else PlainServed(num, B, curVec)
    }

    /** The cursor after the next batch_copy. */
    ghost function Next(): Cursor
      requires Valid()
      reads this, shufSeq, shufLen, shufVec
    {
      if shufSeq != null then SeqNext(shufSeq[..], shufLen[..], B, Cursor(curSeq, curVec))
      else Cursor(curSeq, curVec + |Served()|)
    }

    /**
     * batch_create: sequence mode exactly when lengths are given and there
     * is more than one sequence, with each offset the sum of the lengths
     * before it; otherwise an identity index array when shuffling.
     */
    constructor (x: array2<real>, D: int, y: array2?<real>, N: int, B: nat,
                 len: Option<seq<int>>, num: int, shuffle: int, addBias: int)
      requires x.Length1 == D && N >= 0 && num >= 0
      requires y != null ==> y.Length0 == x.Length0 && y.Length1 == N
      requires len.Some? && num > 1 ==>
        |len.value| >= num && (forall k :: 0 <= k < num ==> len.value[k] >= 0) &&
        SumInt(len.value[..num]) <= x.Length0
      requires !(len.Some? && num > 1) ==> num <= x.Length0
      ensures Valid() && curSeq == 0 && curVec == 0
      ensures this.x == x && this.y == y && this.D == D && this.N == N && this.B == B && this.num == num
      ensures this.shuffle == (shuffle != 0) && this.addBias == (addBias != 0)
      ensures shufSeq != null <==> len.Some? && num > 1
      ensures shufSeq != null ==> fresh(shufSeq) && fresh(shufLen)
      ensures shufSeq != null ==>
        forall k :: 0 <= k < num ==> shufSeq[k] == SumInt(len.value[..k]) && shufLen[k] == len.value[k]
      ensures shufSeq == null ==> (shufVec != null <==> shuffle != 0)
      ensures shufVec != null ==> fresh(shufVec) && shufVec[..] == seq(num, k => k)
    {
      this.x, this.y, this.D, this.N, this.B := x, y, D, N, B;
      this.shuffle := shuffle != 0;
      this.addBias := addBias != 0;
      this.num := num;
      if len.Some? && num > 1 {
        var so, sl := PrefixOffsets(len.value, num);
        OffsetsFit(len.value, num, so[..], sl[..], x.Length0);
        shufSeq, shufLen, shufVec := so, sl, null;
      } else if shuffle != 0 {
        var sv := Identity(num);
        shufSeq, shufLen, shufVec := null, null, sv;
      } else {
        shufSeq, shufLen, shufVec := null, null, null;
      }
      curSeq, curVec := 0, 0;
    }

    /**
     * batch_shuffle: rewind the cursor; when shuffling, run the three swap
     * passes over the offset and length arrays together, or over the index
     * array.
     */
    method Shuffle(rng: Lrng)
      requires Valid() && rng.Valid()
      modifies this, shufSeq, shufLen, shufVec, rng
      ensures Valid() && rng.Valid() && curSeq == 0 && curVec == 0
      ensures !shuffle ==> rng.seed == old(rng.seed)
      ensures !shuffle && shufSeq != null ==> shufSeq[..] == old(shufSeq[..]) && shufLen[..] == old(shufLen[..])
      ensures !shuffle && shufVec != null ==> shufVec[..] == old(shufVec[..])
      ensures shuffle && shufSeq != null ==>
        (Zip(shufSeq[..], shufLen[..]), rng.seed) == Passes(Zip(old(shufSeq[..]), old(shufLen[..])), old(rng.seed), 3)
      ensures shuffle && shufSeq == null && shufVec != null ==>
        (shufVec[..], rng.seed) == Passes(old(shufVec[..]), old(rng.seed), 3)
      ensures shufSeq == null && shufVec == null ==> rng.seed == old(rng.seed)
    {
      curSeq := 0;
      curVec := 0;
      if !shuffle {
        return;
      }
      if shufSeq != null {
        ghost var z := Zip(shufSeq[..], shufLen[..]);
        ShufflePairs(shufSeq, shufLen, rng);
        PassesPermute(z, old(rng.seed), 3);
        SeqFitsPermuted(z, Zip(shufSeq[..], shufLen[..]), x.Length0);
      } else if shufVec != null {
        ghost var v := shufVec[..];
        Shuffling.Shuffle(shufVec, rng);
        VecFitsPermuted(v, shufVec[..], x.Length0);
      }
    }

    /**
     * batch_copy: copy the next batch of x rows (with a trailing 1 when the
     * bias is on) and, when both label arrays are present, the matching y
     * rows; pad the rest of the batch with 1.0 in xd and 0.0 in yd; advance
     * the cursor; return the number of real rows.
     */
    method Copy(xd: array2<real>, yd: array2?<real>) returns (cnt: int)
      requires Valid() && B <= xd.Length0 && xd.Length1 == Db()
      requires yd != null ==> B <= yd.Length0 && yd.Length1 == N
      requires xd != x && xd != y && yd != x && yd != y && xd != yd
      modifies this, xd, yd
      ensures Valid()
      ensures cnt == |old(Served())| && Cursor(curSeq, curVec) == old(Next())
      ensures forall r, j :: 0 <= r < cnt && 0 <= j < D ==> xd[r, j] == x[old(Served())[r], j]
      ensures addBias ==> forall r :: 0 <= r < cnt ==> xd[r, D] == 1.0
      ensures forall r, j :: cnt <= r < B && 0 <= j < Db() ==> xd[r, j] == 1.0
      ensures forall r, j :: B <= r < xd.Length0 && 0 <= j < Db() ==> xd[r, j] == old(xd[r, j])
      ensures y != null && yd != null ==>
        (forall r, j :: 0 <= r < cnt && 0 <= j < N ==> yd[r, j] == y[old(Served())[r], j]) &&
        (forall r, j :: cnt <= r < B && 0 <= j < N ==> yd[r, j] == 0.0) &&
        (forall r, j :: B <= r < yd.Length0 && 0 <= j < N ==> yd[r, j] == old(yd[r, j]))
      ensures y == null && yd != null ==> forall r, j :: 0 <= r < yd.Length0 && 0 <= j < N ==> yd[r, j] == old(yd[r, j])
    {
      var rows := NextRows();
      CopyRows(x, rows, xd, D, addBias);
      if y != null && yd != null {
        CopyRows(y, rows, yd, N, false);
      }
      Advance(|rows|);
      cnt := |rows|;
      FillRows(xd, cnt, B, Db(), 1.0);
      if y != null && yd != null {
        FillRows(yd, cnt, B, N, 0.0);
      }
    }

    /** The rows the next batch takes, read off the offsets, lengths or index array. */
    method NextRows() returns (rows: seq<int>)
      requires Valid()
      ensures rows == Served()
      ensures forall k :: 0 <= k < |rows| ==> 0 <= rows[k] < x.Length0
    {
      if shufSeq != null {
        if curSeq < num && curVec < shufLen[curSeq] {
          var base := shufSeq[curSeq] + curVec;
          rows := seq(Min(B, shufLen[curSeq] - curVec), k => base + k);
          assert Zip(shufSeq[..], shufLen[..])[curSeq] == (shufSeq[curSeq], shufLen[curSeq]);
        } else {
          rows := [];
        }
      } else if shufVec != null {
        if curVec < num {
          rows := shufVec[curVec..curVec + Min(B, num - curVec)];
        } else {
          rows := [];
        }
      } else {
        var cv := curVec;
        rows := seq(Take(num, B, cv), k => cv + k);
      }
    }

    /** Move the cursor past n served rows; in sequence mode a finished sequence moves on to the next. */
    method Advance(n: int)
      requires Valid() && n == |Served()|
      modifies this
      ensures Valid() && Cursor(curSeq, curVec) == old(Next())
    {
      if shufSeq != null {
        if curSeq < num {
          curVec := curVec + n;
          if curVec >= shufLen[curSeq] {
            curSeq := curSeq + 1;
            curVec := 0;
          }
        }
      } else {
        curVec := curVec + n;
      }
    }
  }


  /** Row r of dst becomes row rows[r] of src, for every r below |rows|, with a trailing 1 when bias is set. */
  method CopyRows(src: array2<real>, rows: seq<int>, dst: array2<real>, width: int, bias: bool)
    requires src != dst && src.Length1 == width && |rows| <= dst.Length0
    requires dst.Length1 == width + if bias then 1 else 0
    requires forall k :: 0 <= k < |rows| ==> 0 <= rows[k] < src.Length0
    modifies dst
    ensures forall r, j :: 0 <= r < |rows| && 0 <= j < width ==> dst[r, j] == src[rows[r], j]
    ensures bias ==> forall r :: 0 <= r < |rows| ==> dst[r, width] == 1.0
    ensures forall r, j :: |rows| <= r < dst.Length0 && 0 <= j < dst.Length1 ==> dst[r, j] == old(dst[r, j])
  {
    var cnt := 0;
    while cnt < |rows|
      invariant 0 <= cnt <= |rows|
      invariant forall r, j :: 0 <= r < cnt && 0 <= j < width ==> dst[r, j] == src[rows[r], j]
      invariant bias ==> forall r :: 0 <= r < cnt ==> dst[r, width] == 1.0
      invariant forall r, j :: cnt <= r < dst.Length0 && 0 <= j < dst.Length1 ==> dst[r, j] == old(dst[r, j])
    {
      CopyRow(src, rows[cnt], dst, cnt, width, bias);
      cnt := cnt + 1;
    }
  }

  /** Row r of dst becomes row i of src, with a trailing 1 when bias is set; no other entry changes. */
  method CopyRow(src: array2<real>, i: int, dst: array2<real>, r: int, width: int, bias: bool)
    requires src != dst && src.Length1 == width && 0 <= i < src.Length0 && 0 <= r < dst.Length0
    requires dst.Length1 == width + if bias then 1 else 0
    modifies dst
    ensures forall j :: 0 <= j < width ==> dst[r, j] == src[i, j]
    ensures bias ==> dst[r, width] == 1.0
    ensures forall q, j :: 0 <= q < dst.Length0 && 0 <= j < dst.Length1 && q != r ==> dst[q, j] == old(dst[q, j])
  {
    var j := 0;
    while j < width
      invariant 0 <= j <= width
      invariant forall k :: 0 <= k < j ==> dst[r, k] == src[i, k]
      invariant forall q, k :: 0 <= q < dst.Length0 && 0 <= k < dst.Length1 && q != r ==> dst[q, k] == old(dst[q, k])
    {
      dst[r, j] := src[i, j];
      j := j + 1;
    }
    if bias {
      dst[r, width] := 1.0;
    }
  }

  /** Rows from to B - 1 of dst, in their first width columns, become v; nothing else changes. */
  method FillRows(dst: array2<real>, from: int, B: int, width: int, v: real)
    requires 0 <= from && B <= dst.Length0 && 0 <= width <= dst.Length1
    modifies dst
    ensures forall r, j :: from <= r < B && 0 <= j < width ==> dst[r, j] == v
    ensures forall r, j :: 0 <= r < dst.Length0 && 0 <= j < dst.Length1 && !(from <= r < B && j < width) ==>
      dst[r, j] == old(dst[r, j])
  {
    var i := from;
    while i < B
      invariant from <= i && (from <= B ==> i <= B)
      invariant forall r, j :: from <= r < i && r < B && 0 <= j < width ==> dst[r, j] == v
      invariant forall r, j :: 0 <= r < dst.Length0 && 0 <= j < dst.Length1 && !(from <= r < i && r < B && j < width) ==>
        dst[r, j] == old(dst[r, j])
    {
      var j := 0;
      while j < width
        invariant 0 <= j <= width
        invariant forall r, k :: from <= r < i && 0 <= k < width ==> dst[r, k] == v
        invariant forall k :: 0 <= k < j ==> dst[i, k] == v
        invariant forall r, k ::
          (0 <= r < dst.Length0 && 0 <= k < dst.Length1 && !(from <= r < i && k < width) && !(r == i && k < j)) ==>
          dst[r, k] == old(dst[r, k])
      {
        dst[i, j] := v;
        j := j + 1;
      }
      i := i + 1;
    }
  }

  /** The offsets and lengths arrays of batch_create: offset k is the sum of the lengths before it. */
  method PrefixOffsets(len: seq<int>, num: int) returns (so: array<int>, sl: array<int>)
    requires 1 < num <= |len| && (forall k :: 0 <= k < num ==> len[k] >= 0)
    ensures fresh(so) && fresh(sl) && so != sl && so.Length == num && sl.Length == num
    ensures forall k :: 0 <= k < num ==> so[k] == SumInt(len[..k]) && sl[k] == len[k]
  {
    so := new int[num];
    sl := new int[num];
    so[0] := 0;
    sl[0] := len[0];
    assert len[..0] == [];
    var i := 1;
    while i < num
      invariant 1 <= i <= num
      invariant forall k :: 0 <= k < i ==> so[k] == SumInt(len[..k]) && sl[k] == len[k]
    {
      assert len[..i][..i - 1] == len[..i - 1];
      so[i] := so[i - 1] + sl[i - 1];
      sl[i] := len[i];
      i := i + 1;
    }
  }

  /** Offsets that are prefix sums of nonnegative lengths keep every sequence inside the total. */
  lemma OffsetsFit(len: seq<int>, num: int, off: seq<int>, lens: seq<int>, rows: int)
    requires 1 < num <= |len| && (forall k :: 0 <= k < num ==> len[k] >= 0) && SumInt(len[..num]) <= rows
    requires |off| == num && |lens| == num
    requires forall k :: 0 <= k < num ==> off[k] == SumInt(len[..k]) && lens[k] == len[k]
    ensures SeqFits(Zip(off, lens), rows)
  {
    forall k | 0 <= k < num
      ensures 0 <= off[k] && 0 <= lens[k] && off[k] + lens[k] <= rows
    {
      SumIntNonNeg(len[..k]);
      assert len[..k + 1][..k] == len[..k];
      PrefixBelowTotal(len[..num], k + 1, num);
      assert len[..num][..k + 1] == len[..k + 1];
      assert len[..num][..num] == len[..num];
    }
  }

  /** Swapping both arrays at the same indices swaps the pairs. */
  lemma ZipSwap(off: seq<int>, len: seq<int>, i: int, j: int)
    requires |off| == |len| && 0 <= i < |off| && 0 <= j < |off|
    ensures Zip(Swap(off, i, j), Swap(len, i, j)) == Swap(Zip(off, len), i, j)
  {
  }

  /** The identity index array of batch_create. */
  method Identity(num: int) returns (sv: array<int>)
    requires num >= 0
    ensures fresh(sv) && sv[..] == seq(num, k => k)
  {
    sv := new int[num];
    var i := 0;
    while i < num
      invariant 0 <= i <= num
      invariant forall k :: 0 <= k < i ==> sv[k] == k
    {
      sv[i] := i;
      i := i + 1;
    }
  }

  /** One swap pass over the offsets and lengths, swapping both arrays at the same indices. */
  method SwapPairs(so: array<int>, sl: array<int>, rng: Lrng)
    requires so != sl && so.Length == sl.Length && rng.Valid()
    modifies so, sl, rng
    ensures rng.Valid()
    ensures (Zip(so[..], sl[..]), rng.seed) == Pass(Zip(old(so[..]), old(sl[..])), old(rng.seed), so.Length - 1)
  {
    ghost var goal := Pass(Zip(so[..], sl[..]), rng.seed, so.Length - 1);
    var i := so.Length - 1;
    while i > 0
      invariant i <= so.Length - 1 && rng.Valid()
      invariant PassReaches(so, sl, rng, i, goal)
    {
      SwapPairsStep(so, sl, rng, i, goal);
      i := i - 1;
    }
  }

  /** The rest of the pass from entry i, run on the arrays and the generator as they stand, ends at goal. */
  ghost predicate PassReaches(so: array<int>, sl: array<int>, rng: Lrng, i: int, goal: (seq<(int, int)>, int))
    reads so, sl, rng
  {
    so.Length == sl.Length && rng.Valid() && i < so.Length && Pass(Zip(so[..], sl[..]), rng.seed, i) == goal
  }

  /** One step of the pass: draw j for entry i and swap entries i and j of both arrays. */
  method SwapPairsStep(so: array<int>, sl: array<int>, rng: Lrng, i: int, ghost goal: (seq<(int, int)>, int))
    requires so != sl && so.Length == sl.Length && rng.Valid() && 0 < i < so.Length
    requires PassReaches(so, sl, rng, i, goal)
    modifies so, sl, rng
    ensures rng.Valid()
    ensures PassReaches(so, sl, rng, i - 1, goal)
  {
    ghost var so0, sl0, seed0 := so[..], sl[..], rng.seed;
    var j := DrawIndex(rng, i);
    SwapBoth(so, sl, i, j);
    ZipSwap(so0, sl0, i, j);
    PassStep(Zip(so0, sl0), seed0, i);
  }

  /** Exchange entries i and j of both arrays, as the C code does with a temporary. */
  method SwapBoth(so: array<int>, sl: array<int>, i: int, j: int)
    requires so != sl && so.Length == sl.Length && 0 <= i < so.Length && 0 <= j < so.Length
    modifies so, sl
    ensures so[..] == Swap(old(so[..]), i, j) && sl[..] == Swap(old(sl[..]), i, j)
  {
    var tmp := so[i];
    so[i] := so[j];
    so[j] := tmp;
    tmp := sl[i];
    sl[i] := sl[j];
    sl[j] := tmp;
  }

  /** The three passes over the offsets and lengths. */
  method ShufflePairs(so: array<int>, sl: array<int>, rng: Lrng)
    requires so != sl && so.Length == sl.Length && rng.Valid()
    modifies so, sl, rng
    ensures rng.Valid()
    ensures (Zip(so[..], sl[..]), rng.seed) == Passes(Zip(old(so[..]), old(sl[..])), old(rng.seed), 3)
  {
    ghost var z := Zip(so[..], sl[..]);
    var k := 0;
    while k < 3
      invariant 0 <= k <= 3 && rng.Valid()
      invariant (Zip(so[..], sl[..]), rng.seed) == Passes(z, old(rng.seed), k)
    {
      SwapPairs(so, sl, rng);
      k := k + 1;
    }
  }
}
