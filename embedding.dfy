/**
 * The embedding layer (src/model/embedding.c, src/model/embedding.h): a
 * D x E table Wx with one row per vocabulary token; a batch holds B
 * contexts of M token indices each, and the output row of a context has
 * S == E entries. The token indices, which the program stores as floats
 * and casts to int, are integers here.
 */
module Embedding {
  import opened Common
  import opened Matrix

  /** Token indices, one row per context. */
  type Indices = seq<seq<int>>

  /** Every token of a context is a row of a table with D rows. */
  predicate InVocab(xs: seq<int>, D: nat)
  {
    forall j :: 0 <= j < |xs| ==> 0 <= xs[j] < D
  }

  /** Column k of the sum of the embeddings of the first n tokens of a context. */
  function ContextSum(Wx: Mat, E: nat, xs: seq<int>, k: nat, n: nat): real
    requires IsMat(Wx, |Wx|, E) && k < E && n <= |xs| && InVocab(xs, |Wx|)
  {
    if n == 0 then 0.0 else ContextSum(Wx, E, xs, k, n - 1) + Wx[xs[n - 1]][k]
  }

  /** The same sum over the non-pad tokens only. */
  function NonPadSum(Wx: Mat, E: nat, xs: seq<int>, pad: int, k: nat, n: nat): real
    requires IsMat(Wx, |Wx|, E) && k < E && n <= |xs| && InVocab(xs, |Wx|)
  {
    if n == 0 then 0.0
    else NonPadSum(Wx, E, xs, pad, k, n - 1) + (if xs[n - 1] == pad then 0.0 else Wx[xs[n - 1]][k])
  }

  /**
   * The forward pass does not skip pad tokens; as long as the pad row of
   * the table is zero they add nothing, and the output is the sum over
   * the real tokens.
   */
  lemma {:induction false} PadTokensAddNothing(Wx: Mat, E: nat, xs: seq<int>, pad: int, k: nat, n: nat)
    requires IsMat(Wx, |Wx|, E) && k < E && n <= |xs| && InVocab(xs, |Wx|)
    requires 0 <= pad < |Wx| ==> Wx[pad][k] == 0.0
    ensures ContextSum(Wx, E, xs, k, n) == NonPadSum(Wx, E, xs, pad, k, n)
  {
    if n > 0 {
      PadTokensAddNothing(Wx, E, xs, pad, k, n - 1);
    }
  }

  /** Occurrences of token d among the first n tokens of a context. */
  function Occurrences(xs: seq<int>, d: int, n: nat): (c: nat)
    requires n <= |xs|
    ensures c <= n
  {
    if n == 0 then 0 else Occurrences(xs, d, n - 1) + (if xs[n - 1] == d then 1 else 0)
  }

  /**
   * What embedding_backward adds into gWx[d][k] for the first n positions
   * of one context: dy[k]/M for every position holding d, unless d is the pad.
   */
  function RowShare(dyRow: seq<real>, xs: seq<int>, pad: int, d: int, k: nat, n: nat): real
    requires k < |dyRow| && n <= |xs|
  {
    if n == 0 then 0.0
    else
      var share := if xs[n - 1] == d && d != pad then dyRow[k] / (|xs| as real) else 0.0;
      RowShare(dyRow, xs, pad, d, k, n - 1) + share
  }

  /** gWx[d][k] after the first n contexts of the batch. */
  function TokenGrad(dy: Mat, X: Indices, pad: int, d: int, k: nat, n: nat): real
    requires n <= |dy| && n <= |X| && forall i :: 0 <= i < n ==> k < |dy[i]|
  {
    if n == 0 then 0.0 else TokenGrad(dy, X, pad, d, k, n - 1) + RowShare(dy[n - 1], X[n - 1], pad, d, k, |X[n - 1]|)
  }

  lemma ShareStep(c: nat, q: real)
    ensures (c as real) * q + q == ((c + 1) as real) * q
  {
  }

  /** The pad token collects nothing from a context. */
  lemma {:induction false} PadShareZero(dyRow: seq<real>, xs: seq<int>, pad: int, k: nat, n: nat)
    requires k < |dyRow| && n <= |xs|
    ensures RowShare(dyRow, xs, pad, pad, k, n) == 0.0
  {
    if n > 0 {
      PadShareZero(dyRow, xs, pad, k, n - 1);
    }
  }

  /**
   * A context's share of the gradient of a non-pad token d is the number
   * of times d occurs in it, times dy[k] over M.
   */
  lemma {:induction false} RowShareCountsOccurrences(dyRow: seq<real>, xs: seq<int>, pad: int, d: int, k: nat, n: nat)
    requires k < |dyRow| && 0 < n <= |xs| && d != pad
    ensures RowShare(dyRow, xs, pad, d, k, n) == (Occurrences(xs, d, n) as real) * (dyRow[k] / (|xs| as real))
  {
    var q := dyRow[k] / (|xs| as real);
    if n > 1 {
      RowShareCountsOccurrences(dyRow, xs, pad, d, k, n - 1);
    }
    var c := Occurrences(xs, d, n - 1);
    assert RowShare(dyRow, xs, pad, d, k, n - 1) == (c as real) * q;
    if xs[n - 1] == d {
      ShareStep(c, q);
    }
  }

  /** The pad row of the weight gradient is zero: pad positions never train the table. */
  lemma {:induction false} PadRowGradientZero(dy: Mat, X: Indices, pad: int, k: nat, n: nat)
    requires n <= |dy| && n <= |X| && forall i :: 0 <= i < n ==> k < |dy[i]|
    ensures TokenGrad(dy, X, pad, pad, k, n) == 0.0
  {
    if n > 0 {
      PadRowGradientZero(dy, X, pad, k, n - 1);
      PadShareZero(dy[n - 1], X[n - 1], pad, k, |X[n - 1]|);
    }
  }

  /** A token that occurs in no context of the batch gets a zero gradient. */
  lemma {:induction false} AbsentTokenGradientZero(dy: Mat, X: Indices, pad: int, d: int, k: nat, n: nat)
    requires n <= |dy| && n <= |X| && forall i :: 0 <= i < n ==> k < |dy[i]|
    requires forall i, j :: 0 <= i < n && 0 <= j < |X[i]| ==> X[i][j] != d
    ensures TokenGrad(dy, X, pad, d, k, n) == 0.0
  {
    if n > 0 {
      AbsentTokenGradientZero(dy, X, pad, d, k, n - 1);
      if d == pad {
        PadShareZero(dy[n - 1], X[n - 1], pad, k, |X[n - 1]|);
      } else if |X[n - 1]| > 0 {
        NoOccurrences(X[n - 1], d, |X[n - 1]|);
        RowShareCountsOccurrences(dy[n - 1], X[n - 1], pad, d, k, |X[n - 1]|);
      }
    }
  }

  lemma {:induction false} NoOccurrences(xs: seq<int>, d: int, n: nat)
    requires n <= |xs| && forall j :: 0 <= j < |xs| ==> xs[j] != d
    ensures Occurrences(xs, d, n) == 0
  {
    if n > 0 {
      NoOccurrences(xs, d, n - 1);
    }
  }

  /** The first n terms of dy[k]/M over a row of dy. */
  function ShareSum(dyRow: seq<real>, M: nat, n: nat): real
    requires n <= |dyRow| && M > 0
  {
    if n == 0 then 0.0 else ShareSum(dyRow, M, n - 1) + dyRow[n - 1] / (M as real)
  }

  /** Adding up dy[k]/M is dividing the row sum by M. */
  lemma {:induction false} ShareSumIsMean(dyRow: seq<real>, M: nat, n: nat)
    requires n <= |dyRow| && M > 0
    ensures ShareSum(dyRow, M, n) == Sum(dyRow[..n]) / (M as real)
  {
    if n > 0 {
      ShareSumIsMean(dyRow, M, n - 1);
      SumPrefixStep(dyRow, n - 1);
    }
  }

  /** Row i of an index array. */
  ghost function IndexRow(X: array2<int>, i: nat): (xs: seq<int>)
    reads X
    requires i < X.Length0
    ensures |xs| == X.Length1 && forall j :: 0 <= j < X.Length1 ==> xs[j] == X[i, j]
  {
    seq(X.Length1, j requires 0 <= j < X.Length1 reads X => X[i, j])
  }

  /** The rows of an index array. */
  ghost function IndexRows(X: array2<int>): (xs: Indices)
    reads X
    ensures |xs| == X.Length0 && forall i :: 0 <= i < X.Length0 ==> xs[i] == IndexRow(X, i)
  {
    seq(X.Length0, i requires 0 <= i < X.Length0 reads X => IndexRow(X, i))
  }

  class Embedding {
    /** Embedding dimension, output size (equal to E), context length, pad index (-1: none). */
    const E: nat
    const S: nat
    const M: nat
    const padinx: int
    /** Vocabulary size and batch size; both 0 until Init. */
    var D: nat
    var B: nat
    var Wx: array2<real>
    var h: array2<real>

    ghost predicate Valid()
      reads this
    {
      S == E && Wx.Length0 == D && Wx.Length1 == E && h.Length0 == B && h.Length1 == S && Wx != h
    }

    /** embedding_create: E = S = the embedding dimension, M and the pad index; nothing allocated. */
    constructor (dim: nat, contextLen: nat, pad: int)
      ensures Valid() && E == dim && S == dim && M == contextLen && padinx == pad && D == 0 && B == 0
    {
      E := dim;
      S := dim;
      M := contextLen;
      padinx := pad;
      D := 0;
      B := 0;
      Wx := new real[0, dim];
      h := new real[0, dim];
    }

    /**
     * embedding_init: D is the vocabulary size and B the batch size; h is
     * zeroed and Wx drawn (draw(i, j) stands for the uniform draw in
     * [-0.5, 0.5]), except that the pad row is zeroed when the pad index
     * lies inside the vocabulary.
     */
    method Init(vocab: nat, batchSize: nat, draw: (int, int) -> real)
      requires Valid()
      modifies this
      ensures Valid() && D == vocab && B == batchSize && fresh(Wx) && fresh(h)
      ensures forall i, j :: 0 <= i < B && 0 <= j < S ==> h[i, j] == 0.0
      ensures forall i, j :: 0 <= i < D && 0 <= j < E ==>
        Wx[i, j] == if i == padinx then 0.0 else draw(i, j)
    {
      D := vocab;
      B := batchSize;
      h := new real[batchSize, S]((_, _) => 0.0);
      Wx := new real[vocab, E]((i, j) => draw(i, j));
      if 0 <= padinx < vocab {
        ClearRow(Wx, padinx);
      }
    }

    /** embedding_reset does nothing. */
    method Reset()
      requires Valid()
      ensures Valid()
    {
    }

    /**
     * embedding_forward, with each context's embeddings summed column by
     * column: h[i][k] is the sum over the context's tokens of Wx[token][k].
     */
    method Forward(X: array2<int>) returns (y: array2<real>)
      requires Valid() && X.Length0 == B && X.Length1 == M
      requires forall i, j :: 0 <= i < B && 0 <= j < M ==> 0 <= X[i, j] < D
      modifies h
      ensures y == h
      ensures forall i, k :: 0 <= i < B && 0 <= k < S ==> h[i, k] == ContextSum(Snap(Wx), E, IndexRow(X, i), k, M)
    {
      Clear(h);
      var i := 0;
      while i < B
        invariant 0 <= i <= B
        invariant forall i', k :: 0 <= i' < i && 0 <= k < S ==> h[i', k] == ContextSum(Snap(Wx), E, IndexRow(X, i'), k, M)
        invariant forall i', k :: i <= i' < B && 0 <= k < S ==> h[i', k] == 0.0
      {
        ForwardRow(h, Wx, X, i);
        i := i + 1;
      }
      y := h;
    }

    /**
     * embedding_backward: gWx is cleared, then each non-pad position adds
     * dy[i][k]/M into the row of its token; when dx is given, every entry
     * of row i of dx is the sum of dy[i][k]/M, whatever the weights.
     */
    method Backward(dy: array2<real>, X: array2<int>, gWx: array2<real>, dx: array2?<real>)
      requires Valid()
      requires dy.Length0 == B && dy.Length1 == S && X.Length0 == B && X.Length1 == M
      requires gWx.Length0 == D && gWx.Length1 == E && gWx != dy
      requires forall i, j :: 0 <= i < B && 0 <= j < M ==> X[i, j] == padinx || 0 <= X[i, j] < D
      requires dx != null ==> dx.Length0 == B && dx.Length1 == M && dx != dy && dx != gWx
      modifies gWx, dx
      ensures forall d, k :: 0 <= d < D && 0 <= k < E ==>
        gWx[d, k] == TokenGrad(Snap(dy), IndexRows(X), padinx, d, k, B)
      ensures dx != null ==> forall i, j :: 0 <= i < B && 0 <= j < M ==>
        dx[i, j] == Sum(RowOf(dy, i)) / (M as real)
    {
      WeightGradient(gWx, dy, X, padinx);
      if dx != null {
        InputGradient(dx, dy);
      }
    }
  }

  /** The middle loop of embedding_forward (corrected) for context i. */
  method ForwardRow(h: array2<real>, Wx: array2<real>, X: array2<int>, i: nat)
    requires h != Wx && i < h.Length0 && i < X.Length0 && h.Length1 == Wx.Length1
    requires forall j :: 0 <= j < X.Length1 ==> 0 <= X[i, j] < Wx.Length0
    requires forall k :: 0 <= k < h.Length1 ==> h[i, k] == 0.0
    modifies h
    ensures forall k :: 0 <= k < h.Length1 ==> h[i, k] == ContextSum(Snap(Wx), Wx.Length1, IndexRow(X, i), k, X.Length1)
    ensures forall i', k :: 0 <= i' < h.Length0 && 0 <= k < h.Length1 && i' != i ==> h[i', k] == old(h[i', k])
  {
    ghost var W := Snap(Wx);
    ghost var xs := IndexRow(X, i);
    var j := 0;
    while j < X.Length1
      invariant 0 <= j <= X.Length1
      invariant forall k :: 0 <= k < h.Length1 ==> h[i, k] == ContextSum(W, Wx.Length1, xs, k, j)
      invariant forall i', k :: 0 <= i' < h.Length0 && 0 <= k < h.Length1 && i' != i ==> h[i', k] == old(h[i', k])
    {
      AddEmbedding(h, i, Wx, X[i, j]);
      j := j + 1;
    }
  }

  /** The innermost loop of embedding_forward (corrected): h[i][k] += Wx[d][k] for every k. */
  method AddEmbedding(h: array2<real>, i: nat, Wx: array2<real>, d: int)
    requires h != Wx && i < h.Length0 && 0 <= d < Wx.Length0 && h.Length1 == Wx.Length1
    modifies h
    ensures forall k :: 0 <= k < h.Length1 ==> h[i, k] == old(h[i, k]) + Wx[d, k]
    ensures forall i', k :: 0 <= i' < h.Length0 && 0 <= k < h.Length1 && i' != i ==> h[i', k] == old(h[i', k])
  {
    var k := 0;
    while k < h.Length1
      invariant 0 <= k <= h.Length1
      invariant forall k' :: 0 <= k' < k ==> h[i, k'] == old(h[i, k']) + Wx[d, k']
      invariant forall i', k' :: 0 <= i' < h.Length0 && 0 <= k' < h.Length1 && (i' != i || k' >= k) ==> h[i', k'] == old(h[i', k'])
    {
      h[i, k] := h[i, k] + Wx[d, k];
      k := k + 1;
    }
  }

  /** The gWx part of embedding_backward. */
  method WeightGradient(gWx: array2<real>, dy: array2<real>, X: array2<int>, pad: int)
    requires gWx != dy && dy.Length0 == X.Length0 && dy.Length1 == gWx.Length1
    requires forall i, j :: 0 <= i < X.Length0 && 0 <= j < X.Length1 ==> X[i, j] == pad || 0 <= X[i, j] < gWx.Length0
    modifies gWx
    ensures forall d, k :: 0 <= d < gWx.Length0 && 0 <= k < gWx.Length1 ==>
      gWx[d, k] == TokenGrad(Snap(dy), IndexRows(X), pad, d, k, X.Length0)
  {
    ghost var Dy := Snap(dy);
    ghost var Xs := IndexRows(X);
    Clear(gWx);
    var i := 0;
    while i < X.Length0
      invariant 0 <= i <= X.Length0
      invariant forall d, k :: 0 <= d < gWx.Length0 && 0 <= k < gWx.Length1 ==> gWx[d, k] == TokenGrad(Dy, Xs, pad, d, k, i)
    {
      GradientRow(gWx, dy, X, pad, i);
      i := i + 1;
    }
  }

  /** The middle loop of embedding_backward's weight gradient for context i. */
  method GradientRow(gWx: array2<real>, dy: array2<real>, X: array2<int>, pad: int, i: nat)
    requires gWx != dy && i < dy.Length0 == X.Length0 && dy.Length1 == gWx.Length1
    requires forall j :: 0 <= j < X.Length1 ==> X[i, j] == pad || 0 <= X[i, j] < gWx.Length0
    modifies gWx
    ensures forall d, k :: 0 <= d < gWx.Length0 && 0 <= k < gWx.Length1 ==>
      gWx[d, k] == old(gWx[d, k]) + RowShare(RowOf(dy, i), IndexRow(X, i), pad, d, k, X.Length1)
  {
    ghost var dyRow := RowOf(dy, i);
    ghost var xs := IndexRow(X, i);
    var j := 0;
    while j < X.Length1
      invariant 0 <= j <= X.Length1
      invariant forall d, k :: 0 <= d < gWx.Length0 && 0 <= k < gWx.Length1 ==>
        gWx[d, k] == old(gWx[d, k]) + RowShare(dyRow, xs, pad, d, k, j)
    {
      var xij := X[i, j];
      if xij != pad {
        AddShare(gWx, xij, dy, i, X.Length1);
      }
      j := j + 1;
    }
  }

  /** The innermost loop: gWx[d][k] += dy[i][k]/M for every k. */
  method AddShare(gWx: array2<real>, d: int, dy: array2<real>, i: nat, M: nat)
    requires gWx != dy && 0 <= d < gWx.Length0 && i < dy.Length0 && dy.Length1 == gWx.Length1 && M > 0
    modifies gWx
    ensures forall d', k :: 0 <= d' < gWx.Length0 && 0 <= k < gWx.Length1 ==>
      gWx[d', k] == old(gWx[d', k]) + (if d' == d then dy[i, k] / (M as real) else 0.0)
  {
    var k := 0;
    while k < gWx.Length1
      invariant 0 <= k <= gWx.Length1
      invariant forall d', k' :: 0 <= d' < gWx.Length0 && 0 <= k' < gWx.Length1 ==>
        gWx[d', k'] == old(gWx[d', k']) + (if d' == d && k' < k then dy[i, k'] / (M as real) else 0.0)
    {
      gWx[d, k] := gWx[d, k] + dy[i, k] / (M as real);
      k := k + 1;
    }
  }

  /** The dx part of embedding_backward: dx[i][j] = sum over k of dy[i][k]/M. */
  method InputGradient(dx: array2<real>, dy: array2<real>)
    requires dx != dy && dx.Length0 == dy.Length0
    modifies dx
    ensures forall i, j :: 0 <= i < dx.Length0 && 0 <= j < dx.Length1 ==>
      dx[i, j] == Sum(RowOf(dy, i)) / (dx.Length1 as real)
  {
    Clear(dx);
    var i := 0;
    while i < dx.Length0
      invariant 0 <= i <= dx.Length0
      invariant forall i', j :: 0 <= i' < i && 0 <= j < dx.Length1 ==> dx[i', j] == Sum(RowOf(dy, i')) / (dx.Length1 as real)
      invariant forall i', j :: i <= i' < dx.Length0 && 0 <= j < dx.Length1 ==> dx[i', j] == 0.0
    {
      var j := 0;
      while j < dx.Length1
        invariant 0 <= j <= dx.Length1
        invariant forall i', j' :: 0 <= i' < i && 0 <= j' < dx.Length1 ==> dx[i', j'] == Sum(RowOf(dy, i')) / (dx.Length1 as real)
        invariant forall j' :: 0 <= j' < j ==> dx[i, j'] == Sum(RowOf(dy, i)) / (dx.Length1 as real)
        invariant forall i', j' :: i <= i' < dx.Length0 && 0 <= j' < dx.Length1 && (i' > i || j' >= j) ==> dx[i', j'] == 0.0
      {
        SpreadShare(dx, i, j, dy);
        j := j + 1;
      }
      i := i + 1;
    }
  }

  /** The innermost dx loop: dx[i][j] += dy[i][k]/M for every k, starting from 0. */
  method SpreadShare(dx: array2<real>, i: nat, j: nat, dy: array2<real>)
    requires dx != dy && i < dx.Length0 && j < dx.Length1 && i < dy.Length0 && dx[i, j] == 0.0
    modifies dx
    ensures dx[i, j] == Sum(RowOf(dy, i)) / (dx.Length1 as real)
    ensures forall i', j' :: 0 <= i' < dx.Length0 && 0 <= j' < dx.Length1 && (i' != i || j' != j) ==> dx[i', j'] == old(dx[i', j'])
  {
    ghost var row := RowOf(dy, i);
    var M := dx.Length1;
    var k := 0;
    while k < dy.Length1
      invariant 0 <= k <= dy.Length1
      invariant dx[i, j] == ShareSum(row, M, k)
      invariant forall i', j' :: 0 <= i' < dx.Length0 && 0 <= j' < dx.Length1 && (i' != i || j' != j) ==> dx[i', j'] == old(dx[i', j'])
    {
      dx[i, j] := dx[i, j] + dy[i, k] / (M as real);
      k := k + 1;
    }
    ShareSumIsMean(row, M, |row|);
    assert row[..|row|] == row;
  }

  /**
   * embedding_forward as written: the inner loop adds every entry of the
   * token's embedding into column j (the position in the context) instead
   * of column k. Row i of h ends up holding, in column j < M, the sum of all
   * entries of the embedding of token j; with M <= S every write stays in
   * the row.
   */
  method ForwardAsWritten(h: array2<real>, Wx: array2<real>, X: array2<int>)
    requires h != Wx && X.Length0 == h.Length0 && X.Length1 <= h.Length1 && h.Length1 == Wx.Length1
    requires forall i, j :: 0 <= i < X.Length0 && 0 <= j < X.Length1 ==> 0 <= X[i, j] < Wx.Length0
    modifies h
    ensures forall i, c :: 0 <= i < h.Length0 && 0 <= c < h.Length1 ==>
      h[i, c] == if c < X.Length1 then Sum(RowOf(Wx, X[i, c])) else 0.0
  {
    Clear(h);
    var i := 0;
    while i < h.Length0
      invariant 0 <= i <= h.Length0
      invariant forall i', c :: 0 <= i' < h.Length0 && 0 <= c < h.Length1 ==>
        h[i', c] == if i' < i && c < X.Length1 then Sum(RowOf(Wx, X[i', c])) else 0.0
    {
      var j := 0;
      while j < X.Length1
        invariant 0 <= j <= X.Length1
        invariant forall i', c :: 0 <= i' < h.Length0 && 0 <= c < h.Length1 ==>
          h[i', c] == if (i' < i && c < X.Length1) || (i' == i && c < j) then Sum(RowOf(Wx, X[i', c])) else 0.0
      {
        ghost var row := RowOf(Wx, X[i, j]);
        var k := 0;
        while k < Wx.Length1
          invariant 0 <= k <= Wx.Length1
          invariant h[i, j] == Sum(row[..k])
          invariant forall i', c :: 0 <= i' < h.Length0 && 0 <= c < h.Length1 && (i' != i || c != j) ==>
            h[i', c] == if (i' < i && c < X.Length1) || (i' == i && c < j) then Sum(RowOf(Wx, X[i', c])) else 0.0
        {
          SumPrefixStep(row, k);
          h[i, j] := h[i, j] + Wx[X[i, j], k];
          k := k + 1;
        }
        assert row[..Wx.Length1] == row;
        j := j + 1;
      }
      i := i + 1;
    }
  }

  /**
   * The column mix-up is visible on the smallest input: one context
   * holding token 0, whose embedding is [1, 2]. The code as written puts
   * 1 + 2 = 3 in column 0; the context sum is 1 there.
   */
  lemma ForwardAsWrittenMixesColumns(Wx: Mat, xs: seq<int>)
    requires Wx == [[1.0, 2.0]] && xs == [0]
    ensures Sum(Wx[xs[0]]) == 3.0
    ensures ContextSum(Wx, 2, xs, 0, 1) == 1.0
  {
    assert Wx[0][..1] == [1.0];
    assert Sum([1.0]) == 1.0;
  }
}
