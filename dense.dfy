/**
 * The fully connected layer (src/model/dense.c, src/model/dense.h): a
 * D x S weight matrix Wx, a B x S output buffer h, and an activation tag.
 */
module Dense {
  import opened Common
  import opened Matrix
  import opened Activation
  import opened Layer

  class Dense {
    /** Number of units. */
    const S: nat
    const activation: char
    /** Input dimension (with the bias) and batch size; both 0 until Init. */
    var D: nat
    var B: nat
    var Wx: array2<real>
    var h: array2<real>

    ghost predicate Valid()
      reads this
    {
      IsActivation(activation) &&
      Wx.Length0 == D && Wx.Length1 == S && h.Length0 == B && h.Length1 == S && Wx != h
    }

    /** The state dense_create leaves: the units and the tag, nothing allocated. */
    constructor (units: nat, tag: char)
      requires IsActivation(tag)
      ensures Valid() && S == units && activation == tag && D == 0 && B == 0
      ensures fresh(Wx) && fresh(h)
    {
      S := units;
      activation := tag;
      D := 0;
      B := 0;
      Wx := new real[0, units];
      h := new real[0, units];
    }

    /**
     * dense_init: sets D and B and allocates Wx (D x S) and a zeroed h
     * (B x S). draw(i, j) stands for the normal draw that initializes Wx[i][j].
     */
    method Init(inputDim: nat, batchSize: nat, draw: (int, int) -> real)
      requires Valid()
      modifies this
      ensures Valid() && D == inputDim && B == batchSize
      ensures fresh(Wx) && fresh(h)
      ensures forall i, j :: 0 <= i < D && 0 <= j < S ==> Wx[i, j] == draw(i, j)
      ensures forall i, j :: 0 <= i < B && 0 <= j < S ==> h[i, j] == 0.0
    {
      D := inputDim;
      B := batchSize;
      Wx := new real[inputDim, S]((i, j) => draw(i, j));
      h := new real[batchSize, S]((_, _) => 0.0);
    }

    /**
     * dense_set_batch_size: nothing before Init (B == 0); a new size
     * reallocates h, the same size clears it; Wx is left alone.
     */
    method SetBatchSize(batchSize: nat)
      requires Valid()
      modifies this, h
      ensures Valid() && D == old(D) && Wx == old(Wx) && unchanged(Wx)
      ensures old(B) == 0 ==> B == 0 && h == old(h) && unchanged(h)
      ensures old(B) != 0 ==> B == batchSize && forall i, j :: 0 <= i < B && 0 <= j < S ==> h[i, j] == 0.0
      ensures old(B) != 0 && batchSize != old(B) ==> fresh(h)
      ensures batchSize == old(B) ==> h == old(h)
    {
      if B == 0 {
        return;
      }
      if batchSize != B {
        B := batchSize;
        h := new real[batchSize, S]((_, _) => 0.0);
      } else {
        Clear(h);
      }
    }

    /** dense_reset does nothing: the layer keeps no state between batches. */
    method Reset()
      requires Valid()
      ensures Valid()
    {
    }

    /**
     * dense_forward: h = X @ Wx, then the activation of every row; the
     * result is h itself.
     */
    method Forward(X: array2<real>, exp: ExpFn) returns (y: array2<real>)
      requires Valid() && X != h && X.Length0 == B && X.Length1 == D
      modifies h
      ensures y == h
      ensures Snap(h) == ActivateRows(activation, Product(Snap(X), Snap(Wx), B, D, S), exp)
    {
      MatMul(h, X, Wx);
      ghost var p := Snap(h);
      label product:
      ApplyActivation(h, 0, B, activation, exp);
      forall i | 0 <= i < B
        ensures Snap(h)[i] == ActivateRow(activation, p[i], exp)
      {
        assert old@product(RowOf(h, i)) == p[i];
        RowOfSnap(h, i);
      }
      y := h;
    }

    /**
     * dense_backward: gWx is overwritten (not added to) with X^T @ dy; when
     * dx is given it becomes dy @ Wx^T, scaled elementwise by the sigmoid or
     * ReLU derivative taken at the input X.
     */
    method Backward(dy: array2<real>, X: array2<real>, gWx: array2<real>, dx: array2?<real>)
      requires Valid()
      requires dy.Length0 == B && dy.Length1 == S && X.Length0 == B && X.Length1 == D
      requires gWx.Length0 == D && gWx.Length1 == S
      requires gWx != X && gWx != dy
      requires dx != null ==> dx.Length0 == B && dx.Length1 == D && dx != dy && dx != X && dx != Wx && dx != gWx
      modifies gWx, dx
      ensures Snap(gWx) == Product(Transpose(Snap(X), B, D), Snap(dy), D, B, S)
      ensures dx != null ==> forall i, j :: 0 <= i < B && 0 <= j < D ==>
        dx[i, j] == Product(Snap(dy), Transpose(Snap(Wx), D, S), B, S, D)[i][j] * InputDerivative(activation, X[i, j])
    {
      TMatMul(gWx, X, dy);
      if dx != null {
        InputGradient(dx, dy, Wx, X, activation);
      }
    }
  }

  /** The dx branch of dense_backward: dx = dy @ Wx^T, then the derivative at X. */
  method InputGradient(dx: array2<real>, dy: array2<real>, Wx: array2<real>, X: array2<real>, tag: char)
    requires dx != dy && dx != X && dx != Wx
    requires dx.Length0 == dy.Length0 == X.Length0 && dx.Length1 == Wx.Length0 == X.Length1 && dy.Length1 == Wx.Length1
    modifies dx
    ensures forall i, j :: 0 <= i < dx.Length0 && 0 <= j < dx.Length1 ==>
      dx[i, j] == Product(Snap(dy), Transpose(Snap(Wx), Wx.Length0, Wx.Length1), dx.Length0, dy.Length1, dx.Length1)[i][j]
                  * InputDerivative(tag, X[i, j])
  {
    MatMulT(dx, dy, Wx);
    if tag == 's' {
      DSigmoid(dx, X, dx.Length0);
    } else if tag == 'r' {
      DRelu(dx, X, dx.Length0);
    }
  }

  /**
   * dense_create: the layer for a valid activation name, None (the program
   * exits) for any other.
   */
  method Create(units: nat, name: string) returns (l: Option<Dense>)
    ensures l.None? <==> ActivationTag(name).None?
    ensures l.Some? ==> fresh(l.value) && l.value.Valid() && l.value.S == units
    ensures l.Some? ==> Some(l.value.activation) == ActivationTag(name) && l.value.D == 0 && l.value.B == 0
  {
    var tag := ActivationTag(name);
    if tag.None? {
      return None;
    }
    var d := new Dense(units, tag.value);
    l := Some(d);
  }

  /** With activation 'n' the forward pass is exactly the matrix product. */
  lemma NoActivationIsProduct(p: Mat, exp: ExpFn)
    ensures ActivateRows('n', p, exp) == p
  {
    forall i | 0 <= i < |p|
      ensures ActivateRows('n', p, exp)[i] == p[i]
    {
      ActivatedRange('n', p[i], exp);
    }
  }
}
