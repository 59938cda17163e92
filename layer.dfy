/**
 * What the dense and LSTM layers share: the activation names they are
 * created with (src/model/dense.c, src/model/lstm.c), the activation a tag
 * selects in the forward pass and the derivative it selects in the
 * backward pass (src/model/dense.h, src/model/lstm.h).
 */
module Layer {
  import opened Common
  import opened Matrix
  import opened Activation

  /** The activation tags: n(one), s(igmoid), r(elu) and S(oftmax). */
  predicate IsActivation(tag: char)
  {
    tag == 'n' || tag == 's' || tag == 'r' || tag == 'S'
  }

  /**
   * The tag an activation name selects, compared without regard to case;
   * None for any other name (the create functions exit on it).
   */
  function ActivationTag(name: string): (r: Option<char>)
    ensures r.Some? ==> IsActivation(r.value)
  {
    if SameIgnoringCase("none", name) then Some('n')
    else if SameIgnoringCase("sigmoid", name) then Some('s')
    else if SameIgnoringCase("relu", name) then Some('r')
    else if SameIgnoringCase("softmax", name) then Some('S')
    else None
  }

  /** The lower-case name of each tag. */
  function ActivationName(tag: char): (name: string)
    requires IsActivation(tag)
  {
    match tag
    case 'n' => "none"
    case 's' => "sigmoid"
    case 'r' => "relu"
    case 'S' => "softmax"
  }

  /** Each tag's own name selects it. */
  lemma ActivationNameSelectsTag(tag: char)
    requires IsActivation(tag)
    ensures ActivationTag(ActivationName(tag)) == Some(tag)
  {
    var name := ActivationName(tag);
    assert SameIgnoringCase(name, name);
    if tag == 'S' {
      assert Lower(name[1]) != Lower("sigmoid"[1]);
    }
  }

  /** A name is accepted exactly when it is one of the four names up to case. */
  lemma ActivationTagAccepts(name: string)
    ensures ActivationTag(name).Some? <==>
      exists tag :: IsActivation(tag) && SameIgnoringCase(ActivationName(tag), name)
    ensures ActivationTag(name).Some? ==> SameIgnoringCase(ActivationName(ActivationTag(name).value), name)
  {
    if ActivationTag(name).None? {
      forall tag | IsActivation(tag)
        ensures !SameIgnoringCase(ActivationName(tag), name)
      {
      }
    } else {
      var tag := ActivationTag(name).value;
      assert IsActivation(tag) && SameIgnoringCase(ActivationName(tag), name);
    }
  }

  /** Names that differ only in case select the same tag. */
  lemma ActivationTagIgnoresCase(a: string, b: string)
    requires SameIgnoringCase(a, b)
    ensures ActivationTag(a) == ActivationTag(b)
  {
  }

  /**
   * The activation of one row: sigmoid or relu elementwise, softmax over the
   * row, the row itself for 'n' (and for any tag the switch does not name).
   */
  function ActivateRow(tag: char, row: seq<real>, exp: ExpFn): (r: seq<real>)
    ensures |r| == |row|
  {
    if tag == 's' then seq(|row|, j requires 0 <= j < |row| => SigmoidValue(exp, row[j]))
    else if tag == 'r' then seq(|row|, j requires 0 <= j < |row| => ReluValue(row[j]))
    else if tag == 'S' && |row| > 0 then SoftmaxRow(exp, row)
    else row
  }

  /** The activation of every row of a matrix. */
  function ActivateRows(tag: char, m: Mat, exp: ExpFn): (r: Mat)
    ensures |r| == |m| && forall i :: 0 <= i < |m| ==> r[i] == ActivateRow(tag, m[i], exp)
  {
    seq(|m|, i requires 0 <= i < |m| => ActivateRow(tag, m[i], exp))
  }

  /**
   * What each activation yields: sigmoid values in (0, 1), relu values
   * nonnegative, softmax rows that are probability vectors, and 'n' the
   * row unchanged.
   */
  lemma ActivatedRange(tag: char, row: seq<real>, exp: ExpFn)
    ensures tag == 's' ==> forall j :: 0 <= j < |row| ==> 0.0 < ActivateRow(tag, row, exp)[j] < 1.0
    ensures tag == 'r' ==> forall j :: 0 <= j < |row| ==> ActivateRow(tag, row, exp)[j] >= 0.0
    ensures tag == 'S' && |row| > 0 ==> Sum(ActivateRow(tag, row, exp)) == 1.0
    ensures tag == 'S' ==> forall j :: 0 <= j < |row| ==> ActivateRow(tag, row, exp)[j] > 0.0
    ensures tag == 'n' ==> ActivateRow(tag, row, exp) == row
  {
    if tag == 'S' && |row| > 0 {
      SoftmaxIsDistribution(exp, row);
    }
  }

  /**
   * The activation switch of dense_forward and of lstm_forward's activate,
   * in place on rows lo..hi-1.
   */
  method ApplyActivation(a: array2<real>, lo: nat, hi: nat, tag: char, exp: ExpFn)
    requires lo <= hi <= a.Length0
    modifies a
    ensures forall i :: lo <= i < hi ==> RowOf(a, i) == ActivateRow(tag, old(RowOf(a, i)), exp)
    ensures forall i, j :: 0 <= i < a.Length0 && 0 <= j < a.Length1 && !(lo <= i < hi) ==> a[i, j] == old(a[i, j])
  {
    if tag == 's' {
      Sigmoid(a, lo, hi, exp);
    } else if tag == 'r' {
      Relu(a, lo, hi);
    } else if tag == 'S' {
      Softmax(a, lo, hi, exp);
      forall i | lo <= i < hi
        ensures RowOf(a, i) == ActivateRow(tag, old(RowOf(a, i)), exp)
      {
        assert RowOf(a, i) == Row(a, i);
        assert old(RowOf(a, i)) == old(Row(a, i));
      }
    }
  }

  /**
   * The factor dense_backward scales dx by, evaluated at the layer input:
   * the sigmoid or ReLU derivative, and 1 (no scaling) for 'n' and 'S'.
   */
  function InputDerivative(tag: char, x: real): (d: real)
    ensures tag != 's' && tag != 'r' ==> d == 1.0
    ensures tag == 'r' ==> d == 0.0 || d == 1.0
  {
    if tag == 's' then DSigmoid1(x) else if tag == 'r' then DRelu1(x) else 1.0
  }

  /**
   * lstm_backward's d_activate: the sigmoid or ReLU derivative through the
   * gate's output, and the gate value itself for every other tag.
   */
  function GateDerivative(tag: char, z: real): (d: real)
    ensures tag != 's' && tag != 'r' ==> d == z
    ensures tag == 's' && 0.0 < z < 1.0 ==> d > 0.0
  {
    if tag == 's' then DSigmoid1(z) else if tag == 'r' then DRelu1(z) else z
  }
}
