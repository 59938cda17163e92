/**
 * One-hot encoding of class indices and arg-max decoding back to indices
 * (src/numeric/onehot.h).
 */
module OneHot {
  import opened Matrix

  /** The one-hot row of width k with a 1 at column c. */
  function OneHotRow(c: int, k: nat): (r: seq<real>)
    ensures |r| == k && forall j :: 0 <= j < k ==> r[j] == if j == c then 1.0 else 0.0
  {
    seq(k, j requires 0 <= j < k => if j == c then 1.0 else 0.0)
  }

  /**
   * The column onehot_decode picks among the first n entries of a row: the
   * scan starts at 0 and moves only on a strictly greater value, so it is
   * the first position of the maximum.
   */
  function FirstArgMax(r: seq<real>, n: nat): (m: nat)
    requires n <= |r|
    ensures n == 0 ==> m == 0
    ensures n > 0 ==> m < n
  {
    if n <= 1 then 0
    else
      var m := FirstArgMax(r, n - 1);
      if r[n - 1] > r[m] then n - 1 else m
  }

  /** The position FirstArgMax picks holds the maximum, and every earlier entry is strictly smaller. */
  lemma {:induction false} FirstArgMaxIsFirstMax(r: seq<real>, n: nat)
    requires n <= |r|
    ensures forall k :: 0 <= k < n ==> r[k] <= r[FirstArgMax(r, n)]
    ensures forall k :: 0 <= k < FirstArgMax(r, n) ==> r[k] < r[FirstArgMax(r, n)]
  {
    if n > 1 {
      FirstArgMaxIsFirstMax(r, n - 1);
    }
  }

  /** Decoding a one-hot row gives back its class. */
  lemma {:induction false} DecodeOneHot(c: int, k: nat, n: nat)
    requires 0 <= c < k && c < n <= k
    ensures FirstArgMax(OneHotRow(c, k), n) == c
  {
    var r := OneHotRow(c, k);
    if n - 1 > c {
      DecodeOneHot(c, k, n - 1);
    } else {
      assert n - 1 == c;
      if n > 1 {
        FirstArgMaxIsFirstMax(r, n - 1);
        var m := FirstArgMax(r, n - 1);
        assert r[m] == 0.0;
      }
    }
  }

  /** onehot_encode: clear yv, then set yv[i][yc[i]] = 1 for each row. */
  method OnehotEncode(yc: array<int>, yv: array2<real>)
    requires yc.Length >= yv.Length0
    requires forall i :: 0 <= i < yv.Length0 ==> 0 <= yc[i] < yv.Length1
    modifies yv
    ensures forall i, j :: 0 <= i < yv.Length0 && 0 <= j < yv.Length1 ==>
      yv[i, j] == OneHotRow(yc[i], yv.Length1)[j]
  {
    var i := 0;
    while i < yv.Length0
      invariant 0 <= i <= yv.Length0
      invariant forall i', j :: 0 <= i' < i && 0 <= j < yv.Length1 ==>
        yv[i', j] == OneHotRow(yc[i'], yv.Length1)[j]
    {
      var j := 0;
      while j < yv.Length1
        invariant 0 <= j <= yv.Length1
        invariant forall i', j' :: 0 <= i' < i && 0 <= j' < yv.Length1 ==>
          yv[i', j'] == OneHotRow(yc[i'], yv.Length1)[j']
        invariant forall j' :: 0 <= j' < j ==> yv[i, j'] == 0.0
      {
        yv[i, j] := 0.0;
        j := j + 1;
      }
      yv[i, yc[i]] := 1.0;
      i := i + 1;
    }
  }

  /** onehot_decode: yc[i] is the first arg-max of row i; yc past row M is left alone. */
  method OnehotDecode(yv: array2<real>, yc: array<int>)
    requires yc.Length >= yv.Length0
    modifies yc
    ensures forall i :: 0 <= i < yv.Length0 ==> yc[i] == FirstArgMax(RowOf(yv, i), yv.Length1)
    ensures forall i :: yv.Length0 <= i < yc.Length ==> yc[i] == old(yc[i])
  {
    var i := 0;
    while i < yv.Length0
      invariant 0 <= i <= yv.Length0
      invariant forall i' :: 0 <= i' < i ==> yc[i'] == FirstArgMax(RowOf(yv, i'), yv.Length1)
      invariant forall i' :: yv.Length0 <= i' < yc.Length ==> yc[i'] == old(yc[i'])
    {
      var mj := RowArgMax(yv, i);
      yc[i] := mj;
      i := i + 1;
    }
  }

  /** The scan of onehot_decode over row i: the first arg-max of the row. */
  method RowArgMax(yv: array2<real>, i: int) returns (mj: int)
    requires 0 <= i < yv.Length0
    ensures mj == FirstArgMax(RowOf(yv, i), yv.Length1)
  {
    ghost var r := RowOf(yv, i);
    mj := 0;
    var j := 1;
    while j < yv.Length1
      invariant 1 <= j && (yv.Length1 > 0 ==> j <= yv.Length1)
      invariant yv.Length1 > 0 ==> mj == FirstArgMax(r, j)
      invariant yv.Length1 == 0 ==> mj == 0
    {
      assert r[j] == yv[i, j] && r[mj] == yv[i, mj];
      if yv[i, j] > yv[i, mj] {
        mj := j;
      }
      j := j + 1;
    }
  }

  /** decode(encode(yc)) == yc for class indices in range. */
  lemma DecodeOfEncode(yc: seq<int>, n: nat)
    requires n > 0
    requires forall i :: 0 <= i < |yc| ==> 0 <= yc[i] < n
    ensures forall i :: 0 <= i < |yc| ==> FirstArgMax(OneHotRow(yc[i], n), n) == yc[i]
  {
    forall i | 0 <= i < |yc|
      ensures FirstArgMax(OneHotRow(yc[i], n), n) == yc[i]
    {
      DecodeOneHot(yc[i], n, n);
    }
  }
}
