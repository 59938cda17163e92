/**
 * The Hann window (src/feat/hann.c): hannWindowInit stores the first half
 * of the coefficients, hannWindow applies them to a frame, mirroring them
 * for the second half. The cosine is a parameter; float rounding of the
 * products is not modelled.
 */
module Hann {
  const MAX_WINDOW_SIZE: int := 1024
  const PI: real := 3.14159265358979323846

  /** Window sizes hannWindowInit accepts: even, from 2 to MAX_WINDOW_SIZE. */
  predicate SizeAccepted(winSize: int)
  {
    2 <= winSize <= MAX_WINDOW_SIZE && winSize % 2 == 0
  }

  /** Coefficient n of a window of winSize samples: 0.5 (1 - cos(2 pi n / (winSize - 1))). */
  function Coeff(cos: real -> real, n: int, winSize: int): real
    requires winSize >= 2
  {
    0.5 * (1.0 - cos((2.0 * PI * n as real) / (winSize - 1) as real))
  }

  /** The stored coefficient sample i of a window of w samples uses: i in the first half, w - 1 - i in the second. */
  function Mirror(i: int, w: int): int
  {
    if i < w / 2 then i else w - 1 - i
  }

  /** The weight applied to sample i: coefficient Mirror(i, w) of the stored half. */
  function Weight(coeff: seq<real>, w: int, i: int): real
    requires 0 <= i < w && w % 2 == 0 && w / 2 <= |coeff|
  {
    coeff[Mirror(i, w)]
  }

  /** The windowed frame: sample i scaled by its weight. */
  function Windowed(inData: seq<real>, coeff: seq<real>, w: int): (out: seq<real>)
    requires 0 <= w <= |inData| && w % 2 == 0 && w / 2 <= |coeff|
    ensures |out| == w
  {
    seq(w, i requires 0 <= i < w => inData[i] * Weight(coeff, w, i))
  }

  /** Mirroring reads only the stored half, and sample i and sample w - 1 - i read the same coefficient. */
  lemma MirrorSymmetric(i: int, w: int)
    requires 0 <= i < w && w % 2 == 0
    ensures 0 <= Mirror(i, w) < w / 2
    ensures Mirror(w - 1 - i, w) == Mirror(i, w)
  {
  }

  /** The applied window is symmetric. */
  lemma WindowSymmetric(coeff: seq<real>, w: int, i: int)
    requires 0 <= i < w && w % 2 == 0 && w / 2 <= |coeff|
    ensures Weight(coeff, w, w - 1 - i) == Weight(coeff, w, i)
  {
    MirrorSymmetric(i, w);
  }

  /** With cos(0) = 1 the first coefficient is 0, so both ends of every windowed frame are 0. */
  lemma EndsVanish(cos: real -> real, inData: seq<real>, coeff: seq<real>, w: int)
    requires cos(0.0) == 1.0
    requires 2 <= w <= |inData| && w % 2 == 0 && w / 2 <= |coeff| && coeff[0] == Coeff(cos, 0, w)
    ensures Windowed(inData, coeff, w)[0] == 0.0 && Windowed(inData, coeff, w)[w - 1] == 0.0
  {
    assert (2.0 * PI * 0 as real) / (w - 1) as real == 0.0;
  }

  /** A HANNWIN: the size it was set up for and the first half of its coefficients. */
  class HannWin {
    var winSize: int
    var coeff: array<real>

    ghost predicate Valid()
      reads this
    {
      coeff.Length == MAX_WINDOW_SIZE / 2 && 0 <= winSize <= MAX_WINDOW_SIZE && winSize % 2 == 0
    }

    /** A window not yet set up: size 0. */
    constructor ()
      ensures Valid() && winSize == 0 && fresh(coeff)
    {
      winSize := 0;
      coeff := new real[MAX_WINDOW_SIZE / 2];
    }

    /**
     * hannWindowInit: reject a size below 2, above MAX_WINDOW_SIZE or odd
     * with -1 and change nothing; otherwise record the size and fill the
     * first winSize / 2 coefficients.
     */
    method HannWindowInit(winSize: int, cos: real -> real) returns (r: int)
      requires Valid()
      modifies this, coeff
      ensures Valid() && coeff == old(coeff)
      ensures r == -1 <==> !SizeAccepted(winSize)
      ensures r == -1 ==> this.winSize == old(this.winSize) && coeff[..] == old(coeff[..])
      ensures r == 0 ==> this.winSize == winSize
      ensures r == 0 ==> forall n :: 0 <= n < winSize / 2 ==> coeff[n] == Coeff(cos, n, winSize)
      ensures r == 0 ==> forall n :: winSize / 2 <= n < coeff.Length ==> coeff[n] == old(coeff[n])
    {
      if winSize < 2 || winSize > MAX_WINDOW_SIZE {
        return -1;
      }
      if winSize % 2 != 0 {
        return -1;
      }
      this.winSize := winSize;
      var n := 0;
      while n < winSize / 2
        invariant 0 <= n <= winSize / 2
        invariant coeff == old(coeff) && this.winSize == winSize
        invariant forall k :: 0 <= k < n ==> coeff[k] == Coeff(cos, k, winSize)
        invariant forall k :: n <= k < coeff.Length ==> coeff[k] == old(coeff[k])
      {
        coeff[n] := Coeff(cos, n, winSize);
        n := n + 1;
      }
      r := 0;
    }

    /**
     * hannWindow: -1 when the frame size is not the window's, leaving
     * outData alone; otherwise 0, with the windowed frame in the first
     * winSize entries of outData.
     */
    method HannWindow(inData: seq<real>, outData: array<real>, winSize: int) returns (r: int)
      requires Valid() && winSize <= |inData| && winSize <= outData.Length && outData != coeff
      modifies outData
      ensures r == -1 <==> winSize != this.winSize
      ensures r == -1 ==> outData[..] == old(outData[..])
      ensures r == 0 ==> outData[..winSize] == Windowed(inData, coeff[..], winSize)
      ensures forall i :: Max0(winSize) <= i < outData.Length ==> outData[i] == old(outData[i])
    {
      if this.winSize != winSize {
        return -1;
      }
      ApplyWindow(inData, coeff[..], outData, winSize);
      r := 0;
    }
  }

  /** The two loops of hannWindow: the first half by the stored coefficients, the second half by their mirror. */
  method ApplyWindow(inData: seq<real>, coeff: seq<real>, outData: array<real>, w: int)
    requires 0 <= w <= |inData| && w <= outData.Length && w % 2 == 0 && w / 2 <= |coeff|
    modifies outData
    ensures outData[..w] == Windowed(inData, coeff, w)
    ensures forall i :: w <= i < outData.Length ==> outData[i] == old(outData[i])
  {
    var i := 0;
    while i < w / 2
      invariant 0 <= i <= w / 2
      invariant forall k :: 0 <= k < i ==> outData[k] == inData[k] * Weight(coeff, w, k)
      invariant forall k :: i <= k < outData.Length ==> outData[k] == old(outData[k])
    {
      outData[i] := inData[i] * coeff[i];
      i := i + 1;
    }
    while i < w
      invariant w / 2 <= i <= w
      invariant forall k :: 0 <= k < i ==> outData[k] == inData[k] * Weight(coeff, w, k)
      invariant forall k :: i <= k < outData.Length ==> outData[k] == old(outData[k])
    {
      outData[i] := inData[i] * coeff[w - i - 1];
      i := i + 1;
    }
    assert forall k :: 0 <= k < w ==> outData[..w][k] == Windowed(inData, coeff, w)[k];
  }

  function Max0(x: int): int
  {
    if x < 0 then 0 else x
  }
}
