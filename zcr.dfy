/**
 * The zero-crossing rate of a frame of samples (src/feat/zcr.c): the
 * number of neighbouring pairs that change between the nonnegative and the
 * negative category, divided by the number of samples.
 */
module Zcr {
  import opened Common

  /** A sample's category: negative, or nonnegative. */
  predicate Negative(x: real)
  {
    x < 0.0
  }

  /** The number of adjacent pairs of s whose categories differ. */
  function Crossings(s: seq<real>): (n: nat)
  {
    if |s| <= 1 then 0
    else Crossings(s[..|s| - 1]) + if Negative(s[|s| - 2]) != Negative(s[|s| - 1]) then 1 else 0
  }

  /**
   * zeroCrossings: count the crossings among the first numSamples samples,
   * then divide by numSamples. The division has no guard: for 0 samples it
   * is 0.0 / 0, not a number, which is None here.
   */
  method ZeroCrossings(samples: seq<real>, numSamples: int) returns (zeros: int, rate: Option<real>)
    requires numSamples <= |samples|
    ensures zeros == Crossings(samples[..Max(numSamples, 0)])
    ensures numSamples == 0 ==> rate == None
    ensures numSamples != 0 ==> rate == Some(zeros as real / numSamples as real)
  {
    zeros := 0;
    var i := 1;
    while i < numSamples
      invariant 1 <= i && (numSamples >= 1 ==> i <= numSamples)
      invariant zeros == Crossings(samples[..Min(i, Max(numSamples, 0))])
    {
      assert samples[..i + 1][..i] == samples[..i];
      if (samples[i - 1] >= 0.0 && samples[i] < 0.0) || (samples[i - 1] < 0.0 && samples[i] >= 0.0) {
        zeros := zeros + 1;
      }
      i := i + 1;
    }
    if numSamples == 0 {
      rate := None;
    } else {
      rate := Some(zeros as real / numSamples as real);
    }
  }

  /** At most every one of the |s| - 1 adjacent pairs crosses. */
  lemma {:induction false} CrossingsBound(s: seq<real>)
    requires |s| >= 1
    ensures Crossings(s) <= |s| - 1
  {
    if |s| > 1 {
      CrossingsBound(s[..|s| - 1]);
    }
  }

  /** With at least one sample the rate lies in [0, 1). */
  lemma RateBelowOne(s: seq<real>)
    requires |s| >= 1
    ensures 0.0 <= Crossings(s) as real / |s| as real < 1.0
  {
    CrossingsBound(s);
  }

  /** A signal that never goes negative never crosses. */
  lemma {:induction false} NonNegativeNoCrossings(s: seq<real>)
    requires forall i :: 0 <= i < |s| ==> s[i] >= 0.0
    ensures Crossings(s) == 0
  {
    if |s| > 1 {
      NonNegativeNoCrossings(s[..|s| - 1]);
    }
  }

  /** The count is even exactly when the first and last samples share a category. */
  lemma {:induction false} CrossingsParity(s: seq<real>)
    requires |s| >= 1
    ensures Crossings(s) % 2 == 0 <==> Negative(s[0]) == Negative(s[|s| - 1])
  {
    if |s| > 1 {
      var t := s[..|s| - 1];
      CrossingsParity(t);
      assert t[0] == s[0] && t[|t| - 1] == s[|s| - 2];
    }
  }
}
