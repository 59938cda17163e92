/**
 * The in-place shuffle the data loaders share (src/data/batch.c and
 * src/data/prepdata.c): three passes, each walking i from the last index
 * down to 1 and swapping entry i with the entry (int) urand(0, 1 + i)
 * picks. That index is Random.ShuffleIndex, which maps the draw 1.0 to i
 * and so stays in [0, i]; the expression as written can reach i + 1
 * (Random.DrawOnePastEnd). The passes are specified by the function Pass
 * over the generator seed, and every pass is a permutation.
 */
module Shuffling {
  import opened Random

  /** s with the entries at i and j exchanged. */
  function Swap<T>(s: seq<T>, i: int, j: int): (r: seq<T>)
    requires 0 <= i < |s| && 0 <= j < |s|
    ensures |r| == |s| && r[i] == s[j] && r[j] == s[i]
    ensures forall k :: 0 <= k < |s| && k != i && k != j ==> r[k] == s[k]
  {
    s[i := s[j]][j := s[i]]
  }

  /** Exchanging two entries keeps the multiset of entries. */
  lemma SwapPermutes<T>(s: seq<T>, i: int, j: int)
    requires 0 <= i < |s| && 0 <= j < |s|
    ensures multiset(Swap(s, i, j)) == multiset(s)
  {
    var t := s[i := s[j]];
    assert multiset(t) == multiset(s) - multiset{s[i]} + multiset{s[j]};
  }

  /**
   * One pass, from index i down to 1, starting from any generator state:
   * each step draws the next seed and swaps entry i with entry ShuffleIndex.
   * The result is the shuffled sequence and the final seed.
   */
  function Pass<T>(s: seq<T>, seed: int, i: int): (r: (seq<T>, int))
    requires 0 <= seed <= MODULUS && i < |s|
    ensures |r.0| == |s| && 0 <= r.1 <= MODULUS
    decreases i
  {
    if i <= 0 then (s, seed)
    else
      var next := SchrageStep(seed);
      Pass(Swap(s, i, ShuffleIndex(next, i)), next, i - 1)
  }

  /** The first step of a pass: draw, swap entry i, and go on from i - 1. */
  lemma PassStep<T>(s: seq<T>, seed: int, i: int)
    requires 0 <= seed <= MODULUS && 0 < i < |s|
    ensures var next := SchrageStep(seed);
      Pass(s, seed, i) == Pass(Swap(s, i, ShuffleIndex(next, i)), next, i - 1)
  {
  }

  /** A pass rearranges the entries and neither adds nor drops any. */
  lemma {:induction false} PassPermutes<T>(s: seq<T>, seed: int, i: int)
    requires 0 <= seed <= MODULUS && i < |s|
    ensures multiset(Pass(s, seed, i).0) == multiset(s)
    decreases i
  {
    if i > 0 {
      var next := SchrageStep(seed);
      var j := ShuffleIndex(next, i);
      SwapPermutes(s, i, j);
      PassPermutes(Swap(s, i, j), next, i - 1);
    }
  }

  /** The first k passes, each starting where the previous one left the seed. */
  function Passes<T>(s: seq<T>, seed: int, k: nat): (r: (seq<T>, int))
    requires 0 <= seed <= MODULUS
    ensures |r.0| == |s| && 0 <= r.1 <= MODULUS
  {
    if k == 0 then (s, seed)
    else
      var p := Passes(s, seed, k - 1);
      Pass(p.0, p.1, |s| - 1)
  }

  /** Any number of passes is a permutation. */
  lemma {:induction false} PassesPermute<T>(s: seq<T>, seed: int, k: nat)
    requires 0 <= seed <= MODULUS
    ensures multiset(Passes(s, seed, k).0) == multiset(s)
  {
    if k > 0 {
      PassesPermute(s, seed, k - 1);
      var p := Passes(s, seed, k - 1);
      PassPermutes(p.0, p.1, |s| - 1);
      assert Passes(s, seed, k) == Pass(p.0, p.1, |s| - 1);
    }
  }

  /**
   * `(int) urand(0.0, 1.0 + i)`: the next draw of the generator as an
   * index in [0, i]. The draw 1.0 would give i + 1; the index is held at i.
   */
  method DrawIndex(rng: Lrng, i: nat) returns (j: int)
    requires rng.Valid()
    modifies rng
    ensures rng.Valid() && rng.seed == SchrageStep(old(rng.seed))
    ensures j == ShuffleIndex(rng.seed, i) && 0 <= j <= i
  {
    var u := rng.Urand(0.0, 1.0 + i as real);
    ShuffleIndexInRange(rng.seed, i);
    j := u.Floor;
    if j > i {
      j := i;
    }
  }

  /** One swap pass over a, as the inner loop of both loaders runs it. */
  method SwapPass<T>(a: array<T>, rng: Lrng)
    requires rng.Valid()
    modifies a, rng
    ensures rng.Valid()
    ensures (a[..], rng.seed) == Pass(old(a[..]), old(rng.seed), a.Length - 1)
  {
    ghost var goal := Pass(a[..], rng.seed, a.Length - 1);
    var i := a.Length - 1;
    while i > 0
      invariant i <= a.Length - 1 && rng.Valid()
      invariant Pass(a[..], rng.seed, i) == goal
    {
      ghost var a0, seed0 := a[..], rng.seed;
      var j := DrawIndex(rng, i);
      a[i], a[j] := a[j], a[i];
      assert a[..] == Swap(a0, i, j);
      PassStep(a0, seed0, i);
      i := i - 1;
    }
  }

  /** The three passes over a. */
  method Shuffle<T>(a: array<T>, rng: Lrng)
    requires rng.Valid()
    modifies a, rng
    ensures rng.Valid()
    ensures (a[..], rng.seed) == Passes(old(a[..]), old(rng.seed), 3)
    ensures multiset(a[..]) == multiset(old(a[..]))
  {
    ghost var s := a[..];
    var k := 0;
    while k < 3
      invariant 0 <= k <= 3 && rng.Valid()
      invariant (a[..], rng.seed) == Passes(s, old(rng.seed), k)
    {
      SwapPass(a, rng);
      k := k + 1;
    }
    PassesPermute(s, old(rng.seed), 3);
  }
}
