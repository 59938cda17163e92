/**
 * Gradient clipping: every gradient is pushed into the magnitude band
 * [gmin, gmax], keeping its sign; the rewrite happens in place.
 */
module Clip {
  function Abs(x: real): real
  {
    if x < 0.0 then -x else x
  }

  /**
   * The clipped value of one gradient. Above gmax it becomes +-gmax, below
   * gmin it becomes +-gmin, where the sign is + only for a strictly
   * positive gradient (so 0 becomes -gmin); in between it is kept.
   */
  function ClipValue(g: real, gmin: real, gmax: real): (r: real)
    ensures 0.0 <= gmin <= gmax ==> gmin <= Abs(r) <= gmax
    ensures gmin <= Abs(g) <= gmax ==> r == g
    ensures 0.0 < gmin <= gmax ==> (r > 0.0 <==> g > 0.0) && r != 0.0
    ensures 0.0 < gmin <= gmax && g == 0.0 ==> r == -gmin
  {
    var m := Abs(g);
    if m > gmax then (if g > 0.0 then gmax else -gmax)
    else if m < gmin then (if g > 0.0 then gmin else -gmin)
    else g
  }

  /** Clipping twice is clipping once. */
  lemma ClipIdempotent(g: real, gmin: real, gmax: real)
    requires 0.0 <= gmin <= gmax
    ensures ClipValue(ClipValue(g, gmin, gmax), gmin, gmax) == ClipValue(g, gmin, gmax)
  {
  }

  /** clip_gradients: rewrites every element of the M x N array in place. */
  method ClipGradients(ga: array2<real>, gmin: real, gmax: real)
    modifies ga
    ensures forall i, j :: 0 <= i < ga.Length0 && 0 <= j < ga.Length1 ==>
      ga[i, j] == ClipValue(old(ga[i, j]), gmin, gmax)
  {
    var i := 0;
    while i < ga.Length0
      invariant 0 <= i <= ga.Length0
      invariant forall i', j :: 0 <= i' < i && 0 <= j < ga.Length1 ==>
        ga[i', j] == ClipValue(old(ga[i', j]), gmin, gmax)
      invariant forall i', j :: i <= i' < ga.Length0 && 0 <= j < ga.Length1 ==>
        ga[i', j] == old(ga[i', j])
    {
      var j := 0;
      while j < ga.Length1
        invariant 0 <= j <= ga.Length1
        invariant forall i', j' :: 0 <= i' < i && 0 <= j' < ga.Length1 ==>
          ga[i', j'] == ClipValue(old(ga[i', j']), gmin, gmax)
        invariant forall j' :: 0 <= j' < j ==> ga[i, j'] == ClipValue(old(ga[i, j']), gmin, gmax)
        invariant forall i', j' :: i <= i' < ga.Length0 && 0 <= j' < ga.Length1 && (i' > i || j' >= j) ==>
          ga[i', j'] == old(ga[i', j'])
      {
        var g := ga[i, j];
        var m := Abs(g);
        if m > gmax {
          g := if g > 0.0 then gmax else -gmax;
        } else if m < gmin {
          g := if g > 0.0 then gmin else -gmin;
        }
        ga[i, j] := g;
        j := j + 1;
      }
      i := i + 1;
    }
  }
}
