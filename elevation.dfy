// The raw elevation record of one run: a discrete random walk with drift.
// The random increments are drawn outside the model and passed in, so that
// only the recurrence that accumulates them is modelled.
module Elevation {

  /** The walk that accumulates `jumps` from a start at 0: one point more
      than there are increments. */
  function Walk(jumps: seq<real>): (w: seq<real>)
    ensures |w| == |jumps| + 1
    ensures w[0] == 0.0
    decreases |jumps|
  {
    if jumps == [] then [0.0]
    else
      var prev := Walk(jumps[..|jumps| - 1]);
      prev + [prev[|prev| - 1] + jumps[|jumps| - 1]]
  }

  /** Dropping the last increments only drops the last points of the walk. */
  lemma {:induction false} WalkPrefix(jumps: seq<real>, k: nat)
    requires k <= |jumps|
    ensures Walk(jumps)[..k + 1] == Walk(jumps[..k])
    decreases |jumps|
  {
    if k < |jumps| {
      var init := jumps[..|jumps| - 1];
      assert Walk(jumps)[..|jumps|] == Walk(init);
      WalkPrefix(init, k);
      assert init[..k] == jumps[..k];
    } else {
      assert jumps[..k] == jumps;
    }
  }

  /** Every later point is the point before it plus that step's increment. */
  lemma WalkStep(jumps: seq<real>)
    ensures forall j :: 1 <= j < |Walk(jumps)| ==> Walk(jumps)[j] == Walk(jumps)[j - 1] + jumps[j - 1]
  {
    forall j | 1 <= j < |Walk(jumps)|
      ensures Walk(jumps)[j] == Walk(jumps)[j - 1] + jumps[j - 1]
    {
      WalkPrefix(jumps, j);
      var init := jumps[..j];
      assert init[..j - 1] == init[..|init| - 1];
      assert Walk(init)[j] == Walk(init)[j - 1] + init[j - 1];
      assert Walk(jumps)[j] == Walk(jumps)[..j + 1][j];
      assert Walk(jumps)[j - 1] == Walk(jumps)[..j + 1][j - 1];
    }
  }

  /** With no spread every increment equals the drift `mu`, and the walk is
      the straight line of slope `mu` through the origin. */
  lemma {:induction false} ConstantDriftWalk(jumps: seq<real>, mu: real)
    requires forall i :: 0 <= i < |jumps| ==> jumps[i] == mu
    ensures forall j :: 0 <= j < |Walk(jumps)| ==> Walk(jumps)[j] == mu * (j as real)
    decreases |jumps|
  {
    if jumps != [] {
      var init := jumps[..|jumps| - 1];
      ConstantDriftWalk(init, mu);
      var n := |jumps|;
      assert Walk(jumps)[n] == mu * ((n - 1) as real) + mu;
    }
  }

  /** Fills a fresh array of `nt` elevations: the first is 0 and each later
      one adds increment `jumps[j - 1]` to its predecessor. */
  method GenerateElevation(nt: nat, jumps: seq<real>) returns (elev: array<real>)
    requires nt >= 1 && |jumps| == nt - 1
    ensures fresh(elev) && elev.Length == nt
    ensures elev[..] == Walk(jumps)
    ensures elev[0] == 0.0
    ensures forall j :: 1 <= j < nt ==> elev[j] == elev[j - 1] + jumps[j - 1]
  {
    elev := new real[nt](_ => 0.0);
    elev[0] := 0.0;
    for j := 1 to nt
      invariant elev[..j] == Walk(jumps[..j - 1])
    {
      assert jumps[..j][..j - 1] == jumps[..j - 1];
      elev[j] := elev[j - 1] + jumps[j - 1];
      assert elev[..j + 1] == elev[..j] + [elev[j]];
    }
    assert elev[..] == elev[..nt];
    assert jumps[..nt - 1] == jumps;
    WalkStep(jumps);
  }
}
