// The per-run statistics: the final elevation and the fraction of time
// preserved in the rock record.
module Statistics {
  import opened Elevation
  import opened Stratigraphy

  /** The statistics of one run, in the order the table lists them. */
  datatype RunStats = RunStats(finalElevation: real, fractionPreserved: real)

  /** How many times the preserved record equals the elevation record. */
  function PreservedCount(elev: seq<real>, strat: seq<real>): (n: nat)
    requires |elev| == |strat|
    ensures n <= |elev|
    decreases |elev|
  {
    if elev == [] then 0
    else
      var k := |elev| - 1;
      PreservedCount(elev[..k], strat[..k]) + (if elev[k] == strat[k] then 1 else 0)
  }

  /** The times at which the elevation survives unchanged in the record. */
  ghost function PreservedTimes(elev: seq<real>, strat: seq<real>): set<int>
    requires |elev| == |strat|
  {
    set j | 0 <= j < |elev| && elev[j] == strat[j]
  }

  /** The statistics of one run: the last elevation, and the number of
      preserved times other than the last one, divided by the horizon. */
  function ComputeStatistics(elev: seq<real>, strat: seq<real>, horizon: nat): (r: RunStats)
    requires |elev| == |strat| >= 1 && horizon >= 1
    ensures r.finalElevation == elev[|elev| - 1]
    ensures r.fractionPreserved == (|PreservedTimes(elev, strat)| - 1) as real / horizon as real
  {
    CountIsCardinality(elev, strat);
    RunStats(elev[|elev| - 1], (PreservedCount(elev, strat) - 1) as real / horizon as real)
  }

  /** A count between 0 and a positive horizon, divided by it, lies in [0, 1]. */
  lemma RatioBounds(c: int, horizon: nat)
    requires horizon >= 1 && 0 <= c <= horizon
    ensures 0.0 <= c as real / horizon as real <= 1.0
  {
    assert (c as real / horizon as real) * horizon as real == c as real;
  }

  /** A count divided by a positive horizon is 1 exactly at the horizon and
      0 exactly at 0. */
  lemma RatioExtremes(c: int, horizon: nat)
    requires horizon >= 1
    ensures c as real / horizon as real == 1.0 <==> c == horizon
    ensures c as real / horizon as real == 0.0 <==> c == 0
  {
    assert (c as real / horizon as real) * horizon as real == c as real;
  }

  /** The count is the number of preserved times. */
  lemma {:induction false} CountIsCardinality(elev: seq<real>, strat: seq<real>)
    requires |elev| == |strat|
    ensures PreservedCount(elev, strat) == |PreservedTimes(elev, strat)|
    decreases |elev|
  {
    if elev != [] {
      var k := |elev| - 1;
      CountIsCardinality(elev[..k], strat[..k]);
      var before := PreservedTimes(elev[..k], strat[..k]);
      assert k !in before;
      if elev[k] == strat[k] {
        assert PreservedTimes(elev, strat) == before + {k};
      } else {
        assert PreservedTimes(elev, strat) == before;
      }
    }
  }

  /** Every time is counted exactly when the two records agree everywhere. */
  lemma {:induction false} CountAllIff(elev: seq<real>, strat: seq<real>)
    requires |elev| == |strat|
    ensures PreservedCount(elev, strat) == |elev| <==> elev == strat
    decreases |elev|
  {
    if elev != [] {
      var k := |elev| - 1;
      CountAllIff(elev[..k], strat[..k]);
      assert elev == elev[..k] + [elev[k]];
      assert strat == strat[..k] + [strat[k]];
    }
  }

  /** When the last point is preserved, the count is at least 1 and at most
      the number of points, so the preserved fraction lies in [0, 1]. */
  lemma StatisticsBounds(elev: seq<real>, strat: seq<real>, horizon: nat)
    requires horizon >= 1 && |elev| == |strat| == horizon + 1
    requires elev[horizon] == strat[horizon]
    ensures 1 <= PreservedCount(elev, strat) <= horizon + 1
    ensures 0.0 <= ComputeStatistics(elev, strat, horizon).fractionPreserved <= 1.0
  {
    RatioBounds(PreservedCount(elev, strat) - 1, horizon);
  }

  /** The preserved fraction is 1 exactly when the two records agree
      everywhere, and 0 exactly when only one time is counted. */
  lemma StatisticsExtremes(elev: seq<real>, strat: seq<real>, horizon: nat)
    requires horizon >= 1 && |elev| == |strat| >= 1
    ensures ComputeStatistics(elev, strat, horizon).fractionPreserved == 1.0
            <==> PreservedCount(elev, strat) == horizon + 1
    ensures ComputeStatistics(elev, strat, horizon).fractionPreserved == 0.0
            <==> PreservedCount(elev, strat) == 1
  {
    RatioExtremes(PreservedCount(elev, strat) - 1, horizon);
  }

  /** For a record and its filtered record over a horizon of T steps: the
      first statistic is the preserved last point, the terminal point is
      always counted, and the preserved fraction lies in [0, 1]. */
  lemma StatisticsOfFilter(elev: seq<real>, horizon: nat)
    requires horizon >= 1 && |elev| == horizon + 1
    ensures ComputeStatistics(elev, Filter(elev), horizon).finalElevation == Filter(elev)[horizon]
    ensures 1 <= PreservedCount(elev, Filter(elev)) <= horizon + 1
    ensures 0.0 <= ComputeStatistics(elev, Filter(elev), horizon).fractionPreserved <= 1.0
  {
    var strat := Filter(elev);
    assert strat[horizon] == elev[horizon];
    StatisticsBounds(elev, strat, horizon);
  }

  /** The whole record is preserved (fraction 1) exactly when the elevation
      never falls. */
  lemma FullyPreservedIff(elev: seq<real>, horizon: nat)
    requires horizon >= 1 && |elev| == horizon + 1
    ensures ComputeStatistics(elev, Filter(elev), horizon).fractionPreserved == 1.0 <==> Nondecreasing(elev)
  {
    StatisticsExtremes(elev, Filter(elev), horizon);
    CountAllIff(elev, Filter(elev));
    FilterFixedIff(elev);
  }

  /** A straight line of slope `mu >= 0` through the origin never falls. */
  lemma RisingLineNondecreasing(elev: seq<real>, mu: real)
    requires mu >= 0.0
    requires forall j :: 0 <= j < |elev| ==> elev[j] == mu * (j as real)
    ensures Nondecreasing(elev)
  {
    forall j, k | 0 <= j <= k < |elev| ensures elev[j] <= elev[k] {
      assert mu * (k as real) - mu * (j as real) == mu * ((k - j) as real);
    }
  }

  /** A falling line is lower at later times. */
  lemma FallingLineOrder(mu: real, a: int, b: int)
    requires mu < 0.0 && a <= b
    ensures mu * (b as real) <= mu * (a as real)
    ensures a < b ==> mu * (b as real) < mu * (a as real)
  {
    assert mu * (a as real) - mu * (b as real) == mu * ((a - b) as real);
  }

  /** On a straight line of slope `mu < 0`, the minimum of any suffix is the
      final elevation. */
  lemma FallingLineSuffixMinAt(elev: seq<real>, mu: real, m: real, j: nat)
    requires j < |elev| && mu < 0.0
    requires forall k :: 0 <= k < |elev| ==> elev[k] == mu * (k as real)
    requires IsMinOf(m, elev[j..])
    ensures m == elev[|elev| - 1]
  {
    var n := |elev| - 1;
    var i :| 0 <= i < |elev[j..]| && elev[j..][i] == m;
    assert elev[j..][i] == elev[j + i];
    FallingLineOrder(mu, j + i, n);
    assert m >= elev[n];
    assert elev[j..][n - j] == elev[n];
    assert elev[n] in elev[j..];
    assert m <= elev[n];
  }

  /** On a straight line of slope `mu < 0`, a record of suffix minima is
      constant at the final elevation, and it meets the line only there. */
  lemma FallingLineSuffixMins(elev: seq<real>, strat: seq<real>, mu: real)
    requires |elev| == |strat| >= 1 && mu < 0.0
    requires forall j :: 0 <= j < |elev| ==> elev[j] == mu * (j as real)
    requires forall j :: 0 <= j < |elev| ==> IsMinOf(strat[j], elev[j..])
    ensures forall j :: 0 <= j < |elev| ==> strat[j] == elev[|elev| - 1]
    ensures PreservedTimes(elev, strat) == {|elev| - 1}
  {
    var n := |elev| - 1;
    forall j | 0 <= j <= n ensures strat[j] == elev[n] {
      FallingLineSuffixMinAt(elev, mu, strat[j], j);
    }
    forall j | 0 <= j < n ensures elev[j] != strat[j] {
      FallingLineOrder(mu, j, n);
    }
  }

  /** On a straight line of slope `mu < 0` every preserved value is the final
      elevation, and only the final time is preserved. */
  lemma FallingLineFilter(elev: seq<real>, mu: real)
    requires |elev| >= 1 && mu < 0.0
    requires forall j :: 0 <= j < |elev| ==> elev[j] == mu * (j as real)
    ensures forall j :: 0 <= j < |elev| ==> Filter(elev)[j] == elev[|elev| - 1]
    ensures PreservedCount(elev, Filter(elev)) == 1
  {
    FilterIsSuffixMin(elev);
    FallingLineSuffixMins(elev, Filter(elev), mu);
    CountIsCardinality(elev, Filter(elev));
  }

  /** With no spread and a drift that does not fall, nothing is eroded: the
      preserved record is the elevation line and the fraction is 1. */
  lemma RisingLineFullyPreserved(jumps: seq<real>, mu: real)
    requires |jumps| >= 1 && mu >= 0.0
    requires forall i :: 0 <= i < |jumps| ==> jumps[i] == mu
    ensures Filter(Walk(jumps)) == Walk(jumps)
    ensures ComputeStatistics(Walk(jumps), Filter(Walk(jumps)), |jumps|).fractionPreserved == 1.0
  {
    ConstantDriftWalk(jumps, mu);
    RisingLineNondecreasing(Walk(jumps), mu);
    FilterFixedIff(Walk(jumps));
    FullyPreservedIff(Walk(jumps), |jumps|);
  }

  /** With no spread and a falling drift, every time but the last is eroded
      down to the final elevation `mu * T`, so the preserved fraction is 0. */
  lemma FallingLineErodedToEnd(jumps: seq<real>, mu: real)
    requires |jumps| >= 1 && mu < 0.0
    requires forall i :: 0 <= i < |jumps| ==> jumps[i] == mu
    ensures forall j :: 0 <= j < |jumps| + 1 ==> Filter(Walk(jumps))[j] == mu * (|jumps| as real)
    ensures ComputeStatistics(Walk(jumps), Filter(Walk(jumps)), |jumps|).fractionPreserved == 0.0
  {
    var elev := Walk(jumps);
    ConstantDriftWalk(jumps, mu);
    assert elev[|jumps|] == mu * (|jumps| as real);
    FallingLineFilter(elev, mu);
    StatisticsExtremes(elev, Filter(elev), |jumps|);
  }
}
