// The Monte Carlo aggregate: repeated independent runs of the pipeline
// (elevation, filter, statistics) folded into a running mean, so that only
// the running aggregate and the current run are kept.
module MonteCarlo {
  import opened Elevation
  import opened Stratigraphy
  import opened Statistics

  datatype Option<T> = None | Some(value: T)

  /** The number of extra runs folded into the aggregate. */
  const RunCount: nat := 100

  /** The weighted step `(s * (i - 1) + x) / i` lies between `s` and `x`. */
  lemma WeightedBetween(s: real, x: real, i: nat)
    requires i >= 1
    ensures s <= x ==> s <= (s * ((i - 1) as real) + x) / (i as real) <= x
    ensures x <= s ==> x <= (s * ((i - 1) as real) + x) / (i as real) <= s
    ensures i == 1 ==> (s * ((i - 1) as real) + x) / (i as real) == x
  {
    var n := i as real;
    var r := (s * ((i - 1) as real) + x) / n;
    if i == 1 {
      assert (i - 1) as real == 0.0 && n == 1.0;
    }
    assert r * n == s * (n - 1.0) + x;
    assert s * n - r * n == s - x;
    assert x * n - r * n == (x - s) * (n - 1.0);
  }

  /** The running-mean step `(s * (i - 1) + x) / i` for one statistic: the
      first step returns `x` itself, and every step lies between `s` and `x`. */
  function Weighted(s: real, x: real, i: nat): (r: real)
    requires i >= 1
    ensures i == 1 ==> r == x
    ensures s <= x ==> s <= r <= x
    ensures x <= s ==> x <= r <= s
  {
    WeightedBetween(s, x, i);
    (s * ((i - 1) as real) + x) / (i as real)
  }

  /** One step of the running mean for run `i` (counted from 1), applied to
      each statistic. The first step returns the run itself, whatever the
      value folded into; every step lands between the previous mean and the
      new run. */
  function Update(summ: RunStats, x: RunStats, i: nat): (r: RunStats)
    requires i >= 1
    ensures i == 1 ==> r == x
    ensures summ.finalElevation <= x.finalElevation ==>
              summ.finalElevation <= r.finalElevation <= x.finalElevation
    ensures x.finalElevation <= summ.finalElevation ==>
              x.finalElevation <= r.finalElevation <= summ.finalElevation
    ensures summ.fractionPreserved <= x.fractionPreserved ==>
              summ.fractionPreserved <= r.fractionPreserved <= x.fractionPreserved
    ensures x.fractionPreserved <= summ.fractionPreserved ==>
              x.fractionPreserved <= r.fractionPreserved <= summ.fractionPreserved
  {
    RunStats(Weighted(summ.finalElevation, x.finalElevation, i),
             Weighted(summ.fractionPreserved, x.fractionPreserved, i))
  }

  /** The component-wise sum of a sequence of run statistics. */
  function Sum(xs: seq<RunStats>): RunStats
    decreases |xs|
  {
    if xs == [] then RunStats(0.0, 0.0)
    else
      var s := Sum(xs[..|xs| - 1]);
      var x := xs[|xs| - 1];
      RunStats(s.finalElevation + x.finalElevation, s.fractionPreserved + x.fractionPreserved)
  }

  /** The plain arithmetic mean of a non-empty sequence of run statistics. */
  function Mean(xs: seq<RunStats>): RunStats
    requires |xs| >= 1
  {
    RunStats(Sum(xs).finalElevation / (|xs| as real), Sum(xs).fractionPreserved / (|xs| as real))
  }

  /** The statistics of one run driven by the increments `jumps`. */
  function RunOf(jumps: seq<real>, horizon: nat): RunStats
    requires horizon >= 1
  {
    ComputeStatistics(Walk(jumps), Filter(Walk(jumps)), horizon)
  }

  /** The statistics of each run, in run order. */
  function RunsOf(runs: seq<seq<real>>, horizon: nat): seq<RunStats>
    requires horizon >= 1
  {
    seq(|runs|, k requires 0 <= k < |runs| => RunOf(runs[k], horizon))
  }

  /** Folding one more run into the mean of the runs so far gives the mean of
      all of them; for the first run the value being folded into, whatever it
      is, is multiplied by 0 and drops out. */
  lemma UpdateExtendsMean(seed: RunStats, xs: seq<RunStats>, x: RunStats)
    ensures Update(if xs == [] then seed else Mean(xs), x, |xs| + 1) == Mean(xs + [x])
  {
    var n := |xs|;
    var ys := xs + [x];
    assert ys[..n] == xs;
    if n >= 1 {
      var s := Sum(xs);
      var m := Mean(xs);
      assert Sum(ys) == RunStats(s.finalElevation + x.finalElevation, s.fractionPreserved + x.fractionPreserved);
      assert m.finalElevation * (n as real) == s.finalElevation;
      assert m.fractionPreserved * (n as real) == s.fractionPreserved;
    }
  }

  /** The loop step of the fold: after folding run `i`, the running value is
      the mean of the first `i` runs. */
  lemma FoldStep(seed: RunStats, summ: RunStats, xs: seq<RunStats>, i: nat)
    requires 1 <= i <= |xs|
    requires summ == if i == 1 then seed else Mean(xs[..i - 1])
    ensures Update(summ, xs[i - 1], i) == Mean(xs[..i])
  {
    UpdateExtendsMean(seed, xs[..i - 1], xs[i - 1]);
    assert xs[..i - 1] + [xs[i - 1]] == xs[..i];
  }

  /** A batch of one run averages to that run's own statistics. */
  lemma BatchOfOne(runs: seq<seq<real>>, horizon: nat)
    requires horizon >= 1 && |runs| == 1
    ensures Mean(RunsOf(runs, horizon)) == RunOf(runs[0], horizon)
  {
    var xs := RunsOf(runs, horizon);
    assert xs[..|xs| - 1] == [];
    assert Sum(xs) == RunStats(0.0 + xs[0].finalElevation, 0.0 + xs[0].fractionPreserved);
  }

  /** The sum of preserved fractions that all lie in [0, 1] lies in [0, n]. */
  lemma {:induction false} SumFractionBounds(xs: seq<RunStats>)
    requires forall k :: 0 <= k < |xs| ==> 0.0 <= xs[k].fractionPreserved <= 1.0
    ensures 0.0 <= Sum(xs).fractionPreserved <= |xs| as real
    decreases |xs|
  {
    if xs != [] {
      SumFractionBounds(xs[..|xs| - 1]);
    }
  }

  /** The mean of preserved fractions that all lie in [0, 1] lies in [0, 1]. */
  lemma MeanFractionBounds(xs: seq<RunStats>)
    requires |xs| >= 1
    requires forall k :: 0 <= k < |xs| ==> 0.0 <= xs[k].fractionPreserved <= 1.0
    ensures 0.0 <= Mean(xs).fractionPreserved <= 1.0
  {
    SumFractionBounds(xs);
    var s := Sum(xs).fractionPreserved;
    var n := |xs| as real;
    assert (s / n) * n == s;
  }

  /** The preserved fraction of one run lies in [0, 1]. */
  lemma RunFractionBounds(jumps: seq<real>, horizon: nat)
    requires horizon >= 1 && |jumps| == horizon
    ensures 0.0 <= RunOf(jumps, horizon).fractionPreserved <= 1.0
  {
    StatisticsOfFilter(Walk(jumps), horizon);
  }

  /** The aggregate preserved fraction of runs over the horizon lies in [0, 1]. */
  lemma AggregateFractionBounds(runs: seq<seq<real>>, horizon: nat)
    requires horizon >= 1 && |runs| >= 1
    requires forall k :: 0 <= k < |runs| ==> |runs[k]| == horizon
    ensures 0.0 <= Mean(RunsOf(runs, horizon)).fractionPreserved <= 1.0
  {
    var xs := RunsOf(runs, horizon);
    forall k | 0 <= k < |xs| ensures 0.0 <= xs[k].fractionPreserved <= 1.0 {
      RunFractionBounds(runs[k], horizon);
    }
    MeanFractionBounds(xs);
  }

  /** One run of the pipeline: generate the elevation record from the
      increments, filter it, and reduce both to their statistics. */
  method SingleRun(horizon: nat, jumps: seq<real>) returns (stats: RunStats)
    requires horizon >= 1 && |jumps| == horizon
    ensures stats == RunOf(jumps, horizon)
  {
    var elev := GenerateElevation(horizon + 1, jumps);
    var strat := GenerateStratigraphy(horizon + 1, elev);
    stats := ComputeStatistics(elev[..], strat[..], horizon);
  }

  /** Runs the pipeline once per entry of `runs` (the increments of that run)
      and folds each run's statistics into the running mean, starting from
      `seed`; the result is the plain mean of the runs' statistics. */
  method RunBatch(horizon: nat, seed: RunStats, runs: seq<seq<real>>) returns (summ: RunStats)
    requires horizon >= 1
    requires forall k :: 0 <= k < |runs| ==> |runs[k]| == horizon
    ensures summ == if runs == [] then seed else Mean(RunsOf(runs, horizon))
  {
    ghost var done := RunsOf(runs, horizon);
    summ := seed;
    for i := 1 to |runs| + 1
      invariant summ == if i == 1 then seed else Mean(done[..i - 1])
    {
      var istats := SingleRun(horizon, runs[i - 1]);
      FoldStep(seed, summ, done, i);
      summ := Update(summ, istats, i);
    }
    assert runs != [] ==> done[..|runs|] == done;
  }

  /** One call of `run_model` (the Run button, or a slider when sliders are
      connected): a baseline run whose series and statistics are shown,
      and, when aggregate statistics are requested, the running mean over
      `RunCount` further runs seeded with the baseline's statistics. `None`
      stands for the not-a-number placeholder shown otherwise. */
  method RunModel(horizon: nat, jumps: seq<real>, aggregate: bool, runs: seq<seq<real>>)
    returns (elev: array<real>, strat: array<real>, stats: RunStats, summ: Option<RunStats>)
    requires horizon >= 1 && |jumps| == horizon
    requires aggregate ==> |runs| == RunCount
    requires aggregate ==> forall k :: 0 <= k < |runs| ==> |runs[k]| == horizon
    ensures fresh(elev) && fresh(strat)
    ensures elev[..] == Walk(jumps) && strat[..] == Filter(Walk(jumps))
    ensures stats == RunOf(jumps, horizon)
    ensures summ == if aggregate then Some(Mean(RunsOf(runs, horizon))) else None
  {
    elev := GenerateElevation(horizon + 1, jumps);
    strat := GenerateStratigraphy(horizon + 1, elev);
    stats := ComputeStatistics(elev[..], strat[..], horizon);
    summ := None;
    if aggregate {
      var mean := RunBatch(horizon, stats, runs);
      summ := Some(mean);
    }
  }
}
