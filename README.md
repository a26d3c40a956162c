# Stratigraphic filter toy, modelled in Dafny

The stratigraphic filter toy simulates a one-dimensional sedimentary column.
A random walk with drift gives the surface elevation at each of `nt = T + 1`
time steps (the time axis runs from 0 to the horizon `T` in steps of 1). A
stratigraphic filter, the backward running minimum, then gives the part of that
record that survives in the rock: a later, lower surface erodes everything
above it. Each run is reduced to two statistics: the final elevation, and the
fraction of time preserved. The fraction counts the times where the elevation
survives unchanged, leaves out the terminal point (which always survives), and
divides by `T`. On request, 100 further runs are folded into a running mean of
these statistics.

The model has four modules, one per stage of the pipeline:

- `Elevation` (`elevation.dfy`): the walk as a specification function `Walk`,
  and `GenerateElevation`, which fills an array forward as the source does.
- `Stratigraphy` (`stratigraphy.dfy`): the filter as a specification function
  `Filter`, and `GenerateStratigraphy`, which fills an array from `nt - 1`
  backward to 0. Lemmas prove the filter's properties: the recurrence, never
  above the elevation, non-decreasing, suffix minimum, when a time is
  preserved, the fixed points, idempotence.
- `Statistics` (`statistics.dfy`): the preserved count and `ComputeStatistics`,
  with bounds and the zero-spread scenarios.
- `MonteCarlo` (`monte_carlo.dfy`): the incremental-mean loop of `run_model`
  (`RunBatch`), one run of the pipeline (`SingleRun`), and one call of
  `run_model` (`RunModel`: the Run button, or a slider when sliders are
  connected). `RunBatch` and `RunModel` are proved against the plain
  arithmetic mean `Mean`; `SingleRun` against `RunOf`, the statistics of `Walk`
  and its `Filter`.

Both program files, `stratigraphic_filter_toy.py` and
`src/stratigraphic_filter_toy.py`, contain character-for-character the same
`generate_elevation` and `generate_stratigraphy` (lines 31-50 in each). They
are modelled once. Rows below cite whichever file states the property.
Only the root file has `compute_statistics` and the 100-run aggregate.

Modelling choices:

- Numbers are Dafny `real`, which is exact. The filter uses only `min` and
  copies, so exact equality `elev[j] == strat[j]` means the same thing as in
  floating point.
- The increments drawn by `np.random.normal(mu, sigma, 1)` are parameters:
  `jumps[j - 1]` is the increment drawn at step `j`, so `|jumps| == nt - 1`. A
  run of the batch is the sequence of its increments. With `sigma = 0` every
  increment is `mu`. The lemmas with a constant increment cover that case.
- Both generators read `nt` from the global time axis, not from their argument.
  The model takes `nt` as a parameter and requires `elev.Length == nt` and
  `nt >= 1`. Without `nt >= 1`, `elev[0]` and `strat[-1]` would raise.
- `T` is the module constant `time`: 50 in the root file, 20 in `src/`. The
  model takes it as the parameter `horizon >= 1`, with `nt = horizon + 1`.
- At `i = 1` the source's accumulator `summ_stats` is still the Python
  list `stats`. `stats * 0` is then the empty list and `[] + istats` is
  `istats`, so the first step yields `istats / 1`. The element-wise formula
  `(summ * 0 + istats) / 1` gives the same value. `Update` uses the formula at
  every step. Either way the baseline `stats` drops out.
- With the aggregate not requested, the source shows NaN, from the array
  `np.tile(np.nan, …)`. `RunModel` returns `None` for it.
- On a falling straight line (`mu = -1`, no spread) the code erodes every
  time except the last down to the final elevation, so the preserved fraction
  is 0, not 1; `Statistics.FallingLineErodedToEnd` proves this.

## Model

| member | source | states |
|---|---|---|
| Elevation.Walk | stratigraphic_filter_toy.py:32-34 | the elevation record has one point more than there are increments and starts at 0 |
| Elevation.WalkStep | stratigraphic_filter_toy.py:35-38 | every later point is the point before it plus the increment drawn at that step |
| Elevation.ConstantDriftWalk | src/stratigraphic_filter_toy.py:35-38 | with every increment equal to `mu` (zero spread) the record is the line `elev[j] == mu * j` |
| Elevation.GenerateElevation | stratigraphic_filter_toy.py:31-40 | a fresh array of length `nt` equal to the walk of the increments: `elev[0] == 0` and `elev[j] == elev[j-1] + jumps[j-1]` |
| Stratigraphy.Min | stratigraphic_filter_toy.py:48 | the minimum of the pair is one of the two and at most both |
| Stratigraphy.Filter | stratigraphic_filter_toy.py:44-48 | the preserved record has length `nt` and its last point is the last elevation |
| Stratigraphy.FilterStep | stratigraphic_filter_toy.py:47-48 | for every `j < nt-1`, `strat[j] == min(elev[j], strat[j+1])` |
| Stratigraphy.FilterBelow | stratigraphic_filter_toy.py:47-48 | the preserved record never lies above the elevation: `strat[j] <= elev[j]` |
| Stratigraphy.FilterNondecreasing | src/stratigraphic_filter_toy.py:47-48 | the preserved record is non-decreasing forward in time |
| Stratigraphy.SuffixMinAt | stratigraphic_filter_toy.py:47-48 | `strat[j]` is an element of `elev[j..]` and no larger than any of them |
| Stratigraphy.FilterIsSuffixMin | src/stratigraphic_filter_toy.py:47-48 | every preserved value is the minimum of the elevations from that time to the end |
| Stratigraphy.FilterFirstIsGlobalMin | src/stratigraphic_filter_toy.py:47-48 | `strat[0]` is the minimum of the whole elevation record |
| Stratigraphy.FilteredWalkStartsAtOrBelowZero | stratigraphic_filter_toy.py:34-48 | the first preserved value of a run is at most `elev[0] == 0` |
| Stratigraphy.PreservedIff | stratigraphic_filter_toy.py:47-48 | `strat[j] == elev[j]` exactly when `elev[j] <= elev[k]` for every `k >= j` |
| Stratigraphy.FilterFixedIff | src/stratigraphic_filter_toy.py:47-48 | the filter returns the record unchanged exactly when the record is non-decreasing |
| Stratigraphy.FilterIdempotent | src/stratigraphic_filter_toy.py:43-50 | filtering the preserved record returns it unchanged |
| Stratigraphy.GenerateStratigraphy | stratigraphic_filter_toy.py:43-50 | a fresh array equal to the filter of the elevation array: the last point is kept and `strat[j] == min(elev[j], strat[j+1])` for every earlier `j` |
| Statistics.PreservedCount | stratigraphic_filter_toy.py:56 | the number of equal points `sum(elev == strat)` is at most the record length |
| Statistics.CountIsCardinality | stratigraphic_filter_toy.py:56 | the count is the size of the set of times where the two records agree |
| Statistics.CountAllIff | stratigraphic_filter_toy.py:56 | every time is counted exactly when the two records are equal |
| Statistics.ComputeStatistics | stratigraphic_filter_toy.py:53-57 | the first statistic is the last elevation `elev[-1]`; the fraction is the number of agreeing times, less one, divided by `T` |
| Statistics.StatisticsBounds | stratigraphic_filter_toy.py:56 | with the last point preserved and `nt == T + 1`, the count lies in `[1, T+1]` and the fraction in `[0, 1]` |
| Statistics.StatisticsExtremes | stratigraphic_filter_toy.py:56 | the fraction is 1 exactly when all `T+1` times are counted, and 0 exactly when only one is |
| Statistics.StatisticsOfFilter | stratigraphic_filter_toy.py:46-56 | for a record and its filter: the first statistic is `strat[nt-1]` (equal to `elev[nt-1]`), the count is at least 1, the fraction lies in `[0, 1]` |
| Statistics.FullyPreservedIff | stratigraphic_filter_toy.py:47-56 | the fraction is 1 exactly when the elevation record never falls |
| Statistics.FallingLineFilter | stratigraphic_filter_toy.py:47-56 | on a falling straight line every preserved value is the final elevation and only the final time is counted |
| Statistics.RisingLineFullyPreserved | stratigraphic_filter_toy.py:35-56 | zero spread with drift `mu >= 0`: the preserved record is the elevation line and the fraction is 1 |
| Statistics.FallingLineErodedToEnd | stratigraphic_filter_toy.py:35-56 | zero spread with drift `mu < 0`: every preserved value is `mu * T` and the fraction is 0 |
| MonteCarlo.Weighted | stratigraphic_filter_toy.py:80 | one statistic's step `(s*(i-1) + x)/i`: at `i = 1` it is `x` whatever `s` is, and at every `i` it lies between `s` and `x` |
| MonteCarlo.Update | stratigraphic_filter_toy.py:80 | the first update returns the run itself, whatever it is folded into; every update lies between the previous value and the new run, for each statistic (its link to `Mean` is `UpdateExtendsMean`) |
| MonteCarlo.UpdateExtendsMean | stratigraphic_filter_toy.py:75-80 | one update `(summ*(i-1) + x)/i` turns the mean of `i-1` runs into the mean of `i`; at `i = 1` the seed drops out |
| MonteCarlo.FoldStep | stratigraphic_filter_toy.py:76-80 | after folding run `i` the accumulator is the mean of the first `i` runs |
| MonteCarlo.BatchOfOne | stratigraphic_filter_toy.py:75-80 | a batch of a single run averages to that run's own statistics |
| MonteCarlo.MeanFractionBounds | stratigraphic_filter_toy.py:76-80 | the mean of fractions in `[0, 1]` lies in `[0, 1]` |
| MonteCarlo.RunFractionBounds | stratigraphic_filter_toy.py:77-79 | one run's preserved fraction lies in `[0, 1]` |
| MonteCarlo.AggregateFractionBounds | stratigraphic_filter_toy.py:74-80 | the aggregate preserved fraction lies in `[0, 1]` |
| MonteCarlo.SingleRun | stratigraphic_filter_toy.py:77-79 | generate, filter and reduce one run; the result is the statistics of the walk of its increments and its filter |
| MonteCarlo.RunBatch | stratigraphic_filter_toy.py:74-80 | the fold over the runs returns the plain arithmetic mean of their statistics, whatever the seed; with no runs it returns the seed |
| MonteCarlo.RunModel | stratigraphic_filter_toy.py:68-80 | the baseline series and statistics of one run, and the mean over `RunCount` (100) further runs when the aggregate is requested, otherwise the placeholder `None` |

## Left out

- Random sampling (`np.random.normal`): a foreign stochastic call. The increments are inputs to the model. A negative spread, which numpy would reject, cannot arise because the spread slider is bounded below by 0.
- The time axis `np.linspace(0, T, T+1/dt)`: floating-point numpy. The model takes `nt = T + 1` directly. It does not model whether a float count is accepted by a given numpy version.
- Floating-point rounding in the walk, the fold and the division by `T`: arithmetic is exact over `real`.
- `T = 0`: the horizon is the constant 50 (20 in `src/`), so the division by zero of the fraction is never reached. The model requires `horizon >= 1`.
- All matplotlib and widget code: figure setup, plot lines, sliders, check buttons, the Run and Reset buttons, `slider_wrapper`, `reset`, table cell updates and redraws. This is presentation only.
- `utils.MinMaxSlider` and `utils.format_table_number`: `utils` is not part of this model.
- `run_model` in `src/stratigraphic_filter_toy.py` (lines 53-73) computes only the baseline elevation and its filter, which `GenerateElevation` and `GenerateStratigraphy` cover. It has no statistics.
- A mean-bed-thickness statistic: neither program file computes one.
