# mania-note-recorder: timing analysis core in Dafny

This project models the analysis core of an osu!mania replay monitor.
The monitor takes the chart's note times and the replay's scoring, one
key column at a time. From them it derives:

- the hit offset of every note pressed on time;
- the interval since the previous note of the same column;
- per interval peak, the mean and spread of the offsets.

It then fits the three-parameter "softplus" reaction model as an
interval function with parameters rate `r`, threshold `t_min` and
asymptote `y`. It does this in two ways:

- a closed-form two-point estimate;
- a damped finite-difference descent with a learned rate per parameter.
  A parameter's rate halves after two sign flips in a row of its
  gradient.

The project also models:

- the graph panels of the monitor application, as the data each panel
  computes;
- the two simulation scripts that produce synthetic training data;
- the application's bookkeeping of listed maps, which decodes the play
  key `hex(hash + mods)`;
- the best-rate ("nps") table and its descending ranking.

Modules follow the source files:

| module | file | source |
|---|---|---|
| `Seqs`, `Sorting` | seqs.dfy, sorting.dfy | numpy helpers used throughout: masks, `np.diff`, `np.unique`, `np.argsort`, mean and variance |
| `Frequency` | frequency.dfy | `__get_freq_hist` and `__get_freq` |
| `Correlation` | correlation.dfy | `__get_hit_data`, `__get_miss_data` and the region selection of `__update_hit_distr_graphs` |
| `WindowStats` | window_stats.dfy | `__get_stats_distr`, in the monitor and in both simulation scripts |
| `Descent` | descent.dfy | `__softplus_func`, `__calc_err`, `__is_opposite_sign` and `__solve2` |
| `Anchors` | anchors.dfy | the two-point estimates: `__solve` (monitor and simulation), `HitOffsetIntervalGraph.__plot_model`, and the sweep line of simulate_intervals_0.py |
| `Simulation` | simulation.dfy | `__generate_replay_data` and the training rounds of both simulation scripts |
| `Records` | records.dfy | the score-data row and the note index `np.tile(np.arange(N/plays), plays)` |
| `NoteIntervalGraph` | note_interval.dfy | `_note_interval_graph.py` |
| `IntervalOffsetGraph` | interval_offset.dfy | `_interval_offset_graph.py` |
| `NoteOffsetProcGraph` | note_offset_proc.dfy | `_note_offset_proc_graph.py` |
| `NoteDistrGraph` | note_distr.dfy | `_note_distr_graph.py` |
| `HitOffsetInterval` | hit_offset_interval.dfy | `_hit_offset_interval_graph.py` |
| `Keys`, `NpsTable`, `MonitorApp` | keys.dfy, nps_table.dfy, monitor_app.dfy | `mania_monitor_app/__init__.py`: `__check_new_maps`, `__record_nps`, `__update_top_nps` |

Modelling choices:

- **Loops stay loops.**
  - The source's loops (`__get_freq_hist`, `__get_freq`, the column loops,
    the window loop, the descent loop, the buffer fill and the plot loops)
    are Dafny methods with `while` loops and invariants.
  - Each method is proved against a specification function.
  - Lemmas prove what the source promises about that function.
- **In-place updates stay in place.** These are arrays written in place:
  - the three-slot sign histories of the descent;
  - the `freq` array of `__get_freq_hist`;
  - the `interval_data` buffer of the note-interval graph.
- **State becomes classes.**
  - The application's state is the class `MonitorApp.ManiaMonitor`.
  - The simulation's `self.data` lists are the class
    `Simulation.TrainingSeries`.
  - The stored points of the interval graph are the class
    `HitOffsetInterval.HitOffsetIntervalGraph`.
- **Python errors become `Result` failures.** A path where the Python
  raises is a `Failure` the model returns:
  - `min` of an empty array;
  - `1000/nps` with `nps == 0`;
  - a ragged tile, a key outside the row's interval columns, a boolean
    mask of the wrong length;
  - `hashes.index` of an absent key;
  - the free variable `new_map_hash` read when the loop never ran;
  - `np.vectorize` on no keys, and `np.concatenate` of no columns.
- **NaN becomes an explicit value.** `np.mean` of an empty array is NaN.
  The model gives the undefined case its own value, such as
  `ModelCurve.Undefined` or `None`, and does not compute with it.
- **Numbers with Python semantics.** Integers are unbounded. The play
  key is built in `uint64`, so it is reduced modulo 2^64 (`Keys.KeyValue`).
  New keys are sorted by string order ("10" before "9"), as `np.setdiff1d`
  sorts hex strings.
- **Transcendental functions are parameters.** The normal density,
  `exp`, `log`, `sqrt` and `round(x, 2)` are parameters of the members
  that use them. The model states what the source computes around them.

In these places the code does something other than its names and
comments suggest; the model follows the code:

- **Damping can start at the second step.** The histories start as
  `np.zeros(3)` (mania_hitoffset_monitor.py:515-517), and
  `__is_opposite_sign` tests `a >= 0` (line 582), so zero counts as
  non-negative. A negative first gradient followed by a non-negative one
  therefore gives two sign flips at the second step
  (`Descent.SecondStepCanHalve`).
- **The zero-variance guard never skips.** `__get_stats_distr`
  (mania_hitoffset_monitor.py:449) compares the list `variances` with 0,
  not the new `std`, so it never skips a window (`WindowStats.StatsDistr`
  keeps every peak).
- **The window is `[p - 11, p + 11]`.** `half_window_width = 10`
  (mania_hitoffset_monitor.py:431) sets the window ends at `p ± 10`, and
  the mask at line 446 widens them by one more on each side, both ends
  included (`WindowStats.WindowSelects`,
  `WindowStats.WindowBoundaryExample`).
- **The selected key is the last key of the loop.** `__check_new_maps`
  assigns `new_map_hash` after the loop (mania_monitor_app/__init__.py:200-201),
  so it selects the last new key, not the first. With no new keys and no
  selection that name was never bound and it raises
  (`MonitorApp.ManiaMonitor.CheckNewMaps`).
- **A new key does not refresh the ranking.** `__record_nps` returns right
  after inserting a new key (mania_monitor_app/__init__.py:228-230), before
  `__update_top_nps` (`MonitorApp.ManiaMonitor.RecordNps`).

## Model

| member | source | states |
|---|---|---|
| `Frequency.FreqHist` | mania_hitoffset_monitor.py:465-473 | the loop over the distinct values writes, for every position, the number of earlier positions holding the same value |
| `Frequency.WriteRanks` | mania_hitoffset_monitor.py:469-471 | one pass of the loop writes ranks at the positions of its value and leaves every other position as it was |
| `Frequency.Ranks` | mania_hitoffset_monitor.py:465-473 | one rank per data point: the number of earlier points with the same value; `Frequency.FreqHist` is proved to compute it, and `RanksEnumerateOccurrences` and `RankBelowCount` state what the ranks are |
| `Frequency.RanksEnumerateOccurrences` | mania_hitoffset_monitor.py:465-473 | the k occurrences of a value get the ranks 0, 1, …, k-1 in order of position, each exactly once |
| `Frequency.RankBelowCount` | mania_hitoffset_monitor.py:465-473 | every rank is below the number of occurrences of its value |
| `Frequency.RanksExample` | mania_hitoffset_monitor.py:465-473 | [5,5,5,7,7] gets the ranks [0,1,2,0,1] |
| `Frequency.FreqCount` | mania_hitoffset_monitor.py:476-483 | the values are distinct and are exactly the values of the data, each paired with its number of occurrences |
| `Frequency.FreqCountsSumToLength` | mania_hitoffset_monitor.py:476-483 | the counts of the distinct values sum to the length of the data |
| `Correlation.ColumnIntervalsFromScored` | mania_hitoffset_monitor.py:269-272 | every interval kept for a column is the gap before a note that was scored with the kind asked for |
| `Correlation.ScoredGivesColumnInterval` | mania_hitoffset_monitor.py:269-272 | every scored note after the first of its column gives its gap as an interval |
| `Correlation.ColumnOffsetsMeaning` | mania_hitoffset_monitor.py:274-275 | one offset per hit press but the first, each the replay time minus the chart time of a hit press |
| `Correlation.ScoredNotesCount` | mania_hitoffset_monitor.py:266-272 | when the hit presses name distinct chart notes of the column, exactly as many chart notes are matched as there are hit presses |
| `Correlation.HitDataMismatchIff` | mania_hitoffset_monitor.py:283-286 | for a well-correlated column (distinct chart times, each hit press scoring a distinct chart note), the offsets and intervals differ in length exactly when the first chart note was not a hit while some hit exists |
| `Correlation.HitDataMismatchExample` | mania_hitoffset_monitor.py:271-286 | a column whose first note is missed and whose two later notes are hit gives two intervals but one offset |
| `Correlation.MismatchedColumnsMeaning` | mania_hitoffset_monitor.py:283-286 | a column is reported exactly when its offsets and intervals differ in length |
| `Correlation.AlignedColumnsAlignedData` | mania_hitoffset_monitor.py:278-288 | when no column is mismatched, the concatenated intervals and offsets have one length |
| `Correlation.HitData` | mania_hitoffset_monitor.py:252-288 | fails exactly when there are no columns, since nothing is concatenated; otherwise the concatenation over columns of intervals, offsets and timings, and the mismatched columns |
| `Correlation.MissData` | mania_hitoffset_monitor.py:291-319 | the same loop for misses: fails exactly when there are no columns, otherwise the concatenated intervals and replay timings |
| `Correlation.SelectRegion` | mania_hitoffset_monitor.py:375-413 | a mask of another length raises; otherwise the offsets in the region, their frequency ranks, and a model that is cleared for nothing selected or zero spread |
| `Correlation.SelectRegionMembers` | mania_hitoffset_monitor.py:379-380 | every offset paired with an interval inside the closed region is selected |
| `Correlation.SelectedInRegion` | mania_hitoffset_monitor.py:379-380 | every selected offset is paired with an interval inside the closed region |
| `WindowStats.WindowSelects` | mania_hitoffset_monitor.py:443-446 | an offset is in the window of peak p exactly when its interval lies in [p-11, p+11] |
| `WindowStats.WindowNonEmpty` | mania_hitoffset_monitor.py:446 | the window of an interval that occurs is never empty |
| `WindowStats.WindowBoundaryExample` | mania_hitoffset_monitor.py:443-446 | with peak 100 the intervals 89 and 111 are in the window and 88 and 112 are not |
| `WindowStats.FrequentPeaks` | mania_hitoffset_monitor.py:437-440 | the peaks are distinct and are exactly the intervals occurring at least 50 times |
| `WindowStats.CollectPeakStats` | mania_hitoffset_monitor.py:442-455 | fails exactly when there is a peak and the intervals and offsets differ in length (the boolean index raises); otherwise one statistic per peak: its center, the mean and the standard deviation of its window |
| `WindowStats.SortByPeak` | mania_hitoffset_monitor.py:461-462 | the statistics sorted by center, strictly increasing, as a permutation |
| `WindowStats.PeakStats` | mania_hitoffset_monitor.py:430-462 | fails exactly when some interval is frequent and the lengths differ; otherwise the statistics of the frequent peaks, sorted by strictly increasing center |
| `WindowStats.StatsDistr` | mania_hitoffset_monitor.py:430-462 | fails exactly when some interval occurs at least 50 times and the lengths differ; otherwise the centers are increasing and are exactly the intervals occurring at least 50 times, and each mean and deviation is that of its window |
| `WindowStats.SimStatsDistr` | simulate_intervals.py:162-186 | the same centers and means, without deviations |
| `Descent.Softplus` | mania_hitoffset_monitor.py:575-578 | one model value per interval: `softplus(lin) + y` below `lin = 100`, standing for `log(exp(lin) + 1)`, and `lin + y` from there on; `Descent.SoftplusShape` states its shape |
| `Descent.SoftplusShape` | mania_hitoffset_monitor.py:575-578 | a point with `lin >= 100` is `lin + y`; with a softplus above the identity no point falls below `lin + y`, and with a positive softplus every point is above `y` |
| `Descent.SimSoftplus` | simulate_intervals.py:248-251 | one model value per interval: `lse(lin, y)` below `lin = 100`, standing for `log(exp(lin) + exp(y))`, and the bare `lin` from there on; `Descent.SimSoftplusPassthrough` states that `y` is then ignored |
| `Descent.SimSoftplusPassthrough` | simulate_intervals.py:248-251 | a point with `lin >= 100` is `lin` itself, whatever `y` is |
| `Descent.CalcErr` | mania_hitoffset_monitor.py:570-572 | the sum of absolute differences between the stored means and the model at the stored `t_min`; `Descent.CalcErrMeaning` proves it non-negative and zero exactly on a perfect fit |
| `Descent.CalcErrMeaning` | mania_hitoffset_monitor.py:570-572 | the error is non-negative and is zero exactly when the curve meets every observed mean |
| `Descent.SimCalcErr` | simulate_intervals.py:243-245 | the same error over the simulation's model; `Descent.SimCalcErrNonNegative` proves it non-negative |
| `Descent.SimCalcErrNonNegative` | simulate_intervals.py:243-245 | the simulation's error is non-negative |
| `Descent.IsOppositeSign` | mania_hitoffset_monitor.py:581-582 | two gradients have opposite signs when exactly one is `>= 0`, so zero counts as positive; `Descent.DampHalvesIff` and `Descent.SecondStepCanHalve` state what that does to the damping |
| `Descent.Damp` | mania_hitoffset_monitor.py:532-554 | the history shifts by one and takes the new gradient first; the rate halves or keeps; the value steps by rate times gradient |
| `Descent.DampHalvesIff` | mania_hitoffset_monitor.py:532-537 | the rate halves exactly when the new, previous and oldest gradients flip sign twice in a row |
| `Descent.SameSignKeepsRate` | mania_hitoffset_monitor.py:536-537 | a gradient with the sign of the previous one keeps the rate |
| `Descent.Step` | mania_hitoffset_monitor.py:527-551 | one loop pass: the three forward differences at the old values, then `Descent.Damp` on each parameter; `Descent.Iterate` is proved to compute it |
| `Descent.Run` | mania_hitoffset_monitor.py:524-554 | the state after n loop passes; `Descent.Descend` is proved to end in it, and `RunRates` and `RunRatesBounded` bound its rates |
| `Descent.RunRates` | mania_hitoffset_monitor.py:524-554 | after any number of steps every rate is its start divided by a power of two |
| `Descent.RunRatesBounded` | mania_hitoffset_monitor.py:524-554 | rates never grow and stay positive |
| `Descent.FirstStepKeepsRates` | mania_hitoffset_monitor.py:515-549 | the first step never halves a rate |
| `Descent.SecondStepCanHalve` | mania_hitoffset_monitor.py:515-549 | a negative then non-negative gradient halves the rate at the second step |
| `Descent.DampInPlace` | mania_hitoffset_monitor.py:533-537 | the array history shifts in place and the new rate and value are those of `Damp` |
| `Descent.Iterate` | mania_hitoffset_monitor.py:527-554 | one pass of the loop body over the three arrays is one `Descent.Step` |
| `Descent.Descend` | mania_hitoffset_monitor.py:504-554 | the loop from (-0.5, 200, 0) with rates (0.01, 1, 1) ends in the state of `Run` after the given number of steps |
| `Descent.Solve2` | mania_hitoffset_monitor.py:504-567 | the parameters after 500 steps on the error of the stored series, and the printed error per point exactly when there are points |
| `Anchors.LeftmostFlat` | mania_hitoffset_monitor.py:490 | the least interval among points with mean in [0, 2), or none when there is none |
| `Anchors.MinNonNegative` | mania_hitoffset_monitor.py:491 | the least non-negative interval, or none |
| `Anchors.MaxOverNonNegative` | mania_hitoffset_monitor.py:492 | the greatest mean among points with non-negative interval, or none |
| `Anchors.Corners` | mania_hitoffset_monitor.py:490-492 | fails exactly when a `min` or `max` would be taken over nothing; otherwise gives the anchors |
| `Anchors.MonitorFit` | mania_hitoffset_monitor.py:494-495 | the monitor's line through the anchors: `t_min = p0x`, `y = 0`, undefined when the anchors share an interval; `Anchors.MonitorFitThrough` proves the line meets them |
| `Anchors.MonitorFitThrough` | mania_hitoffset_monitor.py:494-495 | the rate is undefined exactly when p0x == p1x; otherwise `t_min = p0x`, `y = 0`, and the line meets (p1x, p1y) |
| `Anchors.MonitorSolve` | mania_hitoffset_monitor.py:486-495 | raises exactly when an anchor region is empty, with that error; otherwise the fit through the anchors |
| `Anchors.FlatLevel` | simulate_intervals.py:214-219 | the mean and spread of the means in [-16, 16), none when there are none |
| `Anchors.SimFit` | simulate_intervals.py:224-233 | the simulation's line through the anchors moved by twice the flat band's deviation, undefined without a band; `Anchors.SimFitThrough` proves the line meets them |
| `Anchors.SimFitThrough` | simulate_intervals.py:224-233 | no flat level gives no fit; a fit has `t_min = p0x + 2σ`, `y = p0y` and meets (p1x, p1y - 2σ) |
| `Anchors.SimSolve` | simulate_intervals.py:210-233 | raises exactly when the monitor's estimate does; otherwise the shifted fit on the flat level |
| `Anchors.GraphFit` | mania_monitor_app/_hit_offset_interval_graph.py:174-183 | the graph's line through the anchors at the flat level and the ±2σ band lines; `Anchors.GraphFitThrough` proves where they lie |
| `Anchors.GraphFitThrough` | mania_monitor_app/_hit_offset_interval_graph.py:174-183 | the ±2σ lines lie 2σ either side of the flat level; a fit has `t_min = p0x`, `y = p0y` and meets (p1x, p1y) |
| `Anchors.GraphSolve` | mania_monitor_app/_hit_offset_interval_graph.py:130-201 | raises exactly when the monitor's estimate does, with no lines; otherwise the fit and lines of the flat level |
| `Anchors.WindowMeans` | simulate_intervals_0.py:205-212 | defined exactly when some point has `t_min` in [-2, 2] and some in [98, 102]; the two mean `t_min` lie in those windows |
| `Anchors.LineThroughPoints` | simulate_intervals_0.py:214-215 | the line `slope*t + b0` passes through both mean points |
| `Anchors.TwoPointLine` | simulate_intervals_0.py:204-215 | the printed line passes through both window means, or is undefined |
| `Simulation.MeanOffset` | simulate_intervals.py:120-124 | the expected offset of an interval: 0 from `t_min` up, `gain*(t_min - interval)` below it; `MeanOffsetShape` and `MeanOffsetSlope` state its shape |
| `Simulation.MeanOffsetShape` | simulate_intervals.py:120-124 | the expected offset is zero from `t_min` on and positive below it |
| `Simulation.MeanOffsetSlope` | simulate_intervals.py:120-124 | below `t_min` the expected offset grows by the gain per millisecond of shortening |
| `Simulation.GenerateReplayData` | simulate_intervals.py:116-128 | every offset is its expected offset plus sigma times its normal draw |
| `Simulation.PrefixSums` | simulate_intervals.py:32 | `np.cumsum`: one running total per interval; `Simulation.PrefixSumsMeaning` states what the totals are |
| `Simulation.PrefixSumsMeaning` | simulate_intervals.py:32 | each hit timing is the sum of the intervals up to it, and timings never decrease for non-negative intervals |
| `Simulation.TMinSweepMeaning` | simulate_intervals_0.py:30 | the sweep is 0, 5, …, 100 |
| `Simulation.TrainingSeries.constructor` | simulate_intervals.py:21-24 | both series start empty |
| `Simulation.TrainingSeries.Extend` | simulate_intervals.py:199-200 | the centers and means are appended, in step |
| `Simulation.TrainingSeries.ExtendFiltered` | simulate_intervals_0.py:199-200 | the means of centers below 5 are appended, each with the swept `t_min` |
| `Simulation.TrainingSeries.SimulateRound` | simulate_intervals.py:29-37 | one round: offsets from the model; the centers strictly increasing and exactly the frequent intervals, appended with their window means; then the estimate over the grown series |
| `Simulation.TrainingSeries.SweepRound` | simulate_intervals_0.py:29-37 | one sweep round: the window centers are strictly increasing and exactly the frequent intervals, each mean is that of its window, the series grows by the means of the windows centred below 5, each against the swept `t_min`, and the line is that of the grown series |
| `Records.NoteIndices` | mania_monitor_app/_note_offset_proc_graph.py:61-65 | fails exactly when there are no plays or the rows do not split evenly among the plays; otherwise one index per row |
| `Records.NoteIndicesMod` | mania_monitor_app/_note_offset_proc_graph.py:64-65 | the index of row i is i mod the notes per play |
| `Records.OffsetModel` | mania_monitor_app/_note_distr_graph.py:100-118 | undefined exactly for no offsets; a drawn curve has their mean, a non-zero spread and their number as scale |
| `Records.ModelClearedIffConstant` | mania_monitor_app/_note_distr_graph.py:108-112 | for some offsets the model is cleared exactly when all offsets are equal |
| `NoteIntervalGraph.LatestPresses` | mania_monitor_app/_note_interval_graph.py:45-49 | exactly the hit and missed presses of the latest play, in order |
| `NoteIntervalGraph.Columns` | mania_monitor_app/_note_interval_graph.py:56 | the distinct columns, increasing |
| `NoteIntervalGraph.ColumnRows` | mania_monitor_app/_note_interval_graph.py:64 | a row is kept exactly when it is a row of the data in that column, as often as the column occurs |
| `NoteIntervalGraph.ColumnBlock` | mania_monitor_app/_note_interval_graph.py:64-74 | one row per gap of the column: the gap, the column, and the offset and kind of the later note |
| `NoteIntervalGraph.BufferSize` | mania_monitor_app/_note_interval_graph.py:55-57 | the blocks together have length rows minus columns, the size of the buffer |
| `NoteIntervalGraph.WriteBlock` | mania_monitor_app/_note_interval_graph.py:71-74 | the block is written at the cursor and nothing else changes |
| `NoteIntervalGraph.WriteColumn` | mania_monitor_app/_note_interval_graph.py:63-77 | one pass writes the next column's block and advances the cursor by its length |
| `NoteIntervalGraph.BuildBuffer` | mania_monitor_app/_note_interval_graph.py:55-77 | the filled buffer is the concatenation of the column blocks and the cursor ends at its end |
| `NoteIntervalGraph.HistogramValues` | mania_monitor_app/_note_interval_graph.py:80-87 | the bins are increasing and are exactly the intervals that occur |
| `NoteIntervalGraph.HistogramCounts` | mania_monitor_app/_note_interval_graph.py:80-87 | each height is the number of occurrences of its bin |
| `NoteIntervalGraph.HistogramMeaning` | mania_monitor_app/_note_interval_graph.py:80-87 | both of the above |
| `NoteIntervalGraph.HistogramLast` | mania_monitor_app/_note_interval_graph.py:86-91 | the last bin is the greatest interval |
| `NoteIntervalGraph.Plot` | mania_monitor_app/_note_interval_graph.py:80-91 | the histogram of the buffer's intervals and the view limit 100 past its last bin |
| `NoteIntervalGraph.PlotNoteIntervals` | mania_monitor_app/_note_interval_graph.py:43-97 | no rows, a negative interval or no intervals raise; otherwise the filled buffer and its plot |
| `IntervalOffsetGraph.HitRows` | mania_monitor_app/_interval_offset_graph.py:40-41 | exactly the hit presses of the buffer |
| `IntervalOffsetGraph.Scatter` | mania_monitor_app/_interval_offset_graph.py:39-43 | one (interval, offset) point per hit press |
| `IntervalOffsetGraph.Near` | mania_monitor_app/_interval_offset_graph.py:52 | a row is selected exactly when its interval is within 1 of u |
| `IntervalOffsetGraph.NearOffsetsMeaning` | mania_monitor_app/_interval_offset_graph.py:52-53 | the window holds exactly the offsets of the rows within 1, and is not empty for an interval that occurs |
| `IntervalOffsetGraph.PlotModel` | mania_monitor_app/_interval_offset_graph.py:46-53 | per distinct hit interval, increasing, the mean and twice the deviation of its window |
| `IntervalOffsetGraph.MeansWithinWindow` | mania_monitor_app/_interval_offset_graph.py:52 | each mean lies between the least and greatest offset of its window |
| `IntervalOffsetGraph.ErrorBarsSpan` | mania_monitor_app/_interval_offset_graph.py:53-55 | each bar reaches four deviations of its window to either side of the mean |
| `NoteOffsetProcGraph.HitsAt` | mania_monitor_app/_note_offset_proc_graph.py:70-74 | a row is selected exactly when it is a hit press at note index x |
| `NoteOffsetProcGraph.SelectionMeaning` | mania_monitor_app/_note_offset_proc_graph.py:74 | the selection is exactly the offsets of hit presses at index x |
| `NoteOffsetProcGraph.UnhitNoteKeepsZero` | mania_monitor_app/_note_offset_proc_graph.py:67-79 | a note never hit keeps mean and deviation zero |
| `NoteOffsetProcGraph.HitOffsetStats` | mania_monitor_app/_note_offset_proc_graph.py:67-79 | per note index, the mean and deviation of its hits, or zeros |
| `NoteOffsetProcGraph.PlotHitOffsets` | mania_monitor_app/_note_offset_proc_graph.py:54-93 | a tile failure raises; otherwise the statistics over the presses and the emitted means and doubled deviations |
| `NoteOffsetProcGraph.TiledSelection` | mania_monitor_app/_note_offset_proc_graph.py:61-74 | with tiled indices, an offset is selected for x exactly when some play hit note x |
| `NoteDistrGraph.Widen` | mania_monitor_app/_note_distr_graph.py:54-55 | a region with equal real ends is widened by one note; any other is kept |
| `NoteDistrGraph.FractionalRangeExample` | mania_monitor_app/_note_distr_graph.py:54-66 | the fractional regions (2.5, 3.0) and (2.2, 3.4) both select note 3 and no other |
| `NoteDistrGraph.InRange` | mania_monitor_app/_note_distr_graph.py:66 | a row is selected exactly when it is a hit press whose index lies in the real interval [start, end] |
| `NoteDistrGraph.SelectOffsets` | mania_monitor_app/_note_distr_graph.py:58-67 | a tile failure raises; otherwise the selected offsets |
| `NoteDistrGraph.SelectOffsetsMeaning` | mania_monitor_app/_note_distr_graph.py:62-67 | the offsets are exactly those of hit presses whose index lies in the widened real range |
| `NoteDistrGraph.PlotHitDistr` | mania_monitor_app/_note_distr_graph.py:50-77 | no range leaves the panel unchanged; otherwise the selected offsets, their frequency ranks and, when any, the view limit |
| `NoteDistrGraph.MaxRankIsTallestColumn` | mania_monitor_app/_note_distr_graph.py:71-77 | the highest rank is one below the count of the most frequent offset |
| `NoteDistrGraph.PlotStats` | mania_monitor_app/_note_distr_graph.py:80-118 | no range leaves the panel unchanged; otherwise the mean line, the ±2σ lines and the model of the selection |
| `NoteDistrGraph.StatsModel` | mania_monitor_app/_note_distr_graph.py:108-118 | the model is cleared exactly when all selected offsets are equal |
| `HitOffsetInterval.PlayTimestamps` | mania_monitor_app/_hit_offset_interval_graph.py:60 | the plays are the distinct timestamps, increasing |
| `HitOffsetInterval.WithinRange` | mania_monitor_app/_hit_offset_interval_graph.py:62-64 | exactly the plays in the closed range, in order |
| `HitOffsetInterval.Plays` | mania_monitor_app/_hit_offset_interval_graph.py:60-64 | all plays, or those within the given range |
| `HitOffsetInterval.NotePick` | mania_monitor_app/_hit_offset_interval_graph.py:79-80 | the interval of the row's own column, a negative column counted from the end, a column past the row's last interval column failing |
| `HitOffsetInterval.Picks` | mania_monitor_app/_hit_offset_interval_graph.py:79-80 | one pick per row, failing at the first failing row |
| `HitOffsetInterval.Kept` | mania_monitor_app/_hit_offset_interval_graph.py:84-93 | keeps the intervals, and their offsets, whose frequency rank is at least 100 |
| `HitOffsetInterval.KeptMeaning` | mania_monitor_app/_hit_offset_interval_graph.py:85-86 | an interval is kept exactly when it occurs more than 100 times |
| `HitOffsetInterval.PlayData` | mania_monitor_app/_hit_offset_interval_graph.py:73-93 | a play's finite hit intervals, their kept part and its peaks |
| `HitOffsetInterval.PeakMeans` | mania_monitor_app/_hit_offset_interval_graph.py:95-101 | one window mean per peak, none of an empty window |
| `HitOffsetInterval.AppendPeaks` | mania_monitor_app/_hit_offset_interval_graph.py:96-103 | appends each peak, its mean and the play's timestamp, in step |
| `HitOffsetInterval.PlayPeaksFrequent` | mania_monitor_app/_hit_offset_interval_graph.py:84-101 | every peak of a play is one of its kept intervals, so its window is not empty |
| `HitOffsetInterval.CollectPoints` | mania_monitor_app/_hit_offset_interval_graph.py:70-103 | the double loop gives the points over all plays, or the first failure |
| `HitOffsetInterval.PointsFailurePersists` | mania_monitor_app/_hit_offset_interval_graph.py:70-103 | a failure in one play ends the whole plot with that failure |
| `HitOffsetInterval.HitOffsetIntervalGraph.constructor` | mania_monitor_app/_hit_offset_interval_graph.py:123-124 | no points are stored yet |
| `HitOffsetInterval.HitOffsetIntervalGraph.PlotOffsetIntervals` | mania_monitor_app/_hit_offset_interval_graph.py:57-127 | stores the points, or raises for no points or a bad column and keeps the old ones |
| `HitOffsetInterval.HitOffsetIntervalGraph.PlotModel` | mania_monitor_app/_hit_offset_interval_graph.py:130-201 | the two-point estimate over the stored points |
| `Keys.KeyValue` | mania_monitor_app/__init__.py:169-172 | the sum of hash and mods, wrapped modulo 2^64 |
| `Keys.Hex` | mania_monitor_app/__init__.py:168 | lower-case hex digits with no leading zero, "0" for zero |
| `Keys.ParseHex` | mania_monitor_app/__init__.py:191 | a value exactly for a non-empty string of hex digits |
| `Keys.HexRoundTrip` | mania_monitor_app/__init__.py:168 | parsing the hex string of n gives n |
| `Keys.HexInjective` | mania_monitor_app/__init__.py:172-173 | distinct keys have distinct hex strings |
| `Keys.KeyDecode` | mania_monitor_app/__init__.py:177-179 | the last four digits parse to `k mod 16^4`; the rest is the hex of `k div 16^4` when k ≥ 16^4 and empty otherwise |
| `Keys.ModsLabel` | mania_monitor_app/__init__.py:189-193 | the mods suffix built from bits 0 and 1; `Keys.ModsLabelMeaning` states each of its four cases |
| `Keys.ModsLabelMeaning` | mania_monitor_app/__init__.py:189-193 | "+DT" for bit 0, "+HT" for bit 1, both in that order, empty otherwise |
| `Keys.LastComponent` | mania_monitor_app/__init__.py:196 | the text after the last '/' |
| `Keys.StrLessIsStrictTotal` | mania_monitor_app/__init__.py:173 | the string order `np.setdiff1d` sorts by is a strict total order |
| `Keys.NewKeys` | mania_monitor_app/__init__.py:172-173 | the hex keys of the data not yet listed, distinct and in string order |
| `MonitorApp.MapLabel` | mania_monitor_app/__init__.py:178-196 | the map list text of a new key: the key when no map matches its map part, otherwise the map file's name and the mods suffix; `MonitorApp.MapLabelOfKey` states it in terms of the key's value |
| `MonitorApp.MapLabelOfKey` | mania_monitor_app/__init__.py:178-196 | an unknown map is listed by its key; a known one by its file name and mods label |
| `MonitorApp.Labels` | mania_monitor_app/__init__.py:176-198 | one label per key, in order |
| `MonitorApp.NewKeysFacts` | mania_monitor_app/__init__.py:172-176 | the new keys are hex strings, distinct and not listed, so listing them keeps the listed keys distinct |
| `MonitorApp.AppendKeys` | mania_monitor_app/__init__.py:176-198 | the loop appends every key to the listed keys and its label to the items |
| `MonitorApp.ListNewKeys` | mania_monitor_app/__init__.py:172-198 | computes the new keys and appends them with their labels |
| `MonitorApp.SelectedKey` | mania_monitor_app/__init__.py:225 | no selection or a non-hex selection raises; otherwise its value |
| `MonitorApp.SelectedKeyOfKey` | mania_monitor_app/__init__.py:225 | every listed key parses back to its play key |
| `MonitorApp.Rounded` | mania_monitor_app/__init__.py:243 | the rounded rate of each entry, in table order |
| `MonitorApp.ManiaMonitor.constructor` | mania_monitor_app/__init__.py:64-68 | no listed maps, no selection, an empty table and list |
| `MonitorApp.ManiaMonitor.CheckNewMaps` | mania_monitor_app/__init__.py:166-203 | data with no rows raises and changes nothing; otherwise lists the new keys and labels, answers whether any was added, and selects the last new key when none is selected, raising with no selection and no new keys |
| `MonitorApp.ManiaMonitor.UpdateTopNps` | mania_monitor_app/__init__.py:239-259 | the list is the descending ranking of the rounded rates; the highlighted row is the selected key's rank, or the call raises |
| `MonitorApp.ManiaMonitor.RecordNps` | mania_monitor_app/__init__.py:216-236 | a zero rate or a bad selection raises and changes nothing; otherwise the table records the rate and the ranking is rebuilt only for a known key |
| `NpsTable.Find` | mania_monitor_app/__init__.py:226 | the first entry for a key, or none exactly when no entry has it |
| `NpsTable.Record` | mania_monitor_app/__init__.py:226-234 | the table after `__record_nps`: a new key appended with its rate, a known key raised to a better rate; `RecordKeepsBest` and `RecordKeepsOthers` state the outcome |
| `NpsTable.RecordKeepsBest` | mania_monitor_app/__init__.py:226-234 | the key has one entry afterwards, holding the new rate for a new key and the better of old and new otherwise |
| `NpsTable.RecordKeepsOthers` | mania_monitor_app/__init__.py:228-234 | no other entry changes and no stored rate decreases |
| `NpsTable.DescendingOrder` | mania_monitor_app/__init__.py:247 | each position once, rates non-increasing, equal rates later position first |
| `NpsTable.Ranked` | mania_monitor_app/__init__.py:247-252 | the rates in the order of the descending argsort, one per entry; `NpsTable.RankedMeaning` proves them non-increasing and exactly the stored rates |
| `NpsTable.RankedMeaning` | mania_monitor_app/__init__.py:250-252 | the listed rates are non-increasing and are exactly the stored rates |
| `NpsTable.RankedFirstIsBest` | mania_monitor_app/__init__.py:247-252 | the top row is the highest rate |
| `NpsTable.RankOf` | mania_monitor_app/__init__.py:255-256 | the row of an entry lists that entry's rate |
| `NpsTable.RankOfCounts` | mania_monitor_app/__init__.py:247-256 | one entry is above another exactly when its rate is higher, or equal at a later position |

## Left out

- The Qt user interface is not modelled: docks, widgets, colours, symbol sizes, regions as widgets, and signals other than their payload. The view limits are kept only where they are part of what a member computes.
- File, database and network I/O are not modelled: replay and chart loading, `tinydb` and `__get_files`. Map lookups in the `maps` table are a parameter `lookup`. The `nps` table is a sequence in insertion order and starts empty.
- The random draws of `__generate_map_data` and `np.random.normal` are parameters: the drawn intervals, and standard normal values `z`.
- The normal density (`__normal_distr`, `Utils.normal_distr`), `exp`, `log`, `sqrt` and `round(x, 2)` are parameters. Floating point is real arithmetic.
- `__multiple_replace`, `__tick`, `__plot_offset_data`, `__handle_new_replay_qt`, `__map_list_click_event` and `TappingRateEstimator` are not modelled. They handle text, waiting and widgets, which are outside the analysis core.
- The printed messages are not modelled. This covers the `is_definite` wording of `__record_nps` and the estimates printed by the solvers. The mismatch report of `__get_hit_data` is returned as the list of mismatched columns.
- Descent.Solve2: the drawing of the fitted curve inside the loop is not modelled. It does not change the state.
- Descent.Softplus: the in-place overwrite of `lin` is written as a sequence function. It computes the same values.
- NoteIntervalGraph.PlotNoteIntervals: the `astype(int)` truncation is not modelled, because the intervals are integer milliseconds from the start.
- Keys.ParseHex: reads lower-case digits only, which is all `hex()` produces. Python's `int(s, 16)` also accepts upper case, signs and `0x`.
- WindowStats.SortByPeak: `np.argsort` ties are not modelled, because the centers are distinct.
- NpsTable.DescendingOrder: the order of equal rates follows a stable ascending sort reversed. numpy's default quicksort does not promise this.
- IntervalOffsetGraph.ErrorBars is not modelled on its own. Its own contract only places each mean inside its bar. `IntervalOffsetGraph.ErrorBarsSpan` states the exact span instead.
- Unbounded integers replace numpy's float64 array cells. Only the `uint64` play key wraps.
- `Utils.get_freq_hist`, which the note distribution view calls, is not part of this model. It is taken to compute `Frequency.Ranks`, the rank histogram of `__get_freq_hist`.
