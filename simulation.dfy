/** The two simulators, simulate_intervals.py and simulate_intervals_0.py:
    synthetic hit offsets whose mean grows linearly once the note interval
    drops below `t_min`, the windowed statistics of each round accumulated
    into a training series, and the fits made over that series.

    The random intervals and the standard-normal draws are inputs. */
module Simulation {
  import opened Seqs
  import WindowStats
  import Anchors

  /** The slope of the strain region in simulate_intervals.py. */
  const SimGain: real := 0.5
  /** The slope of the strain region in simulate_intervals_0.py. */
  const SweepGain: real := 1.0

  /** The deterministic mean of `__generate_replay_data`: 0 from `t_min` up,
      and `gain*(t_min - interval)` below it. */
  function MeanOffset(interval: int, tMin: real, gain: real): real
  {
    if interval as real >= tMin then 0.0 else gain * (tMin - interval as real)
  }

  /** With a positive gain the mean offset is never negative, and it is 0
      exactly from `t_min` up. */
  lemma MeanOffsetShape(interval: int, tMin: real, gain: real)
    requires gain > 0.0
    ensures MeanOffset(interval, tMin, gain) >= 0.0
    ensures MeanOffset(interval, tMin, gain) == 0.0 <==> interval as real >= tMin
  {
    if interval as real < tMin {
      assert tMin - interval as real > 0.0;
      assert gain * (tMin - interval as real) > 0.0;
    }
  }

  /** Below `t_min`, one millisecond less of interval adds `gain` to the
      mean offset. */
  lemma MeanOffsetSlope(interval: int, tMin: real, gain: real)
    requires (interval + 1) as real < tMin
    ensures MeanOffset(interval, tMin, gain) - MeanOffset(interval + 1, tMin, gain) == gain
  {
  }

  /** `__generate_replay_data`: `hit_offsets[i] = normal(offset, sigma)`
      written into a zeroed array, the draw being `offset + sigma*z[i]`. */
  method GenerateReplayData(intervals: seq<int>, sigma: real, tMin: real, gain: real, z: seq<real>)
    returns (offsets: seq<real>)
    requires |z| == |intervals|
    ensures |offsets| == |intervals|
    ensures forall i :: 0 <= i < |intervals| ==> offsets[i] == MeanOffset(intervals[i], tMin, gain) + sigma * z[i]
  {
    var hitOffsets := new real[|intervals|](_ => 0.0);
    var offset := 0.0;
    for i := 0 to |intervals|
      invariant forall j :: 0 <= j < i ==> hitOffsets[j] == MeanOffset(intervals[j], tMin, gain) + sigma * z[j]
    {
      if intervals[i] as real >= tMin {
        offset := 0.0;
      } else {
        offset := gain * (tMin - intervals[i] as real);
      }
      hitOffsets[i] := offset + sigma * z[i];
    }
    offsets := hitOffsets[..];
  }

  function IntSum(s: seq<int>): int
  {
    if s == [] then 0 else IntSum(s[..|s| - 1]) + s[|s| - 1]
  }

  /** `np.cumsum`. */
  function PrefixSums(s: seq<int>): (p: seq<int>)
    ensures |p| == |s|
  {
    if s == [] then [] else PrefixSums(s[..|s| - 1]) + [IntSum(s)]
  }

  /** Each running total sums the prefix up to its position. */
  lemma {:induction false} PrefixSumsAt(s: seq<int>)
    ensures forall i :: 0 <= i < |s| ==> PrefixSums(s)[i] == IntSum(s[..i + 1])
  {
    if s != [] {
      var n := |s| - 1;
      PrefixSumsAt(s[..n]);
      assert s[..n + 1] == s;
      forall i | 0 <= i < n ensures PrefixSums(s)[i] == IntSum(s[..i + 1]) {
        assert s[..n][..i + 1] == s[..i + 1];
      }
    }
  }

  /** The hit timings are the running totals of the intervals: the first is
      the first interval, consecutive timings differ by the interval between
      them, and with non-negative intervals they never decrease. */
  lemma {:induction false} PrefixSumsMeaning(s: seq<int>)
    ensures forall i :: 0 <= i < |s| ==> PrefixSums(s)[i] == IntSum(s[..i + 1])
    ensures |s| > 0 ==> PrefixSums(s)[0] == s[0]
    ensures forall i :: 0 < i < |s| ==> PrefixSums(s)[i] - PrefixSums(s)[i - 1] == s[i]
    ensures (forall i :: 0 <= i < |s| ==> s[i] >= 0) ==>
      forall i, j :: 0 <= i <= j < |s| ==> PrefixSums(s)[i] <= PrefixSums(s)[j]
  {
    PrefixSumsAt(s);
    if s != [] {
      assert s[..1] == [s[0]] && [s[0]][..0] == [];
    }
    forall i | 0 < i < |s| ensures PrefixSums(s)[i] - PrefixSums(s)[i - 1] == s[i] {
      assert s[..i + 1][..i] == s[..i];
    }
    if forall i :: 0 <= i < |s| ==> s[i] >= 0 {
      forall i, j | 0 <= i <= j < |s| ensures PrefixSums(s)[i] <= PrefixSums(s)[j] {
        SumsIncrease(s, i, j);
      }
    }
  }

  lemma {:induction false} SumsIncrease(s: seq<int>, i: nat, j: nat)
    requires i <= j < |s|
    requires forall k :: 0 <= k < |s| ==> s[k] >= 0
    requires forall k :: 0 <= k < |s| ==> PrefixSums(s)[k] == IntSum(s[..k + 1])
    ensures PrefixSums(s)[i] <= PrefixSums(s)[j]
  {
    if i < j {
      SumsIncrease(s, i, j - 1);
      assert s[..j + 1][..j] == s[..j];
    }
  }

  /** `range(0, 105, 5)`: the values of `t_min` swept by simulate_intervals_0.py. */
  function TMinSweep(): (r: seq<int>)
    ensures |r| == 21
  {
    seq(21, i requires 0 <= i < 21 => 5 * i)
  }

  /** The sweep runs in steps of 5 from 0 to 100, taking every multiple of 5
      in between. */
  lemma TMinSweepMeaning()
    ensures TMinSweep()[0] == 0 && TMinSweep()[20] == 100
    ensures forall i :: 0 < i < 21 ==> TMinSweep()[i] - TMinSweep()[i - 1] == 5
    ensures forall k :: 0 <= k <= 20 ==> 5 * k in TMinSweep()
  {
    forall k | 0 <= k <= 20 ensures 5 * k in TMinSweep() {
      assert TMinSweep()[k] == 5 * k;
    }
  }

  /** The accumulated `self.data` of a simulator: the window centres (or, in
      simulate_intervals_0.py, the `t_min` of each round) and the window
      means, extended in lock-step. */
  class TrainingSeries {
    var distrT: seq<real>
    var meanH: seq<real>

    ghost predicate Valid()
      reads this
    {
      |distrT| == |meanH|
    }

    constructor ()
      ensures Valid() && distrT == [] && meanH == []
    {
      distrT, meanH := [], [];
    }

    /** `distr_t.extend(win_centers)` and `mean_h.extend(means)`. */
    method Extend(centers: seq<int>, means: seq<real>)
      requires Valid() && |centers| == |means|
      modifies this
      ensures Valid()
      ensures distrT == old(distrT) + Reals(centers) && meanH == old(meanH) + means
    {
      distrT := distrT + Reals(centers);
      meanH := meanH + means;
    }

    /** `mean_h.extend(means[win_centers < 5])` and `distr_t.extend` with
        `t_min` repeated as often. */
    method ExtendFiltered(centers: seq<int>, means: seq<real>, tMin: int)
      requires Valid() && |centers| == |means|
      modifies this
      ensures Valid()
      ensures meanH == old(meanH) + Mask(means, StrainFree(centers))
      ensures distrT == old(distrT) + seq(Count(StrainFree(centers), true), _ => tMin as real)
    {
      var kept := Mask(means, StrainFree(centers));
      meanH := meanH + kept;
      distrT := distrT + seq(|kept|, _ => tMin as real);
    }

    /** One round of simulate_intervals.py: the replay offsets of the drawn
        intervals around the 0.5 slope with sigma 25 and t_min 162.63, the
        windowed means over them added to the series, and the estimate of
        `__solve` over the whole series. */
    method SimulateRound(intervals: seq<int>, z: seq<real>, sqrt: real -> real)
      returns (offsets: seq<real>, centers: seq<int>, estimate: Anchors.Estimate)
      requires Valid() && |z| == |intervals|
      modifies this
      ensures Valid() && |offsets| == |intervals|
      ensures forall i :: 0 <= i < |intervals| ==> offsets[i] == MeanOffset(intervals[i], 162.63, SimGain) + 25.0 * z[i]
      ensures forall j, k :: 0 <= j < k < |centers| ==> centers[j] < centers[k]
      ensures forall p :: p in centers <==> Count(intervals, p) >= WindowStats.MinPeakCount
      ensures distrT == old(distrT) + Reals(centers) && |meanH| == |old(meanH)| + |centers|
      ensures forall k :: 0 <= k < |centers| ==>
        |WindowStats.Window(intervals, offsets, centers[k])| > 0 &&
        meanH[|old(meanH)| + k] == Mean(WindowStats.Window(intervals, offsets, centers[k]))
      ensures estimate == Anchors.SimSolve(distrT, meanH, sqrt)
    {
      offsets := GenerateReplayData(intervals, 25.0, 162.63, SimGain, z);
      var means;
      centers, means := WindowStats.SimStatsDistr(intervals, offsets);
      Extend(centers, means);
      estimate := Anchors.SimSolve(distrT, meanH, sqrt);
    }

    /** One round of simulate_intervals_0.py at a swept `t_min`: the offsets
        around the slope 1 with sigma 25, the means of the windows centred
        below 5 added against `t_min`, and the two-point line over the whole
        series. */
    method SweepRound(intervals: seq<int>, tMin: int, z: seq<real>)
      returns (offsets: seq<real>, centers: seq<int>, means: seq<real>, line: Option<(real, real)>)
      requires Valid() && |z| == |intervals|
      modifies this
      ensures Valid() && |offsets| == |intervals|
      ensures forall i :: 0 <= i < |intervals| ==> offsets[i] == MeanOffset(intervals[i], tMin as real, SweepGain) + 25.0 * z[i]
      ensures forall j, k :: 0 <= j < k < |centers| ==> centers[j] < centers[k]
      ensures forall p :: p in centers <==> Count(intervals, p) >= WindowStats.MinPeakCount
      ensures |means| == |centers|
      ensures forall k :: 0 <= k < |centers| ==>
        |WindowStats.Window(intervals, offsets, centers[k])| > 0 &&
        means[k] == Mean(WindowStats.Window(intervals, offsets, centers[k]))
      ensures meanH == old(meanH) + Mask(means, StrainFree(centers))
      ensures distrT == old(distrT) + seq(Count(StrainFree(centers), true), _ => tMin as real)
      ensures line == Anchors.TwoPointLine(distrT, meanH)
    {
      offsets := GenerateReplayData(intervals, 25.0, tMin as real, SweepGain, z);
      centers, means := WindowStats.SimStatsDistr(intervals, offsets);
      ExtendFiltered(centers, means, tMin);
      line := Anchors.TwoPointLine(distrT, meanH);
    }
  }

  /** `win_centers < 5`. */
  function StrainFree(centers: seq<int>): (m: seq<bool>)
    ensures |m| == |centers|
  {
    seq(|centers|, i requires 0 <= i < |centers| => centers[i] < 5)
  }
}
