/** Windowed peak statistics, `__get_stats_distr` of
    mania_hitoffset_monitor.py and its two copies in simulate_intervals.py
    and simulate_intervals_0.py.

    A peak is an interval value that occurs at least 50 times. For each peak
    p the offsets whose interval lies in the inclusive range
    [p - 10 - 1, p + 10 + 1] are averaged; the results are sorted by peak. */
module WindowStats {
  import opened Seqs
  import opened Sorting
  import Frequency

  const HalfWindowWidth: int := 10
  const MinPeakCount: nat := 50

  /** `((start - 1) <= intervals) & (intervals <= (end + 1))` with
      `start = p - half_window_width` and `end = p + half_window_width`. */
  function WindowMask(intervals: seq<int>, p: int): (m: seq<bool>)
    ensures |m| == |intervals|
  {
    seq(|intervals|, i requires 0 <= i < |intervals| =>
      (p - HalfWindowWidth) - 1 <= intervals[i] && intervals[i] <= (p + HalfWindowWidth) + 1)
  }

  /** `offsets[window mask]`. */
  function Window(intervals: seq<int>, offsets: seq<real>, p: int): seq<real>
    requires |intervals| == |offsets|
  {
    Mask(offsets, WindowMask(intervals, p))
  }

  /** An offset is selected for peak p exactly when its interval is within
      11 of p, both ends included. */
  lemma WindowSelects(intervals: seq<int>, offsets: seq<real>, p: int, i: nat)
    requires |intervals| == |offsets| && i < |intervals|
    ensures -11 <= intervals[i] - p <= 11 ==> offsets[i] in Window(intervals, offsets, p)
    ensures WindowMask(intervals, p)[i] <==> -11 <= intervals[i] - p <= 11
  {
    if -11 <= intervals[i] - p <= 11 {
      InMask(offsets, WindowMask(intervals, p), i);
    }
  }

  /** The window of a value that occurs among the intervals is never empty. */
  lemma WindowNonEmpty(intervals: seq<int>, offsets: seq<real>, p: int)
    requires |intervals| == |offsets| && p in intervals
    ensures |Window(intervals, offsets, p)| > 0
  {
    var i :| 0 <= i < |intervals| && intervals[i] == p;
    WindowSelects(intervals, offsets, p, i);
  }

  /** One emitted entry: the peak, and the mean and population variance of
      the offsets in its window (`np.std` is the square root of the latter). */
  datatype IntervalStat = IntervalStat(peak: int, mean: real, variance: real)

  function PeakLess(a: IntervalStat, b: IntervalStat): bool
  {
    a.peak < b.peak
  }

  /** `s` is the entry the loop emits for its peak. */
  ghost predicate IsPeakStat(intervals: seq<int>, offsets: seq<real>, s: IntervalStat)
    requires |intervals| == |offsets|
  {
    && Count(intervals, s.peak) >= MinPeakCount
    && |Window(intervals, offsets, s.peak)| > 0
    && s.mean == Mean(Window(intervals, offsets, s.peak))
    && s.variance == Variance(Window(intervals, offsets, s.peak))
  }

  /** Why `__get_stats_distr` raises: the offsets do not pair up with the
      intervals, so the first window's boolean mask has the wrong length. */
  datatype StatsError = LengthMismatch

  /** The loop over the peaks: one entry per peak, in the peaks' order. With
      any peak at all and offsets of another length than the intervals, the
      first pass raises before anything is kept. */
  method CollectPeakStats(intervals: seq<int>, offsets: seq<real>, peaks: seq<int>)
    returns (r: Result<seq<IntervalStat>, StatsError>)
    requires forall k :: 0 <= k < |peaks| ==> Count(intervals, peaks[k]) >= MinPeakCount
    ensures r.Failure? <==> |peaks| > 0 && |intervals| != |offsets|
    ensures r.Success? ==> |r.value| == |peaks| && (|peaks| == 0 || |intervals| == |offsets|)
    ensures r.Success? ==> forall j :: 0 <= j < |peaks| ==>
      r.value[j].peak == peaks[j] && IsPeakStat(intervals, offsets, r.value[j])
  {
    if |peaks| > 0 && |intervals| != |offsets| {
      return Failure(LengthMismatch);
    }
    var found: seq<IntervalStat> := [];
    var k := 0;
    while k < |peaks|
      invariant 0 <= k <= |peaks| && |found| == k
      invariant forall j :: 0 <= j < k ==> found[j].peak == peaks[j] && IsPeakStat(intervals, offsets, found[j])
    {
      var peak := peaks[k];
      CountPositive(intervals, peak);
      WindowNonEmpty(intervals, offsets, peak);
      var window := Window(intervals, offsets, peak);
      // the `variances == 0` guard compares a list with 0: it never skips
      found := found + [IntervalStat(peak, Mean(window), Variance(window))];
      k := k + 1;
    }
    r := Success(found);
  }

  /** `np.argsort` on the peaks, which are distinct. */
  function SortByPeak(found: seq<IntervalStat>): (r: seq<IntervalStat>)
    requires forall i, j :: 0 <= i < j < |found| ==> found[i].peak != found[j].peak
    ensures StrictlySorted(r, PeakLess)
    ensures multiset(r) == multiset(found)
  {
    assert PairwiseComparable(found, PeakLess) by {
      forall i, j | 0 <= i < |found| && 0 <= j < |found| && i != j
        ensures PeakLess(found[i], found[j]) || PeakLess(found[j], found[i])
      {
        if i < j {
          assert found[i].peak != found[j].peak;
        } else {
          assert found[j].peak != found[i].peak;
        }
      }
    }
    SortStrict(found, PeakLess)
  }

  /** `note_interv_distr[note_interv_freqs >= 50]`: the interval values
      occurring at least 50 times, each once. */
  method FrequentPeaks(intervals: seq<int>) returns (peaks: seq<int>)
    ensures Frequency.Distinct(peaks)
    ensures forall k :: 0 <= k < |peaks| ==> Count(intervals, peaks[k]) >= MinPeakCount
    ensures forall p :: Count(intervals, p) >= MinPeakCount ==> p in peaks
  {
    var distr, freqs := Frequency.FreqCount(intervals);
    var peakMask := seq(|freqs|, i requires 0 <= i < |freqs| => freqs[i] >= MinPeakCount);
    peaks := Mask(distr, peakMask);
    Frequency.DistinctMask(distr, peakMask);
    forall k | 0 <= k < |peaks| ensures Count(intervals, peaks[k]) >= MinPeakCount {
      MaskFrom(distr, peakMask, peaks[k]);
    }
    forall p | Count(intervals, p) >= MinPeakCount ensures p in peaks {
      CountPositive(intervals, p);
      var i :| 0 <= i < |distr| && distr[i] == p;
      InMask(distr, peakMask, i);
    }
  }

  /** `__get_stats_distr` up to the final `np.argsort` on the peaks. The
      result lists, sorted by peak, one entry for every interval value that
      occurs at least 50 times and no other. It raises exactly when there is
      such a value and the offsets do not pair up with the intervals. */
  method PeakStats(intervals: seq<int>, offsets: seq<real>) returns (r: Result<seq<IntervalStat>, StatsError>)
    ensures r.Failure? <==> |intervals| != |offsets| && exists p :: Count(intervals, p) >= MinPeakCount
    ensures r.Success? ==> r.value == [] || |intervals| == |offsets|
    ensures r.Success? ==> StrictlySorted(r.value, PeakLess)
    ensures r.Success? ==> forall k :: 0 <= k < |r.value| ==> IsPeakStat(intervals, offsets, r.value[k])
    ensures r.Success? ==> forall p :: Count(intervals, p) >= MinPeakCount ==>
      exists k :: 0 <= k < |r.value| && r.value[k].peak == p
  {
    var peaks := FrequentPeaks(intervals);
    if |peaks| > 0 {
      assert Count(intervals, peaks[0]) >= MinPeakCount;
    }
    var collected := CollectPeakStats(intervals, offsets, peaks);
    if collected.Failure? {
      return Failure(collected.error);
    }
    var found := collected.value;
    var stats := SortByPeak(found);
    SortKeepsStats(intervals, offsets, peaks, found, stats);
    r := Success(stats);
  }

  /** Reordering the statistics of every frequent peak keeps each one and
      loses none. */
  lemma SortKeepsStats(intervals: seq<int>, offsets: seq<real>, peaks: seq<int>, found: seq<IntervalStat>, stats: seq<IntervalStat>)
    requires forall p :: Count(intervals, p) >= MinPeakCount ==> p in peaks
    requires |found| == |peaks| && (|peaks| == 0 || |intervals| == |offsets|)
    requires forall j :: 0 <= j < |peaks| ==> found[j].peak == peaks[j] && IsPeakStat(intervals, offsets, found[j])
    requires multiset(stats) == multiset(found)
    ensures |stats| == |found|
    ensures forall k :: 0 <= k < |stats| ==> IsPeakStat(intervals, offsets, stats[k])
    ensures forall p :: Count(intervals, p) >= MinPeakCount ==>
      exists k :: 0 <= k < |stats| && stats[k].peak == p
  {
    assert |stats| == |found| by {
      assert |multiset(stats)| == |multiset(found)|;
    }
    forall k | 0 <= k < |stats| ensures IsPeakStat(intervals, offsets, stats[k]) {
      assert stats[k] in multiset(found);
    }
    forall p | Count(intervals, p) >= MinPeakCount
      ensures exists k :: 0 <= k < |stats| && stats[k].peak == p
    {
      var j :| 0 <= j < |peaks| && peaks[j] == p;
      assert found[j] in multiset(stats);
      var k :| 0 <= k < |stats| && stats[k] == found[j];
    }
  }

  /** The three lists `__get_stats_distr` returns. */
  datatype Distr = Distr(centers: seq<int>, means: seq<real>, stds: seq<real>)

  /** `__get_stats_distr` of mania_hitoffset_monitor.py: three equal-length
      lists, the peaks in ascending order, the mean offset of each peak's
      window and its standard deviation (`sqrt` stands for the square root
      numpy applies). The peaks are exactly the interval values occurring at
      least 50 times. Offsets that do not pair up with the intervals raise
      when there is a peak, and give empty lists when there is none. */
  method StatsDistr(intervals: seq<int>, offsets: seq<real>, sqrt: real -> real)
    returns (r: Result<Distr, StatsError>)
    ensures r.Failure? <==> |intervals| != |offsets| && exists p :: Count(intervals, p) >= MinPeakCount
    ensures r.Success? ==>
      var d := r.value;
      && |d.centers| == |d.means| == |d.stds|
      && (d.centers == [] || |intervals| == |offsets|)
      && (forall j, k :: 0 <= j < k < |d.centers| ==> d.centers[j] < d.centers[k])
      && (forall p :: p in d.centers <==> Count(intervals, p) >= MinPeakCount)
      && forall k :: 0 <= k < |d.centers| ==>
           && |Window(intervals, offsets, d.centers[k])| > 0
           && d.means[k] == Mean(Window(intervals, offsets, d.centers[k]))
           && d.stds[k] == sqrt(Variance(Window(intervals, offsets, d.centers[k])))
  {
    var res := PeakStats(intervals, offsets);
    if res.Failure? {
      return Failure(res.error);
    }
    var stats := res.value;
    var centers := seq(|stats|, k requires 0 <= k < |stats| => stats[k].peak);
    var means := seq(|stats|, k requires 0 <= k < |stats| => stats[k].mean);
    var stds := seq(|stats|, k requires 0 <= k < |stats| => sqrt(stats[k].variance));
    forall p | Count(intervals, p) >= MinPeakCount ensures p in centers {
      var k :| 0 <= k < |stats| && stats[k].peak == p;
      assert centers[k] == p;
    }
    r := Success(Distr(centers, means, stds));
  }

  /** `__get_stats_distr` of simulate_intervals.py and simulate_intervals_0.py:
      the same peaks and window means, without the standard deviation. There
      every offset is drawn for its own interval, so the two always pair up. */
  method SimStatsDistr(intervals: seq<int>, offsets: seq<real>)
    returns (centers: seq<int>, means: seq<real>)
    requires |intervals| == |offsets|
    ensures |centers| == |means|
    ensures forall j, k :: 0 <= j < k < |centers| ==> centers[j] < centers[k]
    ensures forall p :: p in centers <==> Count(intervals, p) >= MinPeakCount
    ensures forall k :: 0 <= k < |centers| ==>
      && |Window(intervals, offsets, centers[k])| > 0
      && means[k] == Mean(Window(intervals, offsets, centers[k]))
  {
    var res := PeakStats(intervals, offsets);
    assert res.Success?;
    var stats := res.value;
    centers := seq(|stats|, k requires 0 <= k < |stats| => stats[k].peak);
    means := seq(|stats|, k requires 0 <= k < |stats| => stats[k].mean);
    forall p | Count(intervals, p) >= MinPeakCount ensures p in centers {
      var k :| 0 <= k < |stats| && stats[k].peak == p;
      assert centers[k] == p;
    }
  }

  /** The window boundary example: for peak 100 the intervals 89 and 111 are
      inside the window, 88 and 112 are not. */
  lemma WindowBoundaryExample()
    ensures WindowMask([88, 89, 100, 111, 112], 100) == [false, true, true, true, false]
  {
  }
}
