/** mania_monitor_app/_hit_offset_interval_graph.py: per play, the mean hit
    offset around every frequent note interval of that play, kept in the
    graph's fields, and the closed-form model fitted over them. */
module HitOffsetInterval {
  import opened Seqs
  import opened Sorting
  import opened Records
  import Frequency
  import WindowStats
  import Anchors

  /** `min_interval_peak`: only the 101st and later occurrences of an
      interval in a play are kept. */
  const MinIntervalPeak: nat := 100

  /** Why nothing is stored: a `KEYS` value that does not index the four
      interval columns, or no point at all (`min` of an empty list). */
  datatype PlotError = ColumnOutOfRange(key: int) | NoPoints

  /** `np.unique` of the timestamps. */
  function PlayTimestamps(data: seq<PlayRow>): (plays: seq<int>)
    ensures forall i, j :: 0 <= i < j < |plays| ==> plays[i] < plays[j]
    ensures forall t :: t in plays <==> t in Timestamps(data)
  {
    IntLessIsStrictTotal();
    var ts := MapSeq((r: PlayRow) => r.timestamp, data);
    assert forall t :: t in ts <==> t in Timestamps(data) by {
      forall t | t in ts ensures t in Timestamps(data) {
        var i :| 0 <= i < |ts| && ts[i] == t;
      }
      forall t | t in Timestamps(data) ensures t in ts {
        var i :| 0 <= i < |data| && data[i].timestamp == t;
        assert ts[i] == t;
      }
    }
    Unique(ts, IntLess)
  }

  /** The values of an ascending sequence within `[start, end]`. */
  function WithinRange(s: seq<int>, start: int, end: int): (r: seq<int>)
    requires forall i, j :: 0 <= i < j < |s| ==> s[i] < s[j]
    ensures forall i, j :: 0 <= i < j < |r| ==> r[i] < r[j]
    ensures forall t :: t in r <==> t in s && start <= t <= end
  {
    var m := MapSeq((t: int) => start <= t <= end, s);
    MaskIncreasing(s, m);
    assert forall t :: t in s && start <= t <= end ==> t in Mask(s, m) by {
      forall t | t in s && start <= t <= end ensures t in Mask(s, m) {
        var i :| 0 <= i < |s| && s[i] == t;
        InMask(s, m, i);
      }
    }
    assert forall t :: t in Mask(s, m) ==> start <= t <= end by {
      forall t | t in Mask(s, m) ensures start <= t <= end {
        MaskFrom(s, m, t);
      }
    }
    Mask(s, m)
  }

  /** `np.unique` of the timestamps, restricted to the inclusive time range
      when one is given. */
  function Plays(data: seq<PlayRow>, timeRange: Option<(int, int)>): (plays: seq<int>)
    ensures forall i, j :: 0 <= i < j < |plays| ==> plays[i] < plays[j]
    ensures forall t :: t in plays <==>
      t in Timestamps(data) && (timeRange.Some? ==> timeRange.value.0 <= t <= timeRange.value.1)
  {
    match timeRange
    case None => PlayTimestamps(data)
    case Some((start, end)) => WithinRange(PlayTimestamps(data), start, end)
  }

  /** `note_intervals[np.arange(n), KEYS]`: numpy integer indexing into the
      row's interval columns, negative keys counting from the last column. */
  function NotePick(r: PlayRow): (p: Result<Option<int>, PlotError>)
    ensures p.Failure? <==> !(-|r.colIntervals| <= r.keys < |r.colIntervals|)
    ensures p.Failure? ==> p.error == ColumnOutOfRange(r.keys)
  {
    var w := |r.colIntervals|;
    if 0 <= r.keys < w then Success(r.colIntervals[r.keys])
    else if -w <= r.keys < 0 then Success(r.colIntervals[w + r.keys])
    else Failure(ColumnOutOfRange(r.keys))
  }

  /** The picked interval of every row, or the first key out of range. */
  function Picks(slice: seq<PlayRow>): (p: Result<seq<Option<int>>, PlotError>)
    ensures p.Failure? <==> exists i :: 0 <= i < |slice| && NotePick(slice[i]).Failure?
    ensures p.Success? ==> |p.value| == |slice|
    ensures p.Success? ==> forall i :: 0 <= i < |slice| ==> NotePick(slice[i]) == Success(p.value[i])
  {
    if slice == [] then Success([])
    else
      var n := |slice| - 1;
      match Picks(slice[..n])
      case Failure(err) =>
        assert exists i :: 0 <= i < |slice| && NotePick(slice[i]).Failure? by {
          var i :| 0 <= i < n && NotePick(slice[..n][i]).Failure?;
          assert slice[i] == slice[..n][i];
        }
        Failure(err)
      case Success(prefix) =>
        match NotePick(slice[n])
        case Failure(err) => Failure(err)
        case Success(v) =>
          assert forall i :: 0 <= i < n ==> slice[i] == slice[..n][i];
          Success(prefix + [v])
  }

  function IsFinite(o: Option<int>): bool
  {
    o.Some?
  }

  function OptValue(o: Option<int>): int
  {
    if o.Some? then o.value else 0
  }

  /** The kept intervals of one play and their offsets, aligned, and its
      peaks. */
  datatype PlayPeaks = PlayPeaks(intervals: seq<int>, offsets: seq<real>, peaks: seq<int>)

  /** The intervals kept once the non-finite ones are dropped and only the
      entries of rank at least 100 remain, the offsets under the same masks,
      and the distinct kept intervals in ascending order. */
  function Kept(finite: seq<int>, offsets: seq<real>): (p: PlayPeaks)
    requires |finite| == |offsets|
    ensures |p.intervals| == |p.offsets|
    ensures forall i, j :: 0 <= i < j < |p.peaks| ==> p.peaks[i] < p.peaks[j]
    ensures forall v :: v in p.peaks <==> v in p.intervals
  {
    var keep := MapSeq((k: nat) => k >= MinIntervalPeak, Frequency.Ranks(finite));
    var xs := Mask(finite, keep);
    IntLessIsStrictTotal();
    PlayPeaks(xs, Mask(offsets, keep), Unique(xs, IntLess))
  }

  /** An interval survives the rank filter exactly when it occurs more than
      100 times among the play's finite intervals. */
  lemma KeptMeaning(finite: seq<int>, offsets: seq<real>, v: int)
    requires |finite| == |offsets|
    ensures v in Kept(finite, offsets).intervals <==> Count(finite, v) > MinIntervalPeak
  {
    var ranks := Frequency.Ranks(finite);
    var keep := MapSeq((k: nat) => k >= MinIntervalPeak, ranks);
    var xs := Mask(finite, keep);
    if v in xs {
      MaskFrom(finite, keep, v);
      var i :| 0 <= i < |finite| && keep[i] && finite[i] == v;
      Frequency.RankBelowCount(finite, i);
    }
    if Count(finite, v) > MinIntervalPeak {
      Frequency.RanksEnumerateOccurrences(finite, v);
      var pos := Frequency.Positions(finite, v)[MinIntervalPeak];
      assert ranks[pos] == MinIntervalPeak;
      InMask(finite, keep, pos);
    }
  }

  /** One play: its hit presses, the interval of each note's column, the
      finite ones and their offsets, filtered by rank. */
  function PlayData(data: seq<PlayRow>, t: int): (r: Result<PlayPeaks, PlotError>)
    ensures r.Success? ==> |r.value.intervals| == |r.value.offsets|
    ensures r.Success? ==> forall v :: v in r.value.peaks <==> v in r.value.intervals
    ensures r.Success? ==> forall i, j :: 0 <= i < j < |r.value.peaks| ==> r.value.peaks[i] < r.value.peaks[j]
  {
    var slice := Filter((x: PlayRow) => x.timestamp == t && x.hitType == HitPress, data);
    match Picks(slice)
    case Failure(err) => Failure(err)
    case Success(picks) =>
      var finiteMask := MapSeq(IsFinite, picks);
      var finite := MapSeq(OptValue, Mask(picks, finiteMask));
      var offsets := Reals(Mask(MapSeq((x: PlayRow) => x.offset, slice), finiteMask));
      Success(Kept(finite, offsets))
  }

  /** The mean offset of the window [p - 11, p + 11] of each peak. */
  function PeakMeans(p: PlayPeaks): (means: seq<real>)
    requires |p.intervals| == |p.offsets|
    requires forall v :: v in p.peaks ==> v in p.intervals
    ensures |means| == |p.peaks|
    ensures forall k :: 0 <= k < |p.peaks| ==>
      |WindowStats.Window(p.intervals, p.offsets, p.peaks[k])| > 0 &&
      means[k] == Mean(WindowStats.Window(p.intervals, p.offsets, p.peaks[k]))
  {
    forall k | 0 <= k < |p.peaks| ensures |WindowStats.Window(p.intervals, p.offsets, p.peaks[k])| > 0 {
      assert p.peaks[k] in p.peaks;
      WindowStats.WindowNonEmpty(p.intervals, p.offsets, p.peaks[k]);
    }
    seq(|p.peaks|, k requires 0 <= k < |p.peaks| => Mean(WindowStats.Window(p.intervals, p.offsets, p.peaks[k])))
  }

  /** The inner loop over one play's peaks: appends the peak, the mean of
      its window and the play's timestamp. */
  method AppendPeaks(xs: seq<int>, ys: seq<real>, ts: seq<int>, p: PlayPeaks, t: int)
    returns (xs': seq<int>, ys': seq<real>, ts': seq<int>)
    requires |p.intervals| == |p.offsets|
    requires forall v :: v in p.peaks ==> v in p.intervals
    ensures xs' == xs + p.peaks && ys' == ys + PeakMeans(p) && ts' == ts + seq(|p.peaks|, _ => t)
  {
    xs', ys', ts' := xs, ys, ts;
    for k := 0 to |p.peaks|
      invariant xs' == xs + p.peaks[..k]
      invariant ys' == ys + PeakMeans(p)[..k]
      invariant ts' == ts + seq(k, _ => t)
    {
      var peak := p.peaks[k];
      assert peak in p.peaks;
      WindowStats.WindowNonEmpty(p.intervals, p.offsets, peak);
      var offsets := WindowStats.Window(p.intervals, p.offsets, peak);
      ys' := ys' + [Mean(offsets)];
      xs' := xs' + [peak];
      ts' := ts' + [t];
      assert p.peaks[..k + 1] == p.peaks[..k] + [peak];
      assert PeakMeans(p)[..k + 1] == PeakMeans(p)[..k] + [Mean(offsets)];
    }
    assert p.peaks[..|p.peaks|] == p.peaks;
    assert PeakMeans(p)[..|p.peaks|] == PeakMeans(p);
  }

  /** The three lists after the given plays: the peak, the window mean and
      the play's timestamp of every (play, peak) pair, plays in order and
      peaks ascending within a play. */
  function Points(data: seq<PlayRow>, plays: seq<int>): (r: Result<(seq<int>, seq<real>, seq<int>), PlotError>)
    ensures r.Success? ==> |r.value.0| == |r.value.1| == |r.value.2|
  {
    if plays == [] then Success(([], [], []))
    else
      var n := |plays| - 1;
      AddPlay(Points(data, plays[..n]), PlayData(data, plays[n]), plays[n])
  }

  /** One more play: the first raise wins, otherwise the play's peaks,
      means and timestamp are appended. */
  function AddPlay(acc: Result<(seq<int>, seq<real>, seq<int>), PlotError>, play: Result<PlayPeaks, PlotError>, t: int)
    : (r: Result<(seq<int>, seq<real>, seq<int>), PlotError>)
    requires acc.Success? ==> |acc.value.0| == |acc.value.1| == |acc.value.2|
    requires play.Success? ==> |play.value.intervals| == |play.value.offsets|
    requires play.Success? ==> forall v :: v in play.value.peaks ==> v in play.value.intervals
    ensures r.Success? <==> acc.Success? && play.Success?
    ensures acc.Failure? ==> r == acc
    ensures acc.Success? && play.Failure? ==> r.error == play.error
    ensures r.Success? ==> |r.value.0| == |r.value.1| == |r.value.2|
  {
    match acc
    case Failure(err) => Failure(err)
    case Success((xs, ys, ts)) =>
      match play
      case Failure(err) => Failure(err)
      case Success(p) => Success((xs + p.peaks, ys + PeakMeans(p), ts + seq(|p.peaks|, _ => t)))
  }

  lemma PointsStep(data: seq<PlayRow>, plays: seq<int>, i: nat)
    requires i < |plays|
    ensures Points(data, plays[..i + 1]) == AddPlay(Points(data, plays[..i]), PlayData(data, plays[i]), plays[i])
  {
    assert plays[..i + 1][..i] == plays[..i];
  }

  /** The loop over the selected plays. */
  method CollectPoints(data: seq<PlayRow>, plays: seq<int>)
    returns (r: Result<(seq<int>, seq<real>, seq<int>), PlotError>)
    ensures r == Points(data, plays)
  {
    var xs: seq<int>, ys: seq<real>, ts: seq<int> := [], [], [];
    for i := 0 to |plays|
      invariant Points(data, plays[..i]) == Success((xs, ys, ts))
    {
      PointsStep(data, plays, i);
      var play := PlayData(data, plays[i]);
      if play.Failure? {
        PointsFailurePersists(data, plays, i + 1);
        return Failure(play.error);
      }
      xs, ys, ts := AppendPeaks(xs, ys, ts, play.value, plays[i]);
    }
    assert plays[..|plays|] == plays;
    r := Success((xs, ys, ts));
  }

  /** Every stored peak of a play is an interval occurring more than 100
      times among that play's finite intervals, and its mean is taken over a
      window that contains it. */
  lemma PlayPeaksFrequent(data: seq<PlayRow>, t: int, k: nat)
    requires PlayData(data, t).Success? && k < |PlayData(data, t).value.peaks|
    ensures var p := PlayData(data, t).value;
      && p.peaks[k] in p.intervals
      && |WindowStats.Window(p.intervals, p.offsets, p.peaks[k])| > 0
  {
    var p := PlayData(data, t).value;
    assert p.peaks[k] in p.peaks;
    WindowStats.WindowNonEmpty(p.intervals, p.offsets, p.peaks[k]);
  }

  class HitOffsetIntervalGraph {
    /** `self.__x_note_intervals` and `self.__y_mean_offsets`. */
    var xNoteIntervals: seq<int>
    var yMeanOffsets: seq<real>

    ghost predicate Valid()
      reads this
    {
      |xNoteIntervals| == |yMeanOffsets|
    }

    constructor ()
      ensures Valid() && xNoteIntervals == [] && yMeanOffsets == []
    {
      xNoteIntervals, yMeanOffsets := [], [];
    }

    /** `__plot_offset_intervals`: the nested loop over the selected plays
        and their peaks. On success the fields hold the peaks and means of
        every (play, peak) pair and the timestamps are returned alongside;
        on a raise (a bad key, or no point for `min`) nothing is stored. */
    method PlotOffsetIntervals(data: seq<PlayRow>, timeRange: Option<(int, int)>)
      returns (r: Result<seq<int>, PlotError>)
      modifies this
      ensures var pts := Points(data, Plays(data, timeRange));
        && (r.Failure? <==> pts.Failure? || |pts.value.0| == 0)
        && (pts.Failure? ==> r == Failure(pts.error))
        && (r.Success? ==> xNoteIntervals == pts.value.0 && yMeanOffsets == pts.value.1 && r.value == pts.value.2)
      ensures r.Failure? ==> xNoteIntervals == old(xNoteIntervals) && yMeanOffsets == old(yMeanOffsets)
      ensures r.Success? ==> Valid()
    {
      var pts := CollectPoints(data, Plays(data, timeRange));
      if pts.Failure? {
        return Failure(pts.error);
      }
      var (xs, ys, ts) := pts.value;
      if |xs| == 0 {
        return Failure(NoPoints);
      }
      xNoteIntervals, yMeanOffsets := xs, ys;
      r := Success(ts);
    }

    /** `__plot_model` over the stored points: the anchors, the line and
        the band lines of the closed-form estimator. */
    method PlotModel(sqrt: real -> real) returns (m: Anchors.GraphModel)
      requires Valid()
      ensures m == Anchors.GraphSolve(Reals(xNoteIntervals), yMeanOffsets, sqrt)
    {
      m := Anchors.GraphSolve(Reals(xNoteIntervals), yMeanOffsets, sqrt);
    }
  }

  /** A raise in one play ends the whole plot: once a prefix of the plays
      fails, every longer prefix fails with the same error. */
  lemma {:induction false} PointsFailurePersists(data: seq<PlayRow>, plays: seq<int>, i: nat)
    requires 0 < i <= |plays| && Points(data, plays[..i]).Failure?
    ensures Points(data, plays).Failure? && Points(data, plays).error == Points(data, plays[..i]).error
    decreases |plays| - i
  {
    if i < |plays| {
      PointsStepFailure(data, plays, i);
      PointsFailurePersists(data, plays, i + 1);
    } else {
      assert plays[..i] == plays;
    }
  }

  /** A failed prefix stays failed, with the same error, one play later. */
  lemma PointsStepFailure(data: seq<PlayRow>, plays: seq<int>, i: nat)
    requires i < |plays| && Points(data, plays[..i]).Failure?
    ensures Points(data, plays[..i + 1]) == Points(data, plays[..i])
  {
    PointsStep(data, plays, i);
  }
}
