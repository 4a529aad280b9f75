/** Correlation of a map's press notes with the scoring of a replay, column
    by column (`__get_hit_data`, `__get_miss_data` of
    mania_hitoffset_monitor.py), and the interval-region selection of
    `__update_hit_distr_graphs`. */
module Correlation {
  import opened Seqs
  import opened Records
  import Frequency

  /** One scoring entry of a column: its kind, the map time of the note it
      scores and the replay time of the press. */
  datatype ScoreRow = ScoreRow(kind: ScoreType, mapT: int, replayT: int)

  /** A column of the map: the times of its press notes, in map order, and
      the scoring entries of that column. */
  datatype Column = Column(mapTimes: seq<int>, scores: seq<ScoreRow>)

  /** `values[1:]`: everything but the first element (nothing of an empty sequence). */
  function DropFirst<T>(s: seq<T>): (r: seq<T>)
    ensures |r| == if s == [] then 0 else |s| - 1
  {
    if s == [] then [] else s[1..]
  }

  /** `score_col['type'] == kind`. */
  function KindMask(rows: seq<ScoreRow>, kind: ScoreType): (m: seq<bool>)
    ensures |m| == |rows|
  {
    seq(|rows|, i requires 0 <= i < |rows| => rows[i].kind == kind)
  }

  function MapTimesOf(rows: seq<ScoreRow>): (r: seq<int>)
    ensures |r| == |rows|
  {
    seq(|rows|, i requires 0 <= i < |rows| => rows[i].mapT)
  }

  function ReplayTimesOf(rows: seq<ScoreRow>): (r: seq<int>)
    ensures |r| == |rows|
  {
    seq(|rows|, i requires 0 <= i < |rows| => rows[i].replayT)
  }

  function OffsetsOf(rows: seq<ScoreRow>): (r: seq<int>)
    ensures |r| == |rows|
  {
    seq(|rows|, i requires 0 <= i < |rows| => rows[i].replayT - rows[i].mapT)
  }

  /** `np.isin(a, b)`. */
  function IsIn(a: seq<int>, b: seq<int>): (m: seq<bool>)
    ensures |m| == |a|
  {
    seq(|a|, i requires 0 <= i < |a| => a[i] in b)
  }

  /** The map times of the column's entries of the given kind (`hit_map_times`). */
  function Scored(c: Column, kind: ScoreType): seq<int>
  {
    Mask(MapTimesOf(c.scores), KindMask(c.scores, kind))
  }

  /** `np.diff(map_times)[hit_time_filter[1:]]`: the interval before every
      note after the first whose map time was scored with the given kind. */
  function ColumnIntervals(c: Column, kind: ScoreType): seq<int>
  {
    var isin := IsIn(c.mapTimes, Scored(c, kind));
    if c.mapTimes == [] then [] else Mask(Diff(c.mapTimes), isin[1..])
  }

  /** `(replay_t - map_t)[hit_filter].values[1:]`. */
  function ColumnOffsets(c: Column): seq<int>
  {
    DropFirst(Mask(OffsetsOf(c.scores), KindMask(c.scores, HitPress)))
  }

  /** `replay_t[filter].values[1:]`. */
  function ColumnTimings(c: Column, kind: ScoreType): seq<int>
  {
    DropFirst(Mask(ReplayTimesOf(c.scores), KindMask(c.scores, kind)))
  }

  /** Every interval of a column is the gap before some scored note other
      than the first. */
  lemma ColumnIntervalsFromScored(c: Column, kind: ScoreType, x: int)
    requires x in ColumnIntervals(c, kind)
    ensures exists i :: 1 <= i < |c.mapTimes| && c.mapTimes[i] in Scored(c, kind) && x == c.mapTimes[i] - c.mapTimes[i - 1]
  {
    var sc := Scored(c, kind);
    var isin := IsIn(c.mapTimes, sc);
    var d := Diff(c.mapTimes);
    assert c.mapTimes != [];
    var m := isin[1..];
    assert ColumnIntervals(c, kind) == Mask(d, m);
    MaskFrom(d, m, x);
    var j :| 0 <= j < |d| && m[j] && d[j] == x;
    assert isin[j + 1] && c.mapTimes[j + 1] in sc;
    assert 1 <= j + 1 < |c.mapTimes| && x == c.mapTimes[j + 1] - c.mapTimes[j + 1 - 1];
  }

  /** The gap before every scored note other than the first is among the
      column's intervals. */
  lemma ScoredGivesColumnInterval(c: Column, kind: ScoreType, i: nat)
    requires 1 <= i < |c.mapTimes| && c.mapTimes[i] in Scored(c, kind)
    ensures c.mapTimes[i] - c.mapTimes[i - 1] in ColumnIntervals(c, kind)
  {
    var isin := IsIn(c.mapTimes, Scored(c, kind));
    var d := Diff(c.mapTimes);
    assert isin[1..][i - 1] && d[i - 1] == c.mapTimes[i] - c.mapTimes[i - 1];
    InMask(d, isin[1..], i - 1);
  }

  /** Every offset of a column is `replay_t - map_t` of a hit-press entry;
      there is one per hit-press entry except the first. */
  lemma ColumnOffsetsMeaning(c: Column)
    ensures |ColumnOffsets(c)| == if Count(KindMask(c.scores, HitPress), true) == 0 then 0
                                  else Count(KindMask(c.scores, HitPress), true) - 1
    ensures forall x :: x in ColumnOffsets(c) ==>
      exists j :: 0 <= j < |c.scores| && c.scores[j].kind == HitPress && x == c.scores[j].replayT - c.scores[j].mapT
  {
    var all := Mask(OffsetsOf(c.scores), KindMask(c.scores, HitPress));
    forall x | x in ColumnOffsets(c)
      ensures exists j :: 0 <= j < |c.scores| && c.scores[j].kind == HitPress && x == c.scores[j].replayT - c.scores[j].mapT
    {
      assert x in all;
      MaskFrom(OffsetsOf(c.scores), KindMask(c.scores, HitPress), x);
    }
  }

  /** What the scoring of a well-formed replay guarantees: a column's press
      notes have distinct times, every note is scored at most once, and
      every scored map time is a note of the column. */
  ghost predicate WellCorrelated(c: Column)
  {
    && Frequency.Distinct(c.mapTimes)
    && Frequency.Distinct(Scored(c, HitPress))
    && (forall x :: x in Scored(c, HitPress) ==> x in c.mapTimes)
  }

  lemma {:induction false} DistinctCard<T>(s: seq<T>)
    requires Frequency.Distinct(s)
    ensures |set x | x in s| == |s|
  {
    if s != [] {
      var n := |s| - 1;
      assert Frequency.Distinct(s[..n]);
      DistinctCard(s[..n]);
      assert (set x | x in s) == (set x | x in s[..n]) + {s[n]};
      assert s[n] !in (set x | x in s[..n]);
    }
  }

  lemma CountHead(m: seq<bool>)
    requires m != []
    ensures Count(m, true) == (if m[0] then 1 else 0) + Count(m[1..], true)
  {
    assert m == [m[0]] + m[1..];
    CountAppend([m[0]], m[1..], true);
    assert [m[0]][..0] == [];
  }

  /** The number of notes whose time was scored equals the number of
      scored entries. */
  lemma ScoredNotesCount(c: Column)
    requires WellCorrelated(c)
    ensures Count(IsIn(c.mapTimes, Scored(c, HitPress)), true) == |Scored(c, HitPress)|
  {
    var sc := Scored(c, HitPress);
    var isin := IsIn(c.mapTimes, sc);
    var notes := Mask(c.mapTimes, isin);
    Frequency.DistinctMask(c.mapTimes, isin);
    forall x ensures x in notes <==> x in sc {
      if x in notes {
        MaskFrom(c.mapTimes, isin, x);
      }
      if x in sc {
        var i :| 0 <= i < |c.mapTimes| && c.mapTimes[i] == x;
        InMask(c.mapTimes, isin, i);
      }
    }
    assert (set x | x in notes) == (set x | x in sc);
    DistinctCard(notes);
    DistinctCard(sc);
  }

  /** The mismatch `__get_hit_data` reports: for a well-correlated column the
      intervals and the offsets differ in number exactly when some note was
      hit but the column's first note was not. Dropping the first offset
      assumes that the first hit is on the first note. */
  lemma HitDataMismatchIff(c: Column)
    requires WellCorrelated(c)
    ensures |ColumnIntervals(c, HitPress)| != |ColumnOffsets(c)| <==>
      |c.mapTimes| > 0 && Scored(c, HitPress) != [] && c.mapTimes[0] !in Scored(c, HitPress)
  {
    var sc := Scored(c, HitPress);
    var isin := IsIn(c.mapTimes, sc);
    ScoredNotesCount(c);
    assert |Mask(OffsetsOf(c.scores), KindMask(c.scores, HitPress))| == |sc|;
    if c.mapTimes == [] {
      if sc != [] {
        assert false;
      }
    } else {
      CountHead(isin);
    }
  }

  /** The example of a miss on the first note: notes at 0, 100 and 200 ms,
      the first missed, the other two hit. Two intervals but one offset. */
  lemma HitDataMismatchExample()
    ensures var c := Column([0, 100, 200], [ScoreRow(Miss, 0, 0), ScoreRow(HitPress, 100, 103), ScoreRow(HitPress, 200, 198)]);
      ColumnIntervals(c, HitPress) == [100, 100] && ColumnOffsets(c) == [-2]
  {
    var c := Column([0, 100, 200], [ScoreRow(Miss, 0, 0), ScoreRow(HitPress, 100, 103), ScoreRow(HitPress, 200, 198)]);
    var km := KindMask(c.scores, HitPress);
    assert km == [false, true, true];
    assert MapTimesOf(c.scores) == [0, 100, 200];
    assert MapTimesOf(c.scores)[..2] == [0, 100] && MapTimesOf(c.scores)[..1] == [0];
    assert km[..2] == [false, true] && km[..1] == [false];
    assert Scored(c, HitPress) == [100, 200];
    assert IsIn(c.mapTimes, [100, 200]) == [false, true, true];
    assert Diff(c.mapTimes) == [100, 100];
    assert [100, 100][..1] == [100];
    assert [true, true][..1] == [true];
    assert OffsetsOf(c.scores) == [0, 3, -2];
    assert OffsetsOf(c.scores)[..2] == [0, 3] && OffsetsOf(c.scores)[..1] == [0];
  }

  /** The intervals of all columns, concatenated in column order. */
  function AllIntervals(cols: seq<Column>, kind: ScoreType): seq<int>
  {
    if cols == [] then [] else AllIntervals(cols[..|cols| - 1], kind) + ColumnIntervals(cols[|cols| - 1], kind)
  }

  /** The offsets of all columns, concatenated in column order. */
  function AllOffsets(cols: seq<Column>): seq<int>
  {
    if cols == [] then [] else AllOffsets(cols[..|cols| - 1]) + ColumnOffsets(cols[|cols| - 1])
  }

  /** The timings of all columns, concatenated in column order. */
  function AllTimings(cols: seq<Column>, kind: ScoreType): seq<int>
  {
    if cols == [] then [] else AllTimings(cols[..|cols| - 1], kind) + ColumnTimings(cols[|cols| - 1], kind)
  }

  /** The indices of the mismatched columns, in column order. */
  function MismatchedColumns(cols: seq<Column>): seq<nat>
  {
    if cols == [] then []
    else MismatchedColumns(cols[..|cols| - 1]) + (if Mismatched(cols[|cols| - 1]) then [|cols| - 1] else [])
  }

  /** A column index is reported exactly when that column is mismatched. */
  lemma {:induction false} MismatchedColumnsMeaning(cols: seq<Column>)
    ensures forall k :: k in MismatchedColumns(cols) <==> 0 <= k < |cols| && Mismatched(cols[k])
  {
    if cols != [] {
      var n := |cols| - 1;
      var pre := MismatchedColumns(cols[..n]);
      MismatchedColumnsMeaning(cols[..n]);
      assert MismatchedColumns(cols) == pre + (if Mismatched(cols[n]) then [n] else []);
      forall k ensures k in MismatchedColumns(cols) <==> 0 <= k < |cols| && Mismatched(cols[k]) {
        if 0 <= k < n {
          assert cols[..n][k] == cols[k];
        }
      }
    }
  }

  lemma AllSnoc(cols: seq<Column>, col: nat, kind: ScoreType)
    requires col < |cols|
    ensures MismatchedColumns(cols[..col + 1]) == MismatchedColumns(cols[..col]) + (if Mismatched(cols[col]) then [col] else [])
    ensures AllIntervals(cols[..col + 1], kind) == AllIntervals(cols[..col], kind) + ColumnIntervals(cols[col], kind)
    ensures AllOffsets(cols[..col + 1]) == AllOffsets(cols[..col]) + ColumnOffsets(cols[col])
    ensures AllTimings(cols[..col + 1], kind) == AllTimings(cols[..col], kind) + ColumnTimings(cols[col], kind)
  {
    assert cols[..col + 1][..col] == cols[..col];
  }

  /** When every column is aligned, so is the concatenation. */
  lemma {:induction false} AlignedColumnsAlignedData(cols: seq<Column>)
    requires forall k :: 0 <= k < |cols| ==> |ColumnIntervals(cols[k], HitPress)| == |ColumnOffsets(cols[k])|
    ensures |AllIntervals(cols, HitPress)| == |AllOffsets(cols)|
  {
    if cols != [] {
      var n := |cols| - 1;
      assert forall k :: 0 <= k < n ==> cols[..n][k] == cols[k];
      AlignedColumnsAlignedData(cols[..n]);
    }
  }

  /** The column's interval and offset counts differ. */
  predicate Mismatched(c: Column)
  {
    |ColumnIntervals(c, HitPress)| != |ColumnOffsets(c)|
  }

  /** `np.concatenate([])` of a map without columns raises. */
  datatype DataError = NoColumns

  /** What `__get_hit_data` returns, with the reported columns. */
  datatype HitSeries = HitSeries(intervals: seq<int>, offsets: seq<int>, timings: seq<int>, mismatched: seq<nat>)

  /** What `__get_miss_data` returns. */
  datatype MissSeries = MissSeries(intervals: seq<int>, timings: seq<int>)

  /** `__get_hit_data`: the columns' intervals, offsets and timings
      concatenated in column order, and the columns whose interval and
      offset counts differ (those are only reported, never rejected). With
      no columns there is nothing to concatenate, which raises. */
  method HitData(cols: seq<Column>) returns (r: Result<HitSeries, DataError>)
    ensures r.Failure? <==> cols == []
    ensures r.Success? ==>
      && r.value.intervals == AllIntervals(cols, HitPress)
      && r.value.offsets == AllOffsets(cols)
      && r.value.timings == AllTimings(cols, HitPress)
      && r.value.mismatched == MismatchedColumns(cols)
  {
    if cols == [] {
      return Failure(NoColumns);
    }
    var intervals, offsets, timings, mismatched := [], [], [], [];
    var col := 0;
    while col < |cols|
      invariant 0 <= col <= |cols|
      invariant intervals == AllIntervals(cols[..col], HitPress)
      invariant offsets == AllOffsets(cols[..col])
      invariant timings == AllTimings(cols[..col], HitPress)
      invariant mismatched == MismatchedColumns(cols[..col])
    {
      var mapInterval := ColumnIntervals(cols[col], HitPress);
      var offset := ColumnOffsets(cols[col]);
      var timing := ColumnTimings(cols[col], HitPress);
      AllSnoc(cols, col, HitPress);
      intervals := intervals + mapInterval;
      offsets := offsets + offset;
      timings := timings + timing;
      if |offset| != |mapInterval| {
        mismatched := mismatched + [col];
      }
      col := col + 1;
    }
    assert cols[..|cols|] == cols;
    r := Success(HitSeries(intervals, offsets, timings, mismatched));
  }

  /** `__get_miss_data`: the intervals before missed notes and the replay
      timings of the misses, concatenated in column order; with no columns
      it raises as `__get_hit_data` does. */
  method MissData(cols: seq<Column>) returns (r: Result<MissSeries, DataError>)
    ensures r.Failure? <==> cols == []
    ensures r.Success? ==>
      && r.value.intervals == AllIntervals(cols, Miss)
      && r.value.timings == AllTimings(cols, Miss)
  {
    if cols == [] {
      return Failure(NoColumns);
    }
    var intervals, timings := [], [];
    var col := 0;
    while col < |cols|
      invariant 0 <= col <= |cols|
      invariant intervals == AllIntervals(cols[..col], Miss)
      invariant timings == AllTimings(cols[..col], Miss)
    {
      AllSnoc(cols, col, Miss);
      intervals := intervals + ColumnIntervals(cols[col], Miss);
      timings := timings + ColumnTimings(cols[col], Miss);
      col := col + 1;
    }
    assert cols[..|cols|] == cols;
    r := Success(MissSeries(intervals, timings));
  }

  /** `__update_hit_distr_graphs`: the offsets whose interval lies in the
      selected region, their rank histogram and the model drawn over them. */
  datatype RegionView = RegionView(selected: seq<real>, ranks: seq<nat>, model: ModelCurve)

  /** `IndexError` of the boolean mask, re-raised after it is reported. */
  datatype RegionError = LengthMismatch

  function RegionMask(intervals: seq<int>, start: real, end: real): (m: seq<bool>)
    ensures |m| == |intervals|
  {
    seq(|intervals|, i requires 0 <= i < |intervals| => start <= intervals[i] as real && intervals[i] as real <= end)
  }

  function SelectRegion(intervals: seq<int>, offsets: seq<real>, start: real, end: real, sqrt: real -> real): (r: Result<RegionView, RegionError>)
    ensures r.Failure? <==> |intervals| != |offsets|
    ensures r.Success? ==>
      && r.value.selected == Mask(offsets, RegionMask(intervals, start, end))
      && r.value.ranks == Frequency.Ranks(r.value.selected)
      && (r.value.model == Cleared <==> r.value.selected == [] || sqrt(Variance(r.value.selected)) == 0.0)
      && (r.value.model.NormalPdf? ==> r.value.model.scale == |r.value.selected|)
      && !r.value.model.Undefined?
  {
    if |intervals| != |offsets| then Failure(LengthMismatch)
    else
      var selected := Mask(offsets, RegionMask(intervals, start, end));
      var model := if |selected| == 0 then Cleared else OffsetModel(selected, sqrt);
      Success(RegionView(selected, Frequency.Ranks(selected), model))
  }

  /** An offset is selected exactly when its interval lies in the region,
      both ends included. */
  lemma SelectRegionMembers(intervals: seq<int>, offsets: seq<real>, start: real, end: real, i: nat)
    requires |intervals| == |offsets| && i < |intervals|
    requires start <= intervals[i] as real <= end
    ensures offsets[i] in Mask(offsets, RegionMask(intervals, start, end))
  {
    InMask(offsets, RegionMask(intervals, start, end), i);
  }

  /** Conversely, every selected offset is that of a note whose interval
      lies in the region. */
  lemma SelectedInRegion(intervals: seq<int>, offsets: seq<real>, start: real, end: real, y: real)
    requires |intervals| == |offsets|
    requires y in Mask(offsets, RegionMask(intervals, start, end))
    ensures exists i :: 0 <= i < |intervals| && start <= intervals[i] as real <= end && offsets[i] == y
  {
    MaskFrom(offsets, RegionMask(intervals, start, end), y);
  }
}
