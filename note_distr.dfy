/** mania_monitor_app/_note_distr_graph.py: the hit offsets of a range of
    note indices across all plays, their rank histogram, and the mean,
    spread and normal model of the selection. */
module NoteDistrGraph {
  import opened Seqs
  import opened Records
  import Frequency

  /** `if start == end: end += 1` on the region's ends, which are real
      numbers: an empty range is widened by one note. */
  function Widen(start: real, end: real): (range: (real, real))
    ensures range.0 == start
    ensures start == end ==> range.1 == end + 1.0
    ensures start != end ==> range.1 == end
  {
    if start == end then (start, end + 1.0) else (start, end)
  }

  function OffsetsOf(rows: seq<PlayRow>): seq<int>
  {
    MapSeq((r: PlayRow) => r.offset, rows)
  }

  /** `(start <= num) & (num <= end) & data_filter`. */
  function InRange(data: seq<PlayRow>, num: seq<nat>, start: real, end: real): (m: seq<bool>)
    requires |num| == |data|
    ensures |m| == |data|
    ensures forall i :: 0 <= i < |data| ==> (m[i] <==> start <= num[i] as real <= end && data[i].hitType == HitPress)
  {
    seq(|data|, i requires 0 <= i < |data| => start <= num[i] as real <= end && data[i].hitType == HitPress)
  }

  /** A region strictly inside one note's neighbours selects that note
      alone: (2.5, 3.0) and (2.2, 3.4) select note 3 and no other. */
  lemma FractionalRangeExample(n: nat)
    ensures var (s, e) := Widen(2.5, 3.0); s <= n as real <= e <==> n == 3
    ensures var (s, e) := Widen(2.2, 3.4); s <= n as real <= e <==> n == 3
  {
  }

  /** The offsets of the hit presses whose tiled note index lies in the
      widened range, in data order; or the failure to tile. */
  function SelectOffsets(data: seq<PlayRow>, start: real, end: real): (r: Result<seq<int>, TileError>)
    ensures r.Failure? <==> NoteIndices(data).Failure?
  {
    var (s, e) := Widen(start, end);
    match NoteIndices(data)
    case Failure(err) => Failure(err)
    case Success(num) => Success(Mask(OffsetsOf(data), InRange(data, num, s, e)))
  }

  /** The selection holds exactly the offsets of the hit presses whose note
      index, i mod (N div plays) for row i, lies in the widened range. */
  lemma SelectOffsetsMeaning(data: seq<PlayRow>, start: real, end: real)
    requires SelectOffsets(data, start, end).Success?
    ensures |Timestamps(data)| > 0
    ensures var (s, e) := Widen(start, end);
      forall y :: y in SelectOffsets(data, start, end).value <==>
        exists i :: 0 <= i < |data| && s <= (i % (|data| / |Timestamps(data)|)) as real <= e &&
          data[i].hitType == HitPress && y == data[i].offset
  {
    var (s, e) := Widen(start, end);
    var num := NoteIndices(data).value;
    var offs := OffsetsOf(data);
    var m := InRange(data, num, s, e);
    var w := Mask(offs, m);
    assert w == SelectOffsets(data, start, end).value;
    TimestampsBounds(data);
    forall i | 0 <= i < |data| ensures num[i] == i % (|data| / |Timestamps(data)|) {
      NoteIndicesMod(data, i);
    }
    forall y | y in w
      ensures exists i :: 0 <= i < |data| && s <= num[i] as real <= e && data[i].hitType == HitPress && y == data[i].offset
    {
      MaskFrom(offs, m, y);
    }
    forall i | 0 <= i < |data| && s <= num[i] as real <= e && data[i].hitType == HitPress ensures data[i].offset in w {
      InMask(offs, m, i);
    }
  }

  /** What one graph does with a range: nothing for `None`, fail to tile,
      or draw. */
  datatype Update<T> = NoChange | Failed(error: TileError) | Drawn(value: T)

  /** The points of `__plot_hit_distr`: each offset against its rank, and
      the y-limit, set only when something was selected. */
  datatype HitDistr = HitDistr(offsets: seq<int>, freqs: seq<nat>, yMax: Option<int>)

  /** `__plot_hit_distr`. */
  function PlotHitDistr(data: seq<PlayRow>, range: Option<(real, real)>): (u: Update<HitDistr>)
    ensures range.None? <==> u.NoChange?
    ensures range.Some? ==> (u.Failed? <==> NoteIndices(data).Failure?)
    ensures u.Drawn? ==>
      && u.value.offsets == SelectOffsets(data, range.value.0, range.value.1).value
      && u.value.freqs == Frequency.Ranks(u.value.offsets)
      && (u.value.yMax.Some? <==> |u.value.offsets| > 0)
      && (u.value.yMax.Some? ==> u.value.yMax.value == MaxInt(u.value.freqs) + 10)
  {
    match range
    case None => NoChange
    case Some((start, end)) =>
      match SelectOffsets(data, start, end)
      case Failure(err) => Failed(err)
      case Success(offsets) =>
        var freqs := Frequency.Ranks(offsets);
        Drawn(HitDistr(offsets, freqs, if |freqs| > 0 then Some(MaxInt(freqs) + 10) else None))
  }

  /** The largest rank is one less than the largest number of occurrences of
      any offset, so the y-limit leaves 9 above the tallest column of points. */
  lemma MaxRankIsTallestColumn(offsets: seq<int>)
    requires |offsets| > 0
    ensures var top := MaxInt(Frequency.Ranks(offsets));
      && (forall i :: 0 <= i < |offsets| ==> Count(offsets, offsets[i]) - 1 <= top)
      && exists i :: 0 <= i < |offsets| && top == Count(offsets, offsets[i]) - 1
  {
    var ranks := Frequency.Ranks(offsets);
    var top := MaxInt(ranks);
    forall i | 0 <= i < |offsets| ensures Count(offsets, offsets[i]) - 1 <= top {
      var v := offsets[i];
      Frequency.RanksEnumerateOccurrences(offsets, v);
      CountPositive(offsets, v);
      var last := Frequency.Positions(offsets, v)[Count(offsets, v) - 1];
      assert ranks[last] == Count(offsets, v) - 1;
    }
    var k :| 0 <= k < |ranks| && ranks[k] == top;
    Frequency.RankBelowCount(offsets, k);
  }

  /** The three vertical lines of `__plot_stats`: the mean and the mean
      plus and minus twice the standard deviation. */
  datatype StatLines = StatLines(mean: real, upper: real, lower: real)

  /** `__plot_stats`: the lines (NaN, here None, for an empty selection) and
      the model curve. */
  function PlotStats(data: seq<PlayRow>, range: Option<(real, real)>, sqrt: real -> real)
    : (u: Update<(Option<StatLines>, ModelCurve)>)
    ensures range.None? <==> u.NoChange?
    ensures range.Some? ==> (u.Failed? <==> NoteIndices(data).Failure?)
    ensures u.Drawn? ==>
      var w := Reals(SelectOffsets(data, range.value.0, range.value.1).value);
      && (u.value.0.None? <==> |w| == 0)
      && (u.value.0.Some? ==>
            var l := u.value.0.value;
            l.mean == Mean(w) && l.upper - l.mean == l.mean - l.lower == 2.0 * sqrt(Variance(w)))
      && u.value.1 == OffsetModel(w, sqrt)
  {
    match range
    case None => NoChange
    case Some((start, end)) =>
      match SelectOffsets(data, start, end)
      case Failure(err) => Failed(err)
      case Success(offsets) =>
        var w := Reals(offsets);
        var lines := if |w| == 0 then None else
          var m := Mean(w);
          var std := sqrt(Variance(w));
          Some(StatLines(m, std * 2.0 + m, -std * 2.0 + m));
        Drawn((lines, OffsetModel(w, sqrt)))
  }

  /** A zero spread clears the model; otherwise the normal pdf is scaled by
      the size of the selection. */
  lemma StatsModel(data: seq<PlayRow>, range: Option<(real, real)>, sqrt: real -> real)
    requires PlotStats(data, range, sqrt).Drawn?
    requires forall x :: x >= 0.0 ==> (sqrt(x) == 0.0 <==> x == 0.0)
    ensures var w := Reals(SelectOffsets(data, range.value.0, range.value.1).value);
      var model := PlotStats(data, range, sqrt).value.1;
      && (|w| > 0 ==> (model == Cleared <==> forall i :: 0 <= i < |w| ==> w[i] == w[0]))
      && (model.NormalPdf? ==> model.scale == |w| && model.mean == Mean(w))
  {
    var w := Reals(SelectOffsets(data, range.value.0, range.value.1).value);
    if |w| > 0 {
      ModelClearedIffConstant(w, sqrt);
    }
  }
}
