/** mania_monitor_app/_interval_offset_graph.py: over the note-interval
    buffer, the hit offsets plotted against the interval before the note,
    and per distinct interval the mean and spread of the hit offsets whose
    interval is within one millisecond of it. */
module IntervalOffsetGraph {
  import opened Seqs
  import opened Sorting
  import opened Records
  import opened NoteIntervalGraph

  /** `interval_data[interval_data[:, 3] == TYPE_HITP]`, in buffer order. */
  function HitRows(buffer: seq<IntervalRow>): (r: seq<IntervalRow>)
    ensures forall x :: x in r <==> x in buffer && x.hitType == HitPress
  {
    Filter((x: IntervalRow) => x.hitType == HitPress, buffer)
  }

  /** `__plot_graph`: one point (interval, hit offset) per hit press. */
  function Scatter(buffer: seq<IntervalRow>): (p: seq<(int, int)>)
    ensures |p| == |HitRows(buffer)|
    ensures forall pt :: pt in p <==> exists x :: x in buffer && x.hitType == HitPress && pt == (x.interval, x.offset)
  {
    var rows := HitRows(buffer);
    var p := MapSeq((x: IntervalRow) => (x.interval, x.offset), rows);
    assert forall pt :: pt in p ==> exists x :: x in rows && pt == (x.interval, x.offset) by {
      forall pt | pt in p ensures exists x :: x in rows && pt == (x.interval, x.offset) {
        var i :| 0 <= i < |p| && p[i] == pt;
        assert rows[i] in rows;
      }
    }
    assert forall x :: x in rows ==> (x.interval, x.offset) in p by {
      forall x | x in rows ensures (x.interval, x.offset) in p {
        var i :| 0 <= i < |rows| && rows[i] == x;
        assert p[i] == (x.interval, x.offset);
      }
    }
    p
  }

  /** `np.abs(interval_data[:, 0] - interval) <= 1`. */
  function Near(rows: seq<IntervalRow>, u: int): (m: seq<bool>)
    ensures |m| == |rows|
    ensures forall i :: 0 <= i < |rows| ==> (m[i] <==> -1 <= rows[i].interval - u <= 1)
  {
    seq(|rows|, i requires 0 <= i < |rows| => -1 <= rows[i].interval - u <= 1)
  }

  function OffsetsOf(rows: seq<IntervalRow>): seq<int>
  {
    MapSeq((x: IntervalRow) => x.offset, rows)
  }

  /** The hit offsets of the rows within one millisecond of `u`. */
  function NearOffsets(rows: seq<IntervalRow>, u: int): seq<real>
  {
    Reals(Mask(OffsetsOf(rows), Near(rows, u)))
  }

  /** The window of `u` holds exactly the offsets of the rows within one
      millisecond of `u`, so it is never empty when `u` is itself one of the
      intervals. */
  lemma NearOffsetsMeaning(rows: seq<IntervalRow>, u: int)
    ensures forall y :: y in NearOffsets(rows, u) <==>
      exists x :: x in rows && -1 <= x.interval - u <= 1 && y == x.offset as real
    ensures (exists x :: x in rows && x.interval == u) ==> |NearOffsets(rows, u)| > 0
  {
    var offs := OffsetsOf(rows);
    var m := Near(rows, u);
    var w := Mask(offs, m);
    forall y | y in NearOffsets(rows, u)
      ensures exists x :: x in rows && -1 <= x.interval - u <= 1 && y == x.offset as real
    {
      var k :| 0 <= k < |w| && y == w[k] as real;
      MaskFrom(offs, m, w[k]);
      var i :| 0 <= i < |offs| && m[i] && offs[i] == w[k];
      assert rows[i] in rows;
    }
    forall x | x in rows && -1 <= x.interval - u <= 1 ensures x.offset as real in NearOffsets(rows, u) {
      var i :| 0 <= i < |rows| && rows[i] == x;
      InMask(offs, m, i);
      var k :| 0 <= k < |w| && w[k] == offs[i];
      assert NearOffsets(rows, u)[k] == x.offset as real;
    }
    if exists x :: x in rows && x.interval == u {
      var x :| x in rows && x.interval == u;
      assert x.offset as real in NearOffsets(rows, u);
    }
  }

  function IntervalsOf(rows: seq<IntervalRow>): seq<int>
  {
    MapSeq((x: IntervalRow) => x.interval, rows)
  }

  lemma IntervalsOfMeaning(rows: seq<IntervalRow>)
    ensures forall v :: v in IntervalsOf(rows) <==> exists x :: x in rows && x.interval == v
  {
    forall v | v in IntervalsOf(rows) ensures exists x :: x in rows && x.interval == v {
      var i :| 0 <= i < |rows| && IntervalsOf(rows)[i] == v;
      assert rows[i] in rows;
    }
    forall x | x in rows ensures x.interval in IntervalsOf(rows) {
      var i :| 0 <= i < |rows| && rows[i] == x;
      assert IntervalsOf(rows)[i] == x.interval;
    }
  }

  /** The model of `__plot_model`: the distinct intervals of the hit
      presses, and for each the mean of its window and the stored
      `2*np.std` of it. */
  datatype IntervalModel = IntervalModel(intervals: seq<int>, means: seq<real>, stddevs: seq<real>)

  /** Per distinct interval of the hit presses, in ascending order, the mean
      and twice the standard deviation of the offsets within one millisecond
      of it. */
  function PlotModel(buffer: seq<IntervalRow>, sqrt: real -> real): (m: IntervalModel)
    ensures |m.intervals| == |m.means| == |m.stddevs|
    ensures forall i, j :: 0 <= i < j < |m.intervals| ==> m.intervals[i] < m.intervals[j]
    ensures forall v :: v in m.intervals <==> exists x :: x in buffer && x.hitType == HitPress && x.interval == v
    ensures forall k :: 0 <= k < |m.intervals| ==>
      var w := NearOffsets(HitRows(buffer), m.intervals[k]);
      |w| > 0 && m.means[k] == Mean(w) && m.stddevs[k] == 2.0 * sqrt(Variance(w))
  {
    var rows := HitRows(buffer);
    IntLessIsStrictTotal();
    var us := Unique(IntervalsOf(rows), IntLess);
    IntervalsOfMeaning(rows);
    forall k | 0 <= k < |us| ensures |NearOffsets(rows, us[k])| > 0 {
      assert us[k] in IntervalsOf(rows);
      NearOffsetsMeaning(rows, us[k]);
    }
    IntervalModel(
      us,
      seq(|us|, k requires 0 <= k < |us| => Mean(NearOffsets(rows, us[k]))),
      seq(|us|, k requires 0 <= k < |us| => 2.0 * sqrt(Variance(NearOffsets(rows, us[k])))))
  }

  /** Each mean lies between the least and the greatest offset of its
      window. */
  lemma MeansWithinWindow(buffer: seq<IntervalRow>, sqrt: real -> real, k: nat)
    requires k < |PlotModel(buffer, sqrt).intervals|
    ensures var m := PlotModel(buffer, sqrt);
      var w := NearOffsets(HitRows(buffer), m.intervals[k]);
      MinOf(w) <= m.means[k] <= MaxOf(w)
  {
    var m := PlotModel(buffer, sqrt);
    var w := NearOffsets(HitRows(buffer), m.intervals[k]);
    MeanBounds(w, MinOf(w), MaxOf(w));
  }

  /** `top=2*stddevs, bottom=2*stddevs`: the error bar of each interval, as
      its lower and upper end. */
  function ErrorBars(m: IntervalModel): (bars: seq<(real, real)>)
    requires |m.means| == |m.stddevs|
    ensures |bars| == |m.means|
    ensures forall k :: 0 <= k < |bars| ==> bars[k].0 <= m.means[k] <= bars[k].1 || m.stddevs[k] < 0.0
  {
    seq(|m.means|, k requires 0 <= k < |m.means| => (m.means[k] - 2.0 * m.stddevs[k], m.means[k] + 2.0 * m.stddevs[k]))
  }

  /** The bar reaches four standard deviations of the window to either side
      of the mean. */
  lemma ErrorBarsSpan(buffer: seq<IntervalRow>, sqrt: real -> real, k: nat)
    requires k < |PlotModel(buffer, sqrt).intervals|
    ensures var m := PlotModel(buffer, sqrt);
      var w := NearOffsets(HitRows(buffer), m.intervals[k]);
      var bar := ErrorBars(m)[k];
      bar.1 - m.means[k] == m.means[k] - bar.0 == 4.0 * sqrt(Variance(w))
  {
  }
}
