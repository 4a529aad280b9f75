/** The closed-form estimators of the softplus model's parameters, each of
    which reads anchor points off the collected (note interval, mean
    offset) points `xs`, `ys`:

    - `__solve` of mania_hitoffset_monitor.py;
    - `__solve` of simulate_intervals.py (anchors shifted by 2 standard
      deviations of the flat band);
    - `__plot_model` of mania_monitor_app/_hit_offset_interval_graph.py;
    - the two-point line of simulate_intervals_0.py.

    Python's `min`/`max` raise on an empty selection; numpy's mean of an
    empty selection and a division by zero give NaN or inf, which the
    model reports as `Undefined`. */
module Anchors {
  import opened Seqs

  /** `(lo <= s) & (s < hi)`. */
  function HalfOpenMask(s: seq<real>, lo: real, hi: real): (m: seq<bool>)
    ensures |m| == |s|
  {
    seq(|s|, i requires 0 <= i < |s| => lo <= s[i] < hi)
  }

  /** `(lo <= s) & (s <= hi)`. */
  function ClosedMask(s: seq<real>, lo: real, hi: real): (m: seq<bool>)
    ensures |m| == |s|
  {
    seq(|s|, i requires 0 <= i < |s| => lo <= s[i] <= hi)
  }

  /** `0 <= s`. */
  function NonNegativeMask(s: seq<real>): (m: seq<bool>)
    ensures |m| == |s|
  {
    seq(|s|, i requires 0 <= i < |s| => 0.0 <= s[i])
  }

  /** `mean_h[(-16 <= mean_h) & (mean_h < 16)]`: the mean offsets within one
      60 fps frame of 0. */
  function FlatBand(ys: seq<real>): seq<real>
  {
    Mask(ys, HalfOpenMask(ys, -16.0, 16.0))
  }

  lemma {:induction false} MaskNonEmpty<T>(s: seq<T>, m: seq<bool>)
    requires |s| == |m|
    ensures |Mask(s, m)| > 0 <==> exists i :: 0 <= i < |m| && m[i]
  {
    CountPositive(m, true);
  }

  /** `min(distr_t[(0 <= mean_h) & (mean_h < 2)])`: the smallest interval
      whose mean offset is in [0, 2); absent when there is none (Python's
      `min` raises). */
  function LeftmostFlat(xs: seq<real>, ys: seq<real>): (p0x: Option<real>)
    requires |xs| == |ys|
    ensures p0x.Some? <==> exists i :: 0 <= i < |ys| && 0.0 <= ys[i] < 2.0
    ensures p0x.Some? ==> exists i :: 0 <= i < |ys| && 0.0 <= ys[i] < 2.0 && xs[i] == p0x.value
    ensures p0x.Some? ==> forall i :: 0 <= i < |ys| && 0.0 <= ys[i] < 2.0 ==> p0x.value <= xs[i]
  {
    var m := HalfOpenMask(ys, 0.0, 2.0);
    assert forall i :: 0 <= i < |ys| ==> (m[i] <==> 0.0 <= ys[i] < 2.0);
    MaskNonEmpty(xs, m);
    if |Mask(xs, m)| == 0 then None
    else
      var v := MinOf(Mask(xs, m));
      MaskFrom(xs, m, v);
      assert forall i :: 0 <= i < |ys| && 0.0 <= ys[i] < 2.0 ==> xs[i] in Mask(xs, m) by {
        forall i | 0 <= i < |ys| && 0.0 <= ys[i] < 2.0 ensures xs[i] in Mask(xs, m) {
          InMask(xs, m, i);
        }
      }
      Some(v)
  }

  /** `min(distr_t[0 <= distr_t])`: the smallest non-negative interval. */
  function MinNonNegative(xs: seq<real>): (p1x: Option<real>)
    ensures p1x.Some? <==> exists i :: 0 <= i < |xs| && 0.0 <= xs[i]
    ensures p1x.Some? ==> 0.0 <= p1x.value && p1x.value in xs
    ensures p1x.Some? ==> forall i :: 0 <= i < |xs| && 0.0 <= xs[i] ==> p1x.value <= xs[i]
  {
    var m := NonNegativeMask(xs);
    assert forall i :: 0 <= i < |xs| ==> (m[i] <==> 0.0 <= xs[i]);
    MaskNonEmpty(xs, m);
    if |Mask(xs, m)| == 0 then None
    else
      var v := MinOf(Mask(xs, m));
      MaskFrom(xs, m, v);
      assert forall i :: 0 <= i < |xs| && 0.0 <= xs[i] ==> xs[i] in Mask(xs, m) by {
        forall i | 0 <= i < |xs| && 0.0 <= xs[i] ensures xs[i] in Mask(xs, m) {
          InMask(xs, m, i);
        }
      }
      Some(v)
  }

  /** `max(mean_h[0 <= distr_t])`: the largest mean offset over the
      non-negative intervals. */
  function MaxOverNonNegative(xs: seq<real>, ys: seq<real>): (p1y: Option<real>)
    requires |xs| == |ys|
    ensures p1y.Some? <==> exists i :: 0 <= i < |xs| && 0.0 <= xs[i]
    ensures p1y.Some? ==> exists i :: 0 <= i < |xs| && 0.0 <= xs[i] && ys[i] == p1y.value
    ensures p1y.Some? ==> forall i :: 0 <= i < |xs| && 0.0 <= xs[i] ==> ys[i] <= p1y.value
  {
    var m := NonNegativeMask(xs);
    assert forall i :: 0 <= i < |xs| ==> (m[i] <==> 0.0 <= xs[i]);
    MaskNonEmpty(ys, m);
    if |Mask(ys, m)| == 0 then None
    else
      var v := MaxOf(Mask(ys, m));
      MaskFrom(ys, m, v);
      assert forall i :: 0 <= i < |xs| && 0.0 <= xs[i] ==> ys[i] in Mask(ys, m) by {
        forall i | 0 <= i < |xs| && 0.0 <= xs[i] ensures ys[i] in Mask(ys, m) {
          InMask(ys, m, i);
        }
      }
      Some(v)
  }

  /** Which `min`/`max` raised first. */
  datatype AnchorError = NoFlatPoint | NoNonNegativeInterval

  /** The outcome of an estimator: an exception, a NaN/inf result, or the
      parameters (r, t_min, y) of the model. */
  datatype Estimate = Raised(error: AnchorError) | Undefined | Fitted(r: real, tMin: real, y: real)

  /** The slope through two points with distinct abscissae takes the line
      from the first point to the second. */
  lemma SlopeThrough(x0: real, y0: real, x1: real, y1: real)
    requires x0 != x1
    ensures ((y0 - y1) / (x0 - x1)) * (x1 - x0) + y0 == y1
  {
    var r := (y0 - y1) / (x0 - x1);
    assert r * (x0 - x1) == y0 - y1;
    calc {
      r * (x1 - x0) + y0;
      == -(r * (x0 - x1)) + y0;
      == -(y0 - y1) + y0;
      == y1;
    }
  }

  /** The three anchor values shared by the estimators: the leftmost flat
      interval `p0x`, the smallest non-negative interval `p1x`, and the
      highest mean offset `p1y` over the non-negative intervals. */
  datatype Corner = Corner(p0x: real, p1x: real, p1y: real)

  /** The anchors, or the error of the first `min`/`max` that raises. */
  function Corners(xs: seq<real>, ys: seq<real>): (c: Result<Corner, AnchorError>)
    requires |xs| == |ys|
    ensures c == Failure(NoFlatPoint) <==> forall i :: 0 <= i < |ys| ==> !(0.0 <= ys[i] < 2.0)
    ensures c == Failure(NoNonNegativeInterval) <==>
      (exists i :: 0 <= i < |ys| && 0.0 <= ys[i] < 2.0) && forall i :: 0 <= i < |xs| ==> xs[i] < 0.0
    ensures c.Success? ==>
      c.value == Corner(LeftmostFlat(xs, ys).value, MinNonNegative(xs).value, MaxOverNonNegative(xs, ys).value)
  {
    match (LeftmostFlat(xs, ys), MinNonNegative(xs), MaxOverNonNegative(xs, ys))
    case (None, _, _) => Failure(NoFlatPoint)
    case (_, None, _) => Failure(NoNonNegativeInterval)
    case (_, _, None) => Failure(NoNonNegativeInterval)
    case (Some(p0x), Some(p1x), Some(p1y)) => Success(Corner(p0x, p1x, p1y))
  }

  /** The monitor's line: `t_min = p0x`, `r = (0 - p1y)/(p0x - p1x)`, `y = 0`. */
  function MonitorFit(c: Corner): Estimate
  {
    if c.p0x == c.p1x then Undefined else Fitted((0.0 - c.p1y) / (c.p0x - c.p1x), c.p0x, 0.0)
  }

  /** The monitor's line `r*(t - t_min)` is 0 at the leftmost flat point and
      reaches the highest mean offset at the smallest non-negative interval;
      it is undefined exactly when those two points share their interval. */
  lemma MonitorFitThrough(c: Corner)
    ensures MonitorFit(c).Undefined? <==> c.p0x == c.p1x
    ensures MonitorFit(c).Fitted? ==>
      var e := MonitorFit(c);
      && e.tMin == c.p0x && e.y == 0.0
      && e.r * (c.p1x - e.tMin) + e.y == c.p1y
  {
    if c.p0x != c.p1x {
      SlopeThrough(c.p0x, 0.0, c.p1x, c.p1y);
    }
  }

  /** `__solve` of mania_hitoffset_monitor.py. */
  function MonitorSolve(xs: seq<real>, ys: seq<real>): (e: Estimate)
    requires |xs| == |ys|
    ensures e.Raised? <==> Corners(xs, ys).Failure?
    ensures e.Raised? ==> e.error == Corners(xs, ys).error
    ensures !e.Raised? ==> e == MonitorFit(Corners(xs, ys).value)
  {
    match Corners(xs, ys)
    case Failure(err) => Raised(err)
    case Success(c) => MonitorFit(c)
  }

  /** `p0y` and `p0y_std`: the mean and standard deviation of the flat band
      (`sqrt` stands for the square root). */
  function FlatLevel(ys: seq<real>, sqrt: real -> real): (level: Option<(real, real)>)
    ensures level.Some? <==> exists i :: 0 <= i < |ys| && -16.0 <= ys[i] < 16.0
    ensures level.Some? ==> |FlatBand(ys)| > 0 && level.value == (Mean(FlatBand(ys)), sqrt(Variance(FlatBand(ys))))
  {
    var m := HalfOpenMask(ys, -16.0, 16.0);
    assert forall i :: 0 <= i < |ys| ==> (m[i] <==> -16.0 <= ys[i] < 16.0);
    MaskNonEmpty(ys, m);
    var band := FlatBand(ys);
    assert band == Mask(ys, m);
    if |band| == 0 then None else Some((Mean(band), sqrt(Variance(band))))
  }

  /** The simulation's line: the leftmost flat point moved right and the top
      point moved down by twice the band's standard deviation, `t_min = p0x`
      and `r = (p0y - p1y)/(p0x - p1x)`; NaN when the band is empty. */
  function SimFit(c: Corner, level: Option<(real, real)>): Estimate
  {
    match level
    case None => Undefined
    case Some((p0y, std)) =>
      var p0x := c.p0x + 2.0 * std;
      var p1y := c.p1y - 2.0 * std;
      if p0x == c.p1x then Undefined else Fitted((p0y - p1y) / (p0x - c.p1x), p0x, p0y)
  }

  /** The simulation's line runs through the shifted anchors
      `(p0x + 2 std, p0y)` and `(p1x, p1y - 2 std)`. */
  lemma SimFitThrough(c: Corner, level: Option<(real, real)>)
    ensures level.None? ==> SimFit(c, level).Undefined?
    ensures SimFit(c, level).Fitted? ==>
      var e := SimFit(c, level);
      var (p0y, std) := level.value;
      && e.tMin == c.p0x + 2.0 * std && e.y == p0y
      && e.r * (c.p1x - e.tMin) + e.y == c.p1y - 2.0 * std
  {
    if level.Some? {
      var (p0y, std) := level.value;
      if c.p0x + 2.0 * std != c.p1x {
        SlopeThrough(c.p0x + 2.0 * std, p0y, c.p1x, c.p1y - 2.0 * std);
      }
    }
  }

  /** `__solve` of simulate_intervals.py: it raises on the same empty
      selections as the monitor's. */
  function SimSolve(xs: seq<real>, ys: seq<real>, sqrt: real -> real): (e: Estimate)
    requires |xs| == |ys|
    ensures e.Raised? <==> Corners(xs, ys).Failure?
    ensures e.Raised? ==> e == MonitorSolve(xs, ys)
    ensures !e.Raised? ==> e == SimFit(Corners(xs, ys).value, FlatLevel(ys, sqrt))
  {
    match Corners(xs, ys)
    case Failure(err) => Raised(err)
    case Success(c) => SimFit(c, FlatLevel(ys, sqrt))
  }

  /** The model emitted by `__plot_model` of the hit offset / interval graph,
      with the two horizontal band lines at `p0y +- 2*p0y_std`. */
  datatype GraphModel = GraphModel(estimate: Estimate, band: Option<(real, real)>)

  /** The graph's line: the monitor's anchors without the shifts and with the
      vertical offset at the flat level, and the band lines. */
  function GraphFit(c: Corner, level: Option<(real, real)>): GraphModel
  {
    match level
    case None => GraphModel(Undefined, None)
    case Some((p0y, std)) =>
      var band := Some((p0y + 2.0 * std, p0y - 2.0 * std));
      if c.p0x == c.p1x then GraphModel(Undefined, band)
      else GraphModel(Fitted((p0y - c.p1y) / (c.p0x - c.p1x), c.p0x, p0y), band)
  }

  /** The band lines sit symmetrically around the flat level (below and
      above it when `sqrt` is non-negative), and a fitted line starts at the
      leftmost flat point at the flat level and reaches the highest mean
      offset at the smallest non-negative interval. */
  lemma GraphFitThrough(c: Corner, level: Option<(real, real)>)
    ensures GraphFit(c, level).band.Some? <==> level.Some?
    ensures level.Some? ==>
      var (top, btm) := GraphFit(c, level).band.value;
      var (p0y, std) := level.value;
      && top - p0y == p0y - btm == 2.0 * std
      && (std >= 0.0 ==> btm <= p0y <= top)
    ensures GraphFit(c, level).estimate.Fitted? ==>
      var e := GraphFit(c, level).estimate;
      && e.tMin == c.p0x && e.y == level.value.0
      && e.r * (c.p1x - e.tMin) + e.y == c.p1y
  {
    if level.Some? && c.p0x != c.p1x {
      SlopeThrough(c.p0x, level.value.0, c.p1x, c.p1y);
    }
  }

  /** `__plot_model`: a raise draws nothing (no band); otherwise the band
      is drawn exactly when the flat band holds a point. */
  function GraphSolve(xs: seq<real>, ys: seq<real>, sqrt: real -> real): (g: GraphModel)
    requires |xs| == |ys|
    ensures g.estimate.Raised? <==> Corners(xs, ys).Failure?
    ensures g.estimate.Raised? ==> g.estimate == MonitorSolve(xs, ys) && g.band.None?
    ensures !g.estimate.Raised? ==> g == GraphFit(Corners(xs, ys).value, FlatLevel(ys, sqrt))
  {
    match Corners(xs, ys)
    case Failure(err) => GraphModel(Raised(err), None)
    case Success(c) => GraphFit(c, FlatLevel(ys, sqrt))
  }

  /** Every element selected by a closed range mask lies in the range. */
  lemma ClosedMaskInRange(s: seq<real>, lo: real, hi: real)
    ensures forall i :: 0 <= i < |Mask(s, ClosedMask(s, lo, hi))| ==> lo <= Mask(s, ClosedMask(s, lo, hi))[i] <= hi
  {
    var sel := Mask(s, ClosedMask(s, lo, hi));
    forall i | 0 <= i < |sel| ensures lo <= sel[i] <= hi {
      MaskFrom(s, ClosedMask(s, lo, hi), sel[i]);
    }
  }

  /** The mean points of simulate_intervals_0.py: `(x0, y0)` over the rows
      with `-2 <= t_min <= 2` and `(x1, y1)` over the rows with
      `98 <= t_min <= 102`; absent (NaN) when either window is empty. Each
      mean interval lies in its window. */
  function WindowMeans(tMin: seq<real>, offset: seq<real>): (p: Option<(real, real, real, real)>)
    requires |tMin| == |offset|
    ensures p.Some? <==>
      (exists i :: 0 <= i < |tMin| && -2.0 <= tMin[i] <= 2.0) && (exists i :: 0 <= i < |tMin| && 98.0 <= tMin[i] <= 102.0)
    ensures p.Some? ==> -2.0 <= p.value.0 <= 2.0 && 98.0 <= p.value.2 <= 102.0
  {
    var m0 := ClosedMask(tMin, -2.0, 2.0);
    var m1 := ClosedMask(tMin, 98.0, 102.0);
    assert forall i :: 0 <= i < |tMin| ==> (m0[i] <==> -2.0 <= tMin[i] <= 2.0);
    assert forall i :: 0 <= i < |tMin| ==> (m1[i] <==> 98.0 <= tMin[i] <= 102.0);
    MaskNonEmpty(tMin, m0);
    MaskNonEmpty(tMin, m1);
    if |Mask(tMin, m0)| == 0 || |Mask(tMin, m1)| == 0 then None
    else
      ClosedMaskInRange(tMin, -2.0, 2.0);
      ClosedMaskInRange(tMin, 98.0, 102.0);
      MeanBounds(Mask(tMin, m0), -2.0, 2.0);
      MeanBounds(Mask(tMin, m1), 98.0, 102.0);
      Some((Mean(Mask(tMin, m0)), Mean(Mask(offset, m0)), Mean(Mask(tMin, m1)), Mean(Mask(offset, m1))))
  }

  /** `slope = (y0 - y1)/(x0 - x1)` and `b0 = -slope*x0 + y0`. */
  function LineThrough(x0: real, y0: real, x1: real, y1: real): (real, real)
    requires x0 != x1
  {
    var slope := (y0 - y1) / (x0 - x1);
    (slope, -slope * x0 + y0)
  }

  /** The line `slope*t + b0` passes through both points. */
  lemma LineThroughPoints(x0: real, y0: real, x1: real, y1: real)
    requires x0 != x1
    ensures LineThrough(x0, y0, x1, y1).0 * x0 + LineThrough(x0, y0, x1, y1).1 == y0
    ensures LineThrough(x0, y0, x1, y1).0 * x1 + LineThrough(x0, y0, x1, y1).1 == y1
  {
    var slope := (y0 - y1) / (x0 - x1);
    SlopeThrough(x0, y0, x1, y1);
    assert slope * x1 + (-slope * x0 + y0) == slope * (x1 - x0) + y0;
  }

  /** The two-point line of simulate_intervals_0.py; the two window means
      can never coincide, since the windows are disjoint, so the line is
      defined exactly when both windows hold a row. */
  function TwoPointLine(tMin: seq<real>, offset: seq<real>): (line: Option<(real, real)>)
    requires |tMin| == |offset|
    ensures line.Some? <==> WindowMeans(tMin, offset).Some?
    ensures line.Some? ==>
      var (x0, y0, x1, y1) := WindowMeans(tMin, offset).value;
      x0 != x1 && line.value == LineThrough(x0, y0, x1, y1)
  {
    match WindowMeans(tMin, offset)
    case None => None
    case Some((x0, y0, x1, y1)) => Some(LineThrough(x0, y0, x1, y1))
  }
}
