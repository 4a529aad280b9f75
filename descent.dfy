/** The curve fit of mania_hitoffset_monitor.py and simulate_intervals.py:
    the softplus model of mean hit offset against note interval, its
    absolute-error objective, and the damped finite-difference descent
    `__solve2`.

    The transcendental parts (`log(exp(x) + 1)` in the monitor and
    `log(exp(x) + exp(y))` in the simulation) are parameters. */
module Descent {
  import opened Seqs

  /** `__softplus_func` of the monitor: `lin = r*(t - t_min)`, the entries
      below 100 replaced by `softplus(lin)`, then `y` added to every entry. */
  function Softplus(t: seq<real>, r: real, tMin: real, y: real, softplus: real -> real): (f: seq<real>)
    ensures |f| == |t|
  {
    seq(|t|, i requires 0 <= i < |t| =>
      var lin := r * (t[i] - tMin);
      (if lin < 100.0 then softplus(lin) else lin) + y)
  }

  /** The model is the line `r*(t - t_min) + y` from 100 upwards; below it
      lies above the line whenever `softplus(x) > x` (as `log(exp(x) + 1)`
      does) and above `y` whenever `softplus` is positive. */
  lemma SoftplusShape(t: seq<real>, r: real, tMin: real, y: real, softplus: real -> real, i: nat)
    requires i < |t|
    ensures r * (t[i] - tMin) >= 100.0 ==> Softplus(t, r, tMin, y, softplus)[i] == r * (t[i] - tMin) + y
    ensures (forall x :: softplus(x) > x) ==> Softplus(t, r, tMin, y, softplus)[i] >= r * (t[i] - tMin) + y
    ensures (forall x :: softplus(x) > 0.0) ==> Softplus(t, r, tMin, y, softplus)[i] > y
  {
  }

  /** `__softplus_func` of simulate_intervals.py: the entries below 100 are
      replaced by `lse(lin, y)` (`log(exp(lin) + exp(y))`); the others are
      returned as they are, with no `y` added. */
  function SimSoftplus(t: seq<real>, r: real, tMin: real, y: real, lse: (real, real) -> real): (f: seq<real>)
    ensures |f| == |t|
  {
    seq(|t|, i requires 0 <= i < |t| =>
      var lin := r * (t[i] - tMin);
      if lin < 100.0 then lse(lin, y) else lin)
  }

  /** From 100 upwards the simulation's model is the bare line, whatever `y` is. */
  lemma SimSoftplusPassthrough(t: seq<real>, r: real, tMin: real, y: real, y': real, lse: (real, real) -> real, i: nat)
    requires i < |t| && r * (t[i] - tMin) >= 100.0
    ensures SimSoftplus(t, r, tMin, y, lse)[i] == r * (t[i] - tMin)
    ensures SimSoftplus(t, r, tMin, y, lse)[i] == SimSoftplus(t, r, tMin, y', lse)[i]
  {
  }

  function Abs(x: real): real
  {
    if x < 0.0 then -x else x
  }

  /** `np.abs(observed - fit)` element-wise. */
  function AbsResiduals(observed: seq<real>, fit: seq<real>): (r: seq<real>)
    requires |observed| == |fit|
    ensures |r| == |observed|
  {
    seq(|observed|, i requires 0 <= i < |observed| => Abs(observed[i] - fit[i]))
  }

  /** `__calc_err`: the sum of the absolute residuals of the mean offsets
      against the model. */
  function CalcErr(distrT: seq<real>, meanH: seq<real>, r: real, tMin: real, y: real, softplus: real -> real): real
    requires |distrT| == |meanH|
  {
    Sum(AbsResiduals(meanH, Softplus(distrT, r, tMin, y, softplus)))
  }

  /** The error is never negative, and it is 0 exactly when the model goes
      through every point. */
  lemma CalcErrMeaning(distrT: seq<real>, meanH: seq<real>, r: real, tMin: real, y: real, softplus: real -> real)
    requires |distrT| == |meanH|
    ensures CalcErr(distrT, meanH, r, tMin, y, softplus) >= 0.0
    ensures CalcErr(distrT, meanH, r, tMin, y, softplus) == 0.0 <==>
      forall i :: 0 <= i < |meanH| ==> meanH[i] == Softplus(distrT, r, tMin, y, softplus)[i]
  {
    var fit := Softplus(distrT, r, tMin, y, softplus);
    var res := AbsResiduals(meanH, fit);
    SumNonNegative(res);
    assert CalcErr(distrT, meanH, r, tMin, y, softplus) == Sum(res);
    if Sum(res) == 0.0 {
      SumZeroOfNonNegative(res);
      forall i | 0 <= i < |meanH| ensures meanH[i] == fit[i] {
        assert res[i] == Abs(meanH[i] - fit[i]) == 0.0;
      }
    }
    if forall i :: 0 <= i < |meanH| ==> meanH[i] == fit[i] {
      forall i | 0 <= i < |res| ensures res[i] == 0.0 {
        assert res[i] == Abs(meanH[i] - fit[i]);
      }
      SumConstant(res, 0.0);
    }
  }

  /** `__calc_err` of simulate_intervals.py, over its own model. */
  function SimCalcErr(distrT: seq<real>, meanH: seq<real>, r: real, tMin: real, y: real, lse: (real, real) -> real): real
    requires |distrT| == |meanH|
  {
    Sum(AbsResiduals(meanH, SimSoftplus(distrT, r, tMin, y, lse)))
  }

  lemma SimCalcErrNonNegative(distrT: seq<real>, meanH: seq<real>, r: real, tMin: real, y: real, lse: (real, real) -> real)
    requires |distrT| == |meanH|
    ensures SimCalcErr(distrT, meanH, r, tMin, y, lse) >= 0.0
  {
    SumNonNegative(AbsResiduals(meanH, SimSoftplus(distrT, r, tMin, y, lse)));
  }

  /** `__is_opposite_sign`: 0 counts as non-negative. */
  function IsOppositeSign(a: real, b: real): bool
  {
    (a >= 0.0) != (b >= 0.0)
  }

  /** The finite-difference step of `__solve2`. */
  const Delta: real := 0.1

  /** The iteration budget of `__solve2`. */
  const Steps: nat := 500

  /** One fitted parameter: its value, its learning rate, and the three-slot
      history of its gradients, newest first. */
  datatype Param = Param(value: real, rate: real, h0: real, h1: real, h2: real)

  /** The anti-oscillation update of one parameter with gradient `g`: shift
      `g` into the history, halve the rate when the history flips sign
      twice in a row, then step against the gradient with the new rate. */
  function Damp(p: Param, g: real): (q: Param)
    ensures q.h0 == g && q.h1 == p.h0 && q.h2 == p.h1
    ensures q.rate == p.rate || q.rate == p.rate / 2.0
    ensures q.value == p.value - q.rate * g
  {
    var rate := if IsOppositeSign(g, p.h0) && IsOppositeSign(p.h0, p.h1) then p.rate / 2.0 else p.rate;
    Param(p.value - rate * g, rate, g, p.h0, p.h1)
  }

  /** With a positive rate, the rate is halved exactly when the new gradient
      and the two before it alternate in sign. */
  lemma DampHalvesIff(p: Param, g: real)
    requires p.rate > 0.0
    ensures Damp(p, g).rate < p.rate <==> IsOppositeSign(g, p.h0) && IsOppositeSign(p.h0, p.h1)
    ensures Damp(p, g).rate > 0.0
  {
  }

  /** A gradient of the same sign as the last one never halves the rate. */
  lemma SameSignKeepsRate(p: Param, g: real)
    requires (g >= 0.0) == (p.h0 >= 0.0)
    ensures Damp(p, g).rate == p.rate
  {
  }

  /** The three parameters r, t_min and y. */
  datatype State = State(r: Param, t: Param, y: Param)

  /** `r = -0.5`, `t_min = 200`, `y = 0`, rates 0.01, 1 and 1, zero histories. */
  const Initial: State := State(
    Param(-0.5, 0.01, 0.0, 0.0, 0.0),
    Param(200.0, 1.0, 0.0, 0.0, 0.0),
    Param(0.0, 1.0, 0.0, 0.0, 0.0))

  /** One iteration of `__solve2` over objective `err`: all three gradients
      are forward differences taken at the old values. */
  function Step(err: (real, real, real) -> real, s: State): State
  {
    var r, t, y := s.r.value, s.t.value, s.y.value;
    State(
      Damp(s.r, err(r + Delta, t, y) - err(r, t, y)),
      Damp(s.t, err(r, t + Delta, y) - err(r, t, y)),
      Damp(s.y, err(r, t, y + Delta) - err(r, t, y)))
  }

  /** n iterations. */
  function Run(err: (real, real, real) -> real, s: State, n: nat): State
  {
    if n == 0 then s else Step(err, Run(err, s, n - 1))
  }

  function Pow2(k: nat): (p: real)
    ensures p >= 1.0
  {
    if k == 0 then 1.0 else 2.0 * Pow2(k - 1)
  }

  /** After n iterations every rate is its starting value halved k times for
      some k <= n: the rates never grow and never reach 0. */
  lemma {:induction false} RunRates(err: (real, real, real) -> real, s: State, n: nat)
    requires s.r.rate > 0.0 && s.t.rate > 0.0 && s.y.rate > 0.0
    ensures exists k: nat :: k <= n && Run(err, s, n).r.rate == s.r.rate / Pow2(k)
    ensures exists k: nat :: k <= n && Run(err, s, n).t.rate == s.t.rate / Pow2(k)
    ensures exists k: nat :: k <= n && Run(err, s, n).y.rate == s.y.rate / Pow2(k)
  {
    if n == 0 {
      assert Run(err, s, 0).r.rate == s.r.rate / Pow2(0);
      assert Run(err, s, 0).t.rate == s.t.rate / Pow2(0);
      assert Run(err, s, 0).y.rate == s.y.rate / Pow2(0);
    } else {
      RunRates(err, s, n - 1);
      var prev := Run(err, s, n - 1);
      var next := Run(err, s, n);
      assert next == Step(err, prev);
      var kr: nat :| kr <= n - 1 && prev.r.rate == s.r.rate / Pow2(kr);
      var kt: nat :| kt <= n - 1 && prev.t.rate == s.t.rate / Pow2(kt);
      var ky: nat :| ky <= n - 1 && prev.y.rate == s.y.rate / Pow2(ky);
      HalveStep(s.r.rate, prev.r.rate, next.r.rate, kr);
      HalveStep(s.t.rate, prev.t.rate, next.t.rate, kt);
      HalveStep(s.y.rate, prev.y.rate, next.y.rate, ky);
    }
  }

  lemma HalveStep(a0: real, a: real, a': real, k: nat)
    requires a == a0 / Pow2(k)
    requires a' == a || a' == a / 2.0
    ensures a' == a0 / Pow2(k) || a' == a0 / Pow2(k + 1)
  {
    assert Pow2(k + 1) == 2.0 * Pow2(k);
  }

  /** Every rate stays positive and never exceeds its starting value. */
  lemma {:induction false} RunRatesBounded(err: (real, real, real) -> real, s: State, n: nat)
    requires s.r.rate > 0.0 && s.t.rate > 0.0 && s.y.rate > 0.0
    ensures 0.0 < Run(err, s, n).r.rate <= s.r.rate
    ensures 0.0 < Run(err, s, n).t.rate <= s.t.rate
    ensures 0.0 < Run(err, s, n).y.rate <= s.y.rate
  {
    if n > 0 {
      RunRatesBounded(err, s, n - 1);
    }
  }

  /** Because the histories start at 0, which counts as non-negative, the
      first iteration never halves a rate. */
  lemma FirstStepKeepsRates(err: (real, real, real) -> real)
    ensures Run(err, Initial, 1).r.rate == Initial.r.rate
    ensures Run(err, Initial, 1).t.rate == Initial.t.rate
    ensures Run(err, Initial, 1).y.rate == Initial.y.rate
  {
    assert Run(err, Initial, 1) == Step(err, Initial);
  }

  /** The zero history also counts as a sign: a negative gradient followed
      by a non-negative one already halves the rate on the second iteration,
      after a single real sign change. */
  lemma SecondStepCanHalve(v: real, a: real)
    ensures Damp(Damp(Param(v, a, 0.0, 0.0, 0.0), -1.0), 1.0).rate == a / 2.0
  {
  }

  /** The objective minimised by `__solve2`: `__calc_err` over the
      collected (interval, mean offset) points. */
  function Objective(distrT: seq<real>, meanH: seq<real>, softplus: real -> real): (real, real, real) -> real
    requires |distrT| == |meanH|
  {
    (r: real, t: real, y: real) => CalcErr(distrT, meanH, r, t, y, softplus)
  }

  /** The update of one parameter inside the loop of `__solve2`: the
      history array is shifted in place (`hist[1:] = hist[:-1]`), the new
      gradient written to slot 0, the rate halved on a double sign flip, and
      the value stepped against the gradient. */
  method DampInPlace(value: real, rate: real, hist: array<real>, g: real) returns (value': real, rate': real)
    requires hist.Length == 3
    modifies hist
    ensures Param(value', rate', hist[0], hist[1], hist[2]) ==
      Damp(Param(value, rate, old(hist[0]), old(hist[1]), old(hist[2])), g)
  {
    hist[2], hist[1] := hist[1], hist[0];
    hist[0] := g;
    rate' := rate;
    if IsOppositeSign(hist[0], hist[1]) && IsOppositeSign(hist[1], hist[2]) {
      rate' := rate / 2.0;
    }
    value' := value - rate' * g;
  }

  /** The state held in the method's variables and history arrays. */
  function StateOf(r: real, aR: real, rHist: array<real>, tMin: real, aT: real, tHist: array<real>,
                   y: real, aY: real, yHist: array<real>): State
    requires rHist.Length == 3 && tHist.Length == 3 && yHist.Length == 3
    reads rHist, tHist, yHist
  {
    State(Param(r, aR, rHist[0], rHist[1], rHist[2]),
          Param(tMin, aT, tHist[0], tHist[1], tHist[2]),
          Param(y, aY, yHist[0], yHist[1], yHist[2]))
  }

  /** One pass of the loop body of `__solve2`. */
  method Iterate(err: (real, real, real) -> real, r: real, aR: real, rHist: array<real>,
                 tMin: real, aT: real, tHist: array<real>, y: real, aY: real, yHist: array<real>)
    returns (r': real, aR': real, tMin': real, aT': real, y': real, aY': real)
    requires rHist.Length == 3 && tHist.Length == 3 && yHist.Length == 3
    requires rHist != tHist && tHist != yHist && rHist != yHist
    modifies rHist, tHist, yHist
    ensures StateOf(r', aR', rHist, tMin', aT', tHist, y', aY', yHist) ==
      Step(err, old(StateOf(r, aR, rHist, tMin, aT, tHist, y, aY, yHist)))
  {
    var base := err(r, tMin, y);
    var rErr := err(r + Delta, tMin, y) - base;
    var tErr := err(r, tMin + Delta, y) - base;
    var yErr := err(r, tMin, y + Delta) - base;
    r', aR' := DampInPlace(r, aR, rHist, rErr);
    tMin', aT' := DampInPlace(tMin, aT, tHist, tErr);
    y', aY' := DampInPlace(y, aY, yHist, yErr);
  }

  /** The loop of `__solve2` over any objective: `steps` iterations from the
      initial state (`__solve2` runs 500). */
  method Descend(err: (real, real, real) -> real, steps: nat) returns (r: real, tMin: real, y: real)
    ensures var s := Run(err, Initial, steps);
      r == s.r.value && tMin == s.t.value && y == s.y.value
  {
    r, tMin, y := -0.5, 200.0, 0.0;
    var aR, aT, aY := 0.01, 1.0, 1.0;
    var rHist := new real[3](_ => 0.0);
    var tHist := new real[3](_ => 0.0);
    var yHist := new real[3](_ => 0.0);
    var step := steps;
    while step > 0
      invariant 0 <= step <= steps
      invariant StateOf(r, aR, rHist, tMin, aT, tHist, y, aY, yHist) == Run(err, Initial, steps - step)
    {
      step := step - 1;
      r, aR, tMin, aT, y, aY := Iterate(err, r, aR, rHist, tMin, aT, tHist, y, aY, yHist);
      RunSucc(err, steps - step - 1);
    }
  }

  lemma RunSucc(err: (real, real, real) -> real, n: nat)
    ensures Run(err, Initial, n + 1) == Step(err, Run(err, Initial, n))
  {
  }

  /** `__solve2`: the parameters found by the descent over the collected
      points, and the error per point that is printed (undefined when there
      are no points). */
  method Solve2(distrT: seq<real>, meanH: seq<real>, softplus: real -> real)
    returns (r: real, tMin: real, y: real, errPerPoint: Option<real>)
    requires |distrT| == |meanH|
    ensures var s := Run(Objective(distrT, meanH, softplus), Initial, Steps);
      r == s.r.value && tMin == s.t.value && y == s.y.value
    ensures errPerPoint.Some? <==> |distrT| > 0
    ensures errPerPoint.Some? ==> errPerPoint.value == CalcErr(distrT, meanH, r, tMin, y, softplus) / (|distrT| as real)
  {
    r, tMin, y := Descend(Objective(distrT, meanH, softplus), Steps);
    if |distrT| == 0 {
      errPerPoint := None;
    } else {
      errPerPoint := Some(CalcErr(distrT, meanH, r, tMin, y, softplus) / (|distrT| as real));
    }
  }
}
