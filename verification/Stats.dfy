/** anomaly.c and adaptive_threshold.c: the moving mean, the moving variance and the distance that
    turns into a score band. Arithmetic is over the reals. */
module Stats {

  const EPS: real := 0.000000001
  const NORM: real := 5000.0

  // One observation: requests in the last second, share of 4xx answers, response time.
  datatype Sample = Sample(rps: nat, err: real, ms: int)
  datatype Mean = Mean(rps: real, err: real, resp: real, samples: nat)
  datatype Spread = Spread(rps: real, err: real, resp: real, n: nat)
  datatype Config = Config(alpha: real, enabled: bool)

  predicate ValidConfig(c: Config) { 0.0 < c.alpha < 1.0 }

  // ---------- Specification, one dimension at a time ----------

  function Square(f: real): (r: real)
    ensures r >= 0.0
  {
    f * f
  }

  // The moving mean: the first sample is taken as it is.
  function MeanOf(c: Config, m: real, samples: nat, x: real): real {
    if !c.enabled then m
    else if samples == 0 then x
    else c.alpha * x + (1.0 - c.alpha) * m
  }

  // The moving variance after observation number n at distance d from the mean.
  function VarianceOf(v: real, n: nat, d: real): real
    requires n > 0
  {
    if n < 4 then v + Square(d)
    else if n == 4 then (v + Square(d)) / 4.0
    else 0.9 * v + 0.1 * Square(d)
  }

  function Floor(v: real): (s: real)
    ensures s >= EPS && s >= v
  {
    if v > EPS then v else EPS
  }

  function Share(d: real, v: real): real { d * d / Floor(v) }

  // Response time in units of five seconds, capped at one.
  function Norm(ms: int): real {
    var r := ms as real / NORM;
    if r > 1.0 then 1.0 else r
  }

  function MeanStep(c: Config, m: Mean, x: Sample): Mean {
    if !c.enabled then m
    else Mean(MeanOf(c, m.rps, m.samples, x.rps as real),
              MeanOf(c, m.err, m.samples, x.err),
              MeanOf(c, m.resp, m.samples, x.ms as real), m.samples + 1)
  }

  function SpreadStep(v: Spread, m: Mean, rps: real, err: real, norm: real): Spread {
    var n := v.n + 1;
    Spread(VarianceOf(v.rps, n, rps - m.rps), VarianceOf(v.err, n, err - m.err),
           VarianceOf(v.resp, n, norm - m.resp / NORM), n)
  }

  // The squared distance; zero until there are ten observations.
  function Distance2(m: Mean, v: Spread, rps: real, err: real, norm: real): real {
    if v.n < 10 then 0.0
    else Share(rps - m.rps, v.rps) + Share(err - m.err, v.err) + Share(norm - m.resp / NORM, v.resp)
  }

  // The points a distance is worth, told by its square.
  function Band(d2: real): nat {
    if d2 >= 30.25 then 13 else if d2 >= 12.25 then 8 else if d2 >= 4.0 then 4 else 0
  }

  // Comparing squares is comparing the distances themselves.
  lemma BandOfRoot(m: real, d2: real)
    requires m >= 0.0 && m * m == d2
    ensures Band(d2) == if m >= 5.5 then 13 else if m >= 3.5 then 8 else if m >= 2.0 then 4 else 0
  {
    SquareOrder(m, 5.5);
    SquareOrder(m, 3.5);
    SquareOrder(m, 2.0);
  }

  lemma Product(a: real, b: real)
    requires a >= 0.0 && b >= 0.0
    ensures a * b >= 0.0
  {
  }

  lemma SquareOrder(a: real, b: real)
    requires a >= 0.0 && b > 0.0
    ensures a >= b <==> a * a >= b * b
  {
    var plus, minus := a + b, a - b;
    assert a * a - b * b == minus * plus;
    if a >= b {
      assert minus * plus >= 0.0;
    } else {
      assert minus * plus < 0.0;
    }
  }

  // ---------- The records updated in place ----------

  class AdaptiveRecord {
    var emaRps: real
    var emaErr: real
    var emaResp: real
    var samples: nat

    function View(): Mean reads this { Mean(emaRps, emaErr, emaResp, samples) }

    constructor ()
      ensures View() == Mean(0.0, 0.0, 0.0, 0)
    {
      emaRps, emaErr, emaResp, samples := 0.0, 0.0, 0.0, 0;
    }

    // adaptive_update
    method Update(c: Config, x: Sample)
      modifies this
      ensures View() == MeanStep(c, old(View()), x)
    {
      if !c.enabled {
        return;
      }
      if samples == 0 {
        emaRps := x.rps as real;
        emaErr := x.err;
        emaResp := x.ms as real;
      } else {
        emaRps := c.alpha * x.rps as real + (1.0 - c.alpha) * emaRps;
        emaErr := c.alpha * x.err + (1.0 - c.alpha) * emaErr;
        emaResp := c.alpha * x.ms as real + (1.0 - c.alpha) * emaResp;
      }
      samples := samples + 1;
    }
  }

  class EwmaVariance {
    var varRps: real
    var varErr: real
    var varResp: real
    var n: nat

    function View(): Spread reads this { Spread(varRps, varErr, varResp, n) }

    constructor ()
      ensures View() == Spread(0.0, 0.0, 0.0, 0)
    {
      varRps, varErr, varResp, n := 0.0, 0.0, 0.0, 0;
    }

    // update_ewma_variance
    method Update(ar: AdaptiveRecord, rps: real, err: real, norm: real)
      modifies this
      ensures View() == SpreadStep(old(View()), ar.View(), rps, err, norm)
    {
      hide Square;
      n := n + 1;
      var dRps, dErr, dResp := rps - ar.emaRps, err - ar.emaErr, norm - ar.emaResp / NORM;
      if n < 5 {
        varRps := varRps + Square(dRps);
        varErr := varErr + Square(dErr);
        varResp := varResp + Square(dResp);
        if n == 4 {
          varRps := varRps / 4.0;
          varErr := varErr / 4.0;
          varResp := varResp / 4.0;
        }
      } else {
        varRps := 0.9 * varRps + 0.1 * Square(dRps);
        varErr := 0.9 * varErr + 0.1 * Square(dErr);
        varResp := 0.9 * varResp + 0.1 * Square(dResp);
      }
    }
  }

  // ---------- Runs ----------

  datatype State = State(mean: Mean, spread: Spread)

  // A scored observation updates the variance first; a silent one, taken when the score stayed low,
  // updates the mean first.
  datatype Event = Scored(c: Config, x: Sample) | Silent(c: Config, x: Sample)

  const START := State(Mean(0.0, 0.0, 0.0, 0), Spread(0.0, 0.0, 0.0, 0))

  function SilentNorm(ms: int): real { if ms > 0 then Norm(ms) else 0.0 }

  function Step(s: State, e: Event): State {
    match e
    case Scored(c, x) =>
      State(MeanStep(c, s.mean, x), SpreadStep(s.spread, s.mean, x.rps as real, x.err, Norm(x.ms)))
    case Silent(c, x) =>
      var m := MeanStep(c, s.mean, x);
      State(m, SpreadStep(s.spread, m, x.rps as real, x.err, SilentNorm(x.ms)))
  }

  function Run(events: seq<Event>): State {
    if events == [] then START else Step(Run(events[..|events| - 1]), events[|events| - 1])
  }

  predicate NonNegative(v: Spread) { v.rps >= 0.0 && v.err >= 0.0 && v.resp >= 0.0 }

  // The squared distance of an observation scored in state s.
  function ScoredDistance2(s: State, c: Config, x: Sample): real {
    var t := Step(s, Scored(c, x));
    Distance2(t.mean, t.spread, x.rps as real, x.err, Norm(x.ms))
  }

  // The learning part of anomaly_weighted_score: what it adds to the rule score.
  method WeightedScore(ar: AdaptiveRecord, ev: EwmaVariance, c: Config, total: int, x: Sample, rules: nat)
    returns (score: nat)
    modifies ar, ev
    ensures total > 0 ==> State(ar.View(), ev.View()) == Step(old(State(ar.View(), ev.View())), Scored(c, x))
    ensures total <= 0 ==> ar.View() == old(ar.View()) && ev.View() == old(ev.View())
    ensures score == rules + if total > 0 then Band(ScoredDistance2(old(State(ar.View(), ev.View())), c, x)) else 0
  {
    score := rules;
    if total > 0 {
      var norm := x.ms as real / NORM;
      if norm > 1.0 {
        norm := 1.0;
      }
      ev.Update(ar, x.rps as real, x.err, norm);
      ar.Update(c, x);
      var d2 := Distance2(ar.View(), ev.View(), x.rps as real, x.err, norm);
      if d2 >= 30.25 {
        score := score + 13;
      } else if d2 >= 12.25 {
        score := score + 8;
      } else if d2 >= 4.0 {
        score := score + 4;
      }
    }
  }

  // ---------- Variances never go negative ----------

  lemma VarianceNonNegative(v: real, n: nat, d: real)
    requires n > 0 && v >= 0.0
    ensures VarianceOf(v, n, d) >= 0.0
  {
    assert d * d >= 0.0;
  }

  lemma {:induction false} RunNonNegative(events: seq<Event>)
    ensures NonNegative(Run(events).spread)
  {
    if events != [] {
      var s, e := Run(events[..|events| - 1]), events[|events| - 1];
      RunNonNegative(events[..|events| - 1]);
      var m := if e.Scored? then s.mean else MeanStep(e.c, s.mean, e.x);
      var norm := if e.Scored? then Norm(e.x.ms) else SilentNorm(e.x.ms);
      VarianceNonNegative(s.spread.rps, s.spread.n + 1, e.x.rps as real - m.rps);
      VarianceNonNegative(s.spread.err, s.spread.n + 1, e.x.err - m.err);
      VarianceNonNegative(s.spread.resp, s.spread.n + 1, norm - m.resp / NORM);
    }
  }

  // ---------- The distance is bounded ----------

  lemma Quotient(a: real, b: real, s: real)
    requires s > 0.0 && a <= b * s
    ensures a / s <= b
  {
    var q := a / s;
    assert q * s == a;
    assert (b - q) * s >= 0.0;
  }

  // The variance already holds a tenth of the squared distance to the old mean; the new mean is
  // closer by the factor f.
  lemma ShareBound(v: real, n: nat, d: real, f: real)
    requires v >= 0.0 && n >= 10
    ensures Share(f * d, VarianceOf(v, n, d)) <= 10.0 * Square(f)
  {
    var s := Floor(VarianceOf(v, n, d));
    var q, g := d * d, Square(f);
    assert q <= 10.0 * s;
    Product(g, 10.0 * s - q);
    assert (f * d) * (f * d) == g * q;
    Quotient(g * q, 10.0 * g, s);
  }

  // How much of the old distance is left after the mean has moved.
  function Left(c: Config, samples: nat): real {
    if !c.enabled then 1.0 else if samples == 0 then 0.0 else 1.0 - c.alpha
  }

  lemma MeanCloser(c: Config, m: real, samples: nat, x: real)
    ensures x - MeanOf(c, m, samples, x) == Left(c, samples) * (x - m)
  {
  }

  // One dimension of the distance.
  lemma DimensionBound(c: Config, v: real, n: nat, m: real, samples: nat, x: real)
    requires v >= 0.0 && n >= 10
    ensures Share(x - MeanOf(c, m, samples, x), VarianceOf(v, n, x - m)) <= 10.0 * Square(Left(c, samples))
  {
    MeanCloser(c, m, samples, x);
    ShareBound(v, n, x - m, Left(c, samples));
  }

  // The response dimension keeps its mean in milliseconds and the observation in capped units.
  lemma ResponseBound(c: Config, v: real, n: nat, m: real, samples: nat, ms: int)
    requires v >= 0.0 && n >= 10 && (ms <= 5000 || !c.enabled)
    ensures Share(Norm(ms) - MeanOf(c, m, samples, ms as real) / NORM, VarianceOf(v, n, Norm(ms) - m / NORM))
         <= 10.0 * Square(Left(c, samples))
  {
    var l, x := Left(c, samples), ms as real;
    MeanCloser(c, m, samples, x);
    assert Norm(ms) - MeanOf(c, m, samples, x) / NORM == l * (Norm(ms) - m / NORM) by {
      if c.enabled {
        assert Norm(ms) == x / NORM;
        assert (x - MeanOf(c, m, samples, x)) / NORM == l * (x - m) / NORM;
      }
    }
    ShareBound(v, n, Norm(ms) - m / NORM, l);
  }

  // Whatever came before, an observation stays within the bound if it took at most five seconds or
  // nothing is learnt from it.
  lemma DistanceBound(s: State, c: Config, x: Sample)
    requires NonNegative(s.spread) && (x.ms <= 5000 || !c.enabled)
    ensures ScoredDistance2(s, c, x) <= 30.0 * Square(Left(c, s.mean.samples))
  {
    hide Share, VarianceOf, Square, Norm, Left;
    var n, k := s.spread.n + 1, s.mean.samples;
    if n >= 10 {
      DimensionBound(c, s.spread.rps, n, s.mean.rps, k, x.rps as real);
      DimensionBound(c, s.spread.err, n, s.mean.err, k, x.err);
      ResponseBound(c, s.spread.resp, n, s.mean.resp, k, x.ms);
      MeanStepIs(c, s.mean, x);
    }
  }

  lemma MeanStepIs(c: Config, m: Mean, x: Sample)
    ensures var t := MeanStep(c, m, x);
      && t.rps == MeanOf(c, m.rps, m.samples, x.rps as real) && t.err == MeanOf(c, m.err, m.samples, x.err)
      && t.resp == MeanOf(c, m.resp, m.samples, x.ms as real)
  {
  }

  lemma SquareBelowOne(f: real)
    requires 0.0 <= f <= 1.0
    ensures Square(f) <= 1.0
  {
    Product(f, 1.0 - f);
  }

  // After every history, for every setting in force at each moment: the top band is out of reach.
  lemma TopBandUnreachable(events: seq<Event>, c: Config, x: Sample)
    requires ValidConfig(c) && (x.ms <= 5000 || !c.enabled)
    ensures ScoredDistance2(Run(events), c, x) <= 30.0
    ensures c.enabled && Run(events).mean.samples > 0
      ==> ScoredDistance2(Run(events), c, x) <= 30.0 * Square(1.0 - c.alpha)
    ensures Band(ScoredDistance2(Run(events), c, x)) <= 8
  {
    hide Run, ScoredDistance2, Square;
    RunNonNegative(events);
    DistanceBound(Run(events), c, x);
    SquareBelowOne(Left(c, Run(events).mean.samples));
  }

  // ---------- Without response times ----------

  predicate Timeless(events: seq<Event>) { forall k | 0 <= k < |events| :: events[k].x.ms == 0 }

  lemma ZeroResponse(c: Config, samples: nat, n: nat)
    requires n > 0
    ensures Norm(0) == 0.0 && SilentNorm(0) == 0.0 && MeanOf(c, 0.0, samples, 0.0) == 0.0
    ensures VarianceOf(0.0, n, 0.0) == 0.0
  {
  }

  // When no observation carries a response time, that dimension stays zero.
  lemma {:induction false} TimelessState(events: seq<Event>)
    requires Timeless(events)
    ensures Run(events).mean.resp == 0.0 && Run(events).spread.resp == 0.0
  {
    if events != [] {
      var n := |events| - 1;
      TimelessState(events[..n]);
      var s, e := Run(events[..n]), events[n];
      ZeroResponse(e.c, s.mean.samples, s.spread.n + 1);
      hide VarianceOf, Norm, MeanOf, SilentNorm;
      assert events[n].x.ms == 0;
      MeanStepIs(e.c, s.mean, e.x);
    }
  }

  lemma FewObservations(s: State, c: Config, x: Sample)
    requires s.spread.n < 9
    ensures ScoredDistance2(s, c, x) == 0.0
  {
  }

  lemma TwoDimensions(s: State, c: Config, x: Sample)
    requires NonNegative(s.spread) && s.mean.resp == s.spread.resp == 0.0 && x.ms == 0
    ensures ScoredDistance2(s, c, x) <= 20.0 * Square(Left(c, s.mean.samples))
  {
    hide ScoredDistance2, Share, VarianceOf, MeanOf, Norm, Square, Left;
    var n, k := s.spread.n + 1, s.mean.samples;
    if n < 10 {
      FewObservations(s, c, x);
    } else {
      ScoredIs(s, c, x);
      DimensionBound(c, s.spread.rps, n, s.mean.rps, k, x.rps as real);
      DimensionBound(c, s.spread.err, n, s.mean.err, k, x.err);
      ZeroResponse(c, k, n);
      NoShare(0.0);
    }
  }

  // So two dimensions are left, and the top band is out of reach after every such history.
  lemma TimelessBound(events: seq<Event>, c: Config, x: Sample)
    requires Timeless(events) && x.ms == 0 && ValidConfig(c)
    ensures ScoredDistance2(Run(events), c, x) <= 20.0 * Square(Left(c, Run(events).mean.samples)) <= 20.0
    ensures Band(ScoredDistance2(Run(events), c, x)) <= 8
  {
    hide Run, ScoredDistance2, Square;
    TimelessState(events);
    RunNonNegative(events);
    TwoDimensions(Run(events), c, x);
    SquareBelowOne(Left(c, Run(events).mean.samples));
  }

  // ---------- Longer answers: where the bound stops ----------

  // By how much an answer is over five seconds.
  function Excess(ms: int): real { ms as real / NORM - 1.0 }

  // How far it pulls the mean.
  function Pull(alpha: real, ms: int): real { alpha * Excess(ms) }

  lemma PullPositive(alpha: real, ms: int)
    requires alpha > 0.0 && ms > 5000
    ensures Pull(alpha, ms) > 0.0
  {
    var e := Excess(ms);
    assert e > 0.0;
  }

  const EDGE: real := 0.0001

  // A share f of a distance, and something added.
  function Blend(f: real, d: real, b: real): real { f * d + b }

  // What a longer answer can reach at most, with a mean learnt before and without one.
  function Peak(alpha: real, ms: int): real { 20.0 * Square(1.0 - alpha) + PeakResponse(alpha, ms) }

  function PeakResponse(alpha: real, ms: int): real {
    1000000000.0 * Square(Blend(1.0 - alpha, EDGE, Pull(alpha, ms)))
  }

  function FirstPeak(ms: int): real { 10.0 * Square(Excess(ms)) }

  lemma SquareMono(a: real, b: real)
    requires 0.0 <= a <= b
    ensures Square(a) <= Square(b)
  {
    Product(a, b - a);
    Product(b, b - a);
  }

  lemma SquareScale(k: real, a: real)
    ensures Square(k * a) == Square(k) * Square(a)
  {
  }

  lemma ShareSquare(d: real, v: real)
    ensures Share(d, v) == Square(d) / Floor(v)
  {
  }

  lemma NearPeak(x: real, p: real, s: real)
    requires 0.0 <= x <= p && s >= EPS
    ensures Square(x) <= 1000000000.0 * Square(p) * s
  {
    SquareMono(x, p);
    hide Square;
    Product(Square(p), s - EPS);
  }

  lemma FarPeak(x: real, p: real, k: real, e: real, s: real)
    requires 0.0 <= x <= k * p && k * EDGE == e && Square(e) <= 10.0 * s
    ensures Square(x) <= 1000000000.0 * Square(p) * s
  {
    SquareMono(x, k * p);
    SquareScale(k, p);
    SquareScale(k, EDGE);
    assert Square(EDGE) == 0.00000001;
    hide Square;
    assert Square(k) <= 1000000000.0 * s;
    Product(Square(p), 1000000000.0 * s - Square(k));
  }

  lemma Stretch(f: real, e: real, b: real, k: real)
    requires b >= 0.0 && k >= 1.0 && k * EDGE == e
    ensures f * e + b <= k * (f * EDGE + b)
  {
    Product(b, k - 1.0);
    assert k * (f * EDGE) == f * (k * EDGE);
    assert k * (f * EDGE + b) == k * (f * EDGE) + k * b;
  }

  lemma PeakSquare(f: real, e: real, b: real, s: real)
    requires f >= 0.0 && e >= 0.0 && b >= 0.0 && s >= EPS && Square(e) <= 10.0 * s
    ensures Square(Blend(f, e, b)) <= 1000000000.0 * Square(Blend(f, EDGE, b)) * s
  {
    hide Square;
    Product(f, e);
    if e <= EDGE {
      Product(f, EDGE - e);
      NearPeak(Blend(f, e, b), Blend(f, EDGE, b), s);
    } else {
      var k := e / EDGE;
      Stretch(f, e, b, k);
      FarPeak(Blend(f, e, b), Blend(f, EDGE, b), k, e, s);
    }
  }

  // The response dimension: d was the old distance, f of it stays, b is taken away.
  lemma PeakShare(v: real, n: nat, d: real, f: real, b: real)
    requires v >= 0.0 && n >= 10 && f >= 0.0 && b >= 0.0
    ensures Share(Blend(f, d, -b), VarianceOf(v, n, d)) <= 1000000000.0 * Square(Blend(f, EDGE, b))
  {
    hide Square, VarianceOf, Blend, Share;
    var w, e := VarianceOf(v, n, d), if d >= 0.0 then d else -d;
    VarianceHolds(v, n, d);
    Gap(f, d, e, b);
    PeakSquare(f, e, b, Floor(w));
    PeakQuotient(Blend(f, d, -b), w, Square(Blend(f, EDGE, b)), Square(Blend(f, e, b)));
  }

  // The variance holds a tenth of the squared distance.
  lemma VarianceHolds(v: real, n: nat, d: real)
    requires v >= 0.0 && n >= 10
    ensures Square(d) <= 10.0 * VarianceOf(v, n, d)
  {
    hide Square;
  }

  lemma PeakQuotient(d: real, w: real, q: real, r: real)
    requires Square(d) <= r <= 1000000000.0 * q * Floor(w)
    ensures Share(d, w) <= 1000000000.0 * q
  {
    ShareSquare(d, w);
    hide Square, Share;
    Quotient(Square(d), 1000000000.0 * q, Floor(w));
  }

  lemma Gap(f: real, d: real, e: real, b: real)
    requires f >= 0.0 && b >= 0.0 && e == (if d >= 0.0 then d else -d)
    ensures Square(Blend(f, d, -b)) <= Square(Blend(f, e, b)) && Square(e) == Square(d)
  {
    Product(f, e);
    Product(f * e, b);
  }

  // The response dimension of a longer answer.
  lemma LongResponse(c: Config, m: real, samples: nat, ms: int)
    requires c.enabled && ms > 5000
    ensures Norm(ms) == 1.0
    ensures Norm(ms) - MeanOf(c, m, samples, ms as real) / NORM ==
      if samples > 0 then Blend(1.0 - c.alpha, 1.0 - m / NORM, -(Pull(c.alpha, ms))) else -Excess(ms)
  {
    if samples > 0 {
      assert (c.alpha * ms as real + (1.0 - c.alpha) * m) / NORM
        == c.alpha * (ms as real / NORM) + (1.0 - c.alpha) * (m / NORM);
    }
  }

  lemma LongResponseBound(c: Config, v: real, n: nat, m: real, samples: nat, ms: int)
    requires v >= 0.0 && n >= 10 && ms > 5000 && ValidConfig(c) && c.enabled && samples > 0
    ensures Share(Norm(ms) - MeanOf(c, m, samples, ms as real) / NORM, VarianceOf(v, n, Norm(ms) - m / NORM))
         <= PeakResponse(c.alpha, ms)
  {
    LongResponse(c, m, samples, ms);
    PullPositive(c.alpha, ms);
    hide Share, VarianceOf, Square, Norm, Blend, MeanOf, Pull;
    PeakShare(v, n, 1.0 - m / NORM, 1.0 - c.alpha, Pull(c.alpha, ms));
  }

  // Once a mean is learnt a longer answer stays below its peak, in every state.
  lemma PeakBound(s: State, c: Config, x: Sample)
    requires NonNegative(s.spread) && ValidConfig(c) && c.enabled && s.mean.samples > 0 && x.ms > 5000
    ensures ScoredDistance2(s, c, x) <= Peak(c.alpha, x.ms)
  {
    hide Share, VarianceOf, Square, Norm, MeanOf, PeakResponse;
    var n, k := s.spread.n + 1, s.mean.samples;
    PeakPositive(c.alpha, x.ms);
    if n >= 10 {
      DimensionBound(c, s.spread.rps, n, s.mean.rps, k, x.rps as real);
      DimensionBound(c, s.spread.err, n, s.mean.err, k, x.err);
      LongResponseBound(c, s.spread.resp, n, s.mean.resp, k, x.ms);
      MeanStepIs(c, s.mean, x);
    }
  }

  lemma PeakPositive(alpha: real, ms: int)
    ensures PeakResponse(alpha, ms) >= 0.0
  {
    hide Square, Blend;
  }

  // Before anything is learnt the means are zero.
  lemma {:induction false} NothingLearnt(events: seq<Event>)
    requires Run(events).mean.samples == 0
    ensures Run(events).mean == Mean(0.0, 0.0, 0.0, 0)
  {
    if events != [] {
      NothingLearnt(events[..|events| - 1]);
    }
  }

  lemma FirstPeakBound(s: State, c: Config, x: Sample)
    requires NonNegative(s.spread) && c.enabled && s.mean == Mean(0.0, 0.0, 0.0, 0) && x.ms > 5000
    ensures ScoredDistance2(s, c, x) <= FirstPeak(x.ms)
  {
    var n := s.spread.n + 1;
    if n >= 10 {
      LongResponse(c, 0.0, 0, x.ms);
      var w := VarianceOf(s.spread.resp, n, 1.0);
      assert Floor(w) >= 0.1;
      FirstShare(Excess(x.ms), w);
      assert Share(0.0, VarianceOf(s.spread.rps, n, x.rps as real)) == 0.0;
      assert Share(0.0, VarianceOf(s.spread.err, n, x.err)) == 0.0;
    }
  }

  lemma FirstShare(d: real, w: real)
    requires Floor(w) >= 0.1
    ensures Share(-d, w) <= 10.0 * Square(d)
  {
    ShareSquare(-d, w);
    assert Square(-d) == Square(d);
    hide Square, Share;
    Product(Square(d), Floor(w) - 0.1);
    Quotient(Square(d), 10.0 * Square(d), Floor(w));
  }

  // ---------- Runs that reach the peaks ----------

  const HALF := Config(0.5, true)
  const OFF := Config(0.5, false)

  // Five-second answers only, the first learnt silently: the variances are zero.
  function Steady(k: nat): seq<Event> {
    seq(k, i => if i == 0 then Silent(HALF, Sample(0, 0.0, 5000)) else Scored(HALF, Sample(0, 0.0, 5000)))
  }

  lemma {:induction false} SteadyState(k: nat)
    requires k > 0
    ensures Run(Steady(k)) == State(Mean(0.0, 0.0, 5000.0, k), Spread(0.0, 0.0, 0.0, k))
  {
    hide Step;
    assert Steady(k)[..k - 1] == Steady(k - 1);
    if k == 1 {
      assert Run(Steady(0)) == START;
      SteadyFirst();
    } else {
      SteadyState(k - 1);
      SteadyStep(k - 1);
    }
  }

  lemma SteadyFirst()
    ensures Step(START, Silent(HALF, Sample(0, 0.0, 5000)))
      == State(Mean(0.0, 0.0, 5000.0, 1), Spread(0.0, 0.0, 0.0, 1))
  {
    hide VarianceOf, Norm, MeanStep, SpreadStep;
    var x := Sample(0, 0.0, 5000);
    FirstMean(HALF, START.mean, x);
    SteadySpread(START.spread, Mean(0.0, 0.0, 5000.0, 1));
    FiveSeconds();
  }

  lemma FirstMean(c: Config, m: Mean, x: Sample)
    requires c.enabled && m.samples == 0
    ensures MeanStep(c, m, x) == Mean(x.rps as real, x.err, x.ms as real, 1)
  {
  }

  lemma SteadySpread(v: Spread, m: Mean)
    requires v.rps == v.err == v.resp == 0.0 && m.rps == m.err == 0.0 && m.resp == 5000.0
    ensures SpreadStep(v, m, 0.0, 0.0, 1.0) == Spread(0.0, 0.0, 0.0, v.n + 1)
  {
    ZeroVariance(v.n + 1);
    FiveSeconds();
    hide VarianceOf;
  }

  lemma FiveSeconds()
    ensures Norm(5000) == 1.0 && 5000.0 / NORM == 1.0
  {
  }

  lemma ZeroVariance(n: nat)
    requires n > 0
    ensures VarianceOf(0.0, n, 0.0) == 0.0
  {
  }

  lemma SteadyStep(k: nat)
    requires k > 0
    ensures Step(State(Mean(0.0, 0.0, 5000.0, k), Spread(0.0, 0.0, 0.0, k)), Scored(HALF, Sample(0, 0.0, 5000)))
         == State(Mean(0.0, 0.0, 5000.0, k + 1), Spread(0.0, 0.0, 0.0, k + 1))
  {
    FiveSeconds();
    ZeroVariance(k + 1);
    hide VarianceOf, Norm;
  }

  // One millisecond more moves the mean by half of it and leaves the variances as they are.
  function Learnt(): seq<Event> { Steady(8) + [Scored(HALF, Sample(0, 0.0, 5001))] }

  lemma LearntState()
    ensures Run(Learnt()) == State(Mean(0.0, 0.0, 5000.5, 9), Spread(0.0, 0.0, 0.0, 9))
  {
    SteadyState(8);
    assert Learnt()[..8] == Steady(8);
    hide Steady;
    var s := Run(Steady(8));
    assert Run(Learnt()) == Step(s, Scored(HALF, Sample(0, 0.0, 5001)));
  }

  // The peak is reached.
  lemma PeakReached(c: Config, ms: int)
    requires ValidConfig(c) && c.enabled && ms > 5000
    ensures ScoredDistance2(Run(Learnt()), c, Sample(1, 1.0, ms)) == Peak(c.alpha, ms)
  {
    hide Run, Learnt, ScoredDistance2, Share, VarianceOf, MeanOf, Square, PeakResponse, Norm;
    LearntState();
    ScoredIs(Run(Learnt()), c, Sample(1, 1.0, ms));
    PeakDimension(c, 9, 10);
    PeakResponseReached(c, ms);
  }

  // The squared distance, dimension by dimension.
  lemma ScoredIs(s: State, c: Config, x: Sample)
    requires s.spread.n >= 9
    ensures var n, k, m, v := s.spread.n + 1, s.mean.samples, s.mean, s.spread;
      ScoredDistance2(s, c, x)
      == Share(x.rps as real - MeanOf(c, m.rps, k, x.rps as real), VarianceOf(v.rps, n, x.rps as real - m.rps))
       + Share(x.err - MeanOf(c, m.err, k, x.err), VarianceOf(v.err, n, x.err - m.err))
       + Share(Norm(x.ms) - MeanOf(c, m.resp, k, x.ms as real) / NORM,
         VarianceOf(v.resp, n, Norm(x.ms) - m.resp / NORM))
  {
    hide Share, VarianceOf, MeanOf, Norm;
    MeanStepIs(c, s.mean, x);
  }

  lemma PeakDimension(c: Config, samples: nat, n: nat)
    requires c.enabled && samples > 0 && n >= 10
    ensures Share(1.0 - MeanOf(c, 0.0, samples, 1.0), VarianceOf(0.0, n, 1.0 - 0.0)) == 10.0 * Square(1.0 - c.alpha)
  {
    assert VarianceOf(0.0, n, 1.0) == 0.1;
    assert MeanOf(c, 0.0, samples, 1.0) == c.alpha;
    ShareSquare(1.0 - c.alpha, 0.1);
  }

  lemma PeakResponseReached(c: Config, ms: int)
    requires ValidConfig(c) && c.enabled && ms > 5000
    ensures Share(Norm(ms) - MeanOf(c, 5000.5, 9, ms as real) / NORM, VarianceOf(0.0, 10, Norm(ms) - 5000.5 / NORM))
         == PeakResponse(c.alpha, ms)
  {
    LongResponse(c, 5000.5, 9, ms);
    var b := Pull(c.alpha, ms);
    assert VarianceOf(0.0, 10, -EDGE) == EPS;
    assert Blend(1.0 - c.alpha, -EDGE, -b) == -Blend(1.0 - c.alpha, EDGE, b);
    ShareSquare(-Blend(1.0 - c.alpha, EDGE, b), EPS);
    NegatedSquare(Blend(1.0 - c.alpha, EDGE, b));
  }

  lemma NegatedSquare(a: real)
    ensures Square(-a) == Square(a)
  {
  }

  // Scored while nothing is learnt: the means stay zero, and so does the variance of the response time.
  function Unlearnt(k: nat): seq<Event> { seq(k, _ => Scored(OFF, Sample(1, 0.0, 0))) }

  lemma {:induction false} UnlearntState(k: nat)
    ensures var s := Run(Unlearnt(k));
      s.mean == Mean(0.0, 0.0, 0.0, 0) && s.spread.resp == 0.0 && s.spread.n == k
  {
    if k > 0 {
      assert Unlearnt(k)[..k - 1] == Unlearnt(k - 1);
      UnlearntState(k - 1);
    }
  }

  lemma FirstPeakReached(c: Config, ms: int)
    requires c.enabled && ms > 5000
    ensures ScoredDistance2(Run(Unlearnt(9)), c, Sample(1, 0.0, ms)) == FirstPeak(ms)
  {
    hide Run, Unlearnt, ScoredDistance2, Share, VarianceOf, MeanOf, Square, Norm;
    UnlearntState(9);
    ScoredIs(Run(Unlearnt(9)), c, Sample(1, 0.0, ms));
    FirstDimensions(c, Run(Unlearnt(9)).spread, ms);
  }

  lemma FirstDimensions(c: Config, v: Spread, ms: int)
    requires c.enabled && ms > 5000
    ensures Share(1.0 - MeanOf(c, 0.0, 0, 1.0), VarianceOf(v.rps, 10, 1.0 - 0.0)) == 0.0
    ensures Share(0.0 - MeanOf(c, 0.0, 0, 0.0), VarianceOf(v.err, 10, 0.0 - 0.0)) == 0.0
    ensures Share(Norm(ms) - MeanOf(c, 0.0, 0, ms as real) / NORM, VarianceOf(0.0, 10, Norm(ms) - 0.0 / NORM))
      == FirstPeak(ms)
  {
    hide VarianceOf, Norm, Square, Share, Excess;
    LongResponse(c, 0.0, 0, ms);
    UnitVariance();
    TenthShare(Excess(ms));
    NoShare(VarianceOf(v.rps, 10, 1.0));
    NoShare(VarianceOf(v.err, 10, 0.0));
  }

  lemma TenthShare(d: real)
    ensures Share(-d, 0.1) == 10.0 * Square(d)
  {
    ShareSquare(-d, 0.1);
    NegatedSquare(d);
    hide Square;
  }

  lemma UnitVariance()
    ensures VarianceOf(0.0, 10, 1.0) == 0.1
  {
  }

  lemma NoShare(v: real)
    ensures Share(0.0, v) == 0.0
  {
  }

  // The peak is above the bound of shorter answers.
  lemma PeakExceeds(alpha: real, ms: int)
    requires 0.0 < alpha < 1.0 && ms > 5000
    ensures PeakResponse(alpha, ms) > 10.0 * Square(1.0 - alpha)
  {
    var f, b := 1.0 - alpha, Pull(alpha, ms);
    assert Excess(ms) > 0.0;
    assert b > 0.0;
    assert f * EDGE > 0.0;
    SquareOrder(f * EDGE, f * EDGE + b);
    SquareScale(f, EDGE);
    assert Square(EDGE) == 0.00000001;
  }

  // ---------- When the top band can be reached ----------

  predicate AllValid(events: seq<Event>) { forall k | 0 <= k < |events| :: ValidConfig(events[k].c) }

  ghost predicate Tops(events: seq<Event>, c: Config, x: Sample) {
    AllValid(events) && Band(ScoredDistance2(Run(events), c, x)) == 13
  }

  // Some history, whatever settings it was made under, and some observation of this response time.
  ghost predicate CanTop(c: Config, ms: int) {
    exists events: seq<Event>, x: Sample :: x.ms == ms && Tops(events, c, x)
  }

  predicate PeakTops(c: Config, ms: int) {
    c.enabled && ms > 5000 && (Peak(c.alpha, ms) >= 30.25 || FirstPeak(ms) >= 30.25)
  }

  lemma TopNeedsPeak(events: seq<Event>, c: Config, x: Sample)
    requires ValidConfig(c) && Tops(events, c, x)
    ensures PeakTops(c, x.ms)
    ensures if Run(events).mean.samples > 0 then Peak(c.alpha, x.ms) >= 30.25 else FirstPeak(x.ms) >= 30.25
  {
    hide Run, ScoredDistance2, Peak, FirstPeak, AllValid;
    RunNonNegative(events);
    if x.ms <= 5000 || !c.enabled {
      TopBandUnreachable(events, c, x);
    } else if Run(events).mean.samples > 0 {
      PeakBound(Run(events), c, x);
    } else {
      NothingLearnt(events);
      FirstPeakBound(Run(events), c, x);
    }
  }

  // A run that reaches the top band, whenever a peak does.
  lemma LongAnswerReachesTop(c: Config, ms: int) returns (events: seq<Event>, x: Sample)
    requires ValidConfig(c) && PeakTops(c, ms)
    ensures x.ms == ms && Tops(events, c, x)
    ensures Peak(c.alpha, ms) >= 30.25 ==> Run(events).mean.samples > 0
  {
    if Peak(c.alpha, ms) >= 30.25 {
      events, x := Learnt(), Sample(1, 1.0, ms);
      PeakReached(c, ms);
      LearntState();
    } else {
      events, x := Unlearnt(9), Sample(1, 0.0, ms);
      FirstPeakReached(c, ms);
    }
  }

  // The same with a mean learnt before.
  ghost predicate CanTopLearnt(c: Config, ms: int) {
    exists events: seq<Event>, x: Sample :: x.ms == ms && Tops(events, c, x) && Run(events).mean.samples > 0
  }

  // The exact condition, for every setting and response time, over every order of scored and silent
  // observations. Only an observation learnt silently without being scored gets as far as the peak:
  // ScoreRuns has the condition for the order the detector keeps, where the peak is never reached.
  lemma TopExactly(c: Config, ms: int)
    requires ValidConfig(c)
    ensures CanTop(c, ms) <==> PeakTops(c, ms)
    ensures CanTopLearnt(c, ms) <==> c.enabled && ms > 5000 && Peak(c.alpha, ms) >= 30.25
  {
    hide Tops, Run, Peak, FirstPeak;
    if CanTop(c, ms) {
      var events: seq<Event>, x: Sample :| x.ms == ms && Tops(events, c, x);
      TopNeedsPeak(events, c, x);
    }
    if CanTopLearnt(c, ms) {
      var events: seq<Event>, x: Sample :| x.ms == ms && Tops(events, c, x) && Run(events).mean.samples > 0;
      TopNeedsPeak(events, c, x);
    }
    if PeakTops(c, ms) {
      var events, x := LongAnswerReachesTop(c, ms);
    }
  }

  // ---------- The mean stays among the samples ----------

  predicate Within(lo: Sample, x: Sample, hi: Sample) {
    lo.rps <= x.rps <= hi.rps && lo.err <= x.err <= hi.err && lo.ms <= x.ms <= hi.ms
  }

  lemma MeanBetween(c: Config, m: real, samples: nat, x: real, lo: real, hi: real)
    requires ValidConfig(c) && lo <= x <= hi && (samples > 0 ==> lo <= m <= hi)
    ensures c.enabled || samples > 0 ==> lo <= MeanOf(c, m, samples, x) <= hi
  {
    if c.enabled && samples > 0 {
      Product(c.alpha, x - lo);
      Product(c.alpha, hi - x);
      Product(1.0 - c.alpha, m - lo);
      Product(1.0 - c.alpha, hi - m);
    }
  }

  // Over every history, once a sample was learnt the means lie between the extremes observed.
  lemma {:induction false} MeanWithin(events: seq<Event>, lo: Sample, hi: Sample)
    requires forall k | 0 <= k < |events| :: ValidConfig(events[k].c) && Within(lo, events[k].x, hi)
    ensures var m := Run(events).mean; m.samples > 0 ==>
      && lo.rps as real <= m.rps <= hi.rps as real && lo.err <= m.err <= hi.err
      && lo.ms as real <= m.resp <= hi.ms as real
  {
    hide MeanOf, SpreadStep;
    if events != [] {
      var n := |events| - 1;
      MeanWithin(events[..n], lo, hi);
      var m, e := Run(events[..n]).mean, events[n];
      assert ValidConfig(e.c) && Within(lo, e.x, hi);
      MeanBetween(e.c, m.rps, m.samples, e.x.rps as real, lo.rps as real, hi.rps as real);
      MeanBetween(e.c, m.err, m.samples, e.x.err, lo.err, hi.err);
      MeanBetween(e.c, m.resp, m.samples, e.x.ms as real, lo.ms as real, hi.ms as real);
    }
  }
}
