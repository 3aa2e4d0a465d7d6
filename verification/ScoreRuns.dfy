/** anomaly.c: the order in which the detector feeds its records. An observation is scored first, and it
    is learnt silently only after that, with the same response time. The response time is a field a
    caller may fill; Detector says what follows when it stays zero. */
module ScoreRuns {
  import opened Stats

  // The last stage of anomaly_check. The counters are read as x for the score, and again as y when the
  // score stays low and the line is learnt silently.
  method Detect(ar: AdaptiveRecord, ev: EwmaVariance, c: Config, total: int, x: Sample, y: Sample, rules: nat)
    returns (score: nat)
    requires y.ms == x.ms
    modifies ar, ev
    ensures var before, after := old(State(ar.View(), ev.View())), State(ar.View(), ev.View());
      && score == rules + (if total > 0 then Band(ScoredDistance2(before, c, x)) else 0)
      && after == if total <= 0 then before
                  else if score >= 14 then Step(before, Scored(c, x))
                  else Step(Step(before, Scored(c, x)), Silent(c, y))
  {
    hide Band, ScoredDistance2, MeanStep, SpreadStep;
    score := WeightedScore(ar, ev, c, total, x, rules);
    if score < 14 && total > 0 {
      ar.Update(c, y);
      var norm := if y.ms > 0 then y.ms as real / NORM else 0.0;
      if norm > 1.0 {
        norm := 1.0;
      }
      ev.Update(ar, y.rps as real, y.err, norm);
    }
  }

  // The counters of a call: its own request is in the window already, and the share of errors is one.
  predicate Counted(x: Sample) { x.rps >= 1 && 0.0 <= x.err <= 1.0 }

  // A silent observation follows the scored one it belongs to. The counters are read again and may have
  // moved; the response time is that of the same line.
  predicate InOrder(events: seq<Event>, k: nat)
    requires k < |events|
  {
    && ValidConfig(events[k].c) && Counted(events[k].x)
    && (events[k].Silent? ==> k > 0 && events[k - 1].Scored? && events[k - 1].x.ms == events[k].x.ms)
  }

  predicate DetectorRun(events: seq<Event>) { forall k | 0 <= k < |events| :: InOrder(events, k) }

  lemma EarlierRun(events: seq<Event>, n: nat)
    requires DetectorRun(events) && n <= |events|
    ensures DetectorRun(events[..n])
  {
    forall k | 0 <= k < n
      ensures InOrder(events[..n], k)
    {
      assert InOrder(events, k);
    }
  }

  // ---------- The peak stays out of reach ----------

  // Either some response time was above zero, and the variance remembers it, or none was learnt.
  predicate Remembers(s: State) { s.spread.resp > 0.0 || s.mean.resp == s.spread.resp == 0.0 }

  lemma VarianceStays(v: real, n: nat, d: real)
    requires n > 0 && v >= 0.0
    ensures VarianceOf(v, n, d) >= 0.0 && (v > 0.0 || d != 0.0 ==> VarianceOf(v, n, d) > 0.0)
  {
    if d != 0.0 {
      NegatedSquare(d);
      SquareBelow(0.0, if d > 0.0 then d else -d);
    }
    hide Square;
  }

  lemma NormOfTime(ms: int)
    ensures Norm(ms) == 0.0 <==> ms == 0
  {
  }

  lemma ScoredResponse(s: State, c: Config, x: Sample)
    ensures Step(s, Scored(c, x)).mean.resp == MeanOf(c, s.mean.resp, s.mean.samples, x.ms as real)
    ensures Step(s, Scored(c, x)).spread.resp
      == VarianceOf(s.spread.resp, s.spread.n + 1, Norm(x.ms) - s.mean.resp / NORM)
  {
    hide VarianceOf, MeanOf, Norm;
    MeanStepIs(c, s.mean, x);
  }

  lemma SilentResponse(s: State, c: Config, x: Sample)
    ensures var m := MeanOf(c, s.mean.resp, s.mean.samples, x.ms as real);
      && Step(s, Silent(c, x)).mean.resp == m
      && Step(s, Silent(c, x)).spread.resp == VarianceOf(s.spread.resp, s.spread.n + 1, SilentNorm(x.ms) - m / NORM)
  {
    hide VarianceOf, MeanOf, SilentNorm;
    MeanStepIs(c, s.mean, x);
  }

  lemma ScoredRemembers(s: State, c: Config, x: Sample)
    requires Remembers(s)
    ensures var t := Step(s, Scored(c, x)); t.spread.resp > 0.0 || (x.ms == 0 && t.mean.resp == t.spread.resp == 0.0)
  {
    hide VarianceOf, MeanOf, Norm, Step;
    ScoredResponse(s, c, x);
    VarianceStays(s.spread.resp, s.spread.n + 1, Norm(x.ms) - s.mean.resp / NORM);
    NormOfTime(x.ms);
    ZeroResponse(c, s.mean.samples, s.spread.n + 1);
  }

  lemma SilentRemembers(s: State, c: Config, x: Sample)
    requires s.spread.resp > 0.0 || (x.ms == 0 && s.mean.resp == s.spread.resp == 0.0)
    ensures Remembers(Step(s, Silent(c, x)))
  {
    hide VarianceOf, MeanOf, SilentNorm, Step;
    SilentResponse(s, c, x);
    var m := MeanOf(c, s.mean.resp, s.mean.samples, x.ms as real);
    VarianceStays(s.spread.resp, s.spread.n + 1, SilentNorm(x.ms) - m / NORM);
    ZeroResponse(c, s.mean.samples, s.spread.n + 1);
  }

  lemma {:induction false} RunRemembers(events: seq<Event>)
    requires DetectorRun(events)
    ensures Remembers(Run(events))
    ensures events != [] && events[|events| - 1].Scored? ==>
      Run(events).spread.resp > 0.0
        || (events[|events| - 1].x.ms == 0 && Run(events).mean.resp == Run(events).spread.resp == 0.0)
  {
    if events != [] {
      var n := |events| - 1;
      EarlierRun(events, n);
      RunRemembers(events[..n]);
      assert InOrder(events, n);
      hide Step;
      var s, e := Run(events[..n]), events[n];
      if e.Scored? {
        ScoredRemembers(s, e.c, e.x);
      } else {
        assert events[..n][n - 1] == events[n - 1];
        SilentRemembers(s, e.c, e.x);
      }
    }
  }

  lemma SquareBelow(a: real, b: real)
    requires 0.0 <= a < b
    ensures Square(a) < Square(b)
  {
    SquareOrder(a, b);
  }

  lemma Positive(a: real, b: real)
    requires a > 0.0 && b > 0.0
    ensures a * b > 0.0
  {
  }

  lemma BelowNear(x: real, p: real, s: real)
    requires 0.0 <= x <= p && p > 0.0 && s >= EPS && (x < p || s > EPS)
    ensures Square(x) < 1000000000.0 * Square(p) * s
  {
    SquareMono(x, p);
    SquareBelow(0.0, p);
    if x < p {
      SquareBelow(x, p);
      hide Square;
      Product(Square(p), s - EPS);
    } else {
      hide Square;
      Positive(Square(p), s - EPS);
    }
  }

  lemma BelowFar(x: real, p: real, k: real, e: real, s: real)
    requires 0.0 <= x < k * p && k * EDGE == e && Square(e) <= 10.0 * s
    ensures Square(x) < 1000000000.0 * Square(p) * s
  {
    SquareBelow(x, k * p);
    SquareScale(k, p);
    SquareScale(k, EDGE);
    assert Square(EDGE) == 0.00000001;
    hide Square;
    assert Square(k) <= 1000000000.0 * s;
    Product(Square(p), 1000000000.0 * s - Square(k));
  }

  lemma StretchBelow(f: real, e: real, b: real, k: real)
    requires b > 0.0 && k > 1.0 && k * EDGE == e
    ensures f * e + b < k * (f * EDGE + b)
  {
    Positive(b, k - 1.0);
    assert k * (f * EDGE) == f * (k * EDGE);
    assert k * (f * EDGE + b) == k * (f * EDGE) + k * b;
  }

  lemma BelowSquare(f: real, e: real, b: real, s: real)
    requires f > 0.0 && e >= 0.0 && b > 0.0 && s >= EPS && Square(e) <= 10.0 * s && (e == EDGE ==> s > EPS)
    ensures Square(Blend(f, e, b)) < 1000000000.0 * Square(Blend(f, EDGE, b)) * s
  {
    hide Square;
    Product(f, e);
    if e <= EDGE {
      if e < EDGE {
        Positive(f, EDGE - e);
      }
      BelowNear(Blend(f, e, b), Blend(f, EDGE, b), s);
    } else {
      var k := e / EDGE;
      StretchBelow(f, e, b, k);
      BelowFar(Blend(f, e, b), Blend(f, EDGE, b), k, e, s);
    }
  }

  lemma QuotientBelow(a: real, b: real, s: real)
    requires s > 0.0 && a < b * s
    ensures a / s < b
  {
    var q := a / s;
    assert q * s == a;
    if q >= b {
      Product(q - b, s);
    }
  }

  lemma EdgeVariance(v: real, n: nat, d: real)
    requires v > 0.0 && n >= 10 && Square(d) == Square(EDGE)
    ensures VarianceOf(v, n, d) > EPS
  {
    assert Square(EDGE) == 0.00000001;
  }

  // The response dimension, strictly.
  lemma ShareBelow(v: real, n: nat, d: real, f: real, b: real)
    requires v >= 0.0 && n >= 10 && f > 0.0 && b > 0.0 && (v > 0.0 || d == 1.0)
    ensures Share(Blend(f, d, -b), VarianceOf(v, n, d)) < 1000000000.0 * Square(Blend(f, EDGE, b))
  {
    hide Square, VarianceOf, Blend, Share;
    var w, e := VarianceOf(v, n, d), if d >= 0.0 then d else -d;
    VarianceHolds(v, n, d);
    Gap(f, d, e, b);
    if e == EDGE {
      EdgeVariance(v, n, d);
    }
    BelowSquare(f, e, b, Floor(w));
    ShareSquare(Blend(f, d, -b), w);
    QuotientBelow(Square(Blend(f, d, -b)), 1000000000.0 * Square(Blend(f, EDGE, b)), Floor(w));
  }

  lemma ResponseBelow(c: Config, v: real, n: nat, m: real, samples: nat, ms: int)
    requires v >= 0.0 && n >= 10 && ms > 5000 && ValidConfig(c) && c.enabled && samples > 0 && (v > 0.0 || m == 0.0)
    ensures Share(Norm(ms) - MeanOf(c, m, samples, ms as real) / NORM, VarianceOf(v, n, Norm(ms) - m / NORM))
         < PeakResponse(c.alpha, ms)
  {
    LongResponse(c, m, samples, ms);
    PullPositive(c.alpha, ms);
    hide Share, VarianceOf, Square, Norm, Blend, MeanOf, Pull;
    ShareBelow(v, n, 1.0 - m / NORM, 1.0 - c.alpha, Pull(c.alpha, ms));
  }

  // In every state a detector can be in, a longer answer stays strictly below its peak.
  lemma PeakStrict(s: State, c: Config, x: Sample)
    requires NonNegative(s.spread) && Remembers(s) && ValidConfig(c) && c.enabled && s.mean.samples > 0 && x.ms > 5000
    ensures ScoredDistance2(s, c, x) < Peak(c.alpha, x.ms)
  {
    hide ScoredDistance2, Share, VarianceOf, Square, Norm, MeanOf, PeakResponse;
    var n, k := s.spread.n + 1, s.mean.samples;
    if n < 10 {
      FewObservations(s, c, x);
      PeakExceeds(c.alpha, x.ms);
    } else {
      ScoredIs(s, c, x);
      DimensionBound(c, s.spread.rps, n, s.mean.rps, k, x.rps as real);
      DimensionBound(c, s.spread.err, n, s.mean.err, k, x.err);
      ResponseBelow(c, s.spread.resp, n, s.mean.resp, k, x.ms);
    }
  }

  // ---------- The peak is approached ----------

  // k five-second answers, each scored and then learnt.
  function Pairs(c: Config, k: nat): seq<Event> {
    if k == 0 then []
    else Pairs(c, k - 1) + [Scored(c, Sample(1, 0.0, 5000))] + [Silent(c, Sample(1, 0.0, 5000))]
  }

  lemma {:induction false} PairsRun(c: Config, k: nat)
    requires ValidConfig(c)
    ensures DetectorRun(Pairs(c, k)) && |Pairs(c, k)| == 2 * k
  {
    if k > 0 {
      PairsRun(c, k - 1);
      MoreRun(Pairs(c, k - 1), Scored(c, Sample(1, 0.0, 5000)));
      MoreRun(Pairs(c, k - 1) + [Scored(c, Sample(1, 0.0, 5000))], Silent(c, Sample(1, 0.0, 5000)));
    }
  }

  lemma MoreRun(events: seq<Event>, e: Event)
    requires DetectorRun(events) && ValidConfig(e.c) && Counted(e.x)
    requires e.Silent? ==> |events| > 0 && events[|events| - 1].Scored? && events[|events| - 1].x.ms == e.x.ms
    ensures DetectorRun(events + [e])
  {
    var more := events + [e];
    forall k | 0 <= k < |more|
      ensures InOrder(more, k)
    {
      if k < |events| {
        assert InOrder(events, k);
      }
    }
  }

  function Level(v: real, n: nat): State { State(Mean(1.0, 0.0, 5000.0, n), Spread(v, 0.0, v, n)) }

  // A five-second answer, scored or learnt, at the level of five seconds.
  lemma LevelStep(c: Config, v: real, n: nat, e: Event)
    requires ValidConfig(c) && c.enabled && n > 0
    requires e == Scored(c, Sample(1, 0.0, 5000)) || e == Silent(c, Sample(1, 0.0, 5000))
    ensures Step(Level(v, n), e) == Level(VarianceOf(v, n + 1, 0.0), n + 1)
  {
    var m, x := Level(v, n).mean, Sample(1, 0.0, 5000);
    assert MeanStep(c, m, x) == Mean(1.0, 0.0, 5000.0, n + 1);
    FiveSeconds();
    ZeroVariance(n + 1);
    hide VarianceOf, Norm, MeanStep;
  }

  lemma LevelStart(c: Config)
    requires ValidConfig(c) && c.enabled
    ensures Step(START, Scored(c, Sample(1, 0.0, 5000))) == Level(1.0, 1)
  {
    hide MeanStep, VarianceOf, Norm;
    FirstMean(c, START.mean, Sample(1, 0.0, 5000));
    FiveSeconds();
    ZeroVariance(1);
    OneVariance();
  }

  lemma OneVariance()
    ensures VarianceOf(0.0, 1, 1.0) == 1.0
  {
  }

  // The variance at this level after n observations.
  function Fade(n: nat): (v: real)
    ensures v >= 0.0
  {
    if n < 4 then 1.0 else if n == 4 then 0.25 else 0.9 * Fade(n - 1)
  }

  lemma FadeStep(n: nat)
    ensures VarianceOf(Fade(n), n + 1, 0.0) == Fade(n + 1)
  {
    assert Square(0.0) == 0.0;
  }

  // It falls below every level above zero.
  lemma {:induction false} FadeBound(n: nat)
    requires n >= 4
    ensures Fade(n) * (n as real + 5.0) <= 2.25
  {
    if n > 4 {
      FadeBound(n - 1);
      var v, m := Fade(n - 1), n as real;
      assert Fade(n) == 0.9 * v;
      Product(v, m - 5.0);
      assert 0.9 * v * (m + 5.0) == v * (m + 4.0) - 0.1 * (v * (m - 5.0));
    }
  }

  lemma RunTwoMore(events: seq<Event>, a: Event, b: Event)
    ensures Run(events + [a] + [b]) == Step(Step(Run(events), a), b)
  {
    hide Step;
    assert (events + [a] + [b])[..|events| + 1] == events + [a];
    assert (events + [a])[..|events|] == events;
  }

  lemma {:induction false} PairsState(c: Config, k: nat)
    requires ValidConfig(c) && c.enabled && k > 0
    ensures Run(Pairs(c, k)) == Level(Fade(2 * k), 2 * k)
  {
    hide Step, Fade, VarianceOf, Level, Run;
    var a, b, n := Scored(c, Sample(1, 0.0, 5000)), Silent(c, Sample(1, 0.0, 5000)), 2 * k - 2;
    RunTwoMore(Pairs(c, k - 1), a, b);
    if k == 1 {
      NoEvents();
      LevelStart(c);
      FadeStarts();
    } else {
      PairsState(c, k - 1);
      LevelStep(c, Fade(n), n, a);
      FadeStep(n);
    }
    LevelStep(c, Fade(n + 1), n + 1, b);
    FadeStep(n + 1);
  }

  lemma NoEvents()
    ensures Run([]) == START
  {
  }

  lemma FadeStarts()
    ensures Fade(1) == 1.0
  {
  }

  // One millisecond more moves the mean by half of it and leaves the variances to fade.
  function Edge(k: nat): seq<Event> { Pairs(HALF, k) + [Scored(HALF, Sample(1, 0.0, 5001))] }

  lemma EdgeStep(v: real, n: nat)
    requires n > 0
    ensures Step(Level(v, n), Scored(HALF, Sample(1, 0.0, 5001)))
      == State(Mean(1.0, 0.0, 5000.5, n + 1), Spread(VarianceOf(v, n + 1, 0.0), 0.0, VarianceOf(v, n + 1, 0.0), n + 1))
  {
    FiveSeconds();
    assert Norm(5001) == 1.0;
    ZeroVariance(n + 1);
    hide VarianceOf, Norm;
  }

  lemma EdgeState(k: nat)
    requires k > 0
    ensures var v := Fade(2 * k + 1);
      && DetectorRun(Edge(k))
      && Run(Edge(k)) == State(Mean(1.0, 0.0, 5000.5, 2 * k + 1), Spread(v, 0.0, v, 2 * k + 1))
  {
    PairsState(HALF, k);
    PairsRun(HALF, k);
    var e := Scored(HALF, Sample(1, 0.0, 5001));
    MoreRun(Pairs(HALF, k), e);
    hide Step, Fade, Pairs, VarianceOf;
    assert Edge(k)[..2 * k] == Pairs(HALF, k);
    EdgeStep(Fade(2 * k), 2 * k);
    FadeStep(2 * k);
  }

  // What is left of a quotient when its divisor grows by g.
  lemma Shrunk(q: real, s: real, r: real, g: real)
    requires q >= 0.0 && s > 0.0 && r * s == 1.0 && g >= 0.0
    ensures q / (s + g) >= q * r - q * (r * r) * g
  {
    var z := r * g;
    var low := q * r - q * (r * r) * g;
    assert low == q * r * (1.0 - z);
    assert r * (s + g) == 1.0 + z;
    assert low * (s + g) == q * (1.0 - z) * (r * (s + g));
    Shortfall(q, z);
    Quotient(low * (s + g), q / (s + g), s + g);
  }

  lemma Shortfall(q: real, z: real)
    requires q >= 0.0
    ensures q * (1.0 - z) * (1.0 + z) <= q
  {
    assert (1.0 - z) * (1.0 + z) == 1.0 - Square(z);
    Product(q, Square(z));
  }

  // How fast the peak is approached: what is missing is at most this times the variance.
  function Slope(alpha: real, ms: int): (r: real)
    ensures r >= 0.0
  {
    100.0 * Square(1.0 - alpha) + 1000000000.0 * PeakResponse(alpha, ms)
  }

  lemma OneMoreRequest(c: Config, v: real, n: nat, samples: nat)
    requires c.enabled && samples > 0 && n >= 10 && v >= 0.0
    ensures Share(2.0 - MeanOf(c, 1.0, samples, 2.0), VarianceOf(v, n, 2.0 - 1.0))
      >= 10.0 * Square(1.0 - c.alpha) - 100.0 * Square(1.0 - c.alpha) * (0.9 * v)
  {
    assert VarianceOf(v, n, 1.0) == 0.1 + 0.9 * v;
    assert MeanOf(c, 1.0, samples, 2.0) == 1.0 + c.alpha;
    hide VarianceOf, MeanOf, Share;
    ShareSquare(1.0 - c.alpha, 0.1 + 0.9 * v);
    hide Square;
    Shrunk(Square(1.0 - c.alpha), 0.1, 10.0, 0.9 * v);
  }

  lemma HalfErrors(c: Config, n: nat, samples: nat)
    requires c.enabled && samples > 0 && n >= 10
    ensures Share(0.5 - MeanOf(c, 0.0, samples, 0.5), VarianceOf(0.0, n, 0.5 - 0.0)) == 10.0 * Square(1.0 - c.alpha)
  {
    assert VarianceOf(0.0, n, 0.5) == 0.025;
    assert 0.5 - MeanOf(c, 0.0, samples, 0.5) == 0.5 * (1.0 - c.alpha);
    hide VarianceOf, MeanOf, Share;
    ShareSquare(0.5 * (1.0 - c.alpha), 0.025);
    SquareScale(0.5, 1.0 - c.alpha);
    assert Square(0.5) == 0.25;
  }

  lemma EdgeResponse(c: Config, v: real, n: nat, samples: nat, ms: int)
    requires c.enabled && samples > 0 && n >= 10 && v >= 0.0 && ms > 5000
    ensures Share(Norm(ms) - MeanOf(c, 5000.5, samples, ms as real) / NORM, VarianceOf(v, n, Norm(ms) - 5000.5 / NORM))
      >= PeakResponse(c.alpha, ms) - 1000000000.0 * PeakResponse(c.alpha, ms) * (0.9 * v)
  {
    LongResponse(c, 5000.5, samples, ms);
    var b, g := Pull(c.alpha, ms), 0.9 * v;
    assert 1.0 - 5000.5 / NORM == -EDGE;
    assert VarianceOf(v, n, -EDGE) == EPS + g;
    assert Blend(1.0 - c.alpha, -EDGE, -b) == -Blend(1.0 - c.alpha, EDGE, b);
    hide VarianceOf, MeanOf, Share, Norm, Blend, Pull;
    var p := Blend(1.0 - c.alpha, EDGE, b);
    ShareSquare(-p, EPS + g);
    NegatedSquare(p);
    hide Square;
    Shrunk(Square(p), EPS, 1000000000.0, g);
  }

  lemma EdgeScore(c: Config, s: State, v: real, ms: int)
    requires ValidConfig(c) && c.enabled && ms > 5000 && v >= 0.0 && s.spread.n >= 9 && s.mean.samples > 0
    requires s == State(Mean(1.0, 0.0, 5000.5, s.mean.samples), Spread(v, 0.0, v, s.spread.n))
    ensures ScoredDistance2(s, c, Sample(2, 0.5, ms)) >= Peak(c.alpha, ms) - Slope(c.alpha, ms) * (0.9 * v)
  {
    hide ScoredDistance2, Share, VarianceOf, MeanOf, Square, PeakResponse, Norm;
    var n, k := s.spread.n + 1, s.mean.samples;
    ScoredIs(s, c, Sample(2, 0.5, ms));
    OneMoreRequest(c, v, n, k);
    HalfErrors(c, n, k);
    EdgeResponse(c, v, n, k, ms);
  }

  // A number of pairs after which less than d is missing.
  lemma LongEnough(slope: real, d: real) returns (k: nat)
    requires slope >= 0.0 && d > 0.0
    ensures k >= 5 && slope * (0.9 * Fade(2 * k + 1)) < d
  {
    var y := slope / d;
    assert y * d == slope;
    Quotient(-slope, 0.0, d);
    k := 2 * y.Floor + 5;
    var v := Fade(2 * k + 1);
    FadeBound(2 * k + 1);
    hide Fade;
    Product(v, k as real - 2.0 * y);
    Product(v, k as real);
    assert v * y <= 0.6;
    assert slope * (0.9 * v) == 0.9 * (v * y) * d;
  }

  // Every distance below the peak is passed by a run of the detector.
  lemma Approach(c: Config, ms: int, t: real) returns (events: seq<Event>, x: Sample)
    requires ValidConfig(c) && c.enabled && ms > 5000 && t < Peak(c.alpha, ms)
    ensures DetectorRun(events) && Run(events).mean.samples > 0 && Counted(x) && x.ms == ms
    ensures ScoredDistance2(Run(events), c, x) > t
  {
    hide ScoredDistance2, Peak, Slope, Fade;
    var k := LongEnough(Slope(c.alpha, ms), Peak(c.alpha, ms) - t);
    EdgeState(k);
    hide Run, Edge, DetectorRun;
    events, x := Edge(k), Sample(2, 0.5, ms);
    EdgeScore(c, Run(Edge(k)), Fade(2 * k + 1), ms);
  }

  // So the bound of shorter answers fails in some run for every longer one.
  lemma BoundFails(c: Config, ms: int) returns (events: seq<Event>, x: Sample)
    requires ValidConfig(c) && c.enabled && ms > 5000
    ensures DetectorRun(events) && Run(events).mean.samples > 0 && Counted(x) && x.ms == ms
    ensures ScoredDistance2(Run(events), c, x) > 30.0 * Square(1.0 - c.alpha)
  {
    hide Run, ScoredDistance2, DetectorRun, PeakResponse, Square;
    PeakExceeds(c.alpha, ms);
    events, x := Approach(c, ms, 30.0 * Square(1.0 - c.alpha));
  }

  // ---------- When the detector reaches the top band ----------

  ghost predicate DetectorTops(events: seq<Event>, c: Config, x: Sample) {
    DetectorRun(events) && Counted(x) && Band(ScoredDistance2(Run(events), c, x)) == 13
  }

  // Some run of the detector and some observation of this response time.
  ghost predicate CanDetectorTop(c: Config, ms: int) {
    exists events: seq<Event>, x: Sample :: x.ms == ms && DetectorTops(events, c, x)
  }

  lemma DetectorNeedsPeak(events: seq<Event>, c: Config, x: Sample)
    requires ValidConfig(c) && DetectorTops(events, c, x)
    ensures c.enabled && x.ms > 5000 && (Peak(c.alpha, x.ms) > 30.25 || FirstPeak(x.ms) >= 30.25)
  {
    hide Run, ScoredDistance2, Peak, FirstPeak, DetectorRun;
    RunNonNegative(events);
    if x.ms <= 5000 || !c.enabled {
      TopBandUnreachable(events, c, x);
    } else if Run(events).mean.samples > 0 {
      RunRemembers(events);
      PeakStrict(Run(events), c, x);
    } else {
      NothingLearnt(events);
      FirstPeakBound(Run(events), c, x);
    }
  }

  lemma UnlearntRun(k: nat)
    ensures DetectorRun(Unlearnt(k))
  {
  }

  lemma DetectorReachesTop(c: Config, ms: int) returns (events: seq<Event>, x: Sample)
    requires ValidConfig(c) && c.enabled && ms > 5000 && (Peak(c.alpha, ms) > 30.25 || FirstPeak(ms) >= 30.25)
    ensures x.ms == ms && DetectorTops(events, c, x)
  {
    hide Run, ScoredDistance2, Peak, FirstPeak, DetectorRun;
    if Peak(c.alpha, ms) > 30.25 {
      events, x := Approach(c, ms, 30.25);
    } else {
      events, x := Unlearnt(9), Sample(1, 0.0, ms);
      UnlearntRun(9);
      FirstPeakReached(c, ms);
    }
  }

  // The exact condition in the order the detector keeps, for every setting and response time.
  lemma DetectorTopExactly(c: Config, ms: int)
    requires ValidConfig(c)
    ensures CanDetectorTop(c, ms)
      <==> c.enabled && ms > 5000 && (Peak(c.alpha, ms) > 30.25 || FirstPeak(ms) >= 30.25)
  {
    hide DetectorTops, Peak, FirstPeak;
    if CanDetectorTop(c, ms) {
      var events: seq<Event>, x: Sample :| x.ms == ms && DetectorTops(events, c, x);
      DetectorNeedsPeak(events, c, x);
    }
    if c.enabled && ms > 5000 && (Peak(c.alpha, ms) > 30.25 || FirstPeak(ms) >= 30.25) {
      var events, x := DetectorReachesTop(c, ms);
    }
  }
}
