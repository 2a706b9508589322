/** What one update of the filter must come to, told in plain arithmetic apart from
    the functions that compute it. */
module FusionSpec {
  import opened Wrappers
  import opened Readings
  import opened Consensus
  import opened Products
  import opened Fusion
  import FL = FusionLaws

  // ------------------------------------------------------------ the prediction

  /** The variance a value gains while it goes unobserved. */
  ghost function Growth(cfg: FusionConfig, value: real, d: nat): real {
    (cfg.driftFracPerSec * value) * (cfg.driftFracPerSec * value) * (d as real / 1000000000.0)
  }

  /** The estimate stands, its variance grows, and every clock runs on. */
  ghost predicate PredictedTold(cfg: FusionConfig, s: Filter, dt: nat, g: Filter) {
    && g.estimate == s.estimate
    && (s.estimate.Some? && s.variance.Finite? ==> g.variance.Finite? && g.variance.r == s.variance.r + Growth(cfg, s.estimate.value, dt))
    && (s.estimate.None? || s.variance.NonFinite? ==> g.variance == s.variance)
    && |g.absorbed| == |s.absorbed|
    && forall i :: 0 <= i < |s.absorbed| ==> g.absorbed[i] == Absorbed(s.absorbed[i].source, s.absorbed[i].since + dt)
  }

  lemma GrowthIs(cfg: FusionConfig, value: real, d: nat)
    ensures Drift(cfg, value, d) == Growth(cfg, value, d)
  {
  }

  lemma {:induction false} AgedIs(absorbed: seq<Absorbed>, dt: nat)
    ensures |Aged(absorbed, dt)| == |absorbed|
    ensures forall i :: 0 <= i < |absorbed| ==> Aged(absorbed, dt)[i] == Absorbed(absorbed[i].source, absorbed[i].since + dt)
  {
    if absorbed != [] {
      AgedIs(absorbed[1..], dt);
    }
  }

  lemma PredictionIsTold(cfg: FusionConfig, s: Filter, t: Tick)
    ensures PredictedTold(cfg, s, t.dt, Grown(cfg, s, t))
  {
    hide Drift, Growth;
    AgedIs(s.absorbed, t.dt);
    if s.estimate.Some? {
      GrowthIs(cfg, s.estimate.value, t.dt);
    }
  }

  // ---------------------------------------------------------- the measurements

  /** A published half-width, else the noise of its class. */
  ghost function Spread(cfg: FusionConfig, c: Candidate): real
    requires c.reading.value.Finite?
  {
    if c.reading.confidence.Some? && c.reading.confidence.value > 0.0 then c.reading.confidence.value
    else (if c.class_.Tape? then cfg.tapeNoiseFrac else cfg.referenceNoiseFrac) * c.reading.value.r
  }

  /** A price with a positive variance: its spread squared, and what the value has
      gained since it was read. */
  ghost predicate Measurable(cfg: FusionConfig, c: Candidate) {
    c.reading.value.Finite? && c.reading.value.r > 0.0 && VarianceTold(cfg, c) > 0.0
  }

  ghost function VarianceTold(cfg: FusionConfig, c: Candidate): real
    requires c.reading.value.Finite?
  {
    Spread(cfg, c) * Spread(cfg, c) + Growth(cfg, c.reading.value.r, c.reading.age)
  }

  /** Within the band of the fast consensus. */
  ghost predicate InBand(fast: Option<Num>, band: Num, v: real) {
    && fast.Some? && fast.value.Finite? && fast.value.r > 0.0 && band.Finite? && band.r > 0.0
    && fast.value.r - band.r * fast.value.r <= v <= fast.value.r + band.r * fast.value.r
  }

  /** A tape always; a reference when its publication interval has gone by since it
      was last taken in, or it never was. */
  ghost predicate IsNew(cfg: FusionConfig, absorbed: seq<Absorbed>, c: Candidate) {
    c.class_.Tape? || forall i :: 0 <= i < |absorbed| && FirstNamed(absorbed, c.source, i) ==> absorbed[i].since >= cfg.referencePublishInterval
  }

  ghost predicate FirstNamed(absorbed: seq<Absorbed>, source: string, i: nat)
    requires i < |absorbed|
  {
    absorbed[i].source == source && forall j :: 0 <= j < i ==> absorbed[j].source != source
  }

  ghost predicate MeasuredTold(cfg: FusionConfig, absorbed: seq<Absorbed>, fast: Option<Num>, band: Num, c: Candidate, m: Measurement) {
    && m.candidate == c && Measurable(cfg, c) && m.variance == VarianceTold(cfg, c)
    && (m.admitted <==> InBand(fast, band, c.reading.value.r))
    && (m.newObservation <==> IsNew(cfg, absorbed, c))
  }

  ghost function CountMeasurable(cfg: FusionConfig, cs: seq<Candidate>): nat {
    if cs == [] then 0 else CountMeasurable(cfg, cs[..|cs| - 1]) + (if Measurable(cfg, cs[|cs| - 1]) then 1 else 0)
  }

  /** The measurable among the first eight, each once and in order. */
  ghost predicate TakenTold(cfg: FusionConfig, absorbed: seq<Absorbed>, t: Tick, ms: seq<Measurement>) {
    var seats := if |t.healthy| <= 8 then t.healthy else t.healthy[..8];
    SeatsTold(cfg, absorbed, t.fast, t.band, seats, ms)
  }

  ghost predicate SeatsTold(cfg: FusionConfig, absorbed: seq<Absorbed>, fast: Option<Num>, band: Num, seats: seq<Candidate>, ms: seq<Measurement>) {
    && |ms| == CountMeasurable(cfg, seats)
    && forall i :: 0 <= i < |seats| && Measurable(cfg, seats[i]) ==> SeatTold(cfg, absorbed, fast, band, seats, ms, i)
  }

  ghost predicate SeatTold(cfg: FusionConfig, absorbed: seq<Absorbed>, fast: Option<Num>, band: Num, seats: seq<Candidate>, ms: seq<Measurement>, i: nat)
    requires i < |seats|
  {
    var k := CountMeasurable(cfg, seats[..i]);
    k < |ms| && MeasuredTold(cfg, absorbed, fast, band, seats[i], ms[k])
  }

  lemma SquareIs(x: real)
    ensures Square(x) == x * x
  {
  }

  lemma VarianceIs(cfg: FusionConfig, c: Candidate)
    ensures MeasurementVariance(cfg, c).Some? <==> Measurable(cfg, c)
    ensures Measurable(cfg, c) ==> MeasurementVariance(cfg, c).value == VarianceTold(cfg, c)
  {
    if c.reading.Valid() {
      SpreadIs(cfg, c);
      SquareIs(BaseSigma(cfg, c));
      GrowthIs(cfg, V(c), c.reading.age);
    }
    hide Square, Drift, Growth, BaseSigma, Spread;
  }

  lemma SpreadIs(cfg: FusionConfig, c: Candidate)
    requires c.reading.Valid()
    ensures BaseSigma(cfg, c) == Spread(cfg, c)
  {
  }

  lemma BandIs(fast: Option<Num>, band: Num, v: real)
    ensures Admits(fast, band, v) <==> InBand(fast, band, v)
  {
    if fast.Some? && fast.value.Finite? && fast.value.r > 0.0 && band.Finite? {
      var f, b := fast.value.r, band.r;
      Within(v - f, f, b);
      Within(f - v, f, b);
      assert (f - v) / f == -((v - f) / f) by { Negated(v - f, f); }
    }
  }

  lemma Negated(x: real, k: real)
    requires k > 0.0
    ensures (-x) / k == -(x / k)
  {
  }

  lemma Within(x: real, k: real, b: real)
    requires k > 0.0
    ensures x / k <= b <==> x <= b * k
  {
    OverCompares(x, k, b);
    assert Over(x, k) == x / k;
    Spelled(b, k);
    hide Times, Over;
    Swap(b, k);
  }

  lemma {:induction false} ClockIs(absorbed: seq<Absorbed>, source: string)
    ensures ClockOf(absorbed, source).None? <==> forall i :: 0 <= i < |absorbed| ==> absorbed[i].source != source
    ensures ClockOf(absorbed, source).Some? ==>
      exists i :: 0 <= i < |absorbed| && FirstNamed(absorbed, source, i) && absorbed[i].since == ClockOf(absorbed, source).value
  {
    if absorbed != [] {
      if absorbed[0].source == source {
        assert FirstNamed(absorbed, source, 0);
      } else {
        ClockIs(absorbed[1..], source);
        if ClockOf(absorbed, source).Some? {
          var i :| 0 <= i < |absorbed[1..]| && FirstNamed(absorbed[1..], source, i) && absorbed[1..][i].since == ClockOf(absorbed, source).value;
          assert absorbed[i + 1] == absorbed[1..][i];
          forall j | 0 <= j < i + 1 ensures absorbed[j].source != source {
            assert j > 0 ==> absorbed[j] == absorbed[1..][j - 1];
          }
          assert FirstNamed(absorbed, source, i + 1);
        }
        forall i | 1 <= i < |absorbed| ensures absorbed[i] == absorbed[1..][i - 1] {
        }
      }
    }
  }

  lemma NewIs(cfg: FusionConfig, absorbed: seq<Absorbed>, c: Candidate)
    ensures IsNewObservation(cfg, absorbed, c) <==> IsNew(cfg, absorbed, c)
  {
    ClockIs(absorbed, c.source);
    hide ClockOf;
    if ClockOf(absorbed, c.source).Some? {
      var i :| 0 <= i < |absorbed| && FirstNamed(absorbed, c.source, i) && absorbed[i].since == ClockOf(absorbed, c.source).value;
      forall k | 0 <= k < |absorbed| && FirstNamed(absorbed, c.source, k) ensures k == i {
      }
    }
  }

  lemma {:induction false} SeatsAreTold(cfg: FusionConfig, absorbed: seq<Absorbed>, fast: Option<Num>, band: Num, seats: seq<Candidate>)
    ensures SeatsTold(cfg, absorbed, fast, band, seats, Measurements(cfg, absorbed, seats, fast, band))
  {
    hide MeasurementVariance, Admits, IsNewObservation, Measurable, VarianceTold, InBand, IsNew;
    if seats != [] {
      var n := |seats| - 1;
      var first, c := seats[..n], seats[n];
      var before, ms := Measurements(cfg, absorbed, first, fast, band), Measurements(cfg, absorbed, seats, fast, band);
      SeatsAreTold(cfg, absorbed, fast, band, first);
      VarianceIs(cfg, c);
      if c.reading.value.Finite? {
        BandIs(fast, band, c.reading.value.r);
      }
      NewIs(cfg, absorbed, c);
      forall i | 0 <= i < |seats| && Measurable(cfg, seats[i]) ensures SeatTold(cfg, absorbed, fast, band, seats, ms, i) {
        if i < n {
          assert seats[..i] == first[..i] && seats[i] == first[i];
          assert SeatTold(cfg, absorbed, fast, band, first, before, i);
        }
      }
    }
  }

  // -------------------------------------------------------------------- sums

  ghost predicate TakenIn(m: Measurement) {
    m.admitted && m.newObservation
  }

  /** The precision of what is taken in. */
  ghost function Info(ms: seq<Measurement>): (i: real)
    ensures i >= 0.0
  {
    if ms == [] then 0.0 else Info(ms[..|ms| - 1]) + (if TakenIn(ms[|ms| - 1]) then 1.0 / ms[|ms| - 1].variance else 0.0)
  }

  /** Its values, each times its precision. */
  ghost function Pulls(ms: seq<Measurement>): real {
    if ms == [] then 0.0
    else
      var m := ms[|ms| - 1];
      Pulls(ms[..|ms| - 1]) + (if TakenIn(m) then m.candidate.reading.value.r / m.variance else 0.0)
  }

  ghost function CountTaken(ms: seq<Measurement>): nat {
    if ms == [] then 0 else CountTaken(ms[..|ms| - 1]) + (if TakenIn(ms[|ms| - 1]) then 1 else 0)
  }

  /** One Kalman update for each measurement taken in, in order. */
  ghost function Kalman(mean: real, variance: real, ms: seq<Measurement>): (real, real)
    requires variance > 0.0
    ensures Kalman(mean, variance, ms).1 > 0.0
  {
    if ms == [] then (mean, variance)
    else
      var (x, p) := Kalman(mean, variance, ms[..|ms| - 1]);
      var m := ms[|ms| - 1];
      if TakenIn(m) then KalmanStep(x, p, m.candidate.reading.value.r, m.variance) else (x, p)
  }

  ghost function KalmanStep(x: real, p: real, v: real, r: real): (real, real)
    requires p > 0.0 && r > 0.0
    ensures KalmanStep(x, p, v, r).1 > 0.0
  {
    GainIsPart(p, r);
    var gain := p / (p + r);
    (x + gain * (v - x), (1.0 - gain) * p)
  }

  lemma KalmanStepSpelled(x: real, p: real, v: real, r: real)
    requires p > 0.0 && r > 0.0
    ensures KalmanStep(x, p, v, r).0 == x + Times(Over(p, p + r), v - x)
    ensures KalmanStep(x, p, v, r).1 == Times(1.0 - Over(p, p + r), p)
  {
  }

  lemma GainUpdateSpelled(x: FL.Belief, m: Measurement)
    requires x.variance > 0.0
    ensures FL.GainUpdate(x, m).mean == x.mean + Times(Over(x.variance, x.variance + m.variance), V(m.candidate) - x.mean)
    ensures FL.GainUpdate(x, m).variance == Times(1.0 - Over(x.variance, x.variance + m.variance), x.variance)
  {
  }

  lemma KalmanStepIs(x: FL.Belief, m: Measurement)
    requires x.variance > 0.0
    ensures KalmanStep(x.mean, x.variance, V(m.candidate), m.variance) == (FL.GainUpdate(x, m).mean, FL.GainUpdate(x, m).variance)
  {
    hide KalmanStep, FL.GainUpdate, Times, Over, V;
    KalmanStepSpelled(x.mean, x.variance, V(m.candidate), m.variance);
    GainUpdateSpelled(x, m);
  }

  lemma GainIsPart(p: real, r: real)
    requires p > 0.0 && r > 0.0
    ensures p / (p + r) < 1.0 && (1.0 - p / (p + r)) * p > 0.0
  {
    OverCompares(p, p + r, 1.0);
    One(p + r);
    Swap(1.0, p + r);
    assert Over(p, p + r) == p / (p + r);
    var gain := p / (p + r);
    Positive(1.0 - gain, p);
    Spelled(1.0 - gain, p);
  }

  lemma {:induction false} SumsAre(ms: seq<Measurement>)
    ensures Information(ms) == Info(ms) && Weighted(ms) == Pulls(ms) && FusibleCount(ms) == CountTaken(ms)
  {
    if ms != [] {
      SumsAre(ms[..|ms| - 1]);
    }
  }

  lemma {:induction false} KalmanIs(x: FL.Belief, ms: seq<Measurement>)
    requires x.variance > 0.0
    ensures Kalman(x.mean, x.variance, ms) == (FL.GainFold(x, ms).mean, FL.GainFold(x, ms).variance)
  {
    hide KalmanStep, FL.GainUpdate;
    if ms != [] {
      KalmanIs(x, ms[..|ms| - 1]);
      KalmanStepIs(FL.GainFold(x, ms[..|ms| - 1]), ms[|ms| - 1]);
    }
  }

  // ------------------------------------------------------------------- clocks

  /** A clock is set to zero: its own, else a free one, else the one that has waited
      longest. */
  ghost predicate MarkTold(was: seq<Absorbed>, source: string, now: seq<Absorbed>) {
    if exists i :: 0 <= i < |was| && was[i].source == source then
      exists i :: 0 <= i < |was| && FirstNamed(was, source, i) && now == was[i := Absorbed(source, 0)]
    else if |was| < 8 then now == was + [Absorbed(source, 0)]
    else exists i :: 0 <= i < |was| && LongestWait(was, i) && now == was[i := Absorbed(source, 0)]
  }

  ghost predicate LongestWait(absorbed: seq<Absorbed>, i: nat)
    requires i < |absorbed|
  {
    forall j :: 0 <= j < |absorbed| ==> absorbed[j].since <= absorbed[i].since && (absorbed[j].since == absorbed[i].since ==> j <= i)
  }

  /** Each reference taken in is marked, in order; nothing else is. */
  ghost predicate ClocksTold(was: seq<Absorbed>, ms: seq<Measurement>, now: seq<Absorbed>) {
    exists path: seq<seq<Absorbed>> :: PathTold(ms, path) && path[0] == was && path[|ms|] == now
  }

  ghost predicate PathTold(ms: seq<Measurement>, path: seq<seq<Absorbed>>) {
    |path| == |ms| + 1 && forall i :: 0 <= i < |ms| ==> NextTold(path[i], ms[i], path[i + 1])
  }

  ghost predicate NextTold(was: seq<Absorbed>, m: Measurement, now: seq<Absorbed>) {
    if TakenIn(m) && m.candidate.class_.Reference? then MarkTold(was, m.candidate.source, now) else now == was
  }

  lemma {:induction false} RestartedIs(was: seq<Absorbed>, source: string, i: nat)
    requires i < |was| && FirstNamed(was, source, i)
    ensures Restarted(was, source) == was[i := Absorbed(source, 0)]
  {
    if i > 0 {
      assert was[0].source != source;
      assert was[1..][i - 1] == was[i];
      forall j | 0 <= j < i - 1 ensures was[1..][j].source != source {
        assert was[1..][j] == was[j + 1];
      }
      RestartedIs(was[1..], source, i - 1);
      assert was[i := Absorbed(source, 0)] == [was[0]] + was[1..][i - 1 := Absorbed(source, 0)];
    } else {
      assert was[0 := Absorbed(source, 0)] == [Absorbed(source, 0)] + was[1..];
    }
  }

  lemma {:induction false} StalestIs(was: seq<Absorbed>)
    requires was != []
    ensures LongestWait(was, Stalest(was))
  {
    var n := |was| - 1;
    if n > 0 {
      StalestIs(was[..n]);
      var best := Stalest(was[..n]);
      forall j | 0 <= j < n ensures was[j].since <= was[best].since && (was[j].since == was[best].since ==> j <= best) {
        assert was[..n][j] == was[j] && was[..n][best] == was[best];
      }
    }
  }

  lemma MarkIsTold(was: seq<Absorbed>, source: string)
    ensures MarkTold(was, source, MarkAbsorbed(was, source))
  {
    ClockIs(was, source);
    hide ClockOf, Restarted, Stalest;
    if ClockOf(was, source).Some? {
      var i :| 0 <= i < |was| && FirstNamed(was, source, i) && was[i].since == ClockOf(was, source).value;
      RestartedIs(was, source, i);
    } else if |was| >= 8 {
      StalestIs(was);
    }
  }

  lemma NextIsTold(was: seq<Absorbed>, m: Measurement)
    ensures NextTold(was, m, if Fusible(m) && Throttled(m.candidate.class_) then MarkAbsorbed(was, m.candidate.source) else was)
  {
    hide MarkTold, MarkAbsorbed;
    MarkIsTold(was, m.candidate.source);
  }

  lemma {:induction false} ClocksAreTold(was: seq<Absorbed>, ms: seq<Measurement>)
    ensures ClocksTold(was, ms, AbsorbThrottled(was, ms))
  {
    if ms == [] {
      assert PathTold(ms, [was]) && [was][0] == was && [was][|ms|] == was;
    } else {
      var n := |ms| - 1;
      ClocksAreTold(was, ms[..n]);
      var mid, now := AbsorbThrottled(was, ms[..n]), AbsorbThrottled(was, ms);
      NextIsTold(mid, ms[n]);
      hide AbsorbThrottled, NextTold;
      var path :| PathTold(ms[..n], path) && path[0] == was && path[n] == mid;
      PathGrows(ms, path, now);
    }
  }

  lemma PathGrows(ms: seq<Measurement>, path: seq<seq<Absorbed>>, now: seq<Absorbed>)
    requires ms != [] && PathTold(ms[..|ms| - 1], path) && NextTold(path[|ms| - 1], ms[|ms| - 1], now)
    ensures ClocksTold(path[0], ms, now)
  {
    hide NextTold;
    var n, longer := |ms| - 1, path + [now];
    forall i | 0 <= i < |ms| ensures NextTold(longer[i], ms[i], longer[i + 1]) {
      if i < n {
        assert ms[..n][i] == ms[i] && longer[i] == path[i] && longer[i + 1] == path[i + 1];
      }
    }
    assert PathTold(ms, longer) && longer[0] == path[0] && longer[|ms|] == now;
  }

  // -------------------------------------------------------------- attribution

  /** Every measurement is listed, for its share of the whole information where it
      was taken in and for nothing where it was not. */
  ghost predicate ShareTold(ms: seq<Measurement>, whole: real, c: FusedContribution, i: nat)
    requires i < |ms|
  {
    && c.source == ms[i].candidate.source && c.value == ms[i].candidate.reading.value.r && c.variance == ms[i].variance
    && (if TakenIn(ms[i]) && whole > 0.0 then c.weight * whole == 1.0 / ms[i].variance else c.weight == 0.0)
  }

  ghost predicate SharesTold(ms: seq<Measurement>, whole: real, cs: seq<FusedContribution>) {
    |cs| == |ms| && forall i :: 0 <= i < |ms| ==> ShareTold(ms, whole, cs[i], i)
  }

  lemma {:induction false} SharesAreTold(ms: seq<Measurement>, whole: real)
    ensures SharesTold(ms, whole, Attribute(ms, whole))
  {
    if ms != [] {
      var n := |ms| - 1;
      SharesAreTold(ms[..n], whole);
      var before, all := Attribute(ms[..n], whole), Attribute(ms, whole);
      ShareIsTold(ms[n], whole);
      hide Share, Attribute;
      forall i | 0 <= i < |ms| ensures ShareTold(ms, whole, all[i], i) {
        if i < n {
          assert all[i] == before[i] && ShareTold(ms[..n], whole, before[i], i);
        }
      }
    }
  }

  lemma ShareIsTold(m: Measurement, whole: real)
    ensures if TakenIn(m) && whole > 0.0 then Share(m, whole) * whole == 1.0 / m.variance else Share(m, whole) == 0.0
  {
    if whole > 0.0 {
      Undone(1.0 / m.variance, whole);
    }
  }

  lemma Undone(x: real, k: real)
    requires k > 0.0
    ensures x / k * k == x
  {
    Whole(x, k);
    Spelled(k, x / k);
  }

  // ---------------------------------------------------------------- the update

  /** The move is past both the floor and so many standard deviations. */
  ghost predicate PastTold(cfg: FusionConfig, prior: real, variance: real, fast: real) {
    var gap := if fast >= prior then fast - prior else prior - fast;
    gap > cfg.reseedFloorFrac * prior && gap * gap > cfg.reseedSigma * cfg.reseedSigma * variance
  }

  /** Which arm an update takes, and what it leaves. */
  ghost predicate UpdateTold(cfg: FusionConfig, g: Filter, t: Tick, ms: seq<Measurement>, now: Filter, r: Report) {
    && r.value == now.estimate && r.variance == now.variance && r.n == CountTaken(ms)
    && if CountTaken(ms) == 0 then
         r.step.Carried? && now == g && SharesTold(ms, 0.0, r.contributions)
       else
         && t.fast.Some? && t.fast.value.Finite?
         && now.estimate.Some? && now.variance.Finite? && ClocksTold(g.absorbed, ms, now.absorbed)
         && match g.estimate
            case None =>
              && r.step.Seeded? && SharesTold(ms, Info(ms), r.contributions)
              && now.variance.r * Info(ms) == 1.0 && now.estimate.value * Info(ms) == Pulls(ms)
            case Some(prior) =>
              && g.variance.Finite? && g.variance.r > 0.0
              && if PastTold(cfg, prior, g.variance.r, t.fast.value.r) then
                   && r.step.Reseeded? && r.step.innovationFrac * prior == t.fast.value.r - prior
                   && now.estimate.value == t.fast.value.r && now.variance.r * Info(ms) == 1.0
                   && SharesTold(ms, Info(ms), r.contributions)
                 else
                   && r.step.Fused? && (now.estimate.value, now.variance.r) == Kalman(prior, g.variance.r, ms)
                   && SharesTold(ms, 1.0 / g.variance.r + Info(ms), r.contributions)
  }

  lemma PastIs(cfg: FusionConfig, g: Filter, prior: real, fast: real)
    requires prior > 0.0 && g.variance.Finite?
    ensures PastGate(cfg, g, prior, fast - prior) <==> PastTold(cfg, prior, g.variance.r, fast)
  {
    var gap := if fast >= prior then fast - prior else prior - fast;
    SquareIs(gap);
    SquareIs(cfg.reseedSigma);
    hide Square;
  }

  lemma SeedIsTold(g: Filter, ms: seq<Measurement>)
    requires CountTaken(ms) > 0
    ensures var (now, r) := SeedFrom(g, ms);
            && r.step.Seeded? && now.estimate.Some? && now.variance.Finite? && r.value == now.estimate && r.variance == now.variance
            && now.variance.r * Info(ms) == 1.0 && now.estimate.value * Info(ms) == Pulls(ms) && r.n == CountTaken(ms)
            && now.absorbed == AbsorbThrottled(g.absorbed, ms) && r.contributions == Attribute(ms, Info(ms))
  {
    SumsAre(ms);
    FL.CountedIsInformed(ms);
    hide Information, Weighted, FusibleCount, AbsorbThrottled, Attribute, Mean;
    Undone(1.0, Info(ms));
    FL.MeanIs(Pulls(ms), Info(ms));
    Undone(Pulls(ms), Info(ms));
  }

  lemma ReseedIsTold(g: Filter, fast: real, frac: real, ms: seq<Measurement>)
    requires CountTaken(ms) > 0
    ensures var (now, r) := ReseedTo(g, fast, frac, ms);
            && r.step == Reseeded(frac) && now.estimate == Some(fast) && now.variance.Finite? && r.value == now.estimate && r.variance == now.variance
            && now.variance.r * Info(ms) == 1.0 && r.n == CountTaken(ms)
            && now.absorbed == AbsorbThrottled(g.absorbed, ms) && r.contributions == Attribute(ms, Info(ms))
  {
    SumsAre(ms);
    FL.CountedIsInformed(ms);
    hide Information, Weighted, FusibleCount, AbsorbThrottled, Attribute;
    Undone(1.0, Info(ms));
  }

  lemma FuseIsTold(g: Filter, prior: real, ms: seq<Measurement>)
    requires g.estimate == Some(prior) && Sound(g) && CountTaken(ms) > 0
    ensures var (now, r) := FuseWith(g, prior, ms);
            && r.step.Fused? && now.estimate.Some? && now.variance.Finite? && r.value == now.estimate && r.variance == now.variance
            && g.variance.Finite? && g.variance.r > 0.0
            && (now.estimate.value, now.variance.r) == Kalman(prior, g.variance.r, ms) && r.n == CountTaken(ms)
            && now.absorbed == AbsorbThrottled(g.absorbed, ms) && r.contributions == Attribute(ms, 1.0 / g.variance.r + Info(ms))
  {
    SumsAre(ms);
    FL.PriorIs(g);
    FL.BatchIsFold(g, ms);
    KalmanIs(FL.Belief(prior, g.variance.r), ms);
    hide Information, Weighted, FusibleCount, AbsorbThrottled, Attribute, PriorInformation, PriorPull, Mean, Kalman, FL.GainFold;
  }

  lemma CarryIsTold(cfg: FusionConfig, g: Filter, t: Tick, ms: seq<Measurement>)
    requires CountTaken(ms) == 0
    ensures UpdateTold(cfg, g, t, ms, Carry(g, ms).0, Carry(g, ms).1)
  {
    hide CountTaken, Attribute, SharesTold;
    SharesAreTold(ms, 0.0);
  }

  lemma SeedArm(cfg: FusionConfig, g: Filter, t: Tick, ms: seq<Measurement>)
    requires CountTaken(ms) > 0 && g.estimate.None? && t.fast.Some? && t.fast.value.Finite?
    ensures UpdateTold(cfg, g, t, ms, SeedFrom(g, ms).0, SeedFrom(g, ms).1)
  {
    hide CountTaken, Attribute, SharesTold, SeedFrom, Info, Pulls, ClocksTold, AbsorbThrottled;
    ClocksAreTold(g.absorbed, ms);
    SharesAreTold(ms, Info(ms));
    SeedIsTold(g, ms);
  }

  lemma ReseedArm(cfg: FusionConfig, g: Filter, t: Tick, ms: seq<Measurement>, prior: real)
    requires CountTaken(ms) > 0 && g.estimate == Some(prior) && Sound(g) && t.fast.Some? && t.fast.value.Finite?
    requires PastTold(cfg, prior, g.variance.r, t.fast.value.r)
    ensures var (now, r) := ReseedTo(g, t.fast.value.r, (t.fast.value.r - prior) / prior, ms); UpdateTold(cfg, g, t, ms, now, r)
  {
    hide CountTaken, Attribute, SharesTold, ReseedTo, Info, Pulls, ClocksTold, AbsorbThrottled, PastTold;
    var fast := t.fast.value.r;
    ClocksAreTold(g.absorbed, ms);
    SharesAreTold(ms, Info(ms));
    Undone(fast - prior, prior);
    ReseedIsTold(g, fast, (fast - prior) / prior, ms);
  }

  lemma FuseArm(cfg: FusionConfig, g: Filter, t: Tick, ms: seq<Measurement>, prior: real)
    requires CountTaken(ms) > 0 && g.estimate == Some(prior) && Sound(g) && t.fast.Some? && t.fast.value.Finite?
    requires !PastTold(cfg, prior, g.variance.r, t.fast.value.r)
    ensures UpdateTold(cfg, g, t, ms, FuseWith(g, prior, ms).0, FuseWith(g, prior, ms).1)
  {
    hide CountTaken, Attribute, SharesTold, FuseWith, Info, Pulls, ClocksTold, AbsorbThrottled, PastTold, Kalman;
    ClocksAreTold(g.absorbed, ms);
    FuseIsTold(g, prior, ms);
    SharesAreTold(ms, 1.0 / g.variance.r + Info(ms));
  }

  lemma ArmIsTold(cfg: FusionConfig, s: Filter, t: Tick)
    requires Sound(s)
    ensures UpdateTold(cfg, Grown(cfg, s, t), t, Taken(cfg, s, t), Updated(cfg, s, t).0, Updated(cfg, s, t).1)
  {
    hide Grown, Taken, FuseWith, SeedFrom, ReseedTo, PastGate, PastTold, FusibleCount, CountTaken, UpdateTold, Carry;
    var g, ms := Grown(cfg, s, t), Taken(cfg, s, t);
    FL.GrownIsSound(cfg, s, t);
    SumsAre(ms);
    FL.TakenAre(cfg, s, t);
    if CountTaken(ms) == 0 {
      CarryIsTold(cfg, g, t, ms);
      FL.SeedOfNothing(g, ms);
    } else if g.estimate.None? {
      SeedArm(cfg, g, t, ms);
    } else {
      var prior, fast := g.estimate.value, t.fast.value.r;
      PastIs(cfg, g, prior, fast);
      if PastTold(cfg, prior, g.variance.r, fast) {
        ReseedArm(cfg, g, t, ms, prior);
      } else {
        FuseArm(cfg, g, t, ms, prior);
      }
    }
  }

  /** What an update comes to, from any sound state: it predicts; takes the
      measurable of the first eight, trimmed and throttled; carries when nothing is
      left; seeds when there is no estimate; re-seeds to the fast consensus when that
      is past the gate, and only then; and otherwise fuses, one Kalman update for
      each measurement taken in. */
  lemma UpdateIsTold(cfg: FusionConfig, s: Filter, t: Tick)
    requires if s.estimate.None? then s == Filter(None, NonFinite, [])
             else s.estimate.value > 0.0 && s.variance.Finite? && s.variance.r > 0.0
    ensures var g, ms := Grown(cfg, s, t), Taken(cfg, s, t);
            && PredictedTold(cfg, s, t.dt, g) && TakenTold(cfg, g.absorbed, t, ms)
            && UpdateTold(cfg, g, t, ms, Updated(cfg, s, t).0, Updated(cfg, s, t).1)
  {
    assert Sound(s);
    hide UpdateTold, SeatsTold, PredictedTold, Updated;
    PredictionIsTold(cfg, s, t);
    SeatsAreTold(cfg, Grown(cfg, s, t).absorbed, t.fast, t.band, Seats(t.healthy));
    ArmIsTold(cfg, s, t);
  }

  /** The gate in the open: with something to take in and a prior, an update re-seeds
      if and only if the fast consensus is off it by more than the wider of so many
      standard deviations of the prediction and the floor. */
  lemma ReseedsPastTheGate(cfg: FusionConfig, s: Filter, t: Tick, sigma: real)
    requires cfg.Valid() && s.estimate.Some? && s.estimate.value > 0.0 && s.variance.Finite? && s.variance.r > 0.0
    requires sigma >= 0.0 && Grown(cfg, s, t).variance == Finite(sigma * sigma) && CountTaken(Taken(cfg, s, t)) > 0
    ensures var prior, r := s.estimate.value, Updated(cfg, s, t).1;
            && t.fast.Some? && t.fast.value.Finite?
            && var gap := if t.fast.value.r >= prior then t.fast.value.r - prior else prior - t.fast.value.r;
               && (r.step.Reseeded? <==> gap > cfg.reseedSigma * sigma && gap > cfg.reseedFloorFrac * prior)
               && (!r.step.Reseeded? ==> r.step.Fused?)
  {
    hide Updated, Grown, Taken, TakenTold, UpdateTold, PredictedTold;
    UpdateIsTold(cfg, s, t);
    EstimateStands(cfg, s, t);
    hide CountTaken, PastTold;
    ArmsTold(cfg, Grown(cfg, s, t), t, Taken(cfg, s, t), Updated(cfg, s, t).0, Updated(cfg, s, t).1);
    PastMeans(cfg, s.estimate.value, sigma, Grown(cfg, s, t).variance.r, t.fast.value.r);
  }

  lemma EstimateStands(cfg: FusionConfig, s: Filter, t: Tick)
    ensures Grown(cfg, s, t).estimate == s.estimate
  {
  }

  lemma ArmsTold(cfg: FusionConfig, g: Filter, t: Tick, ms: seq<Measurement>, now: Filter, r: Report)
    requires UpdateTold(cfg, g, t, ms, now, r) && CountTaken(ms) > 0 && g.estimate.Some?
    ensures t.fast.Some? && t.fast.value.Finite? && g.variance.Finite?
    ensures r.step.Reseeded? <==> PastTold(cfg, g.estimate.value, g.variance.r, t.fast.value.r)
    ensures !r.step.Reseeded? ==> r.step.Fused?
  {
    hide CountTaken, PastTold, SharesTold, ClocksTold, Kalman, Info, Pulls;
  }

  lemma PastMeans(cfg: FusionConfig, prior: real, sigma: real, variance: real, fast: real)
    requires cfg.Valid() && sigma >= 0.0 && variance == sigma * sigma
    ensures var gap := if fast >= prior then fast - prior else prior - fast;
            PastTold(cfg, prior, variance, fast) <==> gap > cfg.reseedSigma * sigma && gap > cfg.reseedFloorFrac * prior
  {
    var gap := if fast >= prior then fast - prior else prior - fast;
    Roots(gap, cfg.reseedSigma, sigma, variance);
  }

  lemma Roots(gap: real, k: real, sigma: real, variance: real)
    requires gap >= 0.0 && k > 0.0 && sigma >= 0.0 && variance == sigma * sigma
    ensures gap * gap > k * k * variance <==> gap > k * sigma
  {
    var a := k * sigma;
    NotNegative(k, sigma);
    Spelled(k, sigma);
    assert k * k * variance == a * a by { Regrouped(k, sigma); }
    FL.SquaresCompare(gap, a);
    SquareIs(gap);
    SquareIs(a);
  }

  lemma Regrouped(k: real, sigma: real)
    ensures k * k * (sigma * sigma) == (k * sigma) * (k * sigma)
  {
  }
}
