/** A recursive estimate of a leg's value, its variance and its absorption clocks. */
module Fusion {
  import opened Wrappers
  import opened Readings
  import opened Consensus

  datatype FusionConfig = FusionConfig(
    driftFracPerSec: real, tapeNoiseFrac: real, referenceNoiseFrac: real,
    reseedSigma: real, reseedFloorFrac: real, referencePublishInterval: nat) {

    /** What `validate` accepts. */
    predicate Valid() {
      && 0.0 < driftFracPerSec <= 1.0 && 0.0 < tapeNoiseFrac <= 1.0
      && 0.0 < referenceNoiseFrac <= 1.0 && 0.0 < reseedFloorFrac <= 1.0
      && 0.0 < reseedSigma && 0 < referencePublishInterval
    }
  }

  /** Durations count nanoseconds. */
  function Secs(d: nat): (s: real)
    ensures s >= 0.0
  {
    d as real / 1_000_000_000.0
  }

  datatype Absorbed = Absorbed(source: string, since: nat)

  datatype RawMeasurement = RawMeasurement(candidate: Candidate, variance: real, admitted: bool, newObservation: bool)

  const UNIT: RawMeasurement :=
    RawMeasurement(Candidate("", Reading(Finite(1.0), 0, None), Tape, false), 1.0, false, false)

  /** What fusion knows of a candidate: its value and variance are positive. */
  type Measurement = m: RawMeasurement | m.variance > 0.0 && m.candidate.reading.Valid() witness UNIT

  datatype FusedContribution = FusedContribution(source: string, value: real, variance: real, weight: real)

  datatype Step = Carried | Seeded | Fused | Reseeded(innovationFrac: real)

  datatype Report = Report(value: Option<real>, variance: Num, step: Step, n: nat, contributions: seq<FusedContribution>)

  /** `variance` means nothing while there is no estimate. */
  datatype Filter = Filter(estimate: Option<real>, variance: Num, absorbed: seq<Absorbed>)

  const Unseeded: Filter := Filter(None, NonFinite, [])

  // --------------------------------------------------------- the clock table

  function ClockOf(absorbed: seq<Absorbed>, source: string): Option<nat> {
    if absorbed == [] then None
    else if absorbed[0].source == source then Some(absorbed[0].since)
    else ClockOf(absorbed[1..], source)
  }

  function Aged(absorbed: seq<Absorbed>, dt: nat): (r: seq<Absorbed>)
    ensures |r| == |absorbed|
  {
    if absorbed == [] then []
    else [absorbed[0].(since := absorbed[0].since + dt)] + Aged(absorbed[1..], dt)
  }

  function Restarted(absorbed: seq<Absorbed>, source: string): seq<Absorbed> {
    if absorbed == [] then []
    else if absorbed[0].source == source then [Absorbed(source, 0)] + absorbed[1..]
    else [absorbed[0]] + Restarted(absorbed[1..], source)
  }

  /** The longest wait, the last of equals. */
  function Stalest(absorbed: seq<Absorbed>): (i: nat)
    requires absorbed != []
    ensures i < |absorbed|
  {
    var n := |absorbed| - 1;
    if n == 0 then 0
    else
      var best := Stalest(absorbed[..n]);
      if absorbed[n].since >= absorbed[best].since then n else best
  }

  function MarkAbsorbed(absorbed: seq<Absorbed>, source: string): seq<Absorbed> {
    if ClockOf(absorbed, source).Some? then Restarted(absorbed, source)
    else if |absorbed| < MAX_CANDIDATES then absorbed + [Absorbed(source, 0)]
    else absorbed[Stalest(absorbed) := Absorbed(source, 0)]
  }

  predicate Throttled(c: SourceClass) {
    c.Reference?
  }

  predicate Fusible(m: Measurement) {
    m.admitted && m.newObservation
  }

  function AbsorbThrottled(absorbed: seq<Absorbed>, ms: seq<Measurement>): seq<Absorbed> {
    if ms == [] then absorbed
    else
      var n := |ms| - 1;
      var before := AbsorbThrottled(absorbed, ms[..n]);
      if Fusible(ms[n]) && Throttled(ms[n].candidate.class_) then MarkAbsorbed(before, ms[n].candidate.source) else before
  }

  predicate IsNewObservation(cfg: FusionConfig, absorbed: seq<Absorbed>, c: Candidate) {
    !Throttled(c.class_)
    || ClockOf(absorbed, c.source).None?
    || ClockOf(absorbed, c.source).value >= cfg.referencePublishInterval
  }

  // ------------------------------------------------------------ measurements

  function Square(x: real): (s: real)
    ensures s >= 0.0
  {
    x * x
  }

  /** The variance a random walk gains over some time. */
  function Drift(cfg: FusionConfig, estimate: real, d: nat): real {
    Square(cfg.driftFracPerSec * estimate) * Secs(d)
  }

  function NoiseFrac(cfg: FusionConfig, c: SourceClass): real {
    if c.Tape? then cfg.tapeNoiseFrac else cfg.referenceNoiseFrac
  }

  function BaseSigma(cfg: FusionConfig, c: Candidate): real
    requires c.reading.Valid()
  {
    match c.reading.confidence
    case Some(conf) => if conf > 0.0 then conf else NoiseFrac(cfg, c.class_) * V(c)
    case None => NoiseFrac(cfg, c.class_) * V(c)
  }

  /** Published confidence or class noise, widened by the drift over its age. */
  function MeasurementVariance(cfg: FusionConfig, c: Candidate): (v: Option<real>)
    ensures v.Some? ==> v.value > 0.0 && c.reading.Valid()
  {
    if !c.reading.Valid() then None
    else
      var variance := Square(BaseSigma(cfg, c)) + Drift(cfg, V(c), c.reading.age);
      if variance > 0.0 then Some(variance) else None
  }

  /** Within the band of the fast consensus; nothing is, when there is none. */
  predicate Admits(fast: Option<Num>, band: Num, value: real) {
    match fast
    case None => false
    case Some(NonFinite) => false
    case Some(Finite(f)) =>
      f > 0.0 && band.Finite? && band.r > 0.0
      && (var off := (value - f) / f; (if off >= 0.0 then off else -off) <= band.r)
  }

  function Measurements(cfg: FusionConfig, absorbed: seq<Absorbed>, healthy: seq<Candidate>, fast: Option<Num>, band: Num): seq<Measurement> {
    if healthy == [] then []
    else
      var n := |healthy| - 1;
      var before := Measurements(cfg, absorbed, healthy[..n], fast, band);
      var c := healthy[n];
      match MeasurementVariance(cfg, c)
      case None => before
      case Some(v) =>
        before + [RawMeasurement(c, v, Admits(fast, band, V(c)), IsNewObservation(cfg, absorbed, c))]
  }

  function Seats(healthy: seq<Candidate>): (s: seq<Candidate>)
    ensures |s| <= MAX_CANDIDATES
  {
    if |healthy| <= MAX_CANDIDATES then healthy else healthy[..MAX_CANDIDATES]
  }

  function FusibleCount(ms: seq<Measurement>): nat {
    if ms == [] then 0 else FusibleCount(ms[..|ms| - 1]) + (if Fusible(ms[|ms| - 1]) then 1 else 0)
  }

  function Precision(m: Measurement): (p: real)
    ensures p > 0.0
  {
    1.0 / m.variance
  }

  function Pull(m: Measurement): real {
    V(m.candidate) / m.variance
  }

  /** The precision the fusible measurements add. */
  function Information(ms: seq<Measurement>): (i: real)
    ensures i >= 0.0
  {
    if ms == [] then 0.0
    else Information(ms[..|ms| - 1]) + (if Fusible(ms[|ms| - 1]) then Precision(ms[|ms| - 1]) else 0.0)
  }

  function Weighted(ms: seq<Measurement>): real {
    if ms == [] then 0.0
    else Weighted(ms[..|ms| - 1]) + (if Fusible(ms[|ms| - 1]) then Pull(ms[|ms| - 1]) else 0.0)
  }

  function Share(m: Measurement, information: real): real {
    if information > 0.0 && Fusible(m) then Precision(m) / information else 0.0
  }

  function Attribute(ms: seq<Measurement>, information: real): seq<FusedContribution> {
    if ms == [] then []
    else
      var m := ms[|ms| - 1];
      Attribute(ms[..|ms| - 1], information)
      + [FusedContribution(m.candidate.source, V(m.candidate), m.variance, Share(m, information))]
  }

  // ------------------------------------------------------------- the update

  /** Random-walk growth of the variance over the elapsed time. */
  function Predict(cfg: FusionConfig, s: Filter, dt: nat): Filter {
    if s.estimate.None? || s.variance.NonFinite? then s
    else s.(variance := Finite(s.variance.r + Drift(cfg, s.estimate.value, dt)))
  }

  function SigmaGateSquared(cfg: FusionConfig, variance: real): real {
    Square(cfg.reseedSigma) * variance
  }

  /** `|innovation| > max(reseedSigma * sigma, floor * estimate)`, with both
      sides of the sigma comparison squared. */
  predicate PastGate(cfg: FusionConfig, s: Filter, prior: real, innovation: real) {
    var size := if innovation >= 0.0 then innovation else -innovation;
    && size > cfg.reseedFloorFrac * (if prior >= 0.0 then prior else -prior)
    && (s.variance.Finite? ==> Square(size) > SigmaGateSquared(cfg, s.variance.r))
  }

  /** A precision-weighted total as a mean. */
  function Mean(total: real, information: real): real
    requires information > 0.0
  {
    var variance := 1.0 / information;
    total * variance
  }

  function PriorPull(s: Filter, prior: real): real {
    PriorInformation(s) * prior
  }

  function Carry(s: Filter, ms: seq<Measurement>): (Filter, Report) {
    (s, Report(s.estimate, s.variance, Carried, 0, Attribute(ms, 0.0)))
  }

  function SeedFrom(s: Filter, ms: seq<Measurement>): (Filter, Report) {
    var information := Information(ms);
    if information <= 0.0 then Carry(s, ms)
    else
      var variance := 1.0 / information;
      var value := Mean(Weighted(ms), information);
      (Filter(Some(value), Finite(variance), AbsorbThrottled(s.absorbed, ms)),
       Report(Some(value), Finite(variance), Seeded, FusibleCount(ms), Attribute(ms, information)))
  }

  function PriorInformation(s: Filter): (i: real)
    ensures i >= 0.0
  {
    if s.variance.Finite? && s.variance.r > 0.0 then 1.0 / s.variance.r else 0.0
  }

  function FuseWith(s: Filter, prior: real, ms: seq<Measurement>): (Filter, Report) {
    var information := PriorInformation(s) + Information(ms);
    if information <= 0.0 then Carry(s, ms)
    else
      var variance := 1.0 / information;
      var value := Mean(PriorPull(s, prior) + Weighted(ms), information);
      (Filter(Some(value), Finite(variance), AbsorbThrottled(s.absorbed, ms)),
       Report(Some(value), Finite(variance), Fused, FusibleCount(ms), Attribute(ms, information)))
  }

  function ReseedTo(s: Filter, fast: real, innovationFrac: real, ms: seq<Measurement>): (Filter, Report) {
    var information := Information(ms);
    var variance := if information > 0.0 then Finite(1.0 / information) else s.variance;
    (Filter(Some(fast), variance, AbsorbThrottled(s.absorbed, ms)),
     Report(Some(fast), variance, Reseeded(innovationFrac), FusibleCount(ms), Attribute(ms, information)))
  }

  /** One tick's input. */
  datatype Tick = Tick(healthy: seq<Candidate>, fast: Option<Num>, band: Num, dt: nat)

  function Grown(cfg: FusionConfig, s: Filter, t: Tick): Filter {
    var p := Predict(cfg, s, t.dt);
    p.(absorbed := Aged(p.absorbed, t.dt))
  }

  function Taken(cfg: FusionConfig, s: Filter, t: Tick): seq<Measurement> {
    Measurements(cfg, Grown(cfg, s, t).absorbed, Seats(t.healthy), t.fast, t.band)
  }

  function Updated(cfg: FusionConfig, s: Filter, t: Tick): (Filter, Report) {
    var g := Grown(cfg, s, t);
    var ms := Taken(cfg, s, t);
    match g.estimate
    case None => SeedFrom(g, ms)
    case Some(prior) =>
      if FusibleCount(ms) == 0 then Carry(g, ms)
      else if t.fast.Some? && t.fast.value.Finite? && prior > 0.0 && PastGate(cfg, g, prior, t.fast.value.r - prior)
      then ReseedTo(g, t.fast.value.r, (t.fast.value.r - prior) / prior, ms)
      else FuseWith(g, prior, ms)
  }

  /** What every filter a market reaches satisfies. */
  predicate Sound(s: Filter) {
    match s.estimate
    case None => s == Unseeded
    case Some(e) => e > 0.0 && s.variance.Finite? && s.variance.r > 0.0
  }
}
