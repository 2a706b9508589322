/** The fair-value composition and its regimes, as a function of the engine's
    carried state and one tick's legs. */
module Engine {
  import opened Wrappers
  import opened Readings
  import opened Consensus
  import opened ConsensusLaws
  import opened Config
  import F = Fusion
  import B = Basis

  datatype Legs = Legs(fx: Candidates, cryptoUsdc: Candidates, usdcUsd: Candidates, staticUsd: Num)

  datatype Anchor = Fx | CryptoReference | Static | NoAnchor

  datatype Degrade = FxStale | LegDispersed | FxInvalid | NoBasisLeg | BasisUnusable | StaticPeg

  datatype Health = HealthOk | Unverified | Degraded | Pause

  datatype Regime = Normal | CryptoOnly | FxPinned | Uncorroborated | RegimeDegraded(why: Degrade) | Paused {
    function Health(): Health {
      match this
      case Normal => HealthOk
      case CryptoOnly => HealthOk
      case FxPinned => Unverified
      case Uncorroborated => Unverified
      case RegimeDegraded(_) => Degraded
      case Paused => Pause
    }

    /** A degraded or paused regime already says worse, and stays as it is. */
    function UncorroboratedIf(b: bool): Regime {
      if b && (Normal? || CryptoOnly?) then Uncorroborated else this
    }
  }

  datatype FairValue = FairValue(
    fair: Option<real>, anchor: Anchor, regime: Regime, basis: Option<real>, basisAge: Option<nat>, basisOutlier: bool,
    fxLeg: Consensus, cryptoLeg: Consensus, fxFusion: F.Report, cryptoFusion: F.Report,
    health: Health, uncertain: bool, basisBreach: bool, usdcBreach: bool)

  const NoReport: F.Report := F.Report(None, NonFinite, F.Carried, 0, [])
  const AbsentLeg: Consensus := Consensus(None, Absent, [], None, 0, [])

  function Skeleton(regime: Regime, anchor: Anchor, fair: Option<real>): FairValue {
    FairValue(fair, anchor, regime, None, None, false, AbsentLeg, AbsentLeg, NoReport, NoReport,
              regime.Health(), false, false, false)
  }

  /** What an engine carries between ticks. */
  datatype State = State(since: nat, basis: Option<real>, fx: F.Filter, crypto: F.Filter)

  const Fresh: State := State(0, None, F.Unseeded, F.Unseeded)

  /** One tick: how long since the last, whether the session is closed, and the
      decay of the basis weight over the time since the last fold. */
  datatype Clock = Clock(dt: nat, weekend: bool, decay: real)

  function ParamsOf(cfg: FairValueConfig): B.Params {
    B.Params(cfg.basisHalfLife, cfg.basisMaxReseedWeight, cfg.basisMaxJumpFrac)
  }

  predicate BasisOutOfBand(cfg: FairValueConfig, basis: real) {
    basis < cfg.basisLow || basis > cfg.basisHigh
  }

  predicate UsdcOutOfBand(cfg: FairValueConfig, v: real) {
    v < cfg.usdcLow || v > cfg.usdcHigh
  }

  function ObservedBasis(crypto: Num, fx: Num): Option<real> {
    if fx.NonFinite? || fx.r <= 0.0 || crypto.NonFinite? then None else Some(crypto.r / fx.r)
  }

  /** `fair = fx * basis`. */
  function Price(fx: real, basis: real): real {
    fx * basis
  }

  predicate AnyInvalid(slots: seq<Candidate>, stale: LegStaleness) {
    exists c :: c in slots && c.reading.Young(stale.ForClass(c.class_)) && !c.reading.Valid()
  }

  /** Any healthy peg reading off the band, or peg sources that cannot agree. */
  predicate UsdcBreach(cfg: FairValueConfig, slots: seq<Candidate>, leg: Consensus) {
    || (exists c :: c in HealthyOf(slots, cfg.legStale) && UsdcOutOfBand(cfg, V(c)))
    || leg.state.Dispersed?
  }

  predicate Usable(leg: Consensus) {
    leg.reading.Some? ==> leg.reading.value.Valid()
  }

  /** The fused value in place of the consensus, where one was fused this tick. */
  function FusedInto(leg: Consensus, report: F.Report): Consensus {
    if report.step.Carried? then leg
    else if leg.reading.Some? && report.value.Some? && report.value.value > 0.0
    then leg.(reading := Some(leg.reading.value.(value := Finite(report.value.value))))
    else leg
  }

  // -------------------------------------------------------------- the arms

  function FallBack(staticUsd: Num, degrade: Degrade, usdcBreach: bool, basisBreach: bool, basisOutlier: bool): FairValue {
    var usable := staticUsd.Finite? && staticUsd.r > 0.0;
    var s := if usable then Skeleton(RegimeDegraded(degrade), Static, Some(staticUsd.r)) else Skeleton(Paused, NoAnchor, None);
    s.(usdcBreach := usdcBreach, basisBreach := basisBreach, basisOutlier := basisOutlier)
  }

  /** Seeded, and folded within its age bound. */
  function UsableBasis(cfg: FairValueConfig, basis: Option<real>, since: nat): Option<real> {
    if basis.Some? && since <= cfg.basisMaxAge then basis else None
  }

  /** The part of the state the composition itself changes. */
  datatype BasisState = BasisState(basis: Option<real>, since: nat)

  /** Offer the observation, unless it would seed from outside the band. */
  function FoldBasis(cfg: FairValueConfig, b: BasisState, observation: Option<real>, decay: real): (BasisState, Option<B.Fold>) {
    if observation.None? || (b.basis.None? && BasisOutOfBand(cfg, observation.value)) then (b, None)
    else
      var (value, fold) := B.Offered(ParamsOf(cfg), b.basis, Finite(observation.value), b.since, decay);
      (BasisState(value, if fold.Folded? then 0 else b.since), Some(fold))
  }

  function BothLive(cfg: FairValueConfig, b: BasisState, legs: Legs, decay: real, fxLeg: Consensus, cryptoLeg: Consensus, usdcBreach: bool):
      (BasisState, FairValue)
    requires fxLeg.reading.Some? && cryptoLeg.reading.Some? && Usable(fxLeg) && Usable(cryptoLeg)
  {
    var fx, crypto := fxLeg.reading.value, cryptoLeg.reading.value;
    var observation := ObservedBasis(crypto.value, fx.value);
    var observedBreach := observation.Some? && BasisOutOfBand(cfg, observation.value);
    var (after, fold) := FoldBasis(cfg, b, observation, decay);
    var outlier := fold.None? || fold.value.Rejected?;
    match UsableBasis(cfg, after.basis, after.since)
    case None => (after, FallBack(legs.staticUsd, BasisUnusable, usdcBreach, observedBreach, outlier))
    case Some(basis) =>
      var regime :=
        (if outlier then RegimeDegraded(NoBasisLeg)
         else if fxLeg.state.Dispersed? || cryptoLeg.state.Dispersed? then RegimeDegraded(LegDispersed)
         else Normal).UncorroboratedIf(fxLeg.state.SingleUnverified? || cryptoLeg.state.SingleUnverified?);
      (after, Skeleton(regime, Fx, Some(Price(fx.value.r, basis))).(
         basis := Some(basis), basisAge := Some(after.since), uncertain := fx.Uncertain(cfg.fxMaxConfidenceFrac),
         basisBreach := observedBreach || BasisOutOfBand(cfg, basis), basisOutlier := outlier, usdcBreach := usdcBreach))
  }

  function FxAlone(cfg: FairValueConfig, b: BasisState, legs: Legs, fxLeg: Consensus, usdcBreach: bool): FairValue
    requires fxLeg.reading.Some? && Usable(fxLeg)
  {
    var fx := fxLeg.reading.value;
    match UsableBasis(cfg, b.basis, b.since)
    case None => FallBack(legs.staticUsd, BasisUnusable, usdcBreach, false, false)
    case Some(basis) =>
      Skeleton(RegimeDegraded(NoBasisLeg), Fx, Some(Price(fx.value.r, basis))).(
        basis := Some(basis), basisAge := Some(b.since), uncertain := fx.Uncertain(cfg.fxMaxConfidenceFrac),
        basisBreach := BasisOutOfBand(cfg, basis), usdcBreach := usdcBreach)
  }

  function CryptoAlone(cfg: FairValueConfig, legs: Legs, weekend: bool, fxLeg: Consensus, cryptoLeg: Consensus, usdcBreach: bool): FairValue
    requires cryptoLeg.reading.Some? && Usable(cryptoLeg)
  {
    var regime :=
      (if cryptoLeg.state.Dispersed? then RegimeDegraded(LegDispersed)
       else if weekend then CryptoOnly
       else if AnyInvalid(legs.fx, cfg.legStale) then RegimeDegraded(FxInvalid)
       else if fxLeg.state.Dispersed? then RegimeDegraded(LegDispersed)
       else RegimeDegraded(FxStale)).UncorroboratedIf(cryptoLeg.state.SingleUnverified?);
    Skeleton(regime, CryptoReference, Some(cryptoLeg.reading.value.value.r)).(usdcBreach := usdcBreach)
  }

  function Resolved(cfg: FairValueConfig, b: BasisState, legs: Legs, clock: Clock, fxLeg: Consensus, cryptoLeg: Consensus, usdcLeg: Consensus):
      (BasisState, FairValue)
    requires Usable(fxLeg) && Usable(cryptoLeg)
  {
    var usdcBreach := UsdcBreach(cfg, legs.usdcUsd, usdcLeg);
    if cfg.pinnedBasis.Some? && fxLeg.reading.Some? then
      var fx, pinned := fxLeg.reading.value, cfg.pinnedBasis.value;
      (b, Skeleton(FxPinned, Fx, Some(Price(fx.value.r, pinned))).(
         basis := Some(pinned), uncertain := fx.Uncertain(cfg.fxMaxConfidenceFrac), usdcBreach := usdcBreach))
    else if fxLeg.reading.Some? && cryptoLeg.reading.Some? then
      BothLive(cfg, b, legs, clock.decay, fxLeg, cryptoLeg, usdcBreach)
    else if fxLeg.reading.Some? then (b, FxAlone(cfg, b, legs, fxLeg, usdcBreach))
    else if cryptoLeg.reading.Some? then (b, CryptoAlone(cfg, legs, clock.weekend, fxLeg, cryptoLeg, usdcBreach))
    else (b, FallBack(legs.staticUsd, StaticPeg, usdcBreach, false, false))
  }

  // ---------------------------------------------------------------- a tick

  function FxLeg(cfg: FairValueConfig, legs: Legs): Consensus {
    Resolution(legs.fx, cfg.legStale, cfg.legDispersionFrac)
  }

  /** A pinned market has no basis source, so whatever is offered as one is dropped. */
  function CryptoLeg(cfg: FairValueConfig, legs: Legs): Consensus {
    if cfg.pinnedBasis.Some? then AbsentLeg else Resolution(legs.cryptoUsdc, cfg.legStale, cfg.legDispersionFrac)
  }

  function TickOf(cfg: FairValueConfig, leg: Consensus, dt: nat): F.Tick {
    F.Tick(leg.healthy, if leg.reading.Some? then Some(leg.reading.value.value) else None, Finite(cfg.legDispersionFrac), dt)
  }

  lemma LegsAreUsable(cfg: FairValueConfig, legs: Legs, fx: F.Report, crypto: F.Report)
    ensures Usable(FxLeg(cfg, legs)) && Usable(CryptoLeg(cfg, legs))
    ensures Usable(FusedInto(FxLeg(cfg, legs), fx)) && Usable(FusedInto(CryptoLeg(cfg, legs), crypto))
  {
    hide Resolution;
    if FxLeg(cfg, legs).reading.Some? {
      ResolvedIsFresh(legs.fx, cfg.legStale, cfg.legDispersionFrac);
    }
    if CryptoLeg(cfg, legs).reading.Some? {
      ResolvedIsFresh(legs.cryptoUsdc, cfg.legStale, cfg.legDispersionFrac);
    }
  }

  function Composed(cfg: FairValueConfig, s: State, legs: Legs, clock: Clock): (State, FairValue) {
    var fx, crypto := FxLeg(cfg, legs), CryptoLeg(cfg, legs);
    var usdc := Resolution(legs.usdcUsd, cfg.legStale, cfg.legDispersionFrac);
    var (fxFilter, fxReport) := F.Updated(cfg.fusion, s.fx, TickOf(cfg, fx, clock.dt));
    var (cryptoFilter, cryptoReport) := F.Updated(cfg.fusion, s.crypto, TickOf(cfg, crypto, clock.dt));
    LegsAreUsable(cfg, legs, fxReport, cryptoReport);
    var (b, out) := Resolved(cfg, BasisState(s.basis, s.since + clock.dt), legs, clock,
                             FusedInto(fx, fxReport), FusedInto(crypto, cryptoReport), usdc);
    (State(b.since, b.basis, fxFilter, cryptoFilter),
     out.(fxLeg := fx, cryptoLeg := crypto, fxFusion := fxReport, cryptoFusion := cryptoReport))
  }
}
