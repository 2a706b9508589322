/** What one tick of the engine must come to, told apart from the code that
    computes it, and the proof that every tick of every run does. */
module EngineSpec {
  import opened Wrappers
  import opened Readings
  import opened Consensus
  import opened ConsensusLaws
  import opened Config
  import opened Engine
  import opened EngineLaws
  import opened Products
  import F = Fusion
  import FL = FusionLaws
  import B = Basis

  /** The prices a composition has to work with: a present leg is positive. */
  ghost predicate Live(leg: Option<Reading>) {
    leg.Some? && leg.value.value.Finite? && leg.value.value.r > 0.0
  }

  // ------------------------------------------------------------------ basis

  /** Two live legs imply the number that takes the one to the other. The first to
      lie in the sane band is the estimate. After it one past the allowance is an
      outlier, and any other moves the estimate its share of the way. */
  ghost predicate FoldTold(cfg: FairValueConfig, was: Option<real>, elapsed: nat, decay: real, fx: real, crypto: real, o: real,
                           now: Option<real>, since: nat, outlier: bool) {
    var p := B.Params(cfg.basisHalfLife, cfg.basisMaxReseedWeight, cfg.basisMaxJumpFrac);
    && o * fx == crypto
    && match was
       case None =>
         if cfg.basisLow <= o <= cfg.basisHigh then now == Some(o) && since == 0 && !outlier
         else now == None && since == elapsed && outlier
       case Some(prev) =>
         if B.Allowed(p, prev, o, elapsed) then
           && now.Some? && now.value == prev + B.Share(p, elapsed, decay) * (o - prev)
           && since == 0 && !outlier
         else now == was && since == elapsed && outlier
  }

  ghost predicate BasisTold(cfg: FairValueConfig, was: Option<real>, elapsed: nat, decay: real, fx: Option<Reading>, crypto: Option<Reading>,
                            now: Option<real>, since: nat, outlier: bool) {
    if cfg.pinnedBasis.Some? || fx.None? || crypto.None? then now == was && since == elapsed && !outlier
    else
      && Live(fx) && Live(crypto)
      && exists o :: FoldTold(cfg, was, elapsed, decay, fx.value.value.r, crypto.value.value.r, o, now, since, outlier)
  }

  // -------------------------------------------------------------------- mid

  ghost predicate AtPeg(legs: Legs, out: FairValue) {
    && out.basis.None? && out.basisAge.None?
    && if legs.staticUsd.Finite? && legs.staticUsd.r > 0.0 then out.anchor.Static? && out.fair == Some(legs.staticUsd.r)
       else out.anchor.NoAnchor? && out.fair.None?
  }

  /** FX times the pin; else FX times a basis no older than its bound; else, with no
      FX, the crypto leg; else the static peg; else nothing. */
  ghost predicate MidTold(cfg: FairValueConfig, legs: Legs, fx: Option<Reading>, crypto: Option<Reading>, now: Option<real>, since: nat, out: FairValue) {
    if fx.Some? then
      && Live(fx)
      && if cfg.pinnedBasis.Some? then
           && out.anchor.Fx? && out.basis == cfg.pinnedBasis && out.basisAge.None?
           && out.fair.Some? && out.fair.value == fx.value.value.r * cfg.pinnedBasis.value
         else if now.Some? && since <= cfg.basisMaxAge then
           && out.anchor.Fx? && out.basis == now && out.basisAge == Some(since)
           && out.fair.Some? && out.fair.value == fx.value.value.r * now.value
         else AtPeg(legs, out)
    else if crypto.Some? then
      && Live(crypto) && out.basis.None? && out.basisAge.None?
      && out.anchor.CryptoReference? && out.fair == Some(crypto.value.value.r)
    else AtPeg(legs, out)
  }

  // ----------------------------------------------------------------- regime

  /** A young reading that is not a price. */
  ghost predicate SomeInvalid(slots: seq<Candidate>, stale: LegStaleness) {
    exists c: Candidate :: c in slots && c.reading.age < (if c.class_.Tape? then stale.tape else stale.reference)
                           && !(c.reading.value.Finite? && c.reading.value.r > 0.0)
  }

  /** The regime, by what the mid rests on. */
  ghost predicate RegimeTold(cfg: FairValueConfig, legs: Legs, weekend: bool, fx: bool, fxState: ConsensusState,
                             crypto: bool, cryptoState: ConsensusState, out: FairValue) {
    match out.anchor
    case NoAnchor => out.regime.Paused?
    case Static => out.regime == RegimeDegraded(if fx then BasisUnusable else StaticPeg)
    case CryptoReference =>
      out.regime ==
        (if cryptoState.Dispersed? then RegimeDegraded(LegDispersed)
         else if weekend && cryptoState.SingleUnverified? then Uncorroborated
         else if weekend then CryptoOnly
         else if SomeInvalid(legs.fx, cfg.legStale) then RegimeDegraded(FxInvalid)
         else if fxState.Dispersed? then RegimeDegraded(LegDispersed)
         else RegimeDegraded(FxStale))
    case Fx =>
      out.regime ==
        (if cfg.pinnedBasis.Some? then FxPinned
         else if !crypto || out.basisOutlier then RegimeDegraded(NoBasisLeg)
         else if fxState.Dispersed? || cryptoState.Dispersed? then RegimeDegraded(LegDispersed)
         else if fxState.SingleUnverified? || cryptoState.SingleUnverified? then Uncorroborated
         else Normal)
  }

  ghost predicate HealthTold(out: FairValue) {
    && (out.health.HealthOk? <==> out.regime.Normal? || out.regime.CryptoOnly?)
    && (out.health.Unverified? <==> out.regime.FxPinned? || out.regime.Uncorroborated?)
    && (out.health.Degraded? <==> out.regime.RegimeDegraded?)
    && (out.health.Pause? <==> out.regime.Paused?)
  }

  // --------------------------------------------------------------- breaches

  /** The basis breach: what two live legs imply, or what an unpinned mid rests on,
      is off the band. */
  ghost predicate BasisBreachTold(cfg: FairValueConfig, fx: Option<Reading>, crypto: Option<Reading>, out: FairValue) {
    out.basisBreach <==>
      && cfg.pinnedBasis.None?
      && (|| (Live(fx) && Live(crypto) && OffBand(cfg, fx.value.value.r, crypto.value.value.r))
          || (out.anchor.Fx? && out.basis.Some? && !(cfg.basisLow <= out.basis.value <= cfg.basisHigh)))
  }

  ghost predicate OffBand(cfg: FairValueConfig, fx: real, crypto: real) {
    crypto < cfg.basisLow * fx || crypto > cfg.basisHigh * fx
  }

  ghost predicate PegBreachTold(cfg: FairValueConfig, usdc: Candidates, usdcState: ConsensusState, out: FairValue) {
    out.usdcBreach <==>
      || usdcState.Dispersed?
      || exists c: Candidate :: c in usdc && c.reading.age < (if c.class_.Tape? then cfg.legStale.tape else cfg.legStale.reference)
                                && c.reading.value.Finite? && c.reading.value.r > 0.0
                                && !(cfg.usdcLow <= c.reading.value.r <= cfg.usdcHigh)
  }

  // ------------------------------------------------------------- the pieces

  lemma ObservedIs(crypto: Num, fx: Num)
    requires fx.Finite? && fx.r > 0.0 && crypto.Finite?
    ensures ObservedBasis(crypto, fx).Some? && ObservedBasis(crypto, fx).value * fx.r == crypto.r
  {
  }

  lemma OffBandIs(cfg: FairValueConfig, fx: real, crypto: real, o: real)
    requires fx > 0.0 && o * fx == crypto
    ensures OffBand(cfg, fx, crypto) <==> BasisOutOfBand(cfg, o)
  {
    Ordered(fx, o, cfg.basisLow);
    Ordered(fx, o, cfg.basisHigh);
  }

  lemma Ordered(fx: real, a: real, b: real)
    requires fx > 0.0
    ensures a * fx < b * fx <==> a < b
    ensures a * fx > b * fx <==> a > b
  {
    Compared(a, b, fx);
    Compared(b, a, fx);
    Spelled(a, fx);
    Spelled(b, fx);
  }

  lemma FoldIsTold(cfg: FairValueConfig, was: Option<real>, elapsed: nat, decay: real, fx: real, crypto: real, o: real)
    requires Valid(cfg) && (was.Some? ==> was.value > 0.0) && o * fx == crypto
    ensures var (after, fold) := FoldBasis(cfg, BasisState(was, elapsed), Some(o), decay);
            FoldTold(cfg, was, elapsed, decay, fx, crypto, o, after.basis, after.since, fold.None? || fold.value.Rejected?)
  {
    hide B.Offered, B.Allowed, B.Share;
    B.OfferIs(ParamsOf(cfg), was, Finite(o), elapsed, decay);
  }

  lemma PriceIs(fx: real, basis: real)
    ensures Price(fx, basis) == fx * basis
  {
  }

  lemma PegIs(legs: Legs, degrade: Degrade, usdc: bool, basisBreach: bool, outlier: bool)
    ensures var out := FallBack(legs.staticUsd, degrade, usdc, basisBreach, outlier);
            && AtPeg(legs, out) && HealthTold(out)
            && out.regime == (if out.anchor.Static? then RegimeDegraded(degrade) else Paused)
            && out.usdcBreach == usdc && out.basisBreach == basisBreach && out.basisOutlier == outlier && !out.anchor.Fx? && !out.anchor.CryptoReference?
  {
  }

  lemma InvalidIs(slots: seq<Candidate>, stale: LegStaleness)
    ensures AnyInvalid(slots, stale) <==> SomeInvalid(slots, stale)
  {
    if AnyInvalid(slots, stale) {
      var c: Candidate :| c in slots && c.reading.Young(stale.ForClass(c.class_)) && !c.reading.Valid();
      assert c in slots && c.reading.age < (if c.class_.Tape? then stale.tape else stale.reference);
    }
    if SomeInvalid(slots, stale) {
      var c: Candidate :| c in slots && c.reading.age < (if c.class_.Tape? then stale.tape else stale.reference)
                          && !(c.reading.value.Finite? && c.reading.value.r > 0.0);
      assert c.reading.Young(stale.ForClass(c.class_)) && !c.reading.Valid();
    }
  }

  /** All of it, of one composition. */
  ghost predicate Told(cfg: FairValueConfig, b: BasisState, legs: Legs, clock: Clock, fxLeg: Consensus, cryptoLeg: Consensus, after: BasisState, out: FairValue) {
    && BasisTold(cfg, b.basis, b.since, clock.decay, fxLeg.reading, cryptoLeg.reading, after.basis, after.since, out.basisOutlier)
    && MidTold(cfg, legs, fxLeg.reading, cryptoLeg.reading, after.basis, after.since, out)
    && RegimeTold(cfg, legs, clock.weekend, fxLeg.reading.Some?, fxLeg.state, cryptoLeg.reading.Some?, cryptoLeg.state, out)
    && HealthTold(out)
    && BasisBreachTold(cfg, fxLeg.reading, cryptoLeg.reading, out)
  }

  lemma BothLiveIsTold(cfg: FairValueConfig, b: BasisState, legs: Legs, clock: Clock, fxLeg: Consensus, cryptoLeg: Consensus, usdc: bool)
    requires Valid(cfg) && Usable(fxLeg) && Usable(cryptoLeg) && cfg.pinnedBasis.None?
    requires fxLeg.reading.Some? && cryptoLeg.reading.Some? && (b.basis.Some? ==> b.basis.value > 0.0)
    ensures var (after, out) := BothLive(cfg, b, legs, clock.decay, fxLeg, cryptoLeg, usdc);
            Told(cfg, b, legs, clock, fxLeg, cryptoLeg, after, out)
  {
    hide FoldBasis, ObservedBasis, Price, FoldTold, OffBand, FallBack, AtPeg;
    var fx, crypto := fxLeg.reading.value.value.r, cryptoLeg.reading.value.value.r;
    ObservedIs(Finite(crypto), Finite(fx));
    var o := ObservedBasis(Finite(crypto), Finite(fx)).value;
    var (after, fold) := FoldBasis(cfg, b, Some(o), clock.decay);
    FoldIsTold(cfg, b.basis, b.since, clock.decay, fx, crypto, o);
    OffBandIs(cfg, fx, crypto, o);
    PegIs(legs, BasisUnusable, usdc, BasisOutOfBand(cfg, o), fold.None? || fold.value.Rejected?);
    if after.basis.Some? {
      PriceIs(fx, after.basis.value);
    }
  }

  lemma ResolvedIsTold(cfg: FairValueConfig, b: BasisState, legs: Legs, clock: Clock, fxLeg: Consensus, cryptoLeg: Consensus, usdcLeg: Consensus)
    requires Valid(cfg) && Usable(fxLeg) && Usable(cryptoLeg)
    requires cfg.pinnedBasis.Some? ==> b.basis.None? && cryptoLeg.reading.None?
    requires b.basis.Some? ==> b.basis.value > 0.0
    ensures var (after, out) := Resolved(cfg, b, legs, clock, fxLeg, cryptoLeg, usdcLeg);
            Told(cfg, b, legs, clock, fxLeg, cryptoLeg, after, out)
  {
    hide BothLive, UsdcBreach, ObservedBasis, Price, FallBack, AtPeg, AnyInvalid, SomeInvalid, FoldTold, OffBand;
    var usdc := UsdcBreach(cfg, legs.usdcUsd, usdcLeg);
    InvalidIs(legs.fx, cfg.legStale);
    PegIs(legs, BasisUnusable, usdc, false, false);
    PegIs(legs, StaticPeg, usdc, false, false);
    if fxLeg.reading.Some? && cryptoLeg.reading.Some? {
      BothLiveIsTold(cfg, b, legs, clock, fxLeg, cryptoLeg, usdc);
    }
    if fxLeg.reading.Some? && cfg.pinnedBasis.Some? {
      PriceIs(fxLeg.reading.value.value.r, cfg.pinnedBasis.value);
    }
    if fxLeg.reading.Some? && b.basis.Some? {
      PriceIs(fxLeg.reading.value.value.r, b.basis.value);
    }
  }

  // --------------------------------------------------------- legs and filters

  /** A leg as it is reported, and as it is priced from: the consensus of what was
      offered, with the filter's estimate for its value on every tick the filter
      took anything in. */
  ghost predicate LegTold(cfg: FairValueConfig, dt: nat, was: F.Filter, leg: Consensus, now: F.Filter, report: F.Report, priced: Option<Reading>) {
    && (now, report) == F.Updated(cfg.fusion, was, F.Tick(leg.healthy, if leg.reading.Some? then Some(leg.reading.value.value) else None,
                                                        Finite(cfg.legDispersionFrac), dt))
    && (leg.reading.None? ==> priced.None?)
    && (leg.reading.Some? ==>
          && priced.Some? && priced.value.age == leg.reading.value.age && priced.value.confidence == leg.reading.value.confidence
          && (report.step.Carried? ==> priced.value.value == leg.reading.value.value)
          && (!report.step.Carried? ==> now.estimate.Some? && priced.value.value == Finite(now.estimate.value)))
  }

  lemma LegIsTold(cfg: FairValueConfig, dt: nat, was: F.Filter, leg: Consensus)
    requires F.Sound(was)
    ensures var (now, report) := F.Updated(cfg.fusion, was, TickOf(cfg, leg, dt));
            LegTold(cfg, dt, was, leg, now, report, FusedInto(leg, report).reading)
  {
    hide F.Updated;
    var t := TickOf(cfg, leg, dt);
    ReportedIsKept(cfg.fusion, was, t);
    if !F.Updated(cfg.fusion, was, t).1.step.Carried? {
      FL.CommittedIsPositive(cfg.fusion, was, t);
    }
  }

  lemma StatesStand(cfg: FairValueConfig, s: State, i: Input)
    ensures PricedFx(cfg, s, i).state == FxLeg(cfg, i.legs).state
    ensures PricedCrypto(cfg, s, i).state == CryptoLeg(cfg, i.legs).state
    ensures cfg.pinnedBasis.Some? ==> PricedCrypto(cfg, s, i).reading.None?
  {
    hide Resolution, F.Updated;
  }

  lemma PegBreachIs(cfg: FairValueConfig, slots: Candidates, leg: Consensus, out: FairValue)
    requires out.usdcBreach == UsdcBreach(cfg, slots, leg)
    ensures PegBreachTold(cfg, slots, leg.state, out)
  {
    hide HealthyOf;
    forall c ensures c in HealthyOf(slots, cfg.legStale) <==> c in slots && Healthy(c, cfg.legStale) {
      HealthyMembers(slots, cfg.legStale, c);
    }
    if out.usdcBreach && !leg.state.Dispersed? {
      var c :| c in HealthyOf(slots, cfg.legStale) && UsdcOutOfBand(cfg, V(c));
      assert c in slots;
    }
    if exists c: Candidate :: c in slots && c.reading.age < (if c.class_.Tape? then cfg.legStale.tape else cfg.legStale.reference)
                              && c.reading.value.Finite? && c.reading.value.r > 0.0
                              && !(cfg.usdcLow <= c.reading.value.r <= cfg.usdcHigh) {
      var c: Candidate :| c in slots && c.reading.age < (if c.class_.Tape? then cfg.legStale.tape else cfg.legStale.reference)
                          && c.reading.value.Finite? && c.reading.value.r > 0.0
                          && !(cfg.usdcLow <= c.reading.value.r <= cfg.usdcHigh);
      assert Healthy(c, cfg.legStale) && UsdcOutOfBand(cfg, V(c));
    }
  }

  lemma {:induction false} HealthyMembers(slots: seq<Candidate>, stale: LegStaleness, c: Candidate)
    ensures c in HealthyOf(slots, stale) <==> c in slots && Healthy(c, stale)
  {
    if slots != [] {
      var n := |slots| - 1;
      assert slots == slots[..n] + [slots[n]];
      HealthyMembers(slots[..n], stale, c);
    }
  }

  /** Every tick of every run is as told: both legs are the consensus of what was
      offered, fused; the basis is folded from what they imply, or stands; the mid
      is the product or the fallback; and the regime, the health and the breaches
      are what all that calls for. A pinned market has no crypto leg. */
  lemma EveryTickIsTold(cfg: FairValueConfig, run: seq<Input>)
    requires Valid(cfg) && run != []
    ensures var before, i := run[..|run| - 1], run[|run| - 1];
            var s, t, out := After(cfg, before), After(cfg, run), Last(cfg, run);
            var fx, crypto := PricedFx(cfg, s, i), PricedCrypto(cfg, s, i);
            && out.fxLeg == Resolution(i.legs.fx, cfg.legStale, cfg.legDispersionFrac)
            && out.cryptoLeg == (if cfg.pinnedBasis.Some? then Consensus(None, Absent, [], None, 0, [])
                                 else Resolution(i.legs.cryptoUsdc, cfg.legStale, cfg.legDispersionFrac))
            && LegTold(cfg, i.clock.dt, s.fx, out.fxLeg, t.fx, out.fxFusion, fx.reading)
            && LegTold(cfg, i.clock.dt, s.crypto, out.cryptoLeg, t.crypto, out.cryptoFusion, crypto.reading)
            && fx.state == out.fxLeg.state && crypto.state == out.cryptoLeg.state
            && Told(cfg, BasisState(s.basis, s.since + i.clock.dt), i.legs, i.clock, fx, crypto, BasisState(t.basis, t.since), out)
            && PegBreachTold(cfg, i.legs.usdcUsd, Resolution(i.legs.usdcUsd, cfg.legStale, cfg.legDispersionFrac).state, out)
    ensures After(cfg, []) == State(0, None, F.Filter(None, NonFinite, []), F.Filter(None, NonFinite, []))
  {
    hide Resolution, Resolved, F.Updated, UsdcBreach, FusedInto, LegTold, Told, PegBreachTold;
    var i := run[|run| - 1];
    var s := After(cfg, run[..|run| - 1]);
    RunKeeps(cfg, run[..|run| - 1]);
    var fx, crypto := FxLeg(cfg, i.legs), CryptoLeg(cfg, i.legs);
    LegIsTold(cfg, i.clock.dt, s.fx, fx);
    LegIsTold(cfg, i.clock.dt, s.crypto, crypto);
    LegsAreUsable(cfg, i.legs, F.Updated(cfg.fusion, s.fx, TickOf(cfg, fx, i.clock.dt)).1,
                  F.Updated(cfg.fusion, s.crypto, TickOf(cfg, crypto, i.clock.dt)).1);
    StatesStand(cfg, s, i);
    var usdc := Resolution(i.legs.usdcUsd, cfg.legStale, cfg.legDispersionFrac);
    ResolvedIsTold(cfg, BasisState(s.basis, s.since + i.clock.dt), i.legs, i.clock, PricedFx(cfg, s, i), PricedCrypto(cfg, s, i), usdc);
    ResolvedPeg(cfg, BasisState(s.basis, s.since + i.clock.dt), i.legs, i.clock, PricedFx(cfg, s, i), PricedCrypto(cfg, s, i), usdc);
    PegBreachIs(cfg, i.legs.usdcUsd, usdc, Last(cfg, run));
    LegsDoNotMatter(cfg, BasisState(s.basis, s.since + i.clock.dt), i.legs, i.clock, PricedFx(cfg, s, i), PricedCrypto(cfg, s, i), usdc, Last(cfg, run));
  }

  lemma ResolvedPeg(cfg: FairValueConfig, b: BasisState, legs: Legs, clock: Clock, fxLeg: Consensus, cryptoLeg: Consensus, usdcLeg: Consensus)
    requires Usable(fxLeg) && Usable(cryptoLeg)
    ensures Resolved(cfg, b, legs, clock, fxLeg, cryptoLeg, usdcLeg).1.usdcBreach == UsdcBreach(cfg, legs.usdcUsd, usdcLeg)
  {
    hide UsdcBreach, AnyInvalid, ObservedBasis, Price, FoldBasis, BasisOutOfBand;
  }

  /** What is reported of the legs has no part in the rest. */
  lemma LegsDoNotMatter(cfg: FairValueConfig, b: BasisState, legs: Legs, clock: Clock, fxLeg: Consensus, cryptoLeg: Consensus, usdcLeg: Consensus, out: FairValue)
    requires Usable(fxLeg) && Usable(cryptoLeg)
    requires var (after, inner) := Resolved(cfg, b, legs, clock, fxLeg, cryptoLeg, usdcLeg);
             out == inner.(fxLeg := out.fxLeg, cryptoLeg := out.cryptoLeg, fxFusion := out.fxFusion, cryptoFusion := out.cryptoFusion)
             && Told(cfg, b, legs, clock, fxLeg, cryptoLeg, after, inner)
    ensures Told(cfg, b, legs, clock, fxLeg, cryptoLeg, Resolved(cfg, b, legs, clock, fxLeg, cryptoLeg, usdcLeg).0, out)
  {
    hide Resolved, FoldTold, OffBand, SomeInvalid;
  }
}
