/** The engine in the code's own form: two filters, a moving average and a clock,
    advanced in place once a tick. */
module FairValueEngine {
  import opened Wrappers
  import opened Readings
  import opened Consensus
  import opened ConsensusLaws
  import opened Config
  import opened Engine
  import opened FusionFilter
  import F = Fusion
  import B = Basis
  import Resolve

  class FairValueEngine {
    const cfg: FairValueConfig
    const basis: B.BasisEma
    const fxFusion: FusionFilter
    const cryptoFusion: FusionFilter
    var sinceBasis: nat

    ghost predicate Valid() {
      && fxFusion != cryptoFusion
      && fxFusion.cfg == cfg.fusion && cryptoFusion.cfg == cfg.fusion
      && basis.p == ParamsOf(cfg)
    }

    ghost function Carried(): State
      reads this, basis, fxFusion, cryptoFusion
    {
      State(sinceBasis, basis.value, fxFusion.State(), cryptoFusion.State())
    }

    ghost function BasisPart(): BasisState
      reads this, basis
    {
      BasisState(basis.value, sinceBasis)
    }

    constructor (cfg: FairValueConfig)
      ensures Valid() && this.cfg == cfg && Carried() == Fresh
    {
      var ema := new B.BasisEma(ParamsOf(cfg));
      var fx := new FusionFilter(cfg.fusion);
      var crypto := new FusionFilter(cfg.fusion);
      this.cfg := cfg;
      basis, fxFusion, cryptoFusion, sinceBasis := ema, fx, crypto, 0;
    }

    /** Compose the fair value for one tick, advancing both filters whatever the
        composition then does with them. */
    method Compose(legs: Legs, clock: Clock) returns (out: FairValue)
      requires Valid()
      modifies this`sinceBasis, basis, fxFusion, cryptoFusion
      ensures Valid() && (Carried(), out) == Composed(cfg, old(Carried()), legs, clock)
    {
      hide Resolution, Resolved, F.Updated;
      var stale, dispersion := cfg.legStale, cfg.legDispersionFrac;
      sinceBasis := sinceBasis + clock.dt;
      var fx := Resolve.Resolve(legs.fx, stale, dispersion);
      var usdc := Resolve.Resolve(legs.usdcUsd, stale, dispersion);
      var crypto := AbsentLeg;
      if cfg.pinnedBasis.None? {
        crypto := Resolve.Resolve(legs.cryptoUsdc, stale, dispersion);
      }
      var fxReport := fxFusion.Update(fx.healthy, ValueOf(fx), Finite(dispersion), clock.dt);
      var cryptoReport := cryptoFusion.Update(crypto.healthy, ValueOf(crypto), Finite(dispersion), clock.dt);
      LegsAreUsable(cfg, legs, fxReport, cryptoReport);
      out := ComposeResolved(legs, clock, FusedInto(fx, fxReport), FusedInto(crypto, cryptoReport), usdc);
      out := out.(fxLeg := fx, cryptoLeg := crypto, fxFusion := fxReport, cryptoFusion := cryptoReport);
    }

    function ValueOf(leg: Consensus): Option<Num> {
      if leg.reading.Some? then Some(leg.reading.value.value) else None
    }

    /** Compose from one reading per leg; the only arm that changes anything is
        the one with both legs live. */
    method ComposeResolved(legs: Legs, clock: Clock, fxLeg: Consensus, cryptoLeg: Consensus, usdcLeg: Consensus) returns (out: FairValue)
      requires Valid() && Usable(fxLeg) && Usable(cryptoLeg)
      modifies this`sinceBasis, basis
      ensures (BasisPart(), out) == Resolved(cfg, old(BasisPart()), legs, clock, fxLeg, cryptoLeg, usdcLeg)
    {
      hide UsdcBreach, AnyInvalid, B.Offered;
      var usdcBreach := UsdcBreach(cfg, legs.usdcUsd, usdcLeg);
      if cfg.pinnedBasis.Some? && fxLeg.reading.Some? {
        var fx, pinned := fxLeg.reading.value, cfg.pinnedBasis.value;
        return Skeleton(FxPinned, Fx, Some(Price(fx.value.r, pinned))).(
          basis := Some(pinned), uncertain := fx.Uncertain(cfg.fxMaxConfidenceFrac), usdcBreach := usdcBreach);
      }
      if fxLeg.reading.Some? && cryptoLeg.reading.Some? {
        out := ComposeBoth(legs, clock.decay, fxLeg, cryptoLeg, usdcBreach);
      } else if fxLeg.reading.Some? {
        out := FxAlone(cfg, BasisState(basis.value, sinceBasis), legs, fxLeg, usdcBreach);
      } else if cryptoLeg.reading.Some? {
        out := CryptoAlone(cfg, legs, clock.weekend, fxLeg, cryptoLeg, usdcBreach);
      } else {
        out := FallBack(legs.staticUsd, StaticPeg, usdcBreach, false, false);
      }
    }

    method ComposeBoth(legs: Legs, decay: real, fxLeg: Consensus, cryptoLeg: Consensus, usdcBreach: bool) returns (out: FairValue)
      requires Valid() && Usable(fxLeg) && Usable(cryptoLeg)
      requires fxLeg.reading.Some? && cryptoLeg.reading.Some?
      modifies this`sinceBasis, basis
      ensures (BasisPart(), out) == BothLive(cfg, old(BasisPart()), legs, decay, fxLeg, cryptoLeg, usdcBreach)
    {
      hide B.Offered, ObservedBasis, Price;
      var fx := fxLeg.reading.value;
      var observation := ObservedBasis(cryptoLeg.reading.value.value, fx.value);
      var observedBreach := observation.Some? && BasisOutOfBand(cfg, observation.value);
      var seedable := basis.value.Some? || !observedBreach;
      var fold: Option<B.Fold> := None;
      if observation.Some? && seedable {
        var f := basis.Update(Finite(observation.value), sinceBasis, decay);
        fold := Some(f);
        if f.Folded? {
          sinceBasis := 0;
        }
      }
      var outlier := fold.None? || fold.value.Rejected?;
      var usable := UsableBasis(cfg, basis.value, sinceBasis);
      if usable.None? {
        return FallBack(legs.staticUsd, BasisUnusable, usdcBreach, observedBreach, outlier);
      }
      var regime := Normal;
      if outlier {
        regime := RegimeDegraded(NoBasisLeg);
      } else if fxLeg.state.Dispersed? || cryptoLeg.state.Dispersed? {
        regime := RegimeDegraded(LegDispersed);
      }
      regime := regime.UncorroboratedIf(fxLeg.state.SingleUnverified? || cryptoLeg.state.SingleUnverified?);
      out := Skeleton(regime, Fx, Some(Price(fx.value.r, usable.value))).(
        basis := usable, basisAge := Some(sinceBasis), uncertain := fx.Uncertain(cfg.fxMaxConfidenceFrac),
        basisBreach := observedBreach || BasisOutOfBand(cfg, usable.value), basisOutlier := outlier, usdcBreach := usdcBreach);
    }
  }
}
