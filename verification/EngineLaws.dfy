/** What every run of the composition keeps. */
module EngineLaws {
  import opened Wrappers
  import opened Readings
  import opened Consensus
  import opened ConsensusLaws
  import opened Config
  import opened Engine
  import F = Fusion
  import FL = FusionLaws
  import B = Basis

  /** One tick's input. */
  datatype Input = Input(legs: Legs, clock: Clock)

  function After(cfg: FairValueConfig, run: seq<Input>): State {
    if run == [] then Fresh
    else Composed(cfg, After(cfg, run[..|run| - 1]), run[|run| - 1].legs, run[|run| - 1].clock).0
  }

  /** What the last tick of a run composed. */
  function Last(cfg: FairValueConfig, run: seq<Input>): FairValue
    requires run != []
  {
    Composed(cfg, After(cfg, run[..|run| - 1]), run[|run| - 1].legs, run[|run| - 1].clock).1
  }

  /** The last tick folded an observation: both legs were live, and the gate let
      it through. */
  predicate FoldsLast(cfg: FairValueConfig, run: seq<Input>)
    requires run != []
  {
    var out := Last(cfg, run);
    && cfg.pinnedBasis.None?
    && out.fxLeg.reading.Some? && out.cryptoLeg.reading.Some?
    && !out.basisOutlier
  }

  /** Time since the last fold, or since the start. */
  function SinceFold(cfg: FairValueConfig, run: seq<Input>): nat {
    if run == [] then 0
    else if FoldsLast(cfg, run) then 0
    else SinceFold(cfg, run[..|run| - 1]) + run[|run| - 1].clock.dt
  }

  // --------------------------------------------------------------- invariant

  ghost predicate Inv(cfg: FairValueConfig, s: State) {
    && F.Sound(s.fx) && F.Sound(s.crypto)
    && (s.basis.Some? ==> s.basis.value > 0.0)
    && (cfg.pinnedBasis.Some? ==> s.basis.None?)
  }

  /** What one composed value may claim. */
  predicate Coherent(cfg: FairValueConfig, out: FairValue) {
    && (out.fair.None? <==> out.regime.Paused?)
    && (out.fair.Some? ==> out.fair.value > 0.0)
    && (out.anchor.NoAnchor? <==> out.regime.Paused?)
    && out.health == out.regime.Health()
    && (out.basis.Some? <==> out.anchor.Fx?)
  }

  lemma PricePositive(fx: real, basis: real)
    requires fx > 0.0 && basis > 0.0
    ensures Price(fx, basis) > 0.0
  {
  }

  lemma PriceIs(fx: real, basis: real)
    ensures Price(fx, basis) == fx * basis
  {
  }

  /** The number that takes the FX leg to the crypto leg. */
  ghost predicate Implies(fx: Option<Reading>, crypto: Option<Reading>, o: real) {
    && fx.Some? && fx.value.value.Finite? && fx.value.value.r > 0.0
    && crypto.Some? && crypto.value.value.Finite?
    && o * fx.value.value.r == crypto.value.value.r
  }

  lemma ObservedIsImplied(crypto: Reading, fx: Reading)
    requires crypto.Valid() && fx.Valid()
    ensures ObservedBasis(crypto.value, fx.value).Some?
    ensures Implies(Some(fx), Some(crypto), ObservedBasis(crypto.value, fx.value).value)
    ensures forall o :: Implies(Some(fx), Some(crypto), o) ==> o == ObservedBasis(crypto.value, fx.value).value
  {
    var q := ObservedBasis(crypto.value, fx.value).value;
    forall o | Implies(Some(fx), Some(crypto), o) ensures o == q {
      OneQuotient(fx.value.r, o, q);
    }
  }

  lemma OneQuotient(k: real, a: real, b: real)
    requires k > 0.0 && a * k == b * k
    ensures a == b
  {
  }

  lemma ObservedPositive(crypto: Reading, fx: Reading)
    requires crypto.Valid() && fx.Valid()
    ensures ObservedBasis(crypto.value, fx.value).Some? && ObservedBasis(crypto.value, fx.value).value > 0.0
  {
  }

  /** A fold keeps a positive estimate positive, and seeds only inside the band. */
  lemma FoldBasisKeeps(cfg: FairValueConfig, b: BasisState, observation: Option<real>, decay: real)
    requires Valid(cfg) && (b.basis.Some? ==> b.basis.value > 0.0)
    requires observation.Some? ==> observation.value > 0.0
    ensures var (after, fold) := FoldBasis(cfg, b, observation, decay);
      && (after.basis.Some? ==> after.basis.value > 0.0)
      && (b.basis.None? && after.basis.Some? ==> !BasisOutOfBand(cfg, after.basis.value) && observation == after.basis)
      && (fold.Some? && fold.value.Folded? ==> after.since == 0 && after.basis.Some?)
      && (fold.None? || fold.value.Rejected? ==> after == b)
  {
    hide B.IsAJump, B.Blend, B.Weight;
    if b.basis.Some? && observation.Some? {
      var lo, hi := if b.basis.value < observation.value then b.basis.value else observation.value,
                    if b.basis.value < observation.value then observation.value else b.basis.value;
      B.OfferStays(ParamsOf(cfg), b.basis, B.Offer(Finite(observation.value), b.since, decay), lo, hi);
    }
  }

  /** Everything one composition keeps, whatever arm it takes. */
  ghost predicate StepKept(cfg: FairValueConfig, b: BasisState, fxLeg: Consensus, cryptoLeg: Consensus, after: BasisState, out: FairValue) {
    && (after.basis.Some? ==> after.basis.value > 0.0)
    && Coherent(cfg, out)
    && (cfg.pinnedBasis.Some? ==> after == b && !out.anchor.CryptoReference? && !out.basisOutlier)
    && (b.basis.None? && after.basis.Some? ==> !BasisOutOfBand(cfg, after.basis.value))
    && (cfg.pinnedBasis.None? && out.anchor.Fx? ==>
          && fxLeg.reading.Some? && fxLeg.reading.value.Valid()
          && out.basis == after.basis && out.basis.Some?
          && out.fair == Some(Price(fxLeg.reading.value.value.r, out.basis.value))
          && out.basisAge == Some(after.since) && after.since <= cfg.basisMaxAge)
    && (cfg.pinnedBasis.Some? && out.anchor.Fx? ==>
          && fxLeg.reading.Some? && fxLeg.reading.value.Valid()
          && out.basis == cfg.pinnedBasis && out.basisAge.None? && !out.basisBreach
          && out.fair == Some(Price(fxLeg.reading.value.value.r, cfg.pinnedBasis.value)))
    && (var folds := cfg.pinnedBasis.None? && fxLeg.reading.Some? && cryptoLeg.reading.Some? && !out.basisOutlier;
        if folds then after.since == 0 && after.basis.Some? else after == b)
    && (cfg.pinnedBasis.None? && fxLeg.reading.Some? && cryptoLeg.reading.Some? && fxLeg.reading.value.Valid() ==>
          var o := ObservedBasis(cryptoLeg.reading.value.value, fxLeg.reading.value.value);
          o.Some? && (BasisOutOfBand(cfg, o.value) ==> out.basisBreach))
  }

  lemma BothLiveKeeps(cfg: FairValueConfig, b: BasisState, legs: Legs, decay: real, fxLeg: Consensus, cryptoLeg: Consensus, usdc: bool)
    requires Valid(cfg) && Usable(fxLeg) && Usable(cryptoLeg) && cfg.pinnedBasis.None?
    requires fxLeg.reading.Some? && cryptoLeg.reading.Some?
    requires b.basis.Some? ==> b.basis.value > 0.0
    ensures var (after, out) := BothLive(cfg, b, legs, decay, fxLeg, cryptoLeg, usdc);
            StepKept(cfg, b, fxLeg, cryptoLeg, after, out) && out.usdcBreach == usdc
  {
    hide FoldBasis, ObservedBasis, Price;
    var fx, crypto := fxLeg.reading.value, cryptoLeg.reading.value;
    ObservedPositive(crypto, fx);
    var (after, fold) := FoldBasis(cfg, b, ObservedBasis(crypto.value, fx.value), decay);
    FoldBasisKeeps(cfg, b, ObservedBasis(crypto.value, fx.value), decay);
    if after.basis.Some? {
      PricePositive(fx.value.r, after.basis.value);
    }
  }

  lemma ResolvedKeeps(cfg: FairValueConfig, b: BasisState, legs: Legs, clock: Clock, fxLeg: Consensus, cryptoLeg: Consensus, usdcLeg: Consensus)
    requires Valid(cfg) && Usable(fxLeg) && Usable(cryptoLeg)
    requires cfg.pinnedBasis.Some? ==> b.basis.None? && cryptoLeg.reading.None?
    requires b.basis.Some? ==> b.basis.value > 0.0
    ensures var (after, out) := Resolved(cfg, b, legs, clock, fxLeg, cryptoLeg, usdcLeg);
            StepKept(cfg, b, fxLeg, cryptoLeg, after, out) && out.usdcBreach == UsdcBreach(cfg, legs.usdcUsd, usdcLeg)
  {
    hide BothLive, UsdcBreach, AnyInvalid, ObservedBasis, Price;
    if cfg.pinnedBasis.Some? && fxLeg.reading.Some? {
      PricePositive(fxLeg.reading.value.value.r, cfg.pinnedBasis.value);
    } else if fxLeg.reading.Some? && cryptoLeg.reading.Some? {
      BothLiveKeeps(cfg, b, legs, clock.decay, fxLeg, cryptoLeg, UsdcBreach(cfg, legs.usdcUsd, usdcLeg));
    } else if fxLeg.reading.Some? && b.basis.Some? {
      PricePositive(fxLeg.reading.value.value.r, b.basis.value);
    }
  }

  /** The leg the composition prices from on a tick. */
  function PricedFx(cfg: FairValueConfig, s: State, i: Input): Consensus {
    var leg := FxLeg(cfg, i.legs);
    FusedInto(leg, F.Updated(cfg.fusion, s.fx, TickOf(cfg, leg, i.clock.dt)).1)
  }

  function PricedCrypto(cfg: FairValueConfig, s: State, i: Input): Consensus {
    var leg := CryptoLeg(cfg, i.legs);
    FusedInto(leg, F.Updated(cfg.fusion, s.crypto, TickOf(cfg, leg, i.clock.dt)).1)
  }

  lemma FusedIsPresent(leg: Consensus, report: F.Report)
    ensures FusedInto(leg, report).reading.Some? <==> leg.reading.Some?
  {
  }

  lemma ComposedKeeps(cfg: FairValueConfig, s: State, i: Input)
    requires Valid(cfg) && Inv(cfg, s)
    ensures var (after, out) := Composed(cfg, s, i.legs, i.clock);
      && Inv(cfg, after)
      && StepKept(cfg, BasisState(s.basis, s.since + i.clock.dt), PricedFx(cfg, s, i), PricedCrypto(cfg, s, i),
                  BasisState(after.basis, after.since), out)
      && out.usdcBreach == UsdcBreach(cfg, i.legs.usdcUsd, Resolution(i.legs.usdcUsd, cfg.legStale, cfg.legDispersionFrac))
      && (out.fxLeg.reading.Some? <==> PricedFx(cfg, s, i).reading.Some?)
      && (out.cryptoLeg.reading.Some? <==> PricedCrypto(cfg, s, i).reading.Some?)
  {
    hide Resolution, Resolved, F.Updated, UsdcBreach, F.Sound, Valid, Price, ObservedBasis, FusedInto;
    var fx, crypto := FxLeg(cfg, i.legs), CryptoLeg(cfg, i.legs);
    FL.UpdateKeepsSound(cfg.fusion, s.fx, TickOf(cfg, fx, i.clock.dt));
    FL.UpdateKeepsSound(cfg.fusion, s.crypto, TickOf(cfg, crypto, i.clock.dt));
    LegsAreUsable(cfg, i.legs, F.Updated(cfg.fusion, s.fx, TickOf(cfg, fx, i.clock.dt)).1,
                  F.Updated(cfg.fusion, s.crypto, TickOf(cfg, crypto, i.clock.dt)).1);
    FusedIsPresent(fx, F.Updated(cfg.fusion, s.fx, TickOf(cfg, fx, i.clock.dt)).1);
    FusedIsPresent(crypto, F.Updated(cfg.fusion, s.crypto, TickOf(cfg, crypto, i.clock.dt)).1);
    ResolvedKeeps(cfg, BasisState(s.basis, s.since + i.clock.dt), i.legs, i.clock,
                  PricedFx(cfg, s, i), PricedCrypto(cfg, s, i), Resolution(i.legs.usdcUsd, cfg.legStale, cfg.legDispersionFrac));
  }

  // ------------------------------------------------------------- every run

  lemma {:induction false} RunKeeps(cfg: FairValueConfig, run: seq<Input>)
    requires Valid(cfg)
    ensures Inv(cfg, After(cfg, run))
    ensures After(cfg, run).since == SinceFold(cfg, run)
  {
    hide Composed, Valid, PricedFx, PricedCrypto, Price, ObservedBasis;
    if run != [] {
      var before, i := run[..|run| - 1], run[|run| - 1];
      RunKeeps(cfg, before);
      ComposedKeeps(cfg, After(cfg, before), i);
    }
  }

  lemma TickIsCoherent(cfg: FairValueConfig, run: seq<Input>)
    requires Valid(cfg) && run != []
    ensures var out, s := Last(cfg, run), After(cfg, run[..|run| - 1]);
            var fx := PricedFx(cfg, s, run[|run| - 1]).reading;
      && Coherent(cfg, out)
      && (out.anchor.Fx? ==> fx.Some? && fx.value.Valid())
      && (cfg.pinnedBasis.None? && out.anchor.Fx? ==>
            && out.basis == After(cfg, run).basis && out.basis.Some?
            && out.fair == Some(Price(fx.value.value.r, out.basis.value))
            && out.basisAge == Some(SinceFold(cfg, run)) && SinceFold(cfg, run) <= cfg.basisMaxAge)
      && (cfg.pinnedBasis.Some? ==> !out.anchor.CryptoReference?)
      && (cfg.pinnedBasis.Some? && out.anchor.Fx? ==>
            && out.basis == cfg.pinnedBasis && out.basisAge.None? && !out.basisBreach
            && out.fair == Some(Price(fx.value.value.r, cfg.pinnedBasis.value)))
  {
    hide Composed, Valid, PricedFx, PricedCrypto, Price, ObservedBasis;
    RunKeeps(cfg, run[..|run| - 1]);
    RunKeeps(cfg, run);
    ComposedKeeps(cfg, After(cfg, run[..|run| - 1]), run[|run| - 1]);
  }

  /** Over every run: the mid is positive when present and absent only when
      paused, and health is the regime's. An unpinned engine that anchors on FX
      quotes the FX leg times a basis last folded exactly `basisAge` ago, which is
      within the bound. A pinned one quotes the pin, and never the crypto leg. */
  lemma EveryTickIsCoherent(cfg: FairValueConfig, run: seq<Input>)
    requires Valid(cfg) && run != []
    ensures var out, s := Last(cfg, run), After(cfg, run[..|run| - 1]);
            var fx := PricedFx(cfg, s, run[|run| - 1]).reading;
      && Coherent(cfg, out)
      && (out.anchor.Fx? ==> fx.Some? && fx.value.Valid())
      && (cfg.pinnedBasis.None? && out.anchor.Fx? ==>
            && out.basis == After(cfg, run).basis && out.basis.Some?
            && out.fair.Some? && out.fair.value == fx.value.value.r * out.basis.value
            && out.basisAge == Some(SinceFold(cfg, run)) && SinceFold(cfg, run) <= cfg.basisMaxAge)
      && (cfg.pinnedBasis.Some? ==> !out.anchor.CryptoReference?)
      && (cfg.pinnedBasis.Some? && out.anchor.Fx? ==>
            && out.basis == cfg.pinnedBasis && out.basisAge.None? && !out.basisBreach
            && out.fair.Some? && out.fair.value == fx.value.value.r * cfg.pinnedBasis.value)
  {
    hide Composed, Valid, PricedFx, PricedCrypto, Price, ObservedBasis, Coherent, SinceFold;
    TickIsCoherent(cfg, run);
    var out := Last(cfg, run);
    hide Last, After;
    if out.anchor.Fx? {
      PriceIs(PricedFx(cfg, After(cfg, run[..|run| - 1]), run[|run| - 1]).reading.value.value.r, out.basis.value);
    }
  }

  // ---------------------------------------------------------- the basis hull

  /** What the basis does on a tick: it is offered the observation of two live
      legs, and stands otherwise. */
  function NextBasis(cfg: FairValueConfig, b: BasisState, fxLeg: Consensus, cryptoLeg: Consensus, decay: real): BasisState {
    if cfg.pinnedBasis.None? && fxLeg.reading.Some? && cryptoLeg.reading.Some? then
      FoldBasis(cfg, b, ObservedBasis(cryptoLeg.reading.value.value, fxLeg.reading.value.value), decay).0
    else b
  }

  lemma ResolvedBasis(cfg: FairValueConfig, b: BasisState, legs: Legs, clock: Clock, fxLeg: Consensus, cryptoLeg: Consensus, usdcLeg: Consensus)
    requires Usable(fxLeg) && Usable(cryptoLeg)
    requires cfg.pinnedBasis.Some? ==> cryptoLeg.reading.None?
    ensures Resolved(cfg, b, legs, clock, fxLeg, cryptoLeg, usdcLeg).0 == NextBasis(cfg, b, fxLeg, cryptoLeg, clock.decay)
  {
    hide UsdcBreach, AnyInvalid, ObservedBasis, Price, FoldBasis, BasisOutOfBand;
  }

  lemma ComposedBasis(cfg: FairValueConfig, s: State, i: Input)
    ensures var after := Composed(cfg, s, i.legs, i.clock).0;
            BasisState(after.basis, after.since) ==
            NextBasis(cfg, BasisState(s.basis, s.since + i.clock.dt), PricedFx(cfg, s, i), PricedCrypto(cfg, s, i), i.clock.decay)
  {
    hide Resolution, Resolved, F.Updated, UsdcBreach, NextBasis, FusedInto;
    var fx, crypto := FxLeg(cfg, i.legs), CryptoLeg(cfg, i.legs);
    var fxReport := F.Updated(cfg.fusion, s.fx, TickOf(cfg, fx, i.clock.dt)).1;
    var cryptoReport := F.Updated(cfg.fusion, s.crypto, TickOf(cfg, crypto, i.clock.dt)).1;
    LegsAreUsable(cfg, i.legs, fxReport, cryptoReport);
    FusedIsPresent(crypto, cryptoReport);
    ResolvedBasis(cfg, BasisState(s.basis, s.since + i.clock.dt), i.legs, i.clock, PricedFx(cfg, s, i), PricedCrypto(cfg, s, i),
                  Resolution(i.legs.usdcUsd, cfg.legStale, cfg.legDispersionFrac));
  }

  /** The basis the priced legs of a tick imply, where both are live. */
  function Implied(cfg: FairValueConfig, s: State, i: Input): Option<real> {
    var fx, crypto := PricedFx(cfg, s, i).reading, PricedCrypto(cfg, s, i).reading;
    if fx.Some? && crypto.Some? then ObservedBasis(crypto.value.value, fx.value.value) else None
  }

  predicate In(x: Option<real>, lo: real, hi: real) {
    x.Some? ==> lo <= x.value <= hi
  }

  /** Every tick that folded implied a basis in the interval, from the two legs it
      priced from. */
  ghost predicate FoldedWithin(cfg: FairValueConfig, run: seq<Input>, lo: real, hi: real) {
    run != [] ==>
      && FoldedWithin(cfg, run[..|run| - 1], lo, hi)
      && (FoldsLast(cfg, run) ==>
            var s, i := After(cfg, run[..|run| - 1]), run[|run| - 1];
            exists o :: Implies(PricedFx(cfg, s, i).reading, PricedCrypto(cfg, s, i).reading, o) && lo <= o <= hi)
  }

  /** On two live legs, what the code observes is what they imply. */
  lemma ImpliedIs(cfg: FairValueConfig, s: State, i: Input)
    requires PricedFx(cfg, s, i).reading.Some? && PricedCrypto(cfg, s, i).reading.Some?
    ensures Implied(cfg, s, i).Some?
    ensures forall o :: Implies(PricedFx(cfg, s, i).reading, PricedCrypto(cfg, s, i).reading, o) <==> o == Implied(cfg, s, i).value
  {
    hide Resolution, F.Updated, FusedInto, ObservedBasis, Implies;
    LegsAreUsable(cfg, i.legs, F.Updated(cfg.fusion, s.fx, TickOf(cfg, FxLeg(cfg, i.legs), i.clock.dt)).1,
                  F.Updated(cfg.fusion, s.crypto, TickOf(cfg, CryptoLeg(cfg, i.legs), i.clock.dt)).1);
    ObservedIsImplied(PricedCrypto(cfg, s, i).reading.value, PricedFx(cfg, s, i).reading.value);
  }

  lemma FoldBasisStays(cfg: FairValueConfig, b: BasisState, observation: Option<real>, decay: real, lo: real, hi: real)
    requires Valid(cfg) && In(b.basis, lo, hi) && In(observation, lo, hi)
    ensures In(FoldBasis(cfg, b, observation, decay).0.basis, lo, hi)
  {
    hide B.Offered;
    if observation.Some? && !(b.basis.None? && BasisOutOfBand(cfg, observation.value)) {
      B.OfferStays(ParamsOf(cfg), b.basis, B.Offer(Finite(observation.value), b.since, decay), lo, hi);
    }
  }

  /** The estimate of every run stays in the hull of the bases its folding ticks
      implied, the one it was seeded from included: no refused print, dark tick or
      half-blind one moves it. An unpinned mid anchored on FX is then the FX leg
      times a number in the hull. */
  lemma {:induction false} BasisStaysInTheHull(cfg: FairValueConfig, run: seq<Input>, lo: real, hi: real)
    requires Valid(cfg) && FoldedWithin(cfg, run, lo, hi)
    ensures In(After(cfg, run).basis, lo, hi)
    ensures run != [] && cfg.pinnedBasis.None? && Last(cfg, run).anchor.Fx? ==>
      var fx := PricedFx(cfg, After(cfg, run[..|run| - 1]), run[|run| - 1]).reading;
      && fx.Some? && fx.value.value.Finite? && After(cfg, run).basis.Some?
      && Last(cfg, run).fair.Some? && Last(cfg, run).fair.value == fx.value.value.r * After(cfg, run).basis.value
  {
    hide Composed, Valid, PricedFx, PricedCrypto, Price, ObservedBasis, FoldBasis;
    if run != [] {
      var before, i := run[..|run| - 1], run[|run| - 1];
      var s := After(cfg, before);
      BasisStaysInTheHull(cfg, before, lo, hi);
      RunKeeps(cfg, before);
      ComposedKeeps(cfg, s, i);
      ComposedBasis(cfg, s, i);
      if FoldsLast(cfg, run) {
        ImpliedIs(cfg, s, i);
        FoldBasisStays(cfg, BasisState(s.basis, s.since + i.clock.dt), Implied(cfg, s, i), i.clock.decay, lo, hi);
      }
      EveryTickIsCoherent(cfg, run);
    }
  }

  // ------------------------------------------------------ refusal never lasts

  /** A tick at which ten half-lives have gone by since the last fold folds
      whatever its live legs imply, if that lies within ten base allowances. */
  lemma FoldsWhenWidest(cfg: FairValueConfig, run: seq<Input>, prev: real, o: real)
    requires Valid(cfg) && run != [] && cfg.pinnedBasis.None?
    requires var s, i := After(cfg, run[..|run| - 1]), run[|run| - 1];
             && s.basis == Some(prev)
             && SinceFold(cfg, run[..|run| - 1]) + i.clock.dt >= 10 * cfg.basisHalfLife
             && Implies(PricedFx(cfg, s, i).reading, PricedCrypto(cfg, s, i).reading, o)
             && prev - o <= 10.0 * cfg.basisMaxJumpFrac * prev && o - prev <= 10.0 * cfg.basisMaxJumpFrac * prev
    ensures FoldsLast(cfg, run)
  {
    hide Composed, PricedFx, PricedCrypto, Price, ObservedBasis, FoldBasis, Implies;
    var before, i := run[..|run| - 1], run[|run| - 1];
    var s := After(cfg, before);
    RunKeeps(cfg, before);
    ComposedBasis(cfg, s, i);
    LegsImplying(PricedFx(cfg, s, i).reading, PricedCrypto(cfg, s, i).reading, o);
    ImpliedIs(cfg, s, i);
    FoldResets(cfg, prev, s.since + i.clock.dt, o, i.clock.decay);
    hide Valid;
    if !FoldsLast(cfg, run) {
      hide FoldsLast;
      TickStands(cfg, run);
    }
  }

  lemma LegsImplying(fx: Option<Reading>, crypto: Option<Reading>, o: real)
    requires Implies(fx, crypto, o)
    ensures fx.Some? && crypto.Some?
  {
  }

  lemma FoldResets(cfg: FairValueConfig, prev: real, since: nat, o: real, decay: real)
    requires Valid(cfg) && prev > 0.0 && since >= 10 * cfg.basisHalfLife
    requires prev - o <= 10.0 * cfg.basisMaxJumpFrac * prev && o - prev <= 10.0 * cfg.basisMaxJumpFrac * prev
    ensures FoldBasis(cfg, BasisState(Some(prev), since), Some(o), decay).0.since == 0
    ensures cfg.basisHalfLife > 0
  {
    hide B.Offered, B.Abs;
    WithinTen(cfg.basisMaxJumpFrac, prev, o);
    B.WidestAllows(ParamsOf(cfg), prev, o, since, decay);
  }

  lemma WithinTen(f: real, prev: real, o: real)
    requires prev - o <= 10.0 * f * prev && o - prev <= 10.0 * f * prev
    ensures B.Abs(o - prev) <= B.MAX_JUMP_WIDENING * f * prev
  {
    hide B.Abs;
    B.AbsIs(o - prev);
    var bound := 10.0 * f * prev;
    assert B.MAX_JUMP_WIDENING * f * prev == bound;
  }

  /** A tick that does not fold leaves the basis and only adds to its clock. */
  lemma TickStands(cfg: FairValueConfig, run: seq<Input>)
    requires Valid(cfg) && run != [] && !FoldsLast(cfg, run)
    ensures var s, t := After(cfg, run[..|run| - 1]), After(cfg, run);
            t.basis == s.basis && t.since == s.since + run[|run| - 1].clock.dt
  {
    hide Composed, Valid, PricedFx, PricedCrypto, Price, ObservedBasis, BasisOutOfBand, Coherent;
    RunKeeps(cfg, run[..|run| - 1]);
    hide Inv;
    ComposedKeeps(cfg, After(cfg, run[..|run| - 1]), run[|run| - 1]);
  }

  function Elapsed(run: seq<Input>): nat {
    if run == [] then 0 else Elapsed(run[..|run| - 1]) + run[|run| - 1].clock.dt
  }

  /** Some tick after the first `n` of the run folds. */
  ghost predicate FoldsAfter(cfg: FairValueConfig, run: seq<Input>, n: nat) {
    exists m :: n < m <= |run| && FoldsLast(cfg, run[..m])
  }

  /** With no fold the basis stands and its clock runs. */
  lemma {:induction false} UnfoldedStands(cfg: FairValueConfig, run: seq<Input>, n: nat)
    requires Valid(cfg) && n <= |run| && !FoldsAfter(cfg, run, n)
    ensures After(cfg, run).basis == After(cfg, run[..n]).basis
    ensures SinceFold(cfg, run) == SinceFold(cfg, run[..n]) + Elapsed(run[n..])
    decreases |run|
  {
    hide Composed, Valid, FoldsLast, Last;
    if n == |run| {
      assert run[..n] == run;
    } else {
      var before, i := run[..|run| - 1], run[|run| - 1];
      assert run[..|run|] == run && !FoldsLast(cfg, run);
      forall m | n < m <= |before| ensures !FoldsLast(cfg, before[..m]) {
        assert before[..m] == run[..m];
      }
      UnfoldedStands(cfg, before, n);
      assert before[..n] == run[..n] && run[n..][..|run| - n - 1] == before[n..];
      TickStands(cfg, run);
    }
  }

  /** A refusal ends, over every engine run: take any stretch of it
      that begins with a basis standing and ends, ten half-lives or more after the
      last fold before it, on two live legs that imply a basis within ten base
      allowances. Some tick of the stretch folded. */
  lemma RefusalEnds(cfg: FairValueConfig, run: seq<Input>, n: nat, prev: real, o: real)
    requires Valid(cfg) && n < |run| && cfg.pinnedBasis.None?
    requires After(cfg, run[..n]).basis == Some(prev)
    requires SinceFold(cfg, run[..n]) + Elapsed(run[n..]) >= 10 * cfg.basisHalfLife
    requires var s, i := After(cfg, run[..|run| - 1]), run[|run| - 1];
             Implies(PricedFx(cfg, s, i).reading, PricedCrypto(cfg, s, i).reading, o)
    requires prev - o <= 10.0 * cfg.basisMaxJumpFrac * prev && o - prev <= 10.0 * cfg.basisMaxJumpFrac * prev
    ensures FoldsAfter(cfg, run, n)
  {
    hide Composed, Valid, PricedFx, PricedCrypto, Price, ObservedBasis, Implies, FoldsLast;
    assert run[..|run|] == run;
    if !FoldsAfter(cfg, run, n) {
      var before := run[..|run| - 1];
      forall m | n < m <= |before| ensures !FoldsLast(cfg, before[..m]) {
        assert before[..m] == run[..m];
      }
      UnfoldedStands(cfg, before, n);
      assert before[..n] == run[..n] && run[n..][..|run| - n - 1] == before[n..];
      FoldsWhenWidest(cfg, run, prev, o);
      assert false;
    }
  }

  /** The seed is in band: the tick that first gives the engine a basis gives it
      one inside the sane band. */
  lemma SeedIsInBand(cfg: FairValueConfig, run: seq<Input>)
    requires Valid(cfg) && run != []
    requires After(cfg, run[..|run| - 1]).basis.None? && After(cfg, run).basis.Some?
    ensures cfg.basisLow <= After(cfg, run).basis.value <= cfg.basisHigh
  {
    hide Composed, Valid, PricedFx, PricedCrypto, Price, ObservedBasis;
    RunKeeps(cfg, run[..|run| - 1]);
    ComposedKeeps(cfg, After(cfg, run[..|run| - 1]), run[|run| - 1]);
  }

  /** An observation outside the band raises the breach whether or not it folded;
      so does a peg reading outside its own, in every regime. */
  lemma BreachesAreRaised(cfg: FairValueConfig, run: seq<Input>)
    requires Valid(cfg) && run != []
    ensures var out, s, i := Last(cfg, run), After(cfg, run[..|run| - 1]), run[|run| - 1];
            var fx, crypto := PricedFx(cfg, s, i).reading, PricedCrypto(cfg, s, i).reading;
      && (cfg.pinnedBasis.None? && fx.Some? && crypto.Some? ==>
            exists o :: Implies(fx, crypto, o) && (o < cfg.basisLow || o > cfg.basisHigh ==> out.basisBreach))
      && (out.usdcBreach <==> UsdcBreach(cfg, i.legs.usdcUsd, Resolution(i.legs.usdcUsd, cfg.legStale, cfg.legDispersionFrac)))
  {
    hide Composed, Valid, Resolution, UsdcBreach, FusedInto, Price, ObservedBasis;
    var s, i := After(cfg, run[..|run| - 1]), run[|run| - 1];
    RunKeeps(cfg, run[..|run| - 1]);
    ComposedKeeps(cfg, s, i);
    LegsAreUsable(cfg, i.legs, F.Updated(cfg.fusion, s.fx, TickOf(cfg, FxLeg(cfg, i.legs), i.clock.dt)).1,
                  F.Updated(cfg.fusion, s.crypto, TickOf(cfg, CryptoLeg(cfg, i.legs), i.clock.dt)).1);
    if PricedFx(cfg, s, i).reading.Some? && PricedCrypto(cfg, s, i).reading.Some? {
      ImpliedIs(cfg, s, i);
      assert Implies(PricedFx(cfg, s, i).reading, PricedCrypto(cfg, s, i).reading, Implied(cfg, s, i).value);
    }
  }

  /** Resting on a lone unchecked source, or on sources that disagree. */
  predicate Doubtful(leg: Consensus) {
    leg.state.SingleUnverified? || leg.state.Dispersed?
  }

  ghost predicate HealthEarned(out: FairValue, weekend: bool, fxLeg: Consensus, cryptoLeg: Consensus) {
    out.health.HealthOk? ==>
      && cryptoLeg.reading.Some? && !Doubtful(cryptoLeg)
      && (if out.anchor.Fx? then fxLeg.reading.Some? && !Doubtful(fxLeg) && out.basisAge == Some(0) && !out.basisOutlier
          else out.anchor.CryptoReference? && fxLeg.reading.None? && weekend)
  }

  lemma ResolvedHealth(cfg: FairValueConfig, b: BasisState, legs: Legs, clock: Clock, fxLeg: Consensus, cryptoLeg: Consensus, usdcLeg: Consensus)
    requires Usable(fxLeg) && Usable(cryptoLeg)
    requires cfg.pinnedBasis.Some? ==> cryptoLeg.reading.None?
    ensures HealthEarned(Resolved(cfg, b, legs, clock, fxLeg, cryptoLeg, usdcLeg).1, clock.weekend, fxLeg, cryptoLeg)
  {
  }

  lemma FusedKeepsState(leg: Consensus, report: F.Report)
    ensures FusedInto(leg, report).state == leg.state
  {
  }

  /** Full health is earned: an FX-anchored tick folded an observation this very
      tick and rests on two legs neither lone and unchecked nor in disagreement;
      any other is the session's own closed window on such a crypto leg. */
  lemma HealthIsEarned(cfg: FairValueConfig, run: seq<Input>)
    requires Valid(cfg) && run != []
    ensures HealthEarned(Last(cfg, run), run[|run| - 1].clock.weekend, Last(cfg, run).fxLeg, Last(cfg, run).cryptoLeg)
  {
    hide Resolution, Resolved, F.Updated, UsdcBreach, Valid, FusedInto, Doubtful;
    var s, i := After(cfg, run[..|run| - 1]), run[|run| - 1];
    var fx, crypto := FxLeg(cfg, i.legs), CryptoLeg(cfg, i.legs);
    var fxReport := F.Updated(cfg.fusion, s.fx, TickOf(cfg, fx, i.clock.dt)).1;
    var cryptoReport := F.Updated(cfg.fusion, s.crypto, TickOf(cfg, crypto, i.clock.dt)).1;
    LegsAreUsable(cfg, i.legs, fxReport, cryptoReport);
    FusedIsPresent(fx, fxReport);
    FusedIsPresent(crypto, cryptoReport);
    FusedKeepsState(fx, fxReport);
    FusedKeepsState(crypto, cryptoReport);
    DoubtIsState(fx, PricedFx(cfg, s, i));
    DoubtIsState(crypto, PricedCrypto(cfg, s, i));
    ResolvedHealth(cfg, BasisState(s.basis, s.since + i.clock.dt), i.legs, i.clock, PricedFx(cfg, s, i), PricedCrypto(cfg, s, i),
                   Resolution(i.legs.usdcUsd, cfg.legStale, cfg.legDispersionFrac));
  }

  lemma DoubtIsState(a: Consensus, b: Consensus)
    requires a.state == b.state
    ensures Doubtful(a) == Doubtful(b)
  {
  }

  /** What the reported regime says of the legs, of the basis left behind and of
      the peg: each degrade names its own cause, and the engine pauses only with
      no usable peg. */
  ghost predicate RegimeTells(cfg: FairValueConfig, out: FairValue, after: BasisState, legs: Legs, weekend: bool, fxLeg: Consensus, cryptoLeg: Consensus) {
    var fx, crypto := fxLeg.reading.Some?, cryptoLeg.reading.Some?;
    var peg := legs.staticUsd.Finite? && legs.staticUsd.r > 0.0;
    && (out.anchor.Static? ==> peg && out.fair == Some(legs.staticUsd.r))
    && match out.regime
       case Normal => fx && crypto && !out.basisOutlier
       case CryptoOnly => !fx && crypto && weekend
       case FxPinned => fx && cfg.pinnedBasis.Some?
       case Uncorroborated => crypto && (fx || weekend)
       case Paused => !peg && (!fx ==> !crypto) && (fx ==> UsableBasis(cfg, after.basis, after.since).None?)
       case RegimeDegraded(FxStale) => !fx && crypto && !weekend && !AnyInvalid(legs.fx, cfg.legStale) && !fxLeg.state.Dispersed?
       case RegimeDegraded(FxInvalid) => !fx && crypto && !weekend && AnyInvalid(legs.fx, cfg.legStale)
       case RegimeDegraded(LegDispersed) => crypto && (fxLeg.state.Dispersed? || cryptoLeg.state.Dispersed?)
       case RegimeDegraded(NoBasisLeg) => fx && UsableBasis(cfg, after.basis, after.since).Some? && (crypto ==> out.basisOutlier)
       case RegimeDegraded(BasisUnusable) => fx && peg && UsableBasis(cfg, after.basis, after.since).None?
       case RegimeDegraded(StaticPeg) => !fx && !crypto && peg
  }

  lemma ResolvedRegime(cfg: FairValueConfig, b: BasisState, legs: Legs, clock: Clock, fxLeg: Consensus, cryptoLeg: Consensus, usdcLeg: Consensus)
    requires Usable(fxLeg) && Usable(cryptoLeg)
    requires cfg.pinnedBasis.Some? ==> cryptoLeg.reading.None?
    ensures var (after, out) := Resolved(cfg, b, legs, clock, fxLeg, cryptoLeg, usdcLeg);
            RegimeTells(cfg, out, after, legs, clock.weekend, fxLeg, cryptoLeg)
  {
    hide UsdcBreach, AnyInvalid, ObservedBasis, Price, FoldBasis, BasisOutOfBand;
  }

  /** Over every run the regime names the true cause. */
  lemma RegimeTellsWhy(cfg: FairValueConfig, run: seq<Input>)
    requires Valid(cfg) && run != []
    ensures var s, i := After(cfg, run), run[|run| - 1];
            var out := Last(cfg, run);
            RegimeTells(cfg, out, BasisState(s.basis, s.since), i.legs, i.clock.weekend, out.fxLeg, out.cryptoLeg)
  {
    hide Resolution, Resolved, F.Updated, UsdcBreach, Valid, FusedInto, AnyInvalid, UsableBasis;
    var s, i := After(cfg, run[..|run| - 1]), run[|run| - 1];
    var fx, crypto := FxLeg(cfg, i.legs), CryptoLeg(cfg, i.legs);
    var fxReport := F.Updated(cfg.fusion, s.fx, TickOf(cfg, fx, i.clock.dt)).1;
    var cryptoReport := F.Updated(cfg.fusion, s.crypto, TickOf(cfg, crypto, i.clock.dt)).1;
    LegsAreUsable(cfg, i.legs, fxReport, cryptoReport);
    FusedIsPresent(fx, fxReport);
    FusedIsPresent(crypto, cryptoReport);
    FusedKeepsState(fx, fxReport);
    FusedKeepsState(crypto, cryptoReport);
    ResolvedRegime(cfg, BasisState(s.basis, s.since + i.clock.dt), i.legs, i.clock, PricedFx(cfg, s, i), PricedCrypto(cfg, s, i),
                   Resolution(i.legs.usdcUsd, cfg.legStale, cfg.legDispersionFrac));
  }

  lemma ResolvedUncertain(cfg: FairValueConfig, b: BasisState, legs: Legs, clock: Clock, fxLeg: Consensus, cryptoLeg: Consensus, usdcLeg: Consensus)
    requires Usable(fxLeg) && Usable(cryptoLeg)
    ensures var out := Resolved(cfg, b, legs, clock, fxLeg, cryptoLeg, usdcLeg).1;
            out.uncertain <==> out.anchor.Fx? && fxLeg.reading.Some? && fxLeg.reading.value.Uncertain(cfg.fxMaxConfidenceFrac)
  {
    hide UsdcBreach, AnyInvalid, ObservedBasis, Price, FoldBasis, BasisOutOfBand;
  }

  /** A mid is flagged uncertain exactly when it is anchored on FX and the
      published half-width is too wide for the value it is priced from. */
  lemma UncertainIsTheAnchors(cfg: FairValueConfig, run: seq<Input>)
    requires Valid(cfg) && run != []
    ensures var out := Last(cfg, run);
            var fx := PricedFx(cfg, After(cfg, run[..|run| - 1]), run[|run| - 1]).reading;
            out.uncertain <==> out.anchor.Fx? && fx.Some? && fx.value.confidence.Some? && fx.value.Valid()
                               && fx.value.confidence.value > cfg.fxMaxConfidenceFrac * fx.value.value.r
  {
    hide Resolution, Resolved, F.Updated, UsdcBreach, Valid, FusedInto, AnyInvalid;
    var s, i := After(cfg, run[..|run| - 1]), run[|run| - 1];
    var fxReport := F.Updated(cfg.fusion, s.fx, TickOf(cfg, FxLeg(cfg, i.legs), i.clock.dt)).1;
    var cryptoReport := F.Updated(cfg.fusion, s.crypto, TickOf(cfg, CryptoLeg(cfg, i.legs), i.clock.dt)).1;
    LegsAreUsable(cfg, i.legs, fxReport, cryptoReport);
    ResolvedUncertain(cfg, BasisState(s.basis, s.since + i.clock.dt), i.legs, i.clock, PricedFx(cfg, s, i), PricedCrypto(cfg, s, i),
                      Resolution(i.legs.usdcUsd, cfg.legStale, cfg.legDispersionFrac));
    var fx := PricedFx(cfg, s, i).reading;
    if fx.Some? {
      UncertainIsWide(fx.value, cfg.fxMaxConfidenceFrac);
    }
  }

  /** A pinned engine cannot tell what its crypto reference was offered. */
  lemma PinIgnoresCrypto(cfg: FairValueConfig, s: State, legs: Legs, other: Candidates, clock: Clock)
    requires cfg.pinnedBasis.Some?
    ensures Composed(cfg, s, legs, clock) == Composed(cfg, s, legs.(cryptoUsdc := other), clock)
  {
  }

  /** The number a leg is priced from: present exactly when the consensus is, at
      its age and confidence, positive, and no further from it than the band or
      the re-seed gate. */
  lemma PricedLegTracks(cfg: FairValueConfig, s: F.Filter, slots: Candidates, dt: nat, bound: real)
    requires Valid(cfg) && F.Sound(s)
    ensures var leg := Resolution(slots, cfg.legStale, cfg.legDispersionFrac);
            var t := TickOf(cfg, leg, dt);
            var priced := FusedInto(leg, F.Updated(cfg.fusion, s, t).1);
      && (priced.reading.Some? <==> leg.reading.Some?)
      && (leg.reading.Some? ==>
            && leg.reading.value.Valid() && priced.reading.value.Valid()
            && priced.reading.value.age == leg.reading.value.age
            && priced.reading.value.confidence == leg.reading.value.confidence
            && (FL.CoversGate(cfg.fusion, F.Grown(cfg.fusion, s, t), leg.reading.value.value.r, cfg.legDispersionFrac, bound) ==>
                  B.Abs(priced.reading.value.value.r - leg.reading.value.value.r) <= bound))
  {
    hide Resolution, F.Updated, F.Grown, FL.CoversGate;
    var leg := Resolution(slots, cfg.legStale, cfg.legDispersionFrac);
    var t := TickOf(cfg, leg, dt);
    var (r, report) := F.Updated(cfg.fusion, s, t);
    if leg.reading.Some? {
      ResolvedIsFresh(slots, cfg.legStale, cfg.legDispersionFrac);
      ReportedIsKept(cfg.fusion, s, t);
      if !report.step.Carried? {
        FL.TracksTheConsensus(cfg.fusion, s, t, bound);
      } else if FL.CoversGate(cfg.fusion, F.Grown(cfg.fusion, s, t), leg.reading.value.value.r, cfg.legDispersionFrac, bound) {
        FL.BoundPositive(cfg.fusion, F.Grown(cfg.fusion, s, t), leg.reading.value.value.r, cfg.legDispersionFrac, bound);
      }
    }
  }

  /** The report's value is the filter's estimate. */
  lemma ReportedIsKept(cfg: F.FusionConfig, s: F.Filter, t: F.Tick)
    ensures F.Updated(cfg, s, t).1.value == F.Updated(cfg, s, t).0.estimate
    ensures F.Updated(cfg, s, t).1.variance == F.Updated(cfg, s, t).0.variance
  {
  }
}
