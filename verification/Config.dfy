/** The engine's calibration surface. */
module Config {
  import opened Wrappers
  import opened Consensus
  import opened Fusion

  datatype FairValueConfig = FairValueConfig(
    legStale: LegStaleness, basisHalfLife: nat, basisMaxReseedWeight: real, basisMaxJumpFrac: real, basisMaxAge: nat,
    basisLow: real, basisHigh: real, pinnedBasis: Option<real>, usdcLow: real, usdcHigh: real,
    legDispersionFrac: real, fxMaxConfidenceFrac: real, fusion: FusionConfig)

  datatype ConfigError = BandInverted | NotPositive | NotAFraction | ZeroDuration | StalenessInverted

  predicate IsFraction(v: real) {
    0.0 < v <= 1.0
  }

  function ValidateFusion(f: FusionConfig): Option<ConfigError> {
    if !IsFraction(f.driftFracPerSec) || !IsFraction(f.tapeNoiseFrac)
       || !IsFraction(f.referenceNoiseFrac) || !IsFraction(f.reseedFloorFrac) then Some(NotAFraction)
    else if f.reseedSigma <= 0.0 then Some(NotPositive)
    else if f.referencePublishInterval == 0 then Some(NotPositive)
    else None
  }

  /** The first broken invariant, in the order they are checked. */
  function Validate(c: FairValueConfig): Option<ConfigError> {
    if c.legStale.tape == 0 then Some(ZeroDuration)
    else if c.legStale.reference == 0 then Some(ZeroDuration)
    else if c.legStale.reference < c.legStale.tape then Some(StalenessInverted)
    else if c.basisHalfLife == 0 then Some(ZeroDuration)
    else if c.basisMaxAge == 0 then Some(ZeroDuration)
    else if c.basisLow >= c.basisHigh then Some(BandInverted)
    else if c.usdcLow >= c.usdcHigh then Some(BandInverted)
    else if c.pinnedBasis.Some? && c.pinnedBasis.value <= 0.0 then Some(NotPositive)
    else if !IsFraction(c.fxMaxConfidenceFrac) then Some(NotAFraction)
    else if !IsFraction(c.basisMaxReseedWeight) || c.basisMaxReseedWeight >= 1.0 then Some(NotAFraction)
    else if !IsFraction(c.basisMaxJumpFrac) then Some(NotAFraction)
    else if !IsFraction(c.legDispersionFrac) then Some(NotAFraction)
    else ValidateFusion(c.fusion)
  }

  /** What the engine relies on. */
  predicate Valid(c: FairValueConfig) {
    && 0 < c.legStale.tape <= c.legStale.reference
    && 0 < c.basisHalfLife && 0 < c.basisMaxAge
    && 0.0 < c.basisMaxReseedWeight < 1.0 && 0.0 < c.basisMaxJumpFrac <= 1.0
    && c.basisLow < c.basisHigh && c.usdcLow < c.usdcHigh
    && (c.pinnedBasis.Some? ==> c.pinnedBasis.value > 0.0)
    && 0.0 < c.fxMaxConfidenceFrac <= 1.0 && 0.0 < c.legDispersionFrac <= 1.0
    && c.fusion.Valid()
  }

  /** `validate` accepts exactly the configurations the engine can rely on. */
  lemma ValidateIsExact(c: FairValueConfig)
    ensures Validate(c) == None <==> Valid(c)
  {
  }
}
