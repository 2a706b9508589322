/** What one update of the filter does to the estimate. */
module FusionLaws {
  import opened Wrappers
  import opened Readings
  import opened Consensus
  import opened Fusion
  import opened Multisets
  import opened Products

  // ------------------------------------------------------- real arithmetic

  lemma ProductPositive(a: real, b: real)
    requires a > 0.0 && b > 0.0
    ensures a * b > 0.0 && a / b > 0.0
  {
  }

  predicate Between(total: real, weight: real, lo: real, hi: real) {
    Times(lo, weight) <= total <= Times(hi, weight)
  }

  lemma MeanIs(total: real, weight: real)
    requires weight > 0.0
    ensures Mean(total, weight) == Over(total, weight)
  {
  }

  /** A weighted total over its weight lies where all the parts do. */
  lemma MeanWithin(total: real, weight: real, lo: real, hi: real)
    requires weight > 0.0 && Between(total, weight, lo, hi)
    ensures lo <= Mean(total, weight) <= hi
  {
    hide Mean, Times, Over;
    MeanIs(total, weight);
    Swap(lo, weight);
    Swap(hi, weight);
    OverCompares(total, weight, lo);
    OverCompares(total, weight, hi);
  }

  lemma ReciprocalPositive(x: real)
    requires x > 0.0
    ensures 1.0 / x > 0.0
  {
  }

  // ------------------------------------------------------------- soundness

  lemma {:induction false} CountedIsInformed(ms: seq<Measurement>)
    ensures Information(ms) > 0.0 <==> FusibleCount(ms) > 0
    ensures FusibleCount(ms) == 0 ==> Weighted(ms) == 0.0
  {
    if ms != [] {
      CountedIsInformed(ms[..|ms| - 1]);
    }
  }

  ghost predicate FusibleWithin(ms: seq<Measurement>, lo: real, hi: real) {
    forall m: Measurement :: m in ms && Fusible(m) ==> lo <= V(m.candidate) <= hi
  }

  lemma PullIs(m: Measurement)
    ensures Pull(m) == Times(V(m.candidate), Precision(m))
  {
  }

  lemma NothingBetween(lo: real, hi: real)
    ensures Between(0.0, 0.0, lo, hi)
  {
    hide Times;
    Zero(lo);
    Zero(hi);
  }

  lemma AddTerm(i: real, w: real, lo: real, hi: real, v: real, p: real, i1: real, w1: real)
    requires Between(w, i, lo, hi) && lo <= v <= hi && p >= 0.0
    requires i1 == i + p && w1 == w + Times(v, p)
    ensures Between(w1, i1, lo, hi)
  {
    hide Times;
    Sum(lo, i, p);
    Sum(hi, i, p);
    Larger(lo, v, p);
    Larger(v, hi, p);
  }

  /** The weighted sum lies between the ends of any interval the fusible values
      lie in, times their precision. */
  lemma {:induction false} WeightedWithin(ms: seq<Measurement>, lo: real, hi: real)
    requires FusibleWithin(ms, lo, hi)
    ensures Between(Weighted(ms), Information(ms), lo, hi)
  {
    hide Between, Times;
    if ms == [] {
      NothingTaken();
      assert Between(0.0, 0.0, lo, hi) by { NothingBetween(lo, hi); }
    } else {
      var n := |ms| - 1;
      var m := ms[n];
      WeightedWithin(ms[..n], lo, hi);
      OneMore(ms);
      PullIs(m);
      hide Information, Weighted, Precision, Pull, V;
      if Fusible(m) {
        assert m in ms;
        AddTerm(Information(ms[..n]), Weighted(ms[..n]), lo, hi, V(m.candidate), Precision(m), Information(ms), Weighted(ms));
      }
    }
  }

  lemma OneMore(ms: seq<Measurement>)
    requires ms != []
    ensures var n := |ms| - 1;
      && Information(ms) == Information(ms[..n]) + (if Fusible(ms[n]) then Precision(ms[n]) else 0.0)
      && Weighted(ms) == Weighted(ms[..n]) + (if Fusible(ms[n]) then Pull(ms[n]) else 0.0)
  {
  }

  /** What the trim lets in is within the band of the fast consensus. */
  lemma {:induction false} TakenWithin(cfg: FusionConfig, absorbed: seq<Absorbed>, healthy: seq<Candidate>, fast: Option<Num>, band: Num)
    ensures var ms := Measurements(cfg, absorbed, healthy, fast, band);
      && (FusibleCount(ms) > 0 ==> fast.Some? && fast.value.Finite? && fast.value.r > 0.0 && band.Finite? && band.r > 0.0)
      && (forall m: Measurement :: m in ms && Fusible(m) ==> Admits(fast, band, V(m.candidate)))
  {
    if healthy != [] {
      TakenWithin(cfg, absorbed, healthy[..|healthy| - 1], fast, band);
    }
  }

  lemma AdmittedWithin(f: real, b: real, v: real)
    requires Admits(Some(Finite(f)), Finite(b), v)
    ensures f - b * f <= v <= f + b * f
  {
  }

  lemma GrownIsSound(cfg: FusionConfig, s: Filter, t: Tick)
    requires Sound(s)
    ensures Sound(Grown(cfg, s, t)) && Grown(cfg, s, t).estimate == s.estimate
    ensures s.estimate.Some? ==>
      Grown(cfg, s, t).variance.r == s.variance.r + Drift(cfg, s.estimate.value, t.dt)
  {
  }

  /** Measurements alone: the mean is positive and within any interval they are. */
  lemma SeedWithin(s: Filter, ms: seq<Measurement>, lo: real, hi: real)
    requires FusibleCount(ms) > 0 && FusibleWithin(ms, lo, hi)
    ensures var r := SeedFrom(s, ms).0;
      && r.estimate.Some? && r.variance.Finite? && r.variance.r > 0.0 && lo <= r.estimate.value <= hi
      && SeedFrom(s, ms).1.step.Seeded?
  {
    hide Information, Weighted, AbsorbThrottled, Attribute, Between;
    CountedIsInformed(ms);
    WeightedWithin(ms, lo, hi);
    hide FusibleWithin, FusibleCount;
    MeanWithin(Weighted(ms), Information(ms), lo, hi);
  }

  lemma FuseWithin(s: Filter, prior: real, ms: seq<Measurement>, lo: real, hi: real)
    requires FusibleCount(ms) > 0 && FusibleWithin(ms, lo, hi) && lo <= prior <= hi
    ensures var r := FuseWith(s, prior, ms).0;
      && r.estimate.Some? && r.variance.Finite? && r.variance.r > 0.0 && lo <= r.estimate.value <= hi
      && FuseWith(s, prior, ms).1.step.Fused?
  {
    hide Information, Weighted, AbsorbThrottled, Attribute, PriorInformation, Mean, Between, PriorPull, FusibleWithin, FusibleCount, Times;
    CountedIsInformed(ms);
    WeightedWithin(ms, lo, hi);
    var i, p := Information(ms), PriorInformation(s);
    var q := PriorPull(s, prior);
    PriorPullIs(s, prior);
    AddTerm(i, Weighted(ms), lo, hi, prior, p, p + i, q + Weighted(ms));
    MeanWithin(q + Weighted(ms), p + i, lo, hi);
    ReciprocalPositive(p + i);
  }

  lemma PriorPullIs(s: Filter, prior: real)
    ensures PriorPull(s, prior) == Times(prior, PriorInformation(s))
  {
  }

  lemma {:induction false} ValuesFloor(ms: seq<Measurement>, from: real) returns (lo: real, hi: real)
    requires from > 0.0
    ensures 0.0 < lo <= from <= hi && FusibleWithin(ms, lo, hi)
  {
    if ms == [] {
      lo, hi := from, from;
    } else {
      var n := |ms| - 1;
      lo, hi := ValuesFloor(ms[..n], from);
      var v := V(ms[n].candidate);
      lo := if v < lo then v else lo;
      hi := if v > hi then v else hi;
      assert ms == ms[..n] + [ms[n]];
    }
  }

  /** Every filter reached from an unseeded one has a positive estimate with a
      positive variance, or has never been seeded. */
  lemma UpdateKeepsSound(cfg: FusionConfig, s: Filter, t: Tick)
    requires Sound(s)
    ensures Sound(Updated(cfg, s, t).0)
  {
    hide Grown, Taken, Measurements, FuseWith, SeedFrom, AbsorbThrottled, Attribute, PastGate;
    var g, ms := Grown(cfg, s, t), Taken(cfg, s, t);
    GrownIsSound(cfg, s, t);
    CountedIsInformed(ms);
    TakenAre(cfg, s, t);
    if FusibleCount(ms) == 0 {
      SeedOfNothing(g, ms);
    } else {
      var lo, hi := ValuesFloor(ms, if g.estimate.Some? then g.estimate.value else 1.0);
      SeedWithin(g, ms, lo, hi);
      if g.estimate.Some? {
        FuseWithin(g, g.estimate.value, ms, lo, hi);
      }
    }
  }

  lemma SeedOfNothing(g: Filter, ms: seq<Measurement>)
    requires FusibleCount(ms) == 0
    ensures SeedFrom(g, ms) == Carry(g, ms)
  {
  }

  lemma TakenAre(cfg: FusionConfig, s: Filter, t: Tick)
    ensures var ms := Taken(cfg, s, t);
      && (FusibleCount(ms) > 0 ==> t.fast.Some? && t.fast.value.Finite? && t.fast.value.r > 0.0 && t.band.Finite? && t.band.r > 0.0)
      && (forall m: Measurement :: m in ms && Fusible(m) ==> Admits(t.fast, t.band, V(m.candidate)))
  {
    TakenWithin(cfg, Grown(cfg, s, t).absorbed, Seats(t.healthy), t.fast, t.band);
  }

  // ---------------------------------------------------------- tracking bound

  /** `bound` is at least the band and, when there was a prior, at least the
      re-seed gate of the predicted state. */
  ghost predicate CoversGate(cfg: FusionConfig, g: Filter, f: real, b: real, bound: real) {
    && bound >= b * f
    && (g.estimate.Some? ==>
          && bound >= cfg.reseedFloorFrac * g.estimate.value
          && (g.variance.Finite? ==> Square(bound) >= SigmaGateSquared(cfg, g.variance.r)))
  }

  lemma SquareIs(a: real)
    ensures Square(a) == Times(a, a)
  {
  }

  lemma SquareRises(a: real, b: real)
    requires 0.0 <= a < b
    ensures Square(a) < Square(b)
  {
    hide Square, Times;
    SquareIs(a);
    SquareIs(b);
    Rises(a, a, b);
    Swap(a, b);
    RisesStrictly(b, a, b);
  }

  lemma WithinGate(cfg: FusionConfig, g: Filter, prior: real, f: real, b: real, bound: real)
    requires g.estimate == Some(prior) && prior > 0.0 && f > 0.0 && b > 0.0 && CoversGate(cfg, g, f, b, bound)
    requires !PastGate(cfg, g, prior, f - prior)
    ensures f - bound <= prior <= f + bound
  {
    var size := if f - prior >= 0.0 then f - prior else prior - f;
    assert bound >= 0.0 by {
      ProductPositive(b, f);
    }
    if size > bound {
      SquareRises(bound, size);
    }
  }

  /** Tracking: an update that is not carried leaves an estimate no further from
      the fast consensus than the band or the gate, whichever is the wider. */
  lemma TracksTheConsensus(cfg: FusionConfig, s: Filter, t: Tick, bound: real)
    requires Sound(s) && !Updated(cfg, s, t).1.step.Carried?
    ensures t.fast.Some? && t.fast.value.Finite? && t.fast.value.r > 0.0 && t.band.Finite? && t.band.r > 0.0
    ensures Updated(cfg, s, t).0.estimate.Some? && Updated(cfg, s, t).0.estimate.value > 0.0
    ensures CoversGate(cfg, Grown(cfg, s, t), t.fast.value.r, t.band.r, bound) ==>
      t.fast.value.r - bound <= Updated(cfg, s, t).0.estimate.value <= t.fast.value.r + bound
  {
    hide Grown, Taken, Measurements, FuseWith, SeedFrom, AbsorbThrottled, Attribute, PastGate, CoversGate, Admits, Square;
    var g, ms := Grown(cfg, s, t), Taken(cfg, s, t);
    GrownIsSound(cfg, s, t);
    CommittedIsPositive(cfg, s, t);
    TakenAre(cfg, s, t);
    SomeFusible(cfg, s, t);
    var f, b := t.fast.value.r, t.band.r;
    if CoversGate(cfg, g, f, b, bound) {
      TrimWithin(ms, f, b, bound, cfg, g);
      if g.estimate.None? {
        SeedWithin(g, ms, f - bound, f + bound);
      } else if PastGate(cfg, g, g.estimate.value, f - g.estimate.value) {
        BoundPositive(cfg, g, f, b, bound);
      } else {
        WithinGate(cfg, g, g.estimate.value, f, b, bound);
        FuseWithin(g, g.estimate.value, ms, f - bound, f + bound);
      }
    }
  }

  lemma CommittedIsPositive(cfg: FusionConfig, s: Filter, t: Tick)
    requires Sound(s) && !Updated(cfg, s, t).1.step.Carried?
    ensures Updated(cfg, s, t).0.estimate.Some? && Updated(cfg, s, t).0.estimate.value > 0.0
  {
    UpdateKeepsSound(cfg, s, t);
    hide Grown, Taken, Measurements, AbsorbThrottled, Attribute, PastGate, Information, Weighted;
    GrownIsSound(cfg, s, t);
  }

  lemma SomeFusible(cfg: FusionConfig, s: Filter, t: Tick)
    requires !Updated(cfg, s, t).1.step.Carried?
    ensures FusibleCount(Taken(cfg, s, t)) > 0
  {
    hide Grown, Taken, Information, Weighted, FusibleCount, AbsorbThrottled, Attribute;
    if FusibleCount(Taken(cfg, s, t)) == 0 {
      SeedOfNothing(Grown(cfg, s, t), Taken(cfg, s, t));
    }
  }

  lemma BoundPositive(cfg: FusionConfig, g: Filter, f: real, b: real, bound: real)
    requires CoversGate(cfg, g, f, b, bound) && f > 0.0 && b > 0.0
    ensures bound >= 0.0
  {
  }

  lemma TrimWithin(ms: seq<Measurement>, f: real, b: real, bound: real, cfg: FusionConfig, g: Filter)
    requires CoversGate(cfg, g, f, b, bound)
    requires forall m: Measurement :: m in ms && Fusible(m) ==> Admits(Some(Finite(f)), Finite(b), V(m.candidate))
    ensures FusibleWithin(ms, f - bound, f + bound)
  {
    hide Admits, Square, SigmaGateSquared, V;
    forall m | m in ms && Fusible(m) ensures f - bound <= V(m.candidate) <= f + bound {
      AdmittedWithin(f, b, V(m.candidate));
    }
  }

  // ------------------------------------------- batch form and Kalman updates

  /** An estimate and its variance. */
  datatype Belief = Belief(mean: real, variance: real)

  /** One measurement folded in by its gain. */
  function GainUpdate(x: Belief, m: Measurement): Belief
    requires x.variance > 0.0
  {
    var gain := x.variance / (x.variance + m.variance);
    Belief(x.mean + gain * (V(m.candidate) - x.mean), (1.0 - gain) * x.variance)
  }

  function GainFold(x: Belief, ms: seq<Measurement>): (r: Belief)
    requires x.variance > 0.0
    ensures r.variance > 0.0
  {
    if ms == [] then x
    else
      var before := GainFold(x, ms[..|ms| - 1]);
      GainUpdateIs(before, ms[|ms| - 1]);
      if Fusible(ms[|ms| - 1]) then GainUpdate(before, ms[|ms| - 1]) else before
  }

  /** Precisions add, and so do precision-weighted means. */
  lemma GainUpdateIs(x: Belief, m: Measurement)
    requires x.variance > 0.0
    ensures GainUpdate(x, m).variance > 0.0
    ensures 1.0 / GainUpdate(x, m).variance == 1.0 / x.variance + Precision(m)
    ensures GainUpdate(x, m).mean / GainUpdate(x, m).variance == x.mean / x.variance + Pull(m)
  {
  }

  lemma {:induction false} GainFoldIs(x: Belief, ms: seq<Measurement>)
    requires x.variance > 0.0
    ensures 1.0 / GainFold(x, ms).variance == 1.0 / x.variance + Information(ms)
    ensures GainFold(x, ms).mean / GainFold(x, ms).variance == x.mean / x.variance + Weighted(ms)
  {
    hide GainUpdate, V, Precision, Pull, Information, Weighted;
    if ms == [] {
      NothingTaken();
    } else {
      OneMore(ms);
      GainFoldIs(x, ms[..|ms| - 1]);
      GainUpdateIs(GainFold(x, ms[..|ms| - 1]), ms[|ms| - 1]);
    }
  }

  lemma NothingTaken()
    ensures Information([]) == 0.0 && Weighted([]) == 0.0
  {
  }

  lemma BeliefOf(b: Belief, information: real, weighted: real)
    requires b.variance > 0.0 && 1.0 / b.variance == information && b.mean / b.variance == weighted
    ensures information > 0.0 && b.variance == 1.0 / information && b.mean == Mean(weighted, information)
  {
  }

  /** The batch information form is the fold of one gain update per fusible
      measurement, its precision the sum of the precisions. */
  lemma BatchIsFold(g: Filter, ms: seq<Measurement>)
    requires Sound(g) && g.estimate.Some?
    ensures var b := GainFold(Belief(g.estimate.value, g.variance.r), ms);
            var r := FuseWith(g, g.estimate.value, ms).0;
            r.estimate == Some(b.mean) && r.variance == Finite(b.variance)
    ensures var r := FuseWith(g, g.estimate.value, ms).0;
            1.0 / r.variance.r == 1.0 / g.variance.r + Information(ms)
  {
    hide GainFold, Information, Weighted, AbsorbThrottled, Attribute;
    var x := Belief(g.estimate.value, g.variance.r);
    GainFoldIs(x, ms);
    var b := GainFold(x, ms);
    PriorIs(g);
    hide PriorInformation, PriorPull, Mean;
    BeliefOf(b, PriorInformation(g) + Information(ms), PriorPull(g, x.mean) + Weighted(ms));
    BeliefOf(b, 1.0 / g.variance.r + Information(ms), PriorPull(g, x.mean) + Weighted(ms));
  }

  lemma PriorIs(g: Filter)
    requires Sound(g) && g.estimate.Some?
    ensures PriorInformation(g) == 1.0 / g.variance.r > 0.0
    ensures PriorPull(g, g.estimate.value) == g.estimate.value / g.variance.r
  {
  }

  // ----------------------------------------------------- any order of folding

  lemma {:induction false} InformationConcat(a: seq<Measurement>, b: seq<Measurement>)
    ensures Information(a + b) == Information(a) + Information(b)
    ensures Weighted(a + b) == Weighted(a) + Weighted(b)
  {
    if b == [] {
      assert a + b == a;
    } else {
      var n := |b| - 1;
      assert (a + b)[..|a| + n] == a + b[..n];
      InformationConcat(a, b[..n]);
    }
  }

  lemma {:induction false} InformationPermutes(a: seq<Measurement>, b: seq<Measurement>)
    requires multiset(a) == multiset(b)
    ensures Information(a) == Information(b) && Weighted(a) == Weighted(b)
    decreases |a|
  {
    hide Information, Weighted;
    if a == [] {
      assert |multiset(b)| == 0;
      assert b == [];
    } else {
      var i := Peel(a, b);
      InformationPermutes(a[..|a| - 1], Without(b, i));
      InformationSplits(a, |a| - 1);
      InformationSplits(b, i);
      assert Without(a, |a| - 1) == a[..|a| - 1];
    }
  }

  lemma InformationSplits(ms: seq<Measurement>, i: nat)
    requires i < |ms|
    ensures Information(ms) == Information(Without(ms, i)) + Information([ms[i]])
    ensures Weighted(ms) == Weighted(Without(ms, i)) + Weighted([ms[i]])
  {
    hide Information, Weighted;
    assert ms == ms[..i] + [ms[i]] + ms[i + 1..];
    InformationConcat(ms[..i] + [ms[i]], ms[i + 1..]);
    InformationConcat(ms[..i], [ms[i]]);
    InformationConcat(ms[..i], ms[i + 1..]);
  }

  /** Folding the same measurements in any other order ends in the same belief. */
  lemma FoldInAnyOrder(x: Belief, a: seq<Measurement>, b: seq<Measurement>)
    requires x.variance > 0.0 && multiset(a) == multiset(b)
    ensures GainFold(x, a) == GainFold(x, b)
  {
    hide GainFold, Information, Weighted;
    GainFoldIs(x, a);
    GainFoldIs(x, b);
    InformationPermutes(a, b);
    var p, q := GainFold(x, a), GainFold(x, b);
    BeliefOf(p, 1.0 / x.variance + Information(a), x.mean / x.variance + Weighted(a));
    BeliefOf(q, 1.0 / x.variance + Information(a), x.mean / x.variance + Weighted(a));
  }

  // ------------------------------------------------------------- attribution

  function TotalWeight(cs: seq<FusedContribution>): real {
    if cs == [] then 0.0 else TotalWeight(cs[..|cs| - 1]) + cs[|cs| - 1].weight
  }

  lemma {:induction false} SharesTotal(ms: seq<Measurement>, information: real)
    requires information > 0.0
    ensures TotalWeight(Attribute(ms, information)) == Information(ms) / information
  {
    if ms != [] {
      var n := |ms| - 1;
      SharesTotal(ms[..n], information);
      OneMore(ms);
      hide Information, Precision;
      var before := Attribute(ms[..n], information);
      assert Attribute(ms, information)[..|before|] == before;
      hide Attribute;
      if Fusible(ms[n]) {
        SumOver(Information(ms[..n]), Precision(ms[n]), information);
      }
    }
  }

  lemma SumOver(a: real, b: real, c: real)
    requires c > 0.0
    ensures (a + b) / c == a / c + b / c
  {
  }

  /** After a fuse, the contributions and the prior's share of the posterior
      precision make up the whole; after a seed or a re-seed, whose estimate is
      not built on the prior, the contributions alone do. */
  lemma SharesSumToOne(g: Filter, ms: seq<Measurement>)
    requires FusibleCount(ms) > 0
    ensures TotalWeight(SeedFrom(g, ms).1.contributions) == 1.0
    ensures forall fast, frac :: TotalWeight(ReseedTo(g, fast, frac, ms).1.contributions) == 1.0
    ensures g.estimate.Some? && g.variance.Finite? && g.variance.r > 0.0 ==>
      var r := FuseWith(g, g.estimate.value, ms);
      r.0.variance.Finite? && TotalWeight(r.1.contributions) + r.0.variance.r / g.variance.r == 1.0
  {
    hide Information, Weighted, AbsorbThrottled, Attribute, TotalWeight;
    CountedIsInformed(ms);
    var i := Information(ms);
    SharesTotal(ms, i);
    if g.estimate.Some? && g.variance.Finite? && g.variance.r > 0.0 {
      var p := PriorInformation(g);
      SharesTotal(ms, p + i);
      var total := p + i;
      assert 1.0 / total / g.variance.r == p / total by {
        DivideSwap(total, g.variance.r);
      }
      assert i / total + p / total == 1.0 by {
        SharesWhole(i, p);
      }
    }
  }

  lemma DivideSwap(a: real, b: real)
    requires a > 0.0 && b > 0.0
    ensures 1.0 / a / b == 1.0 / b / a
  {
  }

  lemma SharesWhole(i: real, p: real)
    requires i + p > 0.0
    ensures i / (p + i) + p / (p + i) == 1.0
  {
    SumOver(i, p, p + i);
  }

  /** A lone first measurement passes through at its own variance. */
  lemma LoneSeedPassesThrough(m: Measurement)
    requires Fusible(m)
    ensures var r := SeedFrom(Unseeded, [m]).0;
            r.estimate == Some(V(m.candidate)) && r.variance == Finite(m.variance)
  {
    hide Precision, Pull, AbsorbThrottled, Attribute, Mean, V;
    NothingTaken();
    assert [m][..0] == [];
    OneMore([m]);
    PullIs(m);
    assert Information([m]) == Precision(m) && Weighted([m]) == Pull(m);
    LoneMean(m);
  }

  lemma LoneMean(m: Measurement)
    ensures Mean(Pull(m), Precision(m)) == V(m.candidate) && 1.0 / Precision(m) == m.variance
  {
  }

  // ------------------------------------------------------- noise and the gate

  /** A reading's variance ages by the random walk the estimate's own grows by. */
  lemma ReadingsAgeLikeTheEstimate(cfg: FusionConfig, c: Candidate, d: nat)
    requires MeasurementVariance(cfg, c).Some?
    ensures var older := c.(reading := c.reading.(age := c.reading.age + d));
            MeasurementVariance(cfg, older) == Some(MeasurementVariance(cfg, c).value + Drift(cfg, V(c), d))
  {
    hide Drift, Square, NoiseFrac;
    var older := c.(reading := c.reading.(age := c.reading.age + d));
    assert BaseSigma(cfg, older) == BaseSigma(cfg, c);
    DriftAdds(cfg, V(c), c.reading.age, d);
  }

  lemma DriftAdds(cfg: FusionConfig, estimate: real, a: nat, b: nat)
    ensures Drift(cfg, estimate, a + b) == Drift(cfg, estimate, a) + Drift(cfg, estimate, b)
    ensures Drift(cfg, estimate, 0) == 0.0
    ensures Drift(cfg, estimate, b) >= 0.0
  {
  }

  lemma SquaresCompare(a: real, b: real)
    requires a >= 0.0 && b >= 0.0
    ensures Square(a) > Square(b) <==> a > b
  {
    hide Square;
    if a > b {
      SquareRises(b, a);
    } else if a < b {
      SquareRises(a, b);
    }
  }

  /** Comparing squares decides the gate as comparing against the wider of so many
      standard deviations and the floor would, whatever number `sigma` squares to
      the variance. */
  lemma GateIsSigmasOrFloor(cfg: FusionConfig, s: Filter, prior: real, innovation: real, sigma: real)
    requires cfg.Valid() && s.variance.Finite? && sigma >= 0.0 && Square(sigma) == s.variance.r
    ensures var size := if innovation >= 0.0 then innovation else -innovation;
            var floor := cfg.reseedFloorFrac * (if prior >= 0.0 then prior else -prior);
            var gate := if cfg.reseedSigma * sigma > floor then cfg.reseedSigma * sigma else floor;
            PastGate(cfg, s, prior, innovation) <==> size > gate
  {
    hide Square;
    var size := if innovation >= 0.0 then innovation else -innovation;
    var g := cfg.reseedSigma * sigma;
    SigmaGateIs(cfg, s.variance.r, sigma, g);
    SquaresCompare(size, g);
    hide SigmaGateSquared;
  }

  lemma SigmaGateIs(cfg: FusionConfig, variance: real, sigma: real, g: real)
    requires cfg.reseedSigma > 0.0 && sigma >= 0.0 && Square(sigma) == variance && g == cfg.reseedSigma * sigma
    ensures g >= 0.0 && SigmaGateSquared(cfg, variance) == Square(g)
  {
  }

  /** Every reading that could be measured is listed, and weighs nothing exactly
      when it was trimmed or already held. */
  lemma {:induction false} AttributionListsAll(ms: seq<Measurement>, information: real)
    requires information > 0.0
    ensures var cs := Attribute(ms, information);
      && |cs| == |ms|
      && forall i :: 0 <= i < |ms| ==>
           && cs[i].source == ms[i].candidate.source && cs[i].value == V(ms[i].candidate) && cs[i].variance == ms[i].variance
           && (cs[i].weight > 0.0 <==> Fusible(ms[i])) && cs[i].weight >= 0.0
  {
    hide V;
    if ms != [] {
      AttributionListsAll(ms[..|ms| - 1], information);
      ShareSign(ms[|ms| - 1], information);
      hide Share, Fusible;
    }
  }

  lemma ShareSign(m: Measurement, information: real)
    requires information > 0.0
    ensures Share(m, information) >= 0.0 && (Share(m, information) > 0.0 <==> Fusible(m))
  {
  }

  /** A published confidence stands in for the class noise, whatever the class;
      without one the class decides. */
  lemma ConfidenceOutranksClass(cfg: FusionConfig, c: Candidate, other: SourceClass)
    requires c.reading.Valid()
    ensures var d := c.(class_ := other);
      && (OwnNoise(c) ==> MeasurementVariance(cfg, d) == MeasurementVariance(cfg, c))
      && (cfg.Valid() && !OwnNoise(c) ==>
            && MeasurementVariance(cfg, c).Some? && MeasurementVariance(cfg, d).Some?
            && (NoiseFrac(cfg, c.class_) > NoiseFrac(cfg, other) ==> MeasurementVariance(cfg, c).value > MeasurementVariance(cfg, d).value))
  {
    hide Drift, Square, BaseSigma;
    var d := c.(class_ := other);
    BaseSigmaIs(cfg, c);
    BaseSigmaIs(cfg, d);
    DriftAdds(cfg, V(c), 0, c.reading.age);
    if cfg.Valid() {
      SquareRises(0.0, BaseSigma(cfg, c));
      SquareRises(0.0, BaseSigma(cfg, d));
      if !OwnNoise(c) && NoiseFrac(cfg, c.class_) > NoiseFrac(cfg, other) {
        NoisierIsWider(cfg, c, d);
        SquareRises(BaseSigma(cfg, d), BaseSigma(cfg, c));
      }
    }
  }

  /** The source publishes a half-width to be taken at its word. */
  predicate OwnNoise(c: Candidate) {
    c.reading.confidence.Some? && c.reading.confidence.value > 0.0
  }

  lemma NoisierIsWider(cfg: FusionConfig, c: Candidate, d: Candidate)
    requires c.reading.Valid() && d.reading == c.reading && !OwnNoise(c)
    requires NoiseFrac(cfg, c.class_) > NoiseFrac(cfg, d.class_)
    ensures BaseSigma(cfg, c) > BaseSigma(cfg, d)
  {
    hide NoiseFrac;
    Widens(NoiseFrac(cfg, d.class_), NoiseFrac(cfg, c.class_), V(c));
  }

  lemma Widens(a: real, b: real, v: real)
    requires a < b && v > 0.0
    ensures a * v < b * v
  {
  }

  lemma BaseSigmaIs(cfg: FusionConfig, c: Candidate)
    requires c.reading.Valid()
    ensures OwnNoise(c) ==> BaseSigma(cfg, c) == c.reading.confidence.value
    ensures cfg.Valid() ==> BaseSigma(cfg, c) > 0.0
  {
    if cfg.Valid() {
      Widens(0.0, NoiseFrac(cfg, c.class_), V(c));
    }
  }
}
