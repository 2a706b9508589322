/** The filter in the code's own form: an accumulator updated in place, against
    the pure update it computes. */
module FusionFilter {
  import opened Wrappers
  import opened Readings
  import opened Consensus
  import opened Fusion

  lemma NothingMeasured(cfg: FusionConfig, absorbed: seq<Absorbed>, fast: Option<Num>, band: Num)
    ensures Measurements(cfg, absorbed, [], fast, band) == [] && FusibleCount([]) == 0
  {
  }

  lemma MeasuredNext(cfg: FusionConfig, absorbed: seq<Absorbed>, seats: seq<Candidate>, c: Candidate, fast: Option<Num>, band: Num)
    ensures var before, v := Measurements(cfg, absorbed, seats, fast, band), MeasurementVariance(cfg, c);
            Measurements(cfg, absorbed, seats + [c], fast, band) ==
            if v.None? then before
            else before + [RawMeasurement(c, v.value, Admits(fast, band, V(c)), IsNewObservation(cfg, absorbed, c))]
  {
    hide MeasurementVariance, Admits, IsNewObservation;
    assert (seats + [c])[..|seats|] == seats;
  }

  lemma CountNext(ms: seq<Measurement>, m: Measurement)
    ensures FusibleCount(ms + [m]) == FusibleCount(ms) + (if Fusible(m) then 1 else 0)
  {
    assert (ms + [m])[..|ms|] == ms;
  }

  class FusionFilter {
    var estimate: Option<real>
    var variance: Num
    var absorbed: seq<Absorbed>
    const cfg: FusionConfig

    constructor (cfg: FusionConfig)
      ensures State() == Unseeded && this.cfg == cfg
    {
      this.estimate, this.variance, this.absorbed := None, NonFinite, [];
      this.cfg := cfg;
    }

    ghost function State(): Filter
      reads this
    {
      Filter(estimate, variance, absorbed)
    }

    /** Grow the variance for the elapsed time. */
    method GrowVariance(dt: nat)
      modifies this`variance
      ensures State() == Predict(cfg, old(State()), dt)
    {
      if estimate.None? || Secs(dt) <= 0.0 {
        NoDrift(estimate, dt);
        return;
      }
      if variance.Finite? {
        variance := Finite(variance.r + Drift(cfg, estimate.value, dt));
      }
    }

    lemma NoDrift(estimate: Option<real>, dt: nat)
      requires estimate.None? || Secs(dt) <= 0.0
      ensures estimate.Some? ==> Drift(cfg, estimate.value, dt) == 0.0
    {
    }

    method AgeAbsorbed(dt: nat)
      modifies this`absorbed
      ensures absorbed == Aged(old(absorbed), dt)
    {
      for i := 0 to |absorbed|
        invariant |absorbed| == |old(absorbed)|
        invariant forall k :: 0 <= k < i ==> absorbed[k] == old(absorbed)[k].(since := old(absorbed)[k].since + dt)
        invariant forall k :: i <= k < |absorbed| ==> absorbed[k] == old(absorbed)[k]
      {
        absorbed := absorbed[i := absorbed[i].(since := absorbed[i].since + dt)];
      }
      forall k | 0 <= k < |absorbed| ensures Aged(old(absorbed), dt)[k] == absorbed[k] {
        AgedAt(old(absorbed), k, dt);
      }
      assert absorbed == Aged(old(absorbed), dt);
    }

    lemma {:induction false} AgedAt(a: seq<Absorbed>, i: nat, dt: nat)
      requires i < |a|
      ensures Aged(a, dt)[i] == a[i].(since := a[i].since + dt)
    {
      if i > 0 {
        AgedAt(a[1..], i - 1, dt);
      }
    }

    /** Restart a source's clock, in its own slot, a free one, or the stalest. */
    method Mark(source: string)
      modifies this`absorbed
      ensures absorbed == MarkAbsorbed(old(absorbed), source)
    {
      var i := 0;
      while i < |absorbed| && absorbed[i].source != source
        invariant i <= |absorbed| && absorbed == old(absorbed)
        invariant forall k :: 0 <= k < i ==> absorbed[k].source != source
      {
        i := i + 1;
      }
      FoundAt(absorbed, source, i);
      if i < |absorbed| {
        absorbed := absorbed[i := Absorbed(source, 0)];
      } else if |absorbed| < MAX_CANDIDATES {
        absorbed := absorbed + [Absorbed(source, 0)];
      } else {
        absorbed := absorbed[Stalest(absorbed) := Absorbed(source, 0)];
      }
    }

    ghost predicate FirstAt(a: seq<Absorbed>, source: string, i: nat) {
      && i <= |a|
      && (forall k :: 0 <= k < i ==> a[k].source != source)
      && (i < |a| ==> a[i].source == source)
    }

    lemma {:induction false} FoundAt(a: seq<Absorbed>, source: string, i: nat)
      requires FirstAt(a, source, i)
      ensures ClockOf(a, source).Some? <==> i < |a|
      ensures i < |a| ==> Restarted(a, source) == a[i := Absorbed(source, 0)]
      decreases |a|
    {
      if a == [] {
      } else if i == 0 {
        assert a[0 := Absorbed(source, 0)] == [Absorbed(source, 0)] + a[1..];
      } else {
        assert FirstAt(a[1..], source, i - 1) by {
          assert forall k :: 0 <= k < i - 1 ==> a[1..][k] == a[k + 1];
        }
        FoundAt(a[1..], source, i - 1);
        hide FirstAt;
        assert a[0].source != source;
        if i < |a| {
          assert a[i := Absorbed(source, 0)] == [a[0]] + a[1..][i - 1 := Absorbed(source, 0)];
        }
      }
    }

    /** Start anew the clocks of the references just absorbed. */
    method AbsorbAll(ms: seq<Measurement>)
      modifies this`absorbed
      ensures absorbed == AbsorbThrottled(old(absorbed), ms)
    {
      for i := 0 to |ms|
        invariant absorbed == AbsorbThrottled(old(absorbed), ms[..i])
      {
        assert ms[..i + 1][..i] == ms[..i];
        if Fusible(ms[i]) && Throttled(ms[i].candidate.class_) {
          Mark(ms[i].candidate.source);
        }
      }
      assert ms[..|ms|] == ms;
    }

    method Prepare(healthy: seq<Candidate>, fast: Option<Num>, band: Num) returns (ms: seq<Measurement>, n: nat)
      ensures ms == Measurements(cfg, absorbed, Seats(healthy), fast, band) && n == FusibleCount(ms)
    {
      hide MeasurementVariance, Admits, IsNewObservation, Measurements, FusibleCount;
      var seats := Seats(healthy);
      ms, n := [], 0;
      NothingMeasured(cfg, absorbed, fast, band);
      for i := 0 to |seats|
        invariant ms == Measurements(cfg, absorbed, seats[..i], fast, band) && n == FusibleCount(ms)
      {
        assert seats[..i + 1] == seats[..i] + [seats[i]];
        var c := seats[i];
        MeasuredNext(cfg, absorbed, seats[..i], c, fast, band);
        var v := MeasurementVariance(cfg, c);
        if v.None? {
          continue;
        }
        var admitted := Admits(fast, band, V(c));
        var newObservation := IsNewObservation(cfg, absorbed, c);
        var m: Measurement := RawMeasurement(c, v.value, admitted, newObservation);
        CountNext(ms, m);
        ms, n := ms + [m], n + (if admitted && newObservation then 1 else 0);
      }
      assert seats[..|seats|] == seats;
    }

    /** Every source's absorption is remembered, the estimate follows the update. */
    method Update(healthy: seq<Candidate>, fast: Option<Num>, band: Num, dt: nat) returns (report: Report)
      modifies this
      ensures (State(), report) == Updated(cfg, old(State()), Tick(healthy, fast, band, dt))
    {
      ghost var before, t := State(), Tick(healthy, fast, band, dt);
      GrowVariance(dt);
      AgeAbsorbed(dt);
      assert State() == Grown(cfg, before, t);
      var ms, n := Prepare(healthy, fast, band);
      assert ms == Taken(cfg, before, t);
      hide Predict, Aged, Measurements, Taken, Grown;
      if estimate.None? {
        report := Seed(ms, n);
        return;
      }
      var prior := estimate.value;
      if n == 0 {
        report := Report(Some(prior), variance, Carried, 0, Attribute(ms, 0.0));
        return;
      }
      if fast.Some? && fast.value.Finite? {
        var innovation := fast.value.r - prior;
        if prior > 0.0 && PastGate(cfg, Filter(estimate, variance, absorbed), prior, innovation) {
          report := Reseed(fast.value.r, innovation / prior, ms, n);
          return;
        }
      }
      report := Fuse(prior, ms, n);
    }

    method Seed(ms: seq<Measurement>, n: nat) returns (report: Report)
      requires n == FusibleCount(ms)
      modifies this
      ensures (State(), report) == SeedFrom(old(State()), ms)
    {
      var information, weighted := Accumulate(ms, 0.0, 0.0);
      if information <= 0.0 {
        return Report(estimate, variance, Carried, 0, Attribute(ms, 0.0));
      }
      var value := Mean(weighted, information);
      estimate, variance := Some(value), Finite(1.0 / information);
      AbsorbAll(ms);
      report := Report(estimate, variance, Seeded, n, Attribute(ms, information));
    }

    method Fuse(prior: real, ms: seq<Measurement>, n: nat) returns (report: Report)
      requires n == FusibleCount(ms) && estimate == Some(prior)
      modifies this
      ensures (State(), report) == FuseWith(old(State()), prior, ms)
    {
      var priorInformation := if variance.Finite? && variance.r > 0.0 then 1.0 / variance.r else 0.0;
      assert priorInformation == PriorInformation(State());
      var information, weighted := Accumulate(ms, priorInformation, priorInformation * prior);
      if information <= 0.0 {
        return Report(Some(prior), variance, Carried, 0, Attribute(ms, 0.0));
      }
      var value := Mean(weighted, information);
      estimate, variance := Some(value), Finite(1.0 / information);
      AbsorbAll(ms);
      report := Report(estimate, variance, Fused, n, Attribute(ms, information));
    }

    method Reseed(fast: real, innovationFrac: real, ms: seq<Measurement>, n: nat) returns (report: Report)
      requires n == FusibleCount(ms)
      modifies this
      ensures (State(), report) == ReseedTo(old(State()), fast, innovationFrac, ms)
    {
      var information, _ := Accumulate(ms, 0.0, 0.0);
      estimate := Some(fast);
      if information > 0.0 {
        variance := Finite(1.0 / information);
      }
      AbsorbAll(ms);
      report := Report(estimate, variance, Reseeded(innovationFrac), n, Attribute(ms, information));
    }
  }

  /** Sum the information and the pull of what may be fused, from given totals. */
  method Accumulate(ms: seq<Measurement>, information: real, weighted: real) returns (i: real, w: real)
    ensures i == information + Information(ms) && w == weighted + Weighted(ms)
  {
    hide Precision, Pull;
    i, w := information, weighted;
    for k := 0 to |ms|
      invariant i == information + Information(ms[..k]) && w == weighted + Weighted(ms[..k])
    {
      assert ms[..k + 1][..k] == ms[..k];
      if Fusible(ms[k]) {
        i, w := i + Precision(ms[k]), w + Pull(ms[k]);
      }
    }
    assert ms[..|ms|] == ms;
  }
}
