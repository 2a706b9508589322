/** Runs of the filter: absorption clocks, and variance between commits. */
module FusionRuns {
  import opened Wrappers
  import opened Readings
  import opened Consensus
  import opened Fusion
  import opened FusionLaws

  /** The filter after a life of ticks. */
  function After(cfg: FusionConfig, ts: seq<Tick>): Filter {
    if ts == [] then Unseeded else Updated(cfg, After(cfg, ts[..|ts| - 1]), ts[|ts| - 1]).0
  }

  /** What its last tick did. */
  function LastStep(cfg: FusionConfig, ts: seq<Tick>): Step
    requires ts != []
  {
    Updated(cfg, After(cfg, ts[..|ts| - 1]), ts[|ts| - 1]).1.step
  }

  lemma {:induction false} AfterIsSound(cfg: FusionConfig, ts: seq<Tick>)
    ensures Sound(After(cfg, ts))
  {
    hide Updated;
    if ts != [] {
      AfterIsSound(cfg, ts[..|ts| - 1]);
      UpdateKeepsSound(cfg, After(cfg, ts[..|ts| - 1]), ts[|ts| - 1]);
    }
  }

  // ------------------------------------------------------------------ clocks

  /** A reference reading of this source is among the fusible ones. */
  predicate TakesIn(ms: seq<Measurement>, source: string) {
    exists m: Measurement :: m in ms && Fusible(m) && m.candidate.class_.Reference? && m.candidate.source == source
  }

  /** The last tick committed, and took in this reference source. */
  predicate AbsorbsLast(cfg: FusionConfig, ts: seq<Tick>, source: string)
    requires ts != []
  {
    && !LastStep(cfg, ts).Carried?
    && TakesIn(Taken(cfg, After(cfg, ts[..|ts| - 1]), ts[|ts| - 1]), source)
  }

  function RefNamesOf(cs: seq<Candidate>): set<string> {
    if cs == [] then {}
    else RefNamesOf(cs[..|cs| - 1]) + (if cs[|cs| - 1].class_.Reference? then {cs[|cs| - 1].source} else {})
  }

  /** Every name a reference has been offered under. */
  function RefNames(ts: seq<Tick>): set<string> {
    if ts == [] then {} else RefNames(ts[..|ts| - 1]) + RefNamesOf(ts[|ts| - 1].healthy)
  }

  ghost predicate Names(absorbed: seq<Absorbed>, names: set<string>) {
    forall a :: a in absorbed ==> a.source in names
  }

  ghost predicate OneClockEach(absorbed: seq<Absorbed>) {
    forall i, j :: 0 <= i < j < |absorbed| ==> absorbed[i].source != absorbed[j].source
  }

  lemma {:induction false} ClockPresent(absorbed: seq<Absorbed>, source: string)
    ensures ClockOf(absorbed, source).Some? <==> exists a :: a in absorbed && a.source == source
  {
    if absorbed != [] {
      ClockPresent(absorbed[1..], source);
      assert absorbed == [absorbed[0]] + absorbed[1..];
      assert absorbed[0] in absorbed;
    }
  }

  lemma {:induction false} AgedClocks(absorbed: seq<Absorbed>, dt: nat, source: string)
    ensures var c := ClockOf(absorbed, source);
            ClockOf(Aged(absorbed, dt), source) == if c.Some? then Some(c.value + dt) else None
  {
    if absorbed != [] {
      AgedClocks(absorbed[1..], dt, source);
      assert Aged(absorbed, dt)[1..] == Aged(absorbed[1..], dt);
    }
  }

  lemma {:induction false} AgedNames(absorbed: seq<Absorbed>, dt: nat)
    ensures forall i :: 0 <= i < |absorbed| ==> Aged(absorbed, dt)[i].source == absorbed[i].source
  {
    if absorbed != [] {
      AgedNames(absorbed[1..], dt);
      forall i | 0 <= i < |absorbed| ensures Aged(absorbed, dt)[i].source == absorbed[i].source {
        assert i > 0 ==> absorbed[1..][i - 1] == absorbed[i];
      }
    }
  }

  lemma {:induction false} RestartedNames(absorbed: seq<Absorbed>, source: string)
    ensures |Restarted(absorbed, source)| == |absorbed|
    ensures forall i :: 0 <= i < |absorbed| ==> Restarted(absorbed, source)[i].source == absorbed[i].source
  {
    if absorbed != [] {
      RestartedNames(absorbed[1..], source);
      forall i | 0 <= i < |absorbed| ensures Restarted(absorbed, source)[i].source == absorbed[i].source {
        assert i > 0 ==> absorbed[1..][i - 1] == absorbed[i];
      }
    }
  }

  lemma {:induction false} RestartedClocks(absorbed: seq<Absorbed>, source: string, other: string)
    ensures ClockOf(Restarted(absorbed, source), other) ==
            if other == source && ClockOf(absorbed, source).Some? then Some(0) else ClockOf(absorbed, other)
  {
    if absorbed != [] {
      var r := Restarted(absorbed, source);
      RestartedClocks(absorbed[1..], source, other);
      if absorbed[0].source == source {
        assert r[1..] == absorbed[1..];
      } else {
        assert r[1..] == Restarted(absorbed[1..], source);
      }
    }
  }

  lemma {:induction false} AppendedClocks(absorbed: seq<Absorbed>, source: string, other: string)
    requires ClockOf(absorbed, source).None?
    ensures ClockOf(absorbed + [Absorbed(source, 0)], other) == if other == source then Some(0) else ClockOf(absorbed, other)
  {
    var r := absorbed + [Absorbed(source, 0)];
    if absorbed == [] {
      assert r[1..] == [];
    } else {
      AppendedClocks(absorbed[1..], source, other);
      assert r[1..] == absorbed[1..] + [Absorbed(source, 0)];
    }
  }

  /** With room to spare, marking one source touches no other clock. */
  lemma MarkedClocks(absorbed: seq<Absorbed>, source: string, other: string)
    requires ClockOf(absorbed, source).Some? || |absorbed| < MAX_CANDIDATES
    ensures ClockOf(MarkAbsorbed(absorbed, source), other) == if other == source then Some(0) else ClockOf(absorbed, other)
  {
    if ClockOf(absorbed, source).Some? {
      RestartedClocks(absorbed, source, other);
    } else {
      AppendedClocks(absorbed, source, other);
    }
  }

  /** Only throttled names enter the table, even by eviction. */
  lemma MarkedNames(absorbed: seq<Absorbed>, source: string, names: set<string>)
    requires Names(absorbed, names) && source in names
    ensures Names(MarkAbsorbed(absorbed, source), names)
    ensures OneClockEach(absorbed) ==> OneClockEach(MarkAbsorbed(absorbed, source))
  {
    hide Restarted, ClockOf, Stalest;
    var r := MarkAbsorbed(absorbed, source);
    ClockPresent(absorbed, source);
    RestartedNames(absorbed, source);
    forall a | a in r ensures a.source in names {
      var i :| 0 <= i < |r| && r[i] == a;
      assert i < |absorbed| ==> absorbed[i] in absorbed;
    }
    if OneClockEach(absorbed) {
      forall i, j | 0 <= i < j < |r| ensures r[i].source != r[j].source {
        assert i < |absorbed| ==> absorbed[i] in absorbed;
        assert j < |absorbed| ==> absorbed[j] in absorbed;
      }
    }
  }

  /** A table of names has no more clocks than there are names. */
  lemma {:induction false} ClocksFit(absorbed: seq<Absorbed>, names: set<string>)
    requires OneClockEach(absorbed) && Names(absorbed, names)
    ensures |absorbed| <= |names|
  {
    if absorbed != [] {
      var n := |absorbed| - 1;
      assert absorbed[n] in absorbed;
      forall a | a in absorbed[..n] ensures a.source in names - {absorbed[n].source} {
        assert a in absorbed;
      }
      ClocksFit(absorbed[..n], names - {absorbed[n].source});
    }
  }

  /** So there is room for one of them not yet in it. */
  lemma RoomForOne(absorbed: seq<Absorbed>, source: string, names: set<string>)
    requires TableOk(absorbed, names) && source in names && |names| <= MAX_CANDIDATES
    ensures ClockOf(absorbed, source).Some? || |absorbed| < MAX_CANDIDATES
  {
    hide ClockOf;
    ClockPresent(absorbed, source);
    if ClockOf(absorbed, source).None? {
      ClocksFit(absorbed + [Absorbed(source, 0)], names);
    }
  }

  lemma {:induction false} SubsetCount(a: set<string>, b: set<string>)
    requires a <= b
    ensures |a| <= |b|
  {
    if a != {} {
      var x :| x in a;
      SubsetCount(a - {x}, b - {x});
    }
  }

  /** The names a table may hold, and no name twice. */
  ghost predicate TableOk(absorbed: seq<Absorbed>, names: set<string>) {
    Names(absorbed, names) && OneClockEach(absorbed)
  }

  ghost predicate RefsIn(ms: seq<Measurement>, names: set<string>) {
    forall m: Measurement :: m in ms && m.candidate.class_.Reference? ==> m.candidate.source in names
  }

  lemma {:induction false} AbsorbedTable(absorbed: seq<Absorbed>, ms: seq<Measurement>, names: set<string>)
    requires TableOk(absorbed, names) && RefsIn(ms, names)
    ensures TableOk(AbsorbThrottled(absorbed, ms), names)
  {
    hide MarkAbsorbed;
    if ms != [] {
      var n := |ms| - 1;
      assert ms == ms[..n] + [ms[n]];
      assert ms[n] in ms;
      assert RefsIn(ms[..n], names);
      AbsorbedTable(absorbed, ms[..n], names);
      if Fusible(ms[n]) && Throttled(ms[n].candidate.class_) {
        MarkedNames(AbsorbThrottled(absorbed, ms[..n]), ms[n].candidate.source, names);
      }
    }
  }

  /** A commit restarts the clock of each reference it took in, and no other. */
  lemma {:induction false} AbsorbedClocks(absorbed: seq<Absorbed>, ms: seq<Measurement>, names: set<string>, source: string)
    requires TableOk(absorbed, names) && RefsIn(ms, names) && |names| <= MAX_CANDIDATES
    ensures ClockOf(AbsorbThrottled(absorbed, ms), source) == if TakesIn(ms, source) then Some(0) else ClockOf(absorbed, source)
  {
    hide MarkAbsorbed, ClockOf;
    if ms != [] {
      var n := |ms| - 1;
      var m := ms[n];
      assert ms == ms[..n] + [m];
      assert m in ms;
      assert RefsIn(ms[..n], names);
      AbsorbedClocks(absorbed, ms[..n], names, source);
      AbsorbedTable(absorbed, ms[..n], names);
      if Fusible(m) && Throttled(m.candidate.class_) {
        RoomForOne(AbsorbThrottled(absorbed, ms[..n]), m.candidate.source, names);
        MarkedClocks(AbsorbThrottled(absorbed, ms[..n]), m.candidate.source, source);
      }
      TakesInOneMore(ms, source);
    }
  }

  lemma TakesInOneMore(ms: seq<Measurement>, source: string)
    requires ms != []
    ensures var m := ms[|ms| - 1];
            TakesIn(ms, source) <==>
            TakesIn(ms[..|ms| - 1], source) || (Fusible(m) && m.candidate.class_.Reference? && m.candidate.source == source)
  {
  }

  lemma {:induction false} MeasuredNames(cfg: FusionConfig, absorbed: seq<Absorbed>, cs: seq<Candidate>, fast: Option<Num>, band: Num)
    ensures RefsIn(Measurements(cfg, absorbed, cs, fast, band), RefNamesOf(cs))
  {
    hide Admits, IsNewObservation, MeasurementVariance;
    if cs != [] {
      MeasuredNames(cfg, absorbed, cs[..|cs| - 1], fast, band);
    }
  }

  lemma {:induction false} FewerNames(cs: seq<Candidate>, n: nat)
    requires n <= |cs|
    ensures RefNamesOf(cs[..n]) <= RefNamesOf(cs)
    decreases |cs|
  {
    if n < |cs| {
      FewerNames(cs[..|cs| - 1], n);
      assert cs[..|cs| - 1][..n] == cs[..n];
    } else {
      assert cs[..n] == cs;
    }
  }

  lemma TakenNames(cfg: FusionConfig, s: Filter, t: Tick)
    ensures RefsIn(Taken(cfg, s, t), RefNamesOf(t.healthy))
  {
    hide Measurements, RefNamesOf, Grown;
    MeasuredNames(cfg, Grown(cfg, s, t).absorbed, Seats(t.healthy), t.fast, t.band);
    if |t.healthy| > MAX_CANDIDATES {
      FewerNames(t.healthy, MAX_CANDIDATES);
    }
  }

  /** The table after an update: aged, and restarted where it committed. */
  lemma UpdatedTable(cfg: FusionConfig, s: Filter, t: Tick)
    ensures var (r, report) := Updated(cfg, s, t);
            r.absorbed == if report.step.Carried? then Aged(s.absorbed, t.dt)
                          else AbsorbThrottled(Aged(s.absorbed, t.dt), Taken(cfg, s, t))
  {
  }

  /** Tapes never occupy a clock: each is a reference's, and each one's once. */
  lemma {:induction false} ClocksAreReferences(cfg: FusionConfig, ts: seq<Tick>)
    ensures TableOk(After(cfg, ts).absorbed, RefNames(ts))
  {
    hide Updated, Taken, AbsorbThrottled, RefNamesOf;
    if ts != [] {
      var n := |ts| - 1;
      var s := After(cfg, ts[..n]);
      ClocksAreReferences(cfg, ts[..n]);
      UpdatedTable(cfg, s, ts[n]);
      AgedNames(s.absorbed, ts[n].dt);
      AgedOk(s.absorbed, ts[n].dt, RefNames(ts));
      TakenNames(cfg, s, ts[n]);
      AbsorbedTable(Aged(s.absorbed, ts[n].dt), Taken(cfg, s, ts[n]), RefNames(ts));
    }
  }

  lemma AgedOk(absorbed: seq<Absorbed>, dt: nat, names: set<string>)
    requires TableOk(absorbed, names)
    ensures TableOk(Aged(absorbed, dt), names)
  {
    AgedNames(absorbed, dt);
    forall a | a in Aged(absorbed, dt) ensures a.source in names {
      var i :| 0 <= i < |absorbed| && Aged(absorbed, dt)[i] == a;
      assert absorbed[i] in absorbed;
    }
  }

  /** Time since a source was last absorbed, read off the run. */
  function SinceLast(cfg: FusionConfig, ts: seq<Tick>, source: string): Option<nat> {
    if ts == [] then None
    else if AbsorbsLast(cfg, ts, source) then Some(0)
    else
      match SinceLast(cfg, ts[..|ts| - 1], source)
      case None => None
      case Some(c) => Some(c + ts[|ts| - 1].dt)
  }

  lemma {:induction false} MoreTicksMoreNames(ts: seq<Tick>)
    requires ts != []
    ensures RefNames(ts[..|ts| - 1]) <= RefNames(ts) && |RefNames(ts[..|ts| - 1])| <= |RefNames(ts)|
  {
    SubsetCount(RefNames(ts[..|ts| - 1]), RefNames(ts));
  }

  /** The clock the filter keeps is that time, while the reference names fit. */
  lemma {:induction false} ClockTells(cfg: FusionConfig, ts: seq<Tick>, source: string)
    requires |RefNames(ts)| <= MAX_CANDIDATES
    ensures ClockOf(After(cfg, ts).absorbed, source) == SinceLast(cfg, ts, source)
  {
    hide Updated, Taken, AbsorbThrottled, RefNamesOf, RefNames, ClockOf, TakesIn;
    if ts == [] {
      assert After(cfg, ts).absorbed == [];
      assert ClockOf([], source) == None by { NoClock(source); }
    } else {
      var n := |ts| - 1;
      var s := After(cfg, ts[..n]);
      MoreTicksMoreNames(ts);
      ClockTells(cfg, ts[..n], source);
      ClocksAreReferences(cfg, ts[..n]);
      NamesNow(ts);
      UpdatedTable(cfg, s, ts[n]);
      AgedOk(s.absorbed, ts[n].dt, RefNames(ts));
      AgedClocks(s.absorbed, ts[n].dt, source);
      TakenNames(cfg, s, ts[n]);
      if !LastStep(cfg, ts).Carried? {
        AbsorbedClocks(Aged(s.absorbed, ts[n].dt), Taken(cfg, s, ts[n]), RefNames(ts), source);
      }
    }
  }

  lemma NoClock(source: string)
    ensures ClockOf([], source) == None
  {
  }

  lemma NamesNow(ts: seq<Tick>)
    requires ts != []
    ensures RefNamesOf(ts[|ts| - 1].healthy) <= RefNames(ts)
  {
  }

  /** Summed `dt` of a stretch of ticks. */
  function Elapsed(ts: seq<Tick>): nat {
    if ts == [] then 0 else Elapsed(ts[..|ts| - 1]) + ts[|ts| - 1].dt
  }

  lemma {:induction false} ElapsedSince(cfg: FusionConfig, ts: seq<Tick>, i: nat, source: string)
    requires i < |ts| && AbsorbsLast(cfg, ts[..i + 1], source)
    ensures var c := SinceLast(cfg, ts, source); c.Some? && c.value <= Elapsed(ts[i + 1..])
    decreases |ts|
  {
    hide AbsorbsLast;
    var n := |ts| - 1;
    if i == n {
      assert ts[..i + 1] == ts;
    } else {
      assert ts[..n][..i + 1] == ts[..i + 1];
      ElapsedSince(cfg, ts[..n], i, source);
      assert ts[i + 1..][..|ts[i + 1..]| - 1] == ts[..n][i + 1..];
    }
  }

  lemma {:induction false} MeasuredIsNew(cfg: FusionConfig, absorbed: seq<Absorbed>, cs: seq<Candidate>, fast: Option<Num>, band: Num, m: Measurement)
    requires m in Measurements(cfg, absorbed, cs, fast, band) && Fusible(m)
    ensures IsNewObservation(cfg, absorbed, m.candidate)
  {
    if cs != [] && m in Measurements(cfg, absorbed, cs[..|cs| - 1], fast, band) {
      MeasuredIsNew(cfg, absorbed, cs[..|cs| - 1], fast, band, m);
    }
  }

  /** Absorb once per publication: two committed absorptions of one reference
      source are at least the publication interval of elapsed time apart. */
  lemma AbsorbedOncePerInterval(cfg: FusionConfig, ts: seq<Tick>, i: nat, j: nat, source: string)
    requires i < j < |ts| && |RefNames(ts[..j])| <= MAX_CANDIDATES
    requires AbsorbsLast(cfg, ts[..i + 1], source) && AbsorbsLast(cfg, ts[..j + 1], source)
    ensures Elapsed(ts[i + 1..j + 1]) >= cfg.referencePublishInterval
  {
    hide Measurements, RefNames, ClockOf, LastStep, Updated, SinceLast, Elapsed;
    var before, t := ts[..j], ts[j];
    var s := After(cfg, before);
    assert ts[..j + 1][..j] == before && before[..i + 1] == ts[..i + 1];
    ElapsedSince(cfg, before, i, source);
    ClockTells(cfg, before, source);
    AgedClocks(s.absorbed, t.dt, source);
    var m: Measurement :| m in Taken(cfg, s, t) && Fusible(m) && m.candidate.class_.Reference? && m.candidate.source == source;
    MeasuredIsNew(cfg, Grown(cfg, s, t).absorbed, Seats(t.healthy), t.fast, t.band, m);
    assert Grown(cfg, s, t).absorbed == Aged(s.absorbed, t.dt);
    ElapsedNext(ts, i + 1, j);
  }

  lemma ElapsedNext(ts: seq<Tick>, i: nat, j: nat)
    requires i <= j < |ts|
    ensures Elapsed(ts[i..j + 1]) == Elapsed(ts[..j][i..]) + ts[j].dt
  {
    assert ts[i..j + 1][..j - i] == ts[..j][i..];
  }

  // ------------------------------------------------------- carried stretches

  /** Every tick from `from` on carried. */
  predicate AllCarried(cfg: FusionConfig, ts: seq<Tick>, from: nat) {
    |ts| <= from || (LastStep(cfg, ts).Carried? && AllCarried(cfg, ts[..|ts| - 1], from))
  }

  /** Across ticks that carry, the estimate stands and its variance is the last
      committed one plus the drift over exactly the time elapsed. */
  lemma {:induction false} CarriedVariance(cfg: FusionConfig, ts: seq<Tick>, from: nat)
    requires from <= |ts| && AllCarried(cfg, ts, from)
    requires After(cfg, ts[..from]).estimate.Some?
    ensures var s, r := After(cfg, ts[..from]), After(cfg, ts);
      && r.estimate == s.estimate && s.variance.Finite? && r.variance.Finite?
      && r.variance.r == s.variance.r + Drift(cfg, s.estimate.value, Elapsed(ts[from..]))
    decreases |ts|
  {
    hide Updated, LastStep, Square, Grown, Drift, After;
    AfterIsSound(cfg, ts[..from]);
    var e := After(cfg, ts[..from]).estimate.value;
    if from == |ts| {
      assert ts[..from] == ts && ts[from..] == [];
      DriftAdds(cfg, e, 0, 0);
    } else {
      var n := |ts| - 1;
      var before := ts[..n];
      assert before[..from] == ts[..from];
      CarriedVariance(cfg, before, from);
      CarriedStep(cfg, ts);
      DriftAdds(cfg, e, Elapsed(before[from..]), ts[n].dt);
      assert Elapsed(ts[from..]) == Elapsed(before[from..]) + ts[n].dt by {
        assert ts[from..][..n - from] == before[from..];
      }
    }
  }

  lemma CarriedStep(cfg: FusionConfig, ts: seq<Tick>)
    requires ts != [] && LastStep(cfg, ts).Carried?
    ensures var s, r := After(cfg, ts[..|ts| - 1]), After(cfg, ts);
      && r.estimate == s.estimate
      && (s.estimate.Some? ==> s.variance.Finite? && r.variance == Finite(s.variance.r + Drift(cfg, s.estimate.value, ts[|ts| - 1].dt)))
  {
    hide Taken, AbsorbThrottled, Attribute, Information, Weighted, PastGate, FusibleCount, Grown, Mean, Square, Drift;
    AfterIsSound(cfg, ts[..|ts| - 1]);
    GrownIsSound(cfg, After(cfg, ts[..|ts| - 1]), ts[|ts| - 1]);
  }
}
