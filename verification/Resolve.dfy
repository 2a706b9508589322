/** The resolver in the code's own form: fills, a ranked copy and running
    maxima, against the resolution they compute. */
module Resolve {
  import opened Wrappers
  import opened Readings
  import opened Consensus

  lemma {:induction false} TrustedOnlyGrow(cs: seq<Candidate>, i: nat)
    requires i <= |cs|
    ensures |TrustedOf(cs[..i])| <= |TrustedOf(cs)|
    decreases |cs| - i
  {
    if i < |cs| {
      assert cs[..i + 1][..i] == cs[..i];
      TrustedOnlyGrow(cs, i + 1);
    } else {
      assert cs[..i] == cs;
    }
  }

  /** The single designated candidate, giving up at the second. */
  method FindLoneTrusted(cs: seq<Candidate>) returns (found: Option<Candidate>)
    ensures found == LoneTrusted(cs)
  {
    found := None;
    for i := 0 to |cs|
      invariant TrustedOf(cs[..i]) == if found.Some? then [found.value] else []
    {
      assert cs[..i + 1][..i] == cs[..i];
      if cs[i].trusted {
        if found.Some? {
          TrustedOnlyGrow(cs, i + 1);
          return None;
        }
        found := Some(cs[i]);
      }
    }
    assert cs[..|cs|] == cs;
  }

  method Summarize(cs: seq<Candidate>, value: real) returns (r: Reading)
    ensures r == Representative(cs, value)
  {
    var age: nat, confidence := 0, None;
    for i := 0 to |cs|
      invariant age == OldestAge(cs[..i]) && confidence == WidestConfidence(cs[..i])
    {
      assert cs[..i + 1][..i] == cs[..i];
      if cs[i].reading.age > age {
        age := cs[i].reading.age;
      }
      var conf := cs[i].reading.confidence;
      if conf.Some? {
        confidence := Some(if confidence.None? || confidence.value < conf.value then conf.value else confidence.value);
      }
    }
    assert cs[..|cs|] == cs;
    r := Reading(Finite(value), age, confidence);
  }

  method FillHealthy(slots: Candidates, stale: LegStaleness) returns (all: seq<Candidate>)
    ensures all == HealthyOf(slots, stale)
  {
    hide AllValid;
    all := [];
    for i := 0 to |slots|
      invariant all == HealthyOf(slots[..i], stale)
    {
      assert slots[..i + 1][..i] == slots[..i];
      if slots[i].reading.Fresh(stale.ForClass(slots[i].class_)) {
        all := all + [slots[i]];
      }
    }
    assert slots[..|slots|] == slots;
  }

  method FillFast(all: seq<Candidate>) returns (fast: seq<Candidate>)
    ensures fast == FastOf(all)
  {
    hide AllValid;
    var anyFast := AnyTape(all);
    fast := [];
    for i := 0 to |all|
      invariant fast == if anyFast then TapesOf(all[..i]) else all[..i]
    {
      assert all[..i + 1][..i] == all[..i];
      if !anyFast || all[i].class_.Tape? {
        fast := fast + [all[i]];
      }
    }
    assert all[..|all|] == all;
  }

  /** The resolver as the code runs it: three collecting passes, then one arm per
      size of the judged set. */
  method Resolve(slots: Candidates, stale: LegStaleness, dispersionFrac: real) returns (r: Consensus)
    ensures r == Resolution(slots, stale, dispersionFrac)
  {
    hide HealthyOf, TapesOf, TrustedOf, Ranked, Furthest, PartnerOf, OldestAge, WidestConfidence;
    var all := FillHealthy(slots, stale);
    var healthy := FillFast(all);
    var n := |healthy|;
    if n == 0 {
      return Consensus(None, Absent, [], None, 0, all);
    }
    var first := healthy[0];
    if n == 1 {
      return Consensus(Some(first.reading), if first.trusted then SingleTrusted else SingleUnverified,
                       [Credit(first, 1.0)], None, 1, all);
    }
    // A copy is ranked; the set itself keeps offer order, which ties fall back on.
    var ranked := Ranked(healthy);
    var consensus := Median(ranked);
    var spread := V(ranked[n - 1]) - V(ranked[0]);
    var dispersed := consensus > 0.0 && spread / consensus > dispersionFrac;
    var trusted := FindLoneTrusted(healthy);
    var outlier: Option<string> := None;
    if dispersed {
      outlier := Some(if n == 2 && trusted.Some? then PartnerOf(healthy, trusted.value.source)
                      else Furthest(healthy, consensus).source);
    }
    var anchor := if trusted.Some? && outlier != Some(trusted.value.source) then trusted else None;
    AnchorIsMember(healthy, dispersionFrac);
    assert anchor == AnchorOf(healthy, dispersionFrac);
    var reading: Option<Reading>, contributors: seq<Contributor> := None, [];
    if anchor.Some? {
      var c := anchor.value;
      var summary := Summarize([c], V(c));
      reading, contributors := Some(summary), [Credit(c, 1.0)];
    } else if !(dispersed && n == 2) {
      var summary := Summarize(healthy, consensus);
      reading, contributors := Some(summary), MiddleOf(ranked);
    }
    var state := if dispersed then Dispersed else if n >= 3 then Corroborated else Agreed;
    r := Consensus(reading, state, contributors, outlier, n, all);
  }
}
