/** How the candidates offered for a leg become one reading. */
module Consensus {
  import opened Wrappers
  import opened Readings

  const MAX_CANDIDATES: nat := 8

  datatype SourceClass = Tape | Reference

  datatype LegStaleness = LegStaleness(tape: nat, reference: nat) {
    function ForClass(c: SourceClass): nat {
      if c.Tape? then tape else reference
    }
  }

  datatype Candidate = Candidate(source: string, reading: Reading, class_: SourceClass, trusted: bool)

  /** The offered slots, filled from the front. */
  type Candidates = s: seq<Candidate> | |s| <= MAX_CANDIDATES

  function With(slots: Candidates, c: Option<Candidate>): Candidates {
    if c.Some? && |slots| < MAX_CANDIDATES then slots + [c.value] else slots
  }

  function PushReference(slots: Candidates, source: string, reading: Option<Reading>): Candidates {
    With(slots, if reading.None? then None else Some(Candidate(source, reading.value, Reference, false)))
  }

  datatype ConsensusState = Absent | Corroborated | Agreed | SingleTrusted | SingleUnverified | Dispersed

  datatype Contributor = Contributor(source: string, weight: real, age: nat)

  datatype Consensus = Consensus(
    reading: Option<Reading>, state: ConsensusState, contributors: seq<Contributor>, outlier: Option<string>, n: nat,
    healthy: seq<Candidate>)

  // ----------------------------------------------------------- the fast set

  predicate Healthy(c: Candidate, stale: LegStaleness) {
    c.reading.Fresh(stale.ForClass(c.class_))
  }

  function HealthyOf(slots: seq<Candidate>, stale: LegStaleness): (all: seq<Candidate>)
    ensures |all| <= |slots|
    ensures AllValid(all)
  {
    if slots == [] then []
    else
      var n := |slots| - 1;
      HealthyOf(slots[..n], stale) + (if Healthy(slots[n], stale) then [slots[n]] else [])
  }

  function TapesOf(all: seq<Candidate>): (tapes: seq<Candidate>)
    ensures |tapes| <= |all|
    ensures AllValid(all) ==> AllValid(tapes)
  {
    if all == [] then []
    else
      var n := |all| - 1;
      TapesOf(all[..n]) + (if all[n].class_.Tape? then [all[n]] else [])
  }

  predicate AnyTape(all: seq<Candidate>) {
    exists c :: c in all && c.class_.Tape?
  }

  /** Tapes where any answered, else every healthy source. */
  function FastOf(all: seq<Candidate>): (fast: seq<Candidate>)
    ensures AllValid(all) ==> AllValid(fast)
  {
    if AnyTape(all) then TapesOf(all) else all
  }

  predicate AllValid(cs: seq<Candidate>) {
    forall c :: c in cs ==> c.reading.Valid()
  }

  function V(c: Candidate): real
    requires c.reading.Valid()
  {
    c.reading.value.r
  }

  // --------------------------------------------------------------- ranking

  /** Place a candidate after every one of no greater value. */
  function Place(ranked: seq<Candidate>, c: Candidate): (r: seq<Candidate>)
    requires AllValid(ranked) && c.reading.Valid()
    ensures multiset(r) == multiset(ranked) + multiset{c} && AllValid(r) && |r| == |ranked| + 1
  {
    if ranked == [] then [c]
    else
      var n := |ranked| - 1;
      assert ranked == ranked[..n] + [ranked[n]];
      if V(ranked[n]) <= V(c) then
        assert AllValid(ranked + [c]) by { ValidConcat(ranked, [c]); }
        ranked + [c]
      else
        assert AllValid(ranked[..n]);
        var r := Place(ranked[..n], c);
        assert AllValid(r + [ranked[n]]) by { ValidConcat(r, [ranked[n]]); }
        r + [ranked[n]]
  }

  lemma ValidConcat(a: seq<Candidate>, b: seq<Candidate>)
    requires AllValid(a) && AllValid(b)
    ensures AllValid(a + b)
  {
  }

  /** The stable sort by value. */
  function Ranked(cs: seq<Candidate>): (r: seq<Candidate>)
    requires AllValid(cs)
    ensures multiset(r) == multiset(cs) && AllValid(r) && |r| == |cs|
  {
    if cs == [] then []
    else
      var n := |cs| - 1;
      assert cs == cs[..n] + [cs[n]];
      Place(Ranked(cs[..n]), cs[n])
  }

  ghost predicate Rising(cs: seq<Candidate>)
    requires AllValid(cs)
  {
    forall i, j :: 0 <= i < j < |cs| ==> V(cs[i]) <= V(cs[j])
  }

  ghost predicate AllAtMost(cs: seq<Candidate>, v: real)
    requires AllValid(cs)
  {
    forall c :: c in cs ==> V(c) <= v
  }

  lemma RisesWith(cs: seq<Candidate>, c: Candidate)
    requires AllValid(cs) && c.reading.Valid() && Rising(cs) && AllAtMost(cs, V(c))
    ensures AllValid(cs + [c]) && Rising(cs + [c])
  {
  }

  lemma LastIsLargest(cs: seq<Candidate>)
    requires cs != [] && AllValid(cs) && Rising(cs)
    ensures AllAtMost(cs, V(cs[|cs| - 1]))
  {
  }

  lemma {:induction false} PlaceRises(ranked: seq<Candidate>, c: Candidate)
    requires AllValid(ranked) && c.reading.Valid() && Rising(ranked)
    ensures Rising(Place(ranked, c))
  {
    if ranked != [] {
      var n := |ranked| - 1;
      LastIsLargest(ranked);
      assert AllValid(ranked[..n]) && Rising(ranked[..n]);
      hide Rising;
      if V(ranked[n]) <= V(c) {
        RisesWith(ranked, c);
      } else {
        var r := Place(ranked[..n], c);
        PlaceRises(ranked[..n], c);
        forall d | d in r ensures V(d) <= V(ranked[n]) {
          PlaceMembers(ranked[..n], c, d);
        }
        RisesWith(r, ranked[n]);
      }
    }
  }

  lemma PlaceMembers(ranked: seq<Candidate>, c: Candidate, d: Candidate)
    requires AllValid(ranked) && c.reading.Valid()
    ensures d in Place(ranked, c) <==> d in ranked || d == c
  {
  }

  lemma {:induction false} RankedRises(cs: seq<Candidate>)
    requires AllValid(cs)
    ensures Rising(Ranked(cs))
  {
    if cs != [] {
      RankedRises(cs[..|cs| - 1]);
      PlaceRises(Ranked(cs[..|cs| - 1]), cs[|cs| - 1]);
    }
  }

  lemma SameMembers(a: seq<Candidate>, b: seq<Candidate>, c: Candidate)
    requires multiset(a) == multiset(b)
    ensures c in a <==> c in b
  {
    assert c in a <==> c in multiset(a);
    assert c in b <==> c in multiset(b);
  }

  // ------------------------------------------------------------ the verdict

  /** The middle of a ranking, or the mean of the two. */
  function Median(ranked: seq<Candidate>): real
    requires ranked != [] && AllValid(ranked)
  {
    var n := |ranked|;
    if n % 2 == 1 then V(ranked[n / 2]) else (V(ranked[n / 2 - 1]) + V(ranked[n / 2])) / 2.0
  }

  function Credit(c: Candidate, weight: real): Contributor {
    Contributor(c.source, weight, c.reading.age)
  }

  function MiddleOf(ranked: seq<Candidate>): seq<Contributor>
    requires ranked != []
  {
    var n := |ranked|;
    if n % 2 == 1 then [Credit(ranked[n / 2], 1.0)]
    else [Credit(ranked[n / 2 - 1], 0.5), Credit(ranked[n / 2], 0.5)]
  }

  function TrustedOf(cs: seq<Candidate>): seq<Candidate> {
    if cs == [] then []
    else
      var n := |cs| - 1;
      TrustedOf(cs[..n]) + (if cs[n].trusted then [cs[n]] else [])
  }

  /** The designated source, when there is exactly one. */
  function LoneTrusted(cs: seq<Candidate>): Option<Candidate> {
    var t := TrustedOf(cs);
    if |t| == 1 then Some(t[0]) else None
  }

  /** The first source of another name. */
  function PartnerOf(cs: seq<Candidate>, source: string): string {
    if cs == [] then source
    else if cs[0].source != source then cs[0].source
    else PartnerOf(cs[1..], source)
  }

  function Distance(c: Candidate, from: real): real
    requires c.reading.Valid()
  {
    if V(c) >= from then V(c) - from else from - V(c)
  }

  /** At equal distance the untrusted source is the further. */
  predicate Nearer(a: Candidate, b: Candidate, from: real)
    requires a.reading.Valid() && b.reading.Valid()
  {
    Distance(a, from) < Distance(b, from) || (Distance(a, from) == Distance(b, from) && a.trusted && !b.trusted)
  }

  /** The furthest, the last of equals. */
  function Furthest(cs: seq<Candidate>, from: real): (c: Candidate)
    requires cs != [] && AllValid(cs)
    ensures c in cs
  {
    var n := |cs| - 1;
    if n == 0 then cs[0]
    else
      assert AllValid(cs[..n]);
      var best := Furthest(cs[..n], from);
      if Nearer(cs[n], best, from) then best else cs[n]
  }

  function OldestAge(cs: seq<Candidate>): nat {
    if cs == [] then 0
    else
      var n := |cs| - 1;
      var rest := OldestAge(cs[..n]);
      if cs[n].reading.age > rest then cs[n].reading.age else rest
  }

  function WidestConfidence(cs: seq<Candidate>): Option<real> {
    if cs == [] then None
    else
      var n := |cs| - 1;
      Wider(WidestConfidence(cs[..n]), cs[n].reading.confidence)
  }

  function Wider(a: Option<real>, b: Option<real>): Option<real> {
    if b.None? then a
    else if a.None? || a.value < b.value then b
    else a
  }

  function Representative(cs: seq<Candidate>, value: real): Reading {
    Reading(Finite(value), OldestAge(cs), WidestConfidence(cs))
  }

  /** The judged set's spread exceeds the band. */
  predicate IsDispersed(ranked: seq<Candidate>, frac: real)
    requires ranked != [] && AllValid(ranked)
  {
    Median(ranked) > 0.0 && (V(ranked[|ranked| - 1]) - V(ranked[0])) / Median(ranked) > frac
  }

  function OutlierOf(fast: seq<Candidate>): string
    requires |fast| >= 2 && AllValid(fast)
  {
    var trusted := LoneTrusted(fast);
    if |fast| == 2 && trusted.Some? then PartnerOf(fast, trusted.value.source)
    else Furthest(fast, Median(Ranked(fast))).source
  }

  /** The designated source, unless it is the one the dispersion names. */
  function AnchorOf(fast: seq<Candidate>, frac: real): Option<Candidate>
    requires |fast| >= 2 && AllValid(fast)
  {
    var trusted := LoneTrusted(fast);
    if trusted.Some? && IsDispersed(Ranked(fast), frac) && OutlierOf(fast) == trusted.value.source then None else trusted
  }

  function Judge(fast: seq<Candidate>, frac: real, healthy: seq<Candidate>): Consensus
    requires AllValid(fast)
  {
    if fast == [] then Consensus(None, Absent, [], None, 0, healthy)
    else if |fast| == 1 then
      Consensus(Some(fast[0].reading), if fast[0].trusted then SingleTrusted else SingleUnverified,
                [Credit(fast[0], 1.0)], None, 1, healthy)
    else
      var ranked := Ranked(fast);
      var dispersed := IsDispersed(ranked, frac);
      var anchor := AnchorOf(fast, frac);
      var n := |fast|;
      var state := if dispersed then Dispersed else if n >= 3 then Corroborated else Agreed;
      var outlier := if dispersed then Some(OutlierOf(fast)) else None;
      match anchor
      case Some(c) =>
        assert AllValid([c]) by { AnchorIsMember(fast, frac); }
        Consensus(Some(Representative([c], V(c))), state, [Credit(c, 1.0)], outlier, n, healthy)
      case None =>
        if dispersed && n == 2 then Consensus(None, state, [], outlier, n, healthy)
        else Consensus(Some(Representative(fast, Median(ranked))), state, MiddleOf(ranked), outlier, n, healthy)
  }

  lemma {:induction false} TrustedMembers(cs: seq<Candidate>, c: Candidate)
    ensures c in TrustedOf(cs) <==> c in cs && c.trusted
  {
    if cs != [] {
      var n := |cs| - 1;
      assert cs == cs[..n] + [cs[n]];
      TrustedMembers(cs[..n], c);
    }
  }

  lemma AnchorIsMember(fast: seq<Candidate>, frac: real)
    requires |fast| >= 2 && AllValid(fast)
    ensures AnchorOf(fast, frac).Some? ==> AnchorOf(fast, frac).value in fast && AnchorOf(fast, frac).value.trusted
  {
    var t := TrustedOf(fast);
    if |t| == 1 {
      TrustedMembers(fast, t[0]);
    }
  }

  function Resolution(slots: seq<Candidate>, stale: LegStaleness, frac: real): Consensus {
    var all := HealthyOf(slots, stale);
    Judge(FastOf(all), frac, all)
  }
}
