/** What a resolved leg is entitled to claim. */
module ConsensusLaws {
  import opened Wrappers
  import opened Readings
  import opened Consensus
  import opened Multisets

  /** No two candidates share a source name. */
  ghost predicate DistinctSources(cs: seq<Candidate>) {
    && (forall c, d :: c in cs && d in cs && c.source == d.source ==> c == d)
    && (forall c :: c in cs ==> multiset(cs)[c] == 1)
  }

  // ------------------------------------------------------ order is irrelevant

  lemma {:induction false} HealthyCounts(cs: seq<Candidate>, stale: LegStaleness, c: Candidate)
    ensures multiset(HealthyOf(cs, stale))[c] == if Healthy(c, stale) then multiset(cs)[c] else 0
  {
    if cs != [] {
      var n := |cs| - 1;
      assert cs == cs[..n] + [cs[n]];
      HealthyCounts(cs[..n], stale, c);
    }
  }

  lemma {:induction false} TapeCounts(cs: seq<Candidate>, c: Candidate)
    ensures multiset(TapesOf(cs))[c] == if c.class_.Tape? then multiset(cs)[c] else 0
  {
    if cs != [] {
      var n := |cs| - 1;
      assert cs == cs[..n] + [cs[n]];
      TapeCounts(cs[..n], c);
    }
  }

  lemma {:induction false} TrustedCounts(cs: seq<Candidate>, c: Candidate)
    ensures multiset(TrustedOf(cs))[c] == if c.trusted then multiset(cs)[c] else 0
  {
    if cs != [] {
      var n := |cs| - 1;
      assert cs == cs[..n] + [cs[n]];
      TrustedCounts(cs[..n], c);
    }
  }

  /** The fast set keeps each of its members as often as it was offered. */
  lemma FastCounts(cs: seq<Candidate>, stale: LegStaleness, c: Candidate)
    ensures multiset(FastOf(HealthyOf(cs, stale)))[c] ==
            if Healthy(c, stale) && (c.class_.Tape? || !AnyTape(HealthyOf(cs, stale))) then multiset(cs)[c] else 0
  {
    hide HealthyOf, TapesOf, Healthy;
    HealthyCounts(cs, stale, c);
    TapeCounts(HealthyOf(cs, stale), c);
  }

  lemma FastIsDistinct(cs: seq<Candidate>, stale: LegStaleness)
    requires DistinctSources(cs)
    ensures DistinctSources(FastOf(HealthyOf(cs, stale)))
  {
    hide HealthyOf, FastOf, Healthy, AnyTape;
    var fast := FastOf(HealthyOf(cs, stale));
    forall c | c in fast ensures c in cs && multiset(fast)[c] == 1 {
      FastCounts(cs, stale, c);
      assert c in multiset(fast);
      assert c in multiset(cs);
    }
  }

  lemma FastPermutes(a: seq<Candidate>, b: seq<Candidate>, stale: LegStaleness)
    requires multiset(a) == multiset(b)
    ensures multiset(FastOf(HealthyOf(a, stale))) == multiset(FastOf(HealthyOf(b, stale)))
  {
    hide HealthyOf, FastOf, Healthy;
    forall c ensures multiset(HealthyOf(a, stale))[c] == multiset(HealthyOf(b, stale))[c] {
      HealthyCounts(a, stale, c);
      HealthyCounts(b, stale, c);
    }
    assert multiset(HealthyOf(a, stale)) == multiset(HealthyOf(b, stale));
    forall c ensures c in HealthyOf(a, stale) <==> c in HealthyOf(b, stale) {
      SameMembers(HealthyOf(a, stale), HealthyOf(b, stale), c);
    }
    forall c ensures multiset(FastOf(HealthyOf(a, stale)))[c] == multiset(FastOf(HealthyOf(b, stale)))[c] {
      FastCounts(a, stale, c);
      FastCounts(b, stale, c);
    }
  }

  // ------------------------------------------------------------ the ranking

  function Values(cs: seq<Candidate>): (vs: seq<real>)
    requires AllValid(cs)
    ensures |vs| == |cs| && forall i :: 0 <= i < |cs| ==> vs[i] == V(cs[i])
  {
    if cs == [] then []
    else
      assert AllValid(cs[..|cs| - 1]);
      Values(cs[..|cs| - 1]) + [V(cs[|cs| - 1])]
  }

  lemma ValuesConcat(a: seq<Candidate>, b: seq<Candidate>)
    requires AllValid(a) && AllValid(b)
    ensures AllValid(a + b) && Values(a + b) == Values(a) + Values(b)
  {
  }

  lemma TakeOut(cs: seq<Candidate>, i: nat)
    requires i < |cs| && AllValid(cs)
    ensures AllValid(Without(cs, i))
    ensures multiset(Values(cs)) == multiset(Values(Without(cs, i))) + multiset{V(cs[i])}
  {
    hide Values, AllValid, V;
    PartsValid(cs, i);
    Middle(cs[..i], cs[i], cs[i + 1..]);
    Rejoined(cs, i);
  }

  lemma Rejoined(cs: seq<Candidate>, i: nat)
    requires i < |cs|
    ensures cs == cs[..i] + [cs[i]] + cs[i + 1..] && Without(cs, i) == cs[..i] + cs[i + 1..]
  {
  }

  lemma Middle(x: seq<Candidate>, c: Candidate, y: seq<Candidate>)
    requires AllValid(x) && AllValid(y) && c.reading.Valid() && AllValid([c]) && Values([c]) == [V(c)]
    ensures AllValid(x + y) && AllValid(x + [c] + y)
    ensures multiset(Values(x + [c] + y)) == multiset(Values(x + y)) + multiset{V(c)}
  {
    hide Values, AllValid, V;
    ThreeParts(x, [c], y);
    OutOfTheMiddle(Values(x), V(c), Values(y));
  }

  lemma PartsValid(cs: seq<Candidate>, i: nat)
    requires i < |cs| && AllValid(cs)
    ensures AllValid(cs[..i]) && AllValid([cs[i]]) && AllValid(cs[i + 1..])
    ensures cs[i].reading.Valid() && Values([cs[i]]) == [V(cs[i])]
  {
  }

  lemma ThreeParts(x: seq<Candidate>, c: seq<Candidate>, y: seq<Candidate>)
    requires AllValid(x) && AllValid(c) && AllValid(y)
    ensures AllValid(x + y) && Values(x + y) == Values(x) + Values(y)
    ensures AllValid(x + c + y) && Values(x + c + y) == Values(x) + Values(c) + Values(y)
  {
    hide Values, AllValid, V;
    ValuesConcat(x, y);
    ValuesConcat(x, c);
    ValuesConcat(x + c, y);
  }

  lemma OutOfTheMiddle(x: seq<real>, v: real, y: seq<real>)
    ensures multiset(x + [v] + y) == multiset(x + y) + multiset{v}
  {
  }

  lemma {:induction false} ValuesPermute(a: seq<Candidate>, b: seq<Candidate>)
    requires AllValid(a) && AllValid(b) && multiset(a) == multiset(b)
    ensures multiset(Values(a)) == multiset(Values(b))
    decreases |a|
  {
    hide Values;
    if a == [] {
      assert |multiset(b)| == 0;
      assert b == [];
    } else {
      var n := |a| - 1;
      var i := Peel(a, b);
      TakeOut(a, n);
      TakeOut(b, i);
      assert Without(a, n) == a[..n];
      ValuesPermute(a[..n], Without(b, i));
    }
  }

  ghost predicate RisingValues(vs: seq<real>) {
    forall i, j :: 0 <= i < j < |vs| ==> vs[i] <= vs[j]
  }

  lemma LastIsLargest(a: seq<real>, b: seq<real>)
    requires RisingValues(a) && b != [] && a != [] && multiset(a) == multiset(b)
    ensures b[|b| - 1] <= a[|a| - 1]
  {
    var x := b[|b| - 1];
    assert x in b;
    assert x in multiset(b);
    assert x in a;
    var j :| 0 <= j < |a| && a[j] == x;
  }

  lemma {:induction false} OneRising(a: seq<real>, b: seq<real>)
    requires RisingValues(a) && RisingValues(b) && multiset(a) == multiset(b)
    ensures a == b
  {
    assert |a| == |multiset(a)| == |multiset(b)| == |b|;
    if a != [] {
      var n := |a| - 1;
      LastIsLargest(a, b);
      LastIsLargest(b, a);
      assert a == a[..n] + [a[n]] && b == b[..n] + [b[n]];
      assert multiset(a) == multiset(a[..n]) + multiset{a[n]};
      assert multiset(b) == multiset(b[..n]) + multiset{b[n]};
      Cancel(multiset(a[..n]), multiset(b[..n]), a[n]);
      assert RisingValues(a[..n]) && RisingValues(b[..n]);
      OneRising(a[..n], b[..n]);
    }
  }

  /** The sorted values of a set do not depend on the order it was offered in. */
  lemma RankedValuesPermute(a: seq<Candidate>, b: seq<Candidate>)
    requires AllValid(a) && AllValid(b) && multiset(a) == multiset(b)
    ensures Values(Ranked(a)) == Values(Ranked(b))
  {
    hide Ranked, Values;
    RankedRises(a);
    RankedRises(b);
    ValuesPermute(Ranked(a), Ranked(b));
    assert RisingValues(Values(Ranked(a))) && RisingValues(Values(Ranked(b)));
    OneRising(Values(Ranked(a)), Values(Ranked(b)));
  }

  // ------------------------------------------------------------ the anchor

  /** The designated source is the only one designated. */
  lemma LoneTrustedIs(cs: seq<Candidate>, t: Candidate)
    requires DistinctSources(cs)
    ensures LoneTrusted(cs) == Some(t) <==> t in cs && t.trusted && forall c :: c in cs && c.trusted ==> c == t
  {
    hide TrustedOf;
    var ts := TrustedOf(cs);
    forall c ensures c in ts <==> c in cs && c.trusted {
      TrustedMembers(cs, c);
    }
    if |ts| >= 2 {
      assert ts[0] in ts && ts[1] in ts;
      if ts[0] == ts[1] {
        TwoAlike(ts);
        TrustedCounts(cs, ts[0]);
      }
    } else if |ts| == 1 {
      assert ts[0] in ts;
    }
  }

  lemma TwoAlike(cs: seq<Candidate>)
    requires |cs| >= 2 && cs[0] == cs[1]
    ensures multiset(cs)[cs[0]] >= 2
  {
    assert cs == [cs[0], cs[1]] + cs[2..];
  }

  lemma PairDiffers(cs: seq<Candidate>)
    requires |cs| == 2 && DistinctSources(cs)
    ensures cs[0] in cs && cs[1] in cs && cs[0] != cs[1] && cs[0].source != cs[1].source
  {
    if cs[0] == cs[1] {
      TwoAlike(cs);
    }
  }

  ghost predicate NoneFurther(cs: seq<Candidate>, best: Candidate, from: real)
    requires AllValid(cs) && best.reading.Valid()
  {
    forall c :: c in cs ==> !Nearer(best, c, from)
  }

  lemma {:induction false} FurthestIsFurthest(cs: seq<Candidate>, from: real)
    requires cs != [] && AllValid(cs)
    ensures NoneFurther(cs, Furthest(cs, from), from)
  {
    var n := |cs| - 1;
    assert cs == cs[..n] + [cs[n]];
    if n > 0 {
      assert AllValid(cs[..n]);
      FurthestIsFurthest(cs[..n], from);
    }
  }

  /** Every other source is strictly nearer. */
  ghost predicate StrictlyFurthest(cs: seq<Candidate>, t: Candidate, from: real)
    requires AllValid(cs) && t.reading.Valid()
  {
    forall c :: c in cs && c != t ==> Distance(c, from) < Distance(t, from)
  }

  lemma FurthestIsTrusted(cs: seq<Candidate>, t: Candidate, from: real)
    requires AllValid(cs) && DistinctSources(cs) && LoneTrusted(cs) == Some(t) && t in cs
    ensures Furthest(cs, from).source == t.source <==> StrictlyFurthest(cs, t, from)
  {
    hide Furthest, LoneTrusted;
    LoneTrustedIs(cs, t);
    FurthestIsFurthest(cs, from);
    var best := Furthest(cs, from);
    assert best.source == t.source <==> best == t;
    if best == t {
      forall c | c in cs && c != t ensures Distance(c, from) < Distance(t, from) {
        assert !Nearer(t, c, from);
      }
    } else {
      assert !Nearer(best, t, from);
    }
  }

  lemma {:induction false} PartnerIsAnother(cs: seq<Candidate>, source: string)
    requires exists c :: c in cs && c.source != source
    ensures PartnerOf(cs, source) != source
  {
    var c :| c in cs && c.source != source;
    if cs[0].source == source {
      assert c in cs[1..];
      PartnerIsAnother(cs[1..], source);
    }
  }

  /** A lone designation anchors its leg exactly unless the set is dispersed, has
      three or more members, and every other one is strictly nearer the median. */
  lemma AnchorIs(fast: seq<Candidate>, frac: real, t: Candidate)
    requires |fast| >= 2 && AllValid(fast) && DistinctSources(fast)
    ensures AnchorOf(fast, frac) == Some(t) <==>
      && LoneTrusted(fast) == Some(t) && t in fast
      && !(|fast| >= 3 && IsDispersed(Ranked(fast), frac) && StrictlyFurthest(fast, t, Median(Ranked(fast))))
  {
    hide Ranked, Median, IsDispersed, Furthest, LoneTrusted, PartnerOf, StrictlyFurthest;
    if LoneTrusted(fast) == Some(t) {
      LoneTrustedIs(fast, t);
      FurthestIsTrusted(fast, t, Median(Ranked(fast)));
      if |fast| == 2 {
        PairDiffers(fast);
        PartnerIsAnother(fast, t.source);
      }
    }
  }

  // ------------------------------------------------------ age and confidence

  ghost predicate Oldest(cs: seq<Candidate>, age: nat) {
    && (forall c :: c in cs ==> c.reading.age <= age)
    && (cs != [] ==> exists c :: c in cs && c.reading.age == age)
  }

  lemma {:induction false} OldestAgeIs(cs: seq<Candidate>)
    ensures Oldest(cs, OldestAge(cs))
  {
    if cs != [] {
      var n := |cs| - 1;
      assert cs == cs[..n] + [cs[n]];
      OldestAgeIs(cs[..n]);
      assert cs[n] in cs;
      if n > 0 {
        var c :| c in cs[..n] && c.reading.age == OldestAge(cs[..n]);
        assert c in cs;
      }
    }
  }

  ghost predicate Widest(cs: seq<Candidate>, confidence: Option<real>) {
    && (forall c :: c in cs && c.reading.confidence.Some? ==> confidence.Some? && c.reading.confidence.value <= confidence.value)
    && (confidence.Some? ==> exists c :: c in cs && c.reading.confidence == confidence)
  }

  lemma {:induction false} WidestConfidenceIs(cs: seq<Candidate>)
    ensures Widest(cs, WidestConfidence(cs))
  {
    if cs != [] {
      var n := |cs| - 1;
      assert cs == cs[..n] + [cs[n]];
      WidestConfidenceIs(cs[..n]);
      assert cs[n] in cs;
      if WidestConfidence(cs[..n]).Some? {
        var c :| c in cs[..n] && c.reading.confidence == WidestConfidence(cs[..n]);
        assert c in cs;
      }
    }
  }

  lemma RepresentativePermutes(a: seq<Candidate>, b: seq<Candidate>, value: real)
    requires multiset(a) == multiset(b)
    ensures Representative(a, value) == Representative(b, value)
  {
    hide OldestAge, WidestConfidence;
    forall c ensures c in a <==> c in b {
      SameMembers(a, b, c);
    }
    assert a == [] <==> b == [] by {
      assert |a| == |multiset(a)| && |b| == |multiset(b)|;
    }
    OldestAgeIs(a);
    OldestAgeIs(b);
    if a == [] {
      assert OldestAge(a) == OldestAge(b);
    } else {
      var c :| c in a && c.reading.age == OldestAge(a);
      var d :| d in b && d.reading.age == OldestAge(b);
    }
    WidestConfidenceIs(a);
    WidestConfidenceIs(b);
  }

  // ------------------------------------------------------------ permutation

  /** Dispersion and the median depend on the values alone. */
  lemma BandPermutes(a: seq<Candidate>, b: seq<Candidate>, frac: real)
    requires AllValid(a) && AllValid(b) && a != [] && multiset(a) == multiset(b)
    ensures |a| == |b|
    ensures Median(Ranked(a)) == Median(Ranked(b))
    ensures IsDispersed(Ranked(a), frac) == IsDispersed(Ranked(b), frac)
  {
    hide Ranked, Values, Median, IsDispersed;
    assert |a| == |multiset(a)| && |b| == |multiset(b)|;
    RankedValuesPermute(a, b);
    var r, s := Ranked(a), Ranked(b);
    forall i | 0 <= i < |a| ensures V(r[i]) == V(s[i]) {
      assert Values(r)[i] == Values(s)[i];
    }
    SameBand(r, s, frac);
  }

  lemma SameBand(r: seq<Candidate>, s: seq<Candidate>, frac: real)
    requires r != [] && |r| == |s| && AllValid(r) && AllValid(s)
    requires forall i :: 0 <= i < |r| ==> V(r[i]) == V(s[i])
    ensures Median(r) == Median(s) && IsDispersed(r, frac) == IsDispersed(s, frac)
  {
    hide V;
    var n := |r|;
    assert V(r[0]) == V(s[0]) && V(r[n - 1]) == V(s[n - 1]) && V(r[n / 2]) == V(s[n / 2]);
    if n % 2 == 0 {
      assert V(r[n / 2 - 1]) == V(s[n / 2 - 1]);
    }
    assert Median(r) == Median(s);
    hide Median;
  }

  lemma LoneTrustedPermutes(a: seq<Candidate>, b: seq<Candidate>)
    requires DistinctSources(a) && multiset(a) == multiset(b)
    ensures DistinctSources(b) && LoneTrusted(a) == LoneTrusted(b)
  {
    hide LoneTrusted;
    forall c ensures c in a <==> c in b {
      SameMembers(a, b, c);
    }
    if LoneTrusted(a).Some? {
      LoneTrustedIs(a, LoneTrusted(a).value);
      LoneTrustedIs(b, LoneTrusted(a).value);
    } else if LoneTrusted(b).Some? {
      LoneTrustedIs(a, LoneTrusted(b).value);
      LoneTrustedIs(b, LoneTrusted(b).value);
    }
  }

  lemma AnchorPermutes(a: seq<Candidate>, b: seq<Candidate>, frac: real)
    requires |a| >= 2 && AllValid(a) && AllValid(b) && DistinctSources(a) && multiset(a) == multiset(b)
    ensures |a| == |b| && AnchorOf(a, frac) == AnchorOf(b, frac)
  {
    hide Ranked, Median, IsDispersed, LoneTrusted, AnchorOf;
    BandPermutes(a, b, frac);
    LoneTrustedPermutes(a, b);
    forall c ensures c in a <==> c in b {
      SameMembers(a, b, c);
    }
    if AnchorOf(a, frac).Some? {
      AnchorIs(a, frac, AnchorOf(a, frac).value);
      AnchorIs(b, frac, AnchorOf(a, frac).value);
    } else if AnchorOf(b, frac).Some? {
      AnchorIs(a, frac, AnchorOf(b, frac).value);
      AnchorIs(b, frac, AnchorOf(b, frac).value);
    }
  }

  /** Which source anchors, none for a thin or a blended leg. */
  function Anchoring(slots: seq<Candidate>, stale: LegStaleness, frac: real): Option<Candidate> {
    var fast := FastOf(HealthyOf(slots, stale));
    if |fast| >= 2 then AnchorOf(fast, frac) else None
  }

  /** The order sources are offered in decides nothing a consumer prices from. */
  lemma OfferOrderIsIrrelevant(a: seq<Candidate>, b: seq<Candidate>, stale: LegStaleness, frac: real)
    requires DistinctSources(a) && multiset(a) == multiset(b)
    ensures var r, s := Resolution(a, stale, frac), Resolution(b, stale, frac);
      && r.reading == s.reading && r.state == s.state && r.n == s.n
      && (r.outlier.Some? <==> s.outlier.Some?) && multiset(r.healthy) == multiset(s.healthy)
    ensures Anchoring(a, stale, frac) == Anchoring(b, stale, frac)
  {
    hide HealthyOf, FastOf, Ranked, Median, IsDispersed, AnchorOf, OutlierOf, Representative, MiddleOf;
    var f, g := FastOf(HealthyOf(a, stale)), FastOf(HealthyOf(b, stale));
    FastPermutes(a, b, stale);
    FastIsDistinct(a, stale);
    forall c ensures multiset(HealthyOf(a, stale))[c] == multiset(HealthyOf(b, stale))[c] {
      HealthyCounts(a, stale, c);
      HealthyCounts(b, stale, c);
    }
    assert |f| == |multiset(f)| && |g| == |multiset(g)|;
    if |f| == 1 {
      assert f[0] in multiset(g);
    } else if |f| >= 2 {
      AnchorPermutes(f, g, frac);
      BandPermutes(f, g, frac);
      RepresentativePermutes(f, g, Median(Ranked(f)));
    }
  }

  // ------------------------------------------------- references beside a tape

  lemma TapesNext(all: seq<Candidate>, c: Candidate)
    ensures TapesOf(all + [c]) == TapesOf(all) + (if c.class_.Tape? then [c] else [])
  {
    assert (all + [c])[..|all|] == all;
  }

  lemma {:induction false} TapesConcat(a: seq<Candidate>, b: seq<Candidate>)
    ensures TapesOf(a + b) == TapesOf(a) + TapesOf(b)
  {
    hide TapesOf, AllValid;
    if b == [] {
      assert a + b == a;
      assert TapesOf([]) == [];
    } else {
      var c, first := b[|b| - 1], b[..|b| - 1];
      TapesConcat(a, first);
      assert a + b == a + first + [c] && b == first + [c];
      TapesNext(a + first, c);
      TapesNext(first, c);
    }
  }

  lemma HealthyNext(slots: seq<Candidate>, c: Candidate, stale: LegStaleness)
    ensures HealthyOf(slots + [c], stale) == HealthyOf(slots, stale) + (if Healthy(c, stale) then [c] else [])
  {
    assert (slots + [c])[..|slots|] == slots;
  }

  lemma {:induction false} HealthyConcat(a: seq<Candidate>, b: seq<Candidate>, stale: LegStaleness)
    ensures HealthyOf(a + b, stale) == HealthyOf(a, stale) + HealthyOf(b, stale)
  {
    hide HealthyOf, AllValid, Healthy;
    if b == [] {
      assert a + b == a;
      assert HealthyOf([], stale) == [];
    } else {
      var c, first := b[|b| - 1], b[..|b| - 1];
      HealthyConcat(a, first, stale);
      assert a + b == a + first + [c] && b == first + [c];
      HealthyNext(a + first, c, stale);
      HealthyNext(first, c, stale);
    }
  }

  /** Any number of reference fixes, offered anywhere beside a healthy tape, leave
      everything the leg reports as it was, its attribution and outlier included. */
  lemma ReferencesBesideATape(before: seq<Candidate>, refs: seq<Candidate>, after: seq<Candidate>, stale: LegStaleness, frac: real)
    requires forall c :: c in refs ==> c.class_.Reference?
    requires AnyTape(HealthyOf(before + after, stale))
    ensures var r, s := Resolution(before + refs + after, stale, frac), Resolution(before + after, stale, frac);
            r.(healthy := s.healthy) == s
  {
    hide HealthyOf, TapesOf, Judge;
    SameFastSet(before, refs, after, stale);
    JudgeCarries(FastOf(HealthyOf(before + after, stale)), frac,
                 HealthyOf(before + refs + after, stale), HealthyOf(before + after, stale));
  }

  lemma SameFastSet(before: seq<Candidate>, refs: seq<Candidate>, after: seq<Candidate>, stale: LegStaleness)
    requires forall c :: c in refs ==> c.class_.Reference?
    requires AnyTape(HealthyOf(before + after, stale))
    ensures FastOf(HealthyOf(before + refs + after, stale)) == FastOf(HealthyOf(before + after, stale))
  {
    hide HealthyOf, TapesOf;
    var b, r, a := HealthyOf(before, stale), HealthyOf(refs, stale), HealthyOf(after, stale);
    HealthyConcat(before, after, stale);
    HealthyConcat(before + refs, after, stale);
    HealthyConcat(before, refs, stale);
    var c: Candidate :| c in b + a && c.class_.Tape?;
    assert c in b + r + a;
    TapesConcat(b, a);
    TapesConcat(b + r, a);
    TapesConcat(b, r);
    NoTapes(refs, stale);
  }

  lemma {:induction false} NoTapes(refs: seq<Candidate>, stale: LegStaleness)
    requires forall c :: c in refs ==> c.class_.Reference?
    ensures TapesOf(HealthyOf(refs, stale)) == []
  {
    if refs != [] {
      var n := |refs| - 1;
      assert refs[n] in refs;
      NoTapes(refs[..n], stale);
      TapesConcat(HealthyOf(refs[..n], stale), if Healthy(refs[n], stale) then [refs[n]] else []);
    }
  }

  lemma JudgeCarries(fast: seq<Candidate>, frac: real, h: seq<Candidate>, k: seq<Candidate>)
    requires AllValid(fast)
    ensures Judge(fast, frac, h).(healthy := k) == Judge(fast, frac, k)
  {
  }

  // -------------------------------------------------------------- robustness

  predicate Holds(c: Candidate, lo: real, hi: real)
    requires c.reading.Valid()
  {
    lo <= V(c) <= hi
  }

  function CountIn(cs: seq<Candidate>, lo: real, hi: real): nat
    requires AllValid(cs)
  {
    if cs == [] then 0
    else
      assert AllValid(cs[..|cs| - 1]);
      CountIn(cs[..|cs| - 1], lo, hi) + (if Holds(cs[|cs| - 1], lo, hi) then 1 else 0)
  }

  lemma {:induction false} PlaceCounts(ranked: seq<Candidate>, c: Candidate, lo: real, hi: real)
    requires AllValid(ranked) && c.reading.Valid()
    ensures CountIn(Place(ranked, c), lo, hi) == CountIn(ranked, lo, hi) + (if Holds(c, lo, hi) then 1 else 0)
  {
    if ranked == [] {
      assert [c][..0] == [];
    } else {
      var n := |ranked| - 1;
      if V(ranked[n]) <= V(c) {
        assert (ranked + [c])[..n + 1] == ranked;
      } else {
        PlaceCounts(ranked[..n], c, lo, hi);
        var r := Place(ranked[..n], c);
        assert (r + [ranked[n]])[..n + 1] == r;
      }
    }
  }

  lemma {:induction false} RankedCounts(cs: seq<Candidate>, lo: real, hi: real)
    requires AllValid(cs)
    ensures CountIn(Ranked(cs), lo, hi) == CountIn(cs, lo, hi)
  {
    if cs != [] {
      RankedCounts(cs[..|cs| - 1], lo, hi);
      PlaceCounts(Ranked(cs[..|cs| - 1]), cs[|cs| - 1], lo, hi);
    }
  }

  /** In a ranking, a value outside the interval puts all on its side outside. */
  lemma {:induction false} CountFrom(cs: seq<Candidate>, k: nat, lo: real, hi: real)
    requires AllValid(cs) && Rising(cs) && k < |cs|
    ensures V(cs[k]) < lo ==> CountIn(cs, lo, hi) <= |cs| - k - 1
    ensures V(cs[k]) > hi ==> CountIn(cs, lo, hi) <= k
    decreases |cs|
  {
    var n := |cs| - 1;
    assert AllValid(cs[..n]) && Rising(cs[..n]);
    if k < n {
      CountFrom(cs[..n], k, lo, hi);
      assert V(cs[k]) <= V(cs[n]);
    } else if V(cs[k]) < lo {
      AllBelow(cs, lo, hi);
    } else {
      CountAtMost(cs[..n], lo, hi);
    }
  }

  lemma {:induction false} AllBelow(cs: seq<Candidate>, lo: real, hi: real)
    requires AllValid(cs) && Rising(cs) && cs != [] && V(cs[|cs| - 1]) < lo
    ensures CountIn(cs, lo, hi) == 0
  {
    var n := |cs| - 1;
    if n > 0 {
      assert AllValid(cs[..n]) && Rising(cs[..n]);
      assert V(cs[n - 1]) <= V(cs[n]);
      AllBelow(cs[..n], lo, hi);
    }
  }

  lemma {:induction false} CountAtMost(cs: seq<Candidate>, lo: real, hi: real)
    requires AllValid(cs)
    ensures CountIn(cs, lo, hi) <= |cs|
  {
    if cs != [] {
      CountAtMost(cs[..|cs| - 1], lo, hi);
    }
  }

  lemma MedianInMajority(cs: seq<Candidate>, lo: real, hi: real)
    requires cs != [] && AllValid(cs) && 2 * CountIn(cs, lo, hi) > |cs|
    ensures lo <= Median(Ranked(cs)) <= hi
  {
    hide Ranked, CountIn;
    var r := Ranked(cs);
    RankedCounts(cs, lo, hi);
    RankedRises(cs);
    CountFrom(r, |r| / 2, lo, hi);
    if |r| % 2 == 0 {
      CountFrom(r, |r| / 2 - 1, lo, hi);
    }
  }

  /** With three or more judged, any interval that holds a strict majority of
      them, and the designated one if there is one, holds the resolved value. */
  lemma MajorityHoldsTheValue(fast: seq<Candidate>, frac: real, healthy: seq<Candidate>, lo: real, hi: real)
    requires |fast| >= 3 && AllValid(fast) && DistinctSources(fast)
    requires 2 * CountIn(fast, lo, hi) > |fast|
    requires forall t :: t in fast && LoneTrusted(fast) == Some(t) ==> Holds(t, lo, hi)
    ensures var r := Judge(fast, frac, healthy);
            r.reading.Some? && r.reading.value.Valid() && lo <= r.reading.value.value.r <= hi
  {
    hide Ranked, Median, IsDispersed, OutlierOf, CountIn, MiddleOf;
    MedianInMajority(fast, lo, hi);
    MedianPositive(fast);
    AnchorIsMember(fast, frac);
  }

  lemma MedianPositive(cs: seq<Candidate>)
    requires cs != [] && AllValid(cs)
    ensures Median(Ranked(cs)) > 0.0
  {
    hide Ranked;
    var r := Ranked(cs);
    assert V(r[|r| / 2]) > 0.0;
    if |r| >= 2 {
      assert V(r[|r| / 2 - 1]) > 0.0;
    }
  }

  // ------------------------------------------------------------- attribution

  function Named(cs: seq<Candidate>, source: string): Option<Candidate> {
    if cs == [] then None
    else if cs[0].source == source then Some(cs[0])
    else Named(cs[1..], source)
  }

  lemma {:induction false} NamedIs(cs: seq<Candidate>, c: Candidate)
    requires c in cs && forall d :: d in cs && d.source == c.source ==> d == c
    ensures Named(cs, c.source) == Some(c)
  {
    if cs[0].source != c.source {
      assert c in cs[1..];
      NamedIs(cs[1..], c);
    } else {
      assert cs[0] in cs;
    }
  }

  function Weights(ks: seq<Contributor>): real {
    if ks == [] then 0.0 else Weights(ks[..|ks| - 1]) + ks[|ks| - 1].weight
  }

  /** The sum the attribution claims the value to be. */
  function Attributed(ks: seq<Contributor>, cs: seq<Candidate>): real
    requires AllValid(cs)
  {
    if ks == [] then 0.0
    else
      var k := ks[|ks| - 1];
      Attributed(ks[..|ks| - 1], cs) + (if Named(cs, k.source).Some? then k.weight * NamedValue(cs, k.source) else 0.0)
  }

  function NamedValue(cs: seq<Candidate>, source: string): real
    requires AllValid(cs) && Named(cs, source).Some?
  {
    NamedMember(cs, source);
    V(Named(cs, source).value)
  }

  lemma {:induction false} NamedMember(cs: seq<Candidate>, source: string)
    ensures Named(cs, source).Some? ==> Named(cs, source).value in cs
  {
    if cs != [] && cs[0].source != source {
      NamedMember(cs[1..], source);
    }
  }

  /** One credited source is a judged one, at its own age, no older than the leg. */
  ghost predicate CreditIsTrue(k: Contributor, cs: seq<Candidate>, legAge: nat) {
    && Named(cs, k.source).Some?
    && k.age == Named(cs, k.source).value.reading.age
    && k.age <= legAge
    && k.weight > 0.0
  }

  ghost predicate AttributionExact(r: Consensus, cs: seq<Candidate>)
    requires AllValid(cs)
  {
    && (r.contributors == [] <==> r.reading == None)
    && (r.reading.Some? ==>
          && Weights(r.contributors) == 1.0
          && r.reading.value.value == Finite(Attributed(r.contributors, cs))
          && forall k :: k in r.contributors ==> CreditIsTrue(k, cs, r.reading.value.age))
  }

  lemma CreditOne(c: Candidate, cs: seq<Candidate>)
    requires AllValid(cs) && DistinctSources(cs) && c in cs
    ensures Named(cs, c.source) == Some(c)
    ensures Weights([Credit(c, 1.0)]) == 1.0 && Attributed([Credit(c, 1.0)], cs) == V(c)
  {
    NamedIs(cs, c);
    var ks := [Credit(c, 1.0)];
    assert ks[..0] == [];
  }

  lemma CreditPair(c: Candidate, d: Candidate, cs: seq<Candidate>)
    requires AllValid(cs) && DistinctSources(cs) && c in cs && d in cs
    ensures Named(cs, c.source) == Some(c) && Named(cs, d.source) == Some(d)
    ensures Weights([Credit(c, 0.5), Credit(d, 0.5)]) == 1.0
    ensures Attributed([Credit(c, 0.5), Credit(d, 0.5)], cs) == (V(c) + V(d)) / 2.0
  {
    NamedIs(cs, c);
    NamedIs(cs, d);
    var ks := [Credit(c, 0.5), Credit(d, 0.5)];
    assert ks[..1] == [Credit(c, 0.5)] && ks[..1][..0] == [];
    assert Weights(ks[..1]) == 0.5;
    assert Attributed(ks[..1], cs) == 0.5 * V(c);
  }

  lemma MiddleCredits(fast: seq<Candidate>)
    requires fast != [] && AllValid(fast) && DistinctSources(fast)
    ensures var ks := MiddleOf(Ranked(fast));
      && ks != [] && Weights(ks) == 1.0 && Attributed(ks, fast) == Median(Ranked(fast))
      && forall k :: k in ks ==> CreditIsTrue(k, fast, OldestAge(fast))
  {
    hide Ranked, Named, Weights, Attributed, OldestAge;
    var r := Ranked(fast);
    var n := |r|;
    OldestAgeIs(fast);
    SameMembers(r, fast, r[n / 2]);
    if n % 2 == 1 {
      CreditOne(r[n / 2], fast);
    } else {
      SameMembers(r, fast, r[n / 2 - 1]);
      CreditPair(r[n / 2 - 1], r[n / 2], fast);
    }
  }

  /** Attribution is exact on every arm: contributors are named exactly when there
      is a value, their weights sum to 1, the weighted sum of their values is the
      value, and none is older than the leg. The leg has no value exactly when it
      had no source, or a dispersed pair with not exactly one designated. */
  lemma AttributionIsExact(fast: seq<Candidate>, frac: real, healthy: seq<Candidate>)
    requires AllValid(fast) && DistinctSources(fast)
    ensures AttributionExact(Judge(fast, frac, healthy), fast)
    ensures Judge(fast, frac, healthy).reading.None? <==>
      fast == [] || (|fast| == 2 && IsDispersed(Ranked(fast), frac) && LoneTrusted(fast).None?)
  {
    hide Ranked, Median, IsDispersed, MiddleOf, Weights, Attributed, Named, OutlierOf, AnchorOf, LoneTrusted, CreditIsTrue;
    if |fast| == 1 {
      CreditAlone(fast[0], fast);
      assert Finite(V(fast[0])) == fast[0].reading.value;
    } else if |fast| >= 2 {
      AnchorIsMember(fast, frac);
      if AnchorOf(fast, frac).Some? {
        CreditAlone(AnchorOf(fast, frac).value, fast);
        AnchorIs(fast, frac, AnchorOf(fast, frac).value);
      } else {
        MiddleCredits(fast);
        if |fast| == 2 {
          AnchoredPair(fast, frac);
        }
      }
    }
  }

  lemma CreditAlone(c: Candidate, cs: seq<Candidate>)
    requires AllValid(cs) && DistinctSources(cs) && c in cs
    ensures Weights([Credit(c, 1.0)]) == 1.0 && Attributed([Credit(c, 1.0)], cs) == V(c)
    ensures CreditIsTrue(Credit(c, 1.0), cs, c.reading.age) && OldestAge([c]) == c.reading.age
  {
    CreditOne(c, cs);
    assert [c][..0] == [];
  }

  /** A pair with one designated source is always anchored. */
  lemma AnchoredPair(fast: seq<Candidate>, frac: real)
    requires |fast| == 2 && AllValid(fast) && DistinctSources(fast)
    ensures LoneTrusted(fast).Some? ==> AnchorOf(fast, frac) == LoneTrusted(fast)
  {
    hide LoneTrusted, AnchorOf, Ranked, IsDispersed;
    if LoneTrusted(fast).Some? {
      LoneTrustedIs(fast, LoneTrusted(fast).value);
      AnchorIs(fast, frac, LoneTrusted(fast).value);
    }
  }

  /** The resolved reading is usable: positive, and younger than the bound of the
      class that was judged. */
  lemma ResolvedIsFresh(slots: seq<Candidate>, stale: LegStaleness, frac: real)
    requires Resolution(slots, stale, frac).reading.Some?
    ensures Resolution(slots, stale, frac).reading.value.Valid()
    ensures stale.tape <= stale.reference ==> Resolution(slots, stale, frac).reading.value.Young(stale.reference)
    ensures AnyTape(HealthyOf(slots, stale)) ==> Resolution(slots, stale, frac).reading.value.Young(stale.tape)
  {
    hide HealthyOf, FastOf, Ranked, Median, IsDispersed, MiddleOf, OutlierOf, AnchorOf, AnyTape;
    var fast := FastOf(HealthyOf(slots, stale));
    forall c | c in fast ensures c.reading.age < stale.ForClass(c.class_) && (AnyTape(HealthyOf(slots, stale)) ==> c.class_.Tape?) {
      assert c in multiset(fast);
      FastCounts(slots, stale, c);
    }
    OldestAgeIs(fast);
    if |fast| == 1 {
      assert fast[0] in fast;
    } else {
      MedianPositive(fast);
      AnchorIsMember(fast, frac);
      if AnchorOf(fast, frac).Some? {
        OldestAgeIs([AnchorOf(fast, frac).value]);
      }
    }
  }

  ghost predicate Suspect(fast: seq<Candidate>, c: Candidate)
    requires fast != [] && AllValid(fast) && c.reading.Valid()
  {
    if |fast| == 2 && LoneTrusted(fast).Some? then !c.trusted else NoneFurther(fast, c, Median(Ranked(fast)))
  }

  /** The source a dispersion names: the partner of a pair's designated member,
      else a judged source no other is further than, the untrusted one on a tie. */
  lemma OutlierIsTheSuspect(fast: seq<Candidate>)
    requires |fast| >= 2 && AllValid(fast) && DistinctSources(fast)
    ensures exists c :: c in fast && c.source == OutlierOf(fast) && Suspect(fast, c)
  {
    hide Ranked, Median, Furthest, LoneTrusted, NoneFurther;
    if |fast| == 2 && LoneTrusted(fast).Some? {
      LoneTrustedIs(fast, LoneTrusted(fast).value);
      PairDiffers(fast);
      PartnerOfPair(fast, LoneTrusted(fast).value);
    } else {
      FurthestIsFurthest(fast, Median(Ranked(fast)));
    }
  }

  lemma PartnerOfPair(fast: seq<Candidate>, t: Candidate)
    requires |fast| == 2 && t in fast && fast[0].source != fast[1].source
    ensures exists c :: c in fast && c != t && c.source == PartnerOf(fast, t.source)
  {
    assert PartnerOf(fast[1..][1..], t.source) == t.source;
    if fast[0].source == t.source {
      assert fast[1] in fast && PartnerOf(fast, t.source) == fast[1].source;
    } else {
      assert fast[0] in fast && PartnerOf(fast, t.source) == fast[0].source;
    }
  }

  // ------------------------------------------------------------ what is seated

  /** A ladder offered in order, `None` for a source that did not answer. */
  function Offered(ladder: seq<Option<Candidate>>): Candidates {
    if ladder == [] then [] else With(Offered(ladder[..|ladder| - 1]), ladder[|ladder| - 1])
  }

  function Answers(ladder: seq<Option<Candidate>>): seq<Candidate> {
    if ladder == [] then []
    else
      var last := ladder[|ladder| - 1];
      Answers(ladder[..|ladder| - 1]) + (if last.Some? then [last.value] else [])
  }

  /** A leg seats the first eight sources that answered, in the order offered. */
  lemma {:induction false} FirstEightAreSeated(ladder: seq<Option<Candidate>>)
    ensures var all := Answers(ladder);
            Offered(ladder) == if |all| <= MAX_CANDIDATES then all else all[..MAX_CANDIDATES]
  {
    if ladder != [] {
      FirstEightAreSeated(ladder[..|ladder| - 1]);
    }
  }

  /** Pushing a reference after a healthy tape, seated or not, changes nothing the
      leg reports. */
  lemma PushedReferenceChangesNothing(slots: Candidates, source: string, reading: Option<Reading>, stale: LegStaleness, frac: real)
    requires AnyTape(HealthyOf(slots, stale))
    ensures var r, s := Resolution(PushReference(slots, source, reading), stale, frac), Resolution(slots, stale, frac);
            r.(healthy := s.healthy) == s
  {
    hide Resolution, HealthyOf, AnyTape;
    if reading.Some? && |slots| < MAX_CANDIDATES {
      var c := Candidate(source, reading.value, Reference, false);
      assert slots + [] == slots && slots + [c] + [] == slots + [c];
      ReferencesBesideATape(slots, [c], [], stale, frac);
    }
  }
}
