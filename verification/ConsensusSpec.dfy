/** What resolving a leg must come to, told by counting over the set of judged
    sources, apart from the sorting and folding that compute it. */
module ConsensusSpec {
  import opened Wrappers
  import opened Readings
  import opened Consensus
  import opened ConsensusLaws
  import opened Products

  // --------------------------------------------------------------- the judged

  /** A price, younger than the bound of its class. */
  ghost predicate Answers(c: Candidate, stale: LegStaleness) {
    && c.reading.value.Finite? && c.reading.value.r > 0.0
    && c.reading.age < (if c.class_.Tape? then stale.tape else stale.reference)
  }

  /** The tapes that answer where any does, else all that answer. */
  ghost function Judged(slots: seq<Candidate>, stale: LegStaleness): set<Candidate> {
    set c | c in slots && Answers(c, stale)
            && (c.class_.Tape? || forall d: Candidate :: d in slots && d.class_.Tape? ==> !Answers(d, stale))
  }

  ghost function Below(js: set<Candidate>, v: real): set<Candidate> {
    set c | c in js && c.reading.value.Finite? && c.reading.value.r < v
  }

  ghost function UpTo(js: set<Candidate>, v: real): set<Candidate> {
    set c | c in js && c.reading.value.Finite? && c.reading.value.r <= v
  }

  /** `v` is the value `i` others can stand below. */
  ghost predicate IsRank(js: set<Candidate>, v: real, i: int) {
    |Below(js, v)| <= i < |UpTo(js, v)|
  }

  ghost predicate IsMedian(js: set<Candidate>, m: real) {
    exists a, b :: IsMiddle(js, a, b, m)
  }

  ghost predicate IsMiddle(js: set<Candidate>, a: Candidate, b: Candidate, m: real) {
    && a in js && b in js && a.reading.value.Finite? && b.reading.value.Finite?
    && IsRank(js, a.reading.value.r, (|js| - 1) / 2) && IsRank(js, b.reading.value.r, |js| / 2)
    && m + m == a.reading.value.r + b.reading.value.r
  }

  lemma FewerIn<T>(a: set<T>, b: set<T>)
    requires a <= b
    ensures |a| <= |b|
  {
    assert b == a + (b - a);
  }

  /** There is one median. */
  lemma OneMedian(js: set<Candidate>, m: real, k: real)
    requires IsMedian(js, m) && IsMedian(js, k)
    ensures m == k
  {
    var a, b :| IsMiddle(js, a, b, m);
    var c, d :| IsMiddle(js, c, d, k);
    OneRank(js, a.reading.value.r, c.reading.value.r, (|js| - 1) / 2);
    OneRank(js, b.reading.value.r, d.reading.value.r, |js| / 2);
  }

  lemma OneRank(js: set<Candidate>, v: real, w: real, i: int)
    requires IsRank(js, v, i) && IsRank(js, w, i)
    ensures v == w
  {
    if v < w {
      FewerIn(UpTo(js, v), Below(js, w));
    } else if w < v {
      FewerIn(UpTo(js, w), Below(js, v));
    }
  }

  // -------------------------------------------------------------- the verdict

  /** Two judged sources further apart than the fraction of the median. */
  ghost predicate Apart(js: set<Candidate>, m: real, frac: real) {
    exists a, b :: a in js && b in js && Gap(a, b) > frac * m
  }

  ghost function Gap(a: Candidate, b: Candidate): real {
    if a.reading.value.Finite? && b.reading.value.Finite? then a.reading.value.r - b.reading.value.r else 0.0
  }

  /** The one designated source among the judged. */
  ghost predicate IsLone(js: set<Candidate>, t: Candidate) {
    t in js && t.trusted && forall c: Candidate :: c in js && c.trusted ==> c == t
  }

  ghost function Off(c: Candidate, m: real): real {
    if c.reading.value.Finite? then if c.reading.value.r >= m then c.reading.value.r - m else m - c.reading.value.r else 0.0
  }

  /** The designation is overridden: a majority is there to do it, and every other
      source is strictly nearer the median of a set that is apart. */
  ghost predicate Contradicted(js: set<Candidate>, t: Candidate, m: real, frac: real) {
    |js| >= 3 && Apart(js, m, frac) && forall c: Candidate :: c in js && c != t ==> Off(c, m) < Off(t, m)
  }

  ghost predicate Anchors(js: set<Candidate>, t: Candidate, m: real, frac: real) {
    IsLone(js, t) && !Contradicted(js, t, m, frac)
  }

  ghost predicate StateTold(js: set<Candidate>, m: real, frac: real, r: Consensus) {
    && r.n == |js|
    && (r.state.Absent? <==> |js| == 0)
    && (r.state.SingleTrusted? <==> |js| == 1 && exists c: Candidate :: c in js && c.trusted)
    && (r.state.SingleUnverified? <==> |js| == 1 && forall c: Candidate :: c in js ==> !c.trusted)
    && (r.state.Dispersed? <==> |js| >= 2 && Apart(js, m, frac))
    && (r.state.Corroborated? <==> |js| >= 3 && !Apart(js, m, frac))
    && (r.state.Agreed? <==> |js| == 2 && !Apart(js, m, frac))
  }

  /** The leg speaks for one source: as it read, and wholly credited to it. */
  ghost predicate SpeaksFor(r: Consensus, c: Candidate) {
    r.reading == Some(c.reading) && r.contributors == [Contributor(c.source, 1.0, c.reading.age)]
  }

  /** The leg speaks for all of them: the median, as old as the oldest, and as
      unsure as the least sure of those that say. */
  ghost predicate SpeaksForAll(js: set<Candidate>, m: real, r: Consensus) {
    && r.reading.Some? && r.reading.value.value == Finite(m)
    && (forall c: Candidate :: c in js ==> c.reading.age <= r.reading.value.age)
    && (exists c: Candidate :: c in js && c.reading.age == r.reading.value.age)
    && (forall c: Candidate :: c in js && c.reading.confidence.Some? ==>
          r.reading.value.confidence.Some? && c.reading.confidence.value <= r.reading.value.confidence.value)
    && (r.reading.value.confidence.Some? ==> exists c: Candidate :: c in js && c.reading.confidence == r.reading.value.confidence)
  }

  ghost predicate ReadingTold(js: set<Candidate>, m: real, frac: real, r: Consensus) {
    && (|js| == 0 ==> r.reading.None? && r.contributors == [])
    && (|js| == 1 ==> forall c: Candidate :: c in js ==> SpeaksFor(r, c))
    && (|js| >= 2 ==>
          && (forall t: Candidate :: Anchors(js, t, m, frac) ==> SpeaksFor(r, t))
          && ((forall t: Candidate :: !Anchors(js, t, m, frac)) ==>
                if |js| == 2 && Apart(js, m, frac) then r.reading.None? && r.contributors == []
                else SpeaksForAll(js, m, r)))
  }

  /** A dispersed leg names one source: the partner of a pair's designated one, else
      one no other is further from the median than, undesignated if it can be. */
  ghost predicate OutlierTold(js: set<Candidate>, m: real, r: Consensus) {
    && (r.outlier.Some? <==> r.state.Dispersed?)
    && (r.outlier.Some? ==> exists c: Candidate :: c in js && c.source == r.outlier.value && IsNamed(js, m, c))
  }

  ghost predicate IsNamed(js: set<Candidate>, m: real, c: Candidate) {
    if |js| == 2 && exists t: Candidate :: IsLone(js, t) then !c.trusted
    else forall d: Candidate :: d in js ==> Off(d, m) <= Off(c, m) && (Off(d, m) == Off(c, m) && c.trusted ==> d.trusted)
  }

  /** What is handed on to fusion: all that answer, once each, in the order offered. */
  ghost predicate HealthyTold(slots: seq<Candidate>, stale: LegStaleness, healthy: seq<Candidate>) {
    && (forall c: Candidate :: c in healthy <==> c in slots && Answers(c, stale))
    && (forall i, j, k, l :: 0 <= i < j < |healthy| && 0 <= k < |slots| && 0 <= l < |slots| && healthy[i] == slots[k] && healthy[j] == slots[l] ==> k < l)
  }

  // ------------------------------------------------------------- the judged set

  function MembersOf(cs: seq<Candidate>): set<Candidate> {
    set c | c in cs
  }

  ghost predicate OnceEach(cs: seq<Candidate>) {
    forall c :: c in cs ==> multiset(cs)[c] == 1
  }

  lemma {:induction false} DistinctSize(cs: seq<Candidate>)
    requires OnceEach(cs)
    ensures |MembersOf(cs)| == |cs|
  {
    if cs == [] {
      assert MembersOf(cs) == {};
    } else {
      var first, last := cs[..|cs| - 1], cs[|cs| - 1];
      OnceButLast(cs);
      DistinctSize(first);
      assert MembersOf(cs) == MembersOf(first) + {last} by { assert cs == first + [last]; }
    }
  }

  lemma OnceButLast(cs: seq<Candidate>)
    requires OnceEach(cs) && cs != []
    ensures OnceEach(cs[..|cs| - 1]) && cs[|cs| - 1] !in cs[..|cs| - 1]
  {
    var first, last := cs[..|cs| - 1], cs[|cs| - 1];
    assert cs == first + [last];
    assert multiset(cs) == multiset(first) + multiset{last};
    assert last in cs && multiset(first)[last] == 0;
    forall c | c in first ensures multiset(first)[c] == 1 {
      assert c in cs;
    }
  }

  lemma AnswersIs(c: Candidate, stale: LegStaleness)
    ensures Healthy(c, stale) <==> Answers(c, stale)
  {
  }

  lemma HealthyAre(slots: seq<Candidate>, stale: LegStaleness, c: Candidate)
    ensures c in HealthyOf(slots, stale) <==> c in slots && Answers(c, stale)
  {
    hide HealthyOf, Healthy;
    HealthyCounts(slots, stale, c);
    AnswersIs(c, stale);
    assert c in HealthyOf(slots, stale) <==> c in multiset(HealthyOf(slots, stale));
    assert c in slots <==> c in multiset(slots);
  }

  /** The list the code judges holds each of the judged once. */
  lemma FastIsJudged(slots: seq<Candidate>, stale: LegStaleness)
    requires DistinctSources(slots)
    ensures var fast, js := FastOf(HealthyOf(slots, stale)), Judged(slots, stale);
            DistinctSources(fast) && (forall c :: c in fast <==> c in js) && |fast| == |js|
  {
    hide HealthyOf, FastOf, Healthy, AnyTape, Answers;
    var fast, js := FastOf(HealthyOf(slots, stale)), Judged(slots, stale);
    FastIsDistinct(slots, stale);
    forall c ensures c in fast <==> c in js {
      FastCounts(slots, stale, c);
      AnswersIs(c, stale);
      TapeAnswers(slots, stale);
      assert c in fast <==> c in multiset(fast);
      assert c in slots <==> c in multiset(slots);
    }
    DistinctSize(fast);
    assert js == MembersOf(fast);
  }

  lemma TapeAnswers(slots: seq<Candidate>, stale: LegStaleness)
    ensures AnyTape(HealthyOf(slots, stale)) <==> exists d: Candidate :: d in slots && d.class_.Tape? && Answers(d, stale)
  {
    hide HealthyOf, Answers;
    forall d ensures d in HealthyOf(slots, stale) <==> d in slots && Answers(d, stale) {
      HealthyAre(slots, stale, d);
    }
  }

  // ---------------------------------------------------------------- the median

  lemma RankIs(fast: seq<Candidate>, js: set<Candidate>, i: nat)
    requires AllValid(fast) && DistinctSources(fast) && (forall c :: c in fast <==> c in js) && i < |fast|
    ensures IsRank(js, V(Ranked(fast)[i]), i)
  {
    hide Ranked, Rising, Below, UpTo, V;
    var r := Ranked(fast);
    RankedRises(fast);
    forall c ensures (c in r <==> c in fast) && (c in r ==> multiset(r)[c] == 1) {
      SameMembers(r, fast, c);
    }
    PrefixSize(r, i);
    PrefixSize(r, i + 1);
    BelowFits(r, js, i);
    UpToHolds(r, js, i);
    FewerIn(Below(js, V(r[i])), MembersOf(r[..i]));
    FewerIn(MembersOf(r[..i + 1]), UpTo(js, V(r[i])));
  }

  lemma BelowFits(r: seq<Candidate>, js: set<Candidate>, i: nat)
    requires AllValid(r) && Rising(r) && i < |r| && forall c :: c in js ==> c in r
    ensures Below(js, V(r[i])) <= MembersOf(r[..i])
  {
    forall c | c in Below(js, V(r[i])) ensures c in r[..i] {
      var k :| 0 <= k < |r| && r[k] == c;
      Earlier(r, i, k);
      assert r[..i][k] == c;
    }
  }

  lemma Earlier(r: seq<Candidate>, i: nat, k: nat)
    requires AllValid(r) && Rising(r) && i < |r| && k < |r| && V(r[k]) < V(r[i])
    ensures k < i
  {
  }

  lemma UpToHolds(r: seq<Candidate>, js: set<Candidate>, i: nat)
    requires AllValid(r) && Rising(r) && i < |r| && forall c :: c in r ==> c in js
    ensures MembersOf(r[..i + 1]) <= UpTo(js, V(r[i]))
  {
    forall c | c in r[..i + 1] ensures c in UpTo(js, V(r[i])) {
      var k :| 0 <= k < i + 1 && r[..i + 1][k] == c;
      assert r[k] == c && c in r;
      if k < i {
        assert V(r[k]) <= V(r[i]);
      }
    }
  }

  lemma PrefixSize(r: seq<Candidate>, i: nat)
    requires i <= |r| && OnceEach(r)
    ensures |MembersOf(r[..i])| == i
  {
    assert r == r[..i] + r[i..];
    forall c | c in r[..i] ensures multiset(r[..i])[c] == 1 {
      assert c in r && multiset(r)[c] == multiset(r[..i])[c] + multiset(r[i..])[c];
    }
    DistinctSize(r[..i]);
  }

  lemma MiddleIs(fast: seq<Candidate>, js: set<Candidate>)
    requires fast != [] && AllValid(fast) && DistinctSources(fast) && (forall c :: c in fast <==> c in js) && |fast| == |js|
    ensures IsMedian(js, Median(Ranked(fast)))
  {
    hide Ranked, IsRank;
    var r, n := Ranked(fast), |fast|;
    RankIs(fast, js, (n - 1) / 2);
    RankIs(fast, js, n / 2);
    SameMembers(r, fast, r[(n - 1) / 2]);
    SameMembers(r, fast, r[n / 2]);
    assert r[n / 2] in r && r[(n - 1) / 2] in r;
    assert n % 2 == 1 ==> (n - 1) / 2 == n / 2;
    assert n % 2 == 0 ==> (n - 1) / 2 == n / 2 - 1;
    assert IsMiddle(js, r[(n - 1) / 2], r[n / 2], Median(r));
  }

  // ------------------------------------------------------------------ the band

  lemma ApartIs(fast: seq<Candidate>, js: set<Candidate>, frac: real)
    requires fast != [] && AllValid(fast) && forall c :: c in fast <==> c in js
    ensures IsDispersed(Ranked(fast), frac) <==> Apart(js, Median(Ranked(fast)), frac)
  {
    hide Ranked, Median, Rising, Apart;
    var r, n := Ranked(fast), |fast|;
    var m := Median(r);
    MedianPositive(fast);
    RankedRises(fast);
    forall c ensures c in r <==> c in js {
      SameMembers(r, fast, c);
    }
    Divided(V(r[n - 1]) - V(r[0]), m, frac);
    EndsAreFurthest(r, js, frac * m);
    assert Apart(js, m, frac) <==> exists a, b :: a in js && b in js && Gap(a, b) > frac * m by { ApartMeans(js, m, frac); }
  }

  lemma ApartMeans(js: set<Candidate>, m: real, frac: real)
    ensures Apart(js, m, frac) <==> exists a, b :: a in js && b in js && Gap(a, b) > frac * m
  {
  }

  lemma EndsAreFurthest(r: seq<Candidate>, js: set<Candidate>, band: real)
    requires r != [] && AllValid(r) && Rising(r) && forall c :: c in r <==> c in js
    ensures V(r[|r| - 1]) - V(r[0]) > band <==> exists a, b :: a in js && b in js && Gap(a, b) > band
  {
    var n := |r|;
    assert r[n - 1] in r && r[0] in r;
    assert Gap(r[n - 1], r[0]) == V(r[n - 1]) - V(r[0]);
    forall a, b | a in js && b in js ensures Gap(a, b) <= V(r[n - 1]) - V(r[0]) {
      assert a in r && b in r;
      var i :| 0 <= i < n && r[i] == a;
      var j :| 0 <= j < n && r[j] == b;
      assert i == n - 1 || V(r[i]) <= V(r[n - 1]);
      assert j == 0 || V(r[0]) <= V(r[j]);
    }
  }

  lemma Divided(gap: real, m: real, frac: real)
    requires m > 0.0
    ensures gap / m > frac <==> gap > frac * m
  {
    OverCompares(gap, m, frac);
    assert Over(gap, m) == gap / m;
    Spelled(frac, m);
    hide Times, Over;
    Swap(frac, m);
  }

  // --------------------------------------------------------------- the verdict

  lemma AnchorTold(fast: seq<Candidate>, js: set<Candidate>, frac: real, t: Candidate)
    requires |fast| >= 2 && AllValid(fast) && DistinctSources(fast) && (forall c :: c in fast <==> c in js) && |fast| == |js|
    ensures AnchorOf(fast, frac) == Some(t) <==> Anchors(js, t, Median(Ranked(fast)), frac)
  {
    hide Ranked, Median, IsDispersed, AnchorOf, LoneTrusted, Apart;
    var m := Median(Ranked(fast));
    AnchorIs(fast, frac, t);
    LoneTrustedIs(fast, t);
    ApartIs(fast, js, frac);
    if t in fast {
      FurthestMeans(fast, js, t, m);
    }
  }

  lemma FurthestMeans(fast: seq<Candidate>, js: set<Candidate>, t: Candidate, m: real)
    requires AllValid(fast) && t in fast && forall c :: c in fast <==> c in js
    ensures StrictlyFurthest(fast, t, m) <==> forall c: Candidate :: c in js && c != t ==> Off(c, m) < Off(t, m)
  {
    forall c | c in fast ensures Distance(c, m) == Off(c, m) {
    }
    hide Distance, Off;
  }

  lemma OutlierMeans(fast: seq<Candidate>, js: set<Candidate>)
    requires |fast| >= 2 && AllValid(fast) && DistinctSources(fast) && (forall c :: c in fast <==> c in js) && |fast| == |js|
    ensures exists c: Candidate :: c in js && c.source == OutlierOf(fast) && IsNamed(js, Median(Ranked(fast)), c)
  {
    hide Ranked, Median, OutlierOf, LoneTrusted, NoneFurther;
    var m := Median(Ranked(fast));
    OutlierIsTheSuspect(fast);
    var c :| c in fast && c.source == OutlierOf(fast) && Suspect(fast, c);
    if LoneTrusted(fast).Some? {
      LoneTrustedIs(fast, LoneTrusted(fast).value);
      assert IsLone(js, LoneTrusted(fast).value);
    }
    forall t ensures IsLone(js, t) ==> LoneTrusted(fast) == Some(t) {
      LoneTrustedIs(fast, t);
    }
    if NoneFurther(fast, c, m) {
      NoneFurtherMeans(fast, js, c, m);
    }
  }

  lemma NoneFurtherMeans(fast: seq<Candidate>, js: set<Candidate>, c: Candidate, m: real)
    requires AllValid(fast) && c in fast && (forall d :: d in fast <==> d in js) && NoneFurther(fast, c, m)
    ensures forall d: Candidate :: d in js ==> Off(d, m) <= Off(c, m) && (Off(d, m) == Off(c, m) && c.trusted ==> d.trusted)
  {
    forall d | d in js ensures Off(d, m) <= Off(c, m) && (Off(d, m) == Off(c, m) && c.trusted ==> d.trusted) {
      assert d in fast && !Nearer(c, d, m);
      assert Distance(d, m) == Off(d, m) && Distance(c, m) == Off(c, m);
    }
  }

  lemma AllSpeak(fast: seq<Candidate>, js: set<Candidate>, r: Consensus)
    requires fast != [] && AllValid(fast) && (forall c :: c in fast <==> c in js)
    requires r.reading == Some(Representative(fast, Median(Ranked(fast))))
    ensures SpeaksForAll(js, Median(Ranked(fast)), r)
  {
    hide Ranked, Median, OldestAge, WidestConfidence;
    OldestAgeIs(fast);
    WidestConfidenceIs(fast);
  }

  lemma OneSpeaks(c: Candidate)
    requires c.reading.Valid()
    ensures AllValid([c]) && Representative([c], V(c)) == c.reading
  {
    assert [c][..0] == [] && OldestAge([]) == 0 && WidestConfidence([]) == None;
    assert OldestAge([c]) == c.reading.age && WidestConfidence([c]) == c.reading.confidence;
  }

  lemma OneIsTold(fast: seq<Candidate>, js: set<Candidate>, m: real, frac: real, healthy: seq<Candidate>)
    requires AllValid(fast) && (forall c :: c in fast <==> c in js) && |fast| == |js| <= 1
    ensures var r := Judge(fast, frac, healthy);
            StateTold(js, m, frac, r) && ReadingTold(js, m, frac, r) && OutlierTold(js, m, r)
  {
    hide Apart, SpeaksForAll, IsNamed, Anchors, IsMedian;
    if |fast| == 1 {
      assert fast[0] in fast;
      forall c | c in js ensures c == fast[0] {
        assert c in fast;
      }
      assert fast[0] in js;
    }
  }

  /** With the band, the name and the anchor known, the verdict is a matter of
      cases. */
  lemma StateFollows(fast: seq<Candidate>, js: set<Candidate>, m: real, frac: real, healthy: seq<Candidate>)
    requires |fast| >= 2 && AllValid(fast) && |fast| == |js| && (IsDispersed(Ranked(fast), frac) <==> Apart(js, m, frac))
    requires exists c: Candidate :: c in js && c.source == OutlierOf(fast) && IsNamed(js, m, c)
    ensures StateTold(js, m, frac, Judge(fast, frac, healthy))
    ensures OutlierTold(js, m, Judge(fast, frac, healthy))
  {
    hide Ranked, Median, IsDispersed, AnchorOf, OutlierOf, MiddleOf, Representative, Apart, IsNamed, AllValid;
  }

  lemma ReadingFollows(fast: seq<Candidate>, js: set<Candidate>, m: real, frac: real, healthy: seq<Candidate>)
    requires |fast| >= 2 && AllValid(fast) && |fast| == |js| && (IsDispersed(Ranked(fast), frac) <==> Apart(js, m, frac))
    requires forall t :: AnchorOf(fast, frac) == Some(t) <==> Anchors(js, t, m, frac)
    requires AnchorOf(fast, frac).Some? ==>
               var c := AnchorOf(fast, frac).value;
               c.reading.Valid() && AllValid([c]) && Representative([c], V(c)) == c.reading
    requires AnchorOf(fast, frac).None? && !(|fast| == 2 && IsDispersed(Ranked(fast), frac)) ==> SpeaksForAll(js, m, Judge(fast, frac, healthy))
    requires forall t, u :: Anchors(js, t, m, frac) && Anchors(js, u, m, frac) ==> t == u
    ensures ReadingTold(js, m, frac, Judge(fast, frac, healthy))
  {
    hide Ranked, Median, IsDispersed, AnchorOf, OutlierOf, MiddleOf, Representative, Apart, Anchors, SpeaksForAll, AllValid;
  }

  lemma VerdictIsTold(fast: seq<Candidate>, js: set<Candidate>, frac: real, healthy: seq<Candidate>)
    requires |fast| >= 2 && AllValid(fast) && DistinctSources(fast) && (forall c :: c in fast <==> c in js) && |fast| == |js|
    ensures var r, m := Judge(fast, frac, healthy), Median(Ranked(fast));
            StateTold(js, m, frac, r) && ReadingTold(js, m, frac, r) && OutlierTold(js, m, r)
  {
    hide Ranked, Median, IsDispersed, AnchorOf, OutlierOf, Representative, Apart, IsNamed, Anchors, SpeaksForAll, StateTold, ReadingTold, OutlierTold;
    var m := Median(Ranked(fast));
    ApartIs(fast, js, frac);
    OutlierMeans(fast, js);
    StateFollows(fast, js, m, frac, healthy);
    AnchorIsMember(fast, frac);
    forall t ensures AnchorOf(fast, frac) == Some(t) <==> Anchors(js, t, m, frac) {
      AnchorTold(fast, js, frac, t);
    }
    if AnchorOf(fast, frac).Some? {
      OneSpeaks(AnchorOf(fast, frac).value);
    } else if !(|fast| == 2 && IsDispersed(Ranked(fast), frac)) {
      NoAnchorBlends(fast, frac, healthy);
      AllSpeak(fast, js, Judge(fast, frac, healthy));
    }
    hide Judge;
    ReadingFollows(fast, js, m, frac, healthy);
  }

  lemma NoAnchorBlends(fast: seq<Candidate>, frac: real, healthy: seq<Candidate>)
    requires |fast| >= 2 && AllValid(fast) && AnchorOf(fast, frac).None? && !(|fast| == 2 && IsDispersed(Ranked(fast), frac))
    ensures Judge(fast, frac, healthy).reading == Some(Representative(fast, Median(Ranked(fast))))
  {
    hide Ranked, Median, IsDispersed, AnchorOf, OutlierOf, MiddleOf, Representative;
  }

  lemma JudgeIsTold(fast: seq<Candidate>, js: set<Candidate>, frac: real, healthy: seq<Candidate>)
    requires AllValid(fast) && DistinctSources(fast) && (forall c :: c in fast <==> c in js) && |fast| == |js|
    ensures var r, m := Judge(fast, frac, healthy), if fast == [] then 0.0 else Median(Ranked(fast));
            StateTold(js, m, frac, r) && ReadingTold(js, m, frac, r) && OutlierTold(js, m, r) && r.healthy == healthy
  {
    hide Ranked, Median, StateTold, ReadingTold, OutlierTold;
    if |fast| >= 2 {
      VerdictIsTold(fast, js, frac, healthy);
    } else {
      OneIsTold(fast, js, if fast == [] then 0.0 else Median(Ranked(fast)), frac, healthy);
    }
    hide IsDispersed, AnchorOf, OutlierOf, MiddleOf, Representative;
  }

  lemma {:induction false} InOrder(slots: seq<Candidate>, stale: LegStaleness)
    requires DistinctSources(slots)
    ensures HealthyTold(slots, stale, HealthyOf(slots, stale))
  {
    forall c ensures c in HealthyOf(slots, stale) <==> c in slots && Answers(c, stale) {
      HealthyAre(slots, stale, c);
    }
    hide Answers;
    KeepsOrder(slots, stale);
  }

  ghost predicate Ordered(slots: seq<Candidate>, healthy: seq<Candidate>) {
    forall i, j, k, l :: 0 <= i < j < |healthy| && 0 <= k < |slots| && 0 <= l < |slots| && healthy[i] == slots[k] && healthy[j] == slots[l] ==> k < l
  }

  lemma {:induction false} KeepsOrder(slots: seq<Candidate>, stale: LegStaleness)
    requires OnceEach(slots)
    ensures Ordered(slots, HealthyOf(slots, stale))
  {
    hide Healthy;
    if slots != [] {
      var n := |slots| - 1;
      OnceButLast(slots);
      KeepsOrder(slots[..n], stale);
      HealthyWithin(slots[..n], stale);
      OrderGrows(slots, HealthyOf(slots[..n], stale));
    }
  }

  lemma HealthyWithin(slots: seq<Candidate>, stale: LegStaleness)
    ensures forall c :: c in HealthyOf(slots, stale) ==> c in slots
  {
    forall c ensures c in HealthyOf(slots, stale) ==> c in slots {
      HealthyAre(slots, stale, c);
    }
  }

  lemma OrderGrows(slots: seq<Candidate>, healthy: seq<Candidate>)
    requires slots != [] && Ordered(slots[..|slots| - 1], healthy)
    requires slots[|slots| - 1] !in slots[..|slots| - 1] && forall c :: c in healthy ==> c in slots[..|slots| - 1]
    ensures Ordered(slots, healthy) && Ordered(slots, healthy + [slots[|slots| - 1]])
  {
    var n := |slots| - 1;
    var first := slots[..n];
    var more := healthy + [slots[n]];
    forall i, j, k, l | 0 <= i < j < |more| && 0 <= k < |slots| && 0 <= l < |slots| && more[i] == slots[k] && more[j] == slots[l] ensures k < l {
      assert more[i] == healthy[i] && healthy[i] in healthy;
      assert k < n ==> slots[k] == first[k];
      assert l < n ==> slots[l] == first[l] && slots[l] in first;
      if j < |healthy| {
        assert healthy[j] in healthy;
      }
    }
    forall i, j, k, l | 0 <= i < j < |healthy| && 0 <= k < |slots| && 0 <= l < |slots| && healthy[i] == slots[k] && healthy[j] == slots[l] ensures k < l {
      assert more[i] == healthy[i] && more[j] == healthy[j];
    }
  }

  /** What a leg resolves to, whatever was offered: the verdict is that of the
      judged set and its one median. With two or more judged it is dispersed exactly
      when some two are further apart than the fraction of the median, and otherwise
      corroborated, or agreed for a pair. It speaks for the one designated source
      unless that is contradicted, else for all; a dispersed pair with no such
      source speaks for none. */
  lemma ResolutionIsTold(slots: seq<Candidate>, stale: LegStaleness, frac: real)
    requires DistinctSources(slots)
    ensures var r, js := Resolution(slots, stale, frac), Judged(slots, stale);
            && HealthyTold(slots, stale, r.healthy)
            && exists m :: (js != {} ==> IsMedian(js, m)) && StateTold(js, m, frac, r) && ReadingTold(js, m, frac, r) && OutlierTold(js, m, r)
  {
    hide HealthyOf, FastOf, Ranked, Median, Judge, Judged, IsMedian, StateTold, ReadingTold, OutlierTold, HealthyTold;
    var all := HealthyOf(slots, stale);
    var fast, js := FastOf(all), Judged(slots, stale);
    FastIsJudged(slots, stale);
    JudgeIsTold(fast, js, frac, all);
    InOrder(slots, stale);
    var m := if fast == [] then 0.0 else Median(Ranked(fast));
    if fast != [] {
      MiddleIs(fast, js);
    } else {
      assert js == {};
    }
  }

  /** Two judged sources, none of them the one designated, no further apart than the
      fraction of their mean: the leg agrees, on the mean. */
  lemma AgreeingPairIsTheMean(slots: seq<Candidate>, stale: LegStaleness, frac: real, a: Candidate, b: Candidate)
    requires DistinctSources(slots) && a != b && Judged(slots, stale) == {a, b} && (a.trusted <==> b.trusted)
    requires a.reading.Valid() && b.reading.Valid() && a.reading.value.r <= b.reading.value.r
    ensures var r, mean := Resolution(slots, stale, frac), (a.reading.value.r + b.reading.value.r) / 2.0;
            if b.reading.value.r - a.reading.value.r > frac * mean then r.state.Dispersed? && r.reading.None?
            else r.state.Agreed? && r.reading.Some? && r.reading.value.value == Finite(mean)
  {
    hide Judged, IsMedian, StateTold, ReadingTold, OutlierTold, Resolution, HealthyTold;
    ResolutionIsTold(slots, stale, frac);
    var r := Resolution(slots, stale, frac);
    var m :| (Judged(slots, stale) != {} ==> IsMedian(Judged(slots, stale), m)) && StateTold(Judged(slots, stale), m, frac, r)
             && ReadingTold(Judged(slots, stale), m, frac, r) && OutlierTold(Judged(slots, stale), m, r);
    PairIsTold(a, b, m, frac, r);
  }

  lemma PairIsTold(a: Candidate, b: Candidate, m: real, frac: real, r: Consensus)
    requires a != b && (a.trusted <==> b.trusted) && IsMedian({a, b}, m)
    requires a.reading.Valid() && b.reading.Valid() && a.reading.value.r <= b.reading.value.r
    requires StateTold({a, b}, m, frac, r) && ReadingTold({a, b}, m, frac, r)
    ensures var mean := (a.reading.value.r + b.reading.value.r) / 2.0;
            if b.reading.value.r - a.reading.value.r > frac * mean then r.state.Dispersed? && r.reading.None?
            else r.state.Agreed? && r.reading.Some? && r.reading.value.value == Finite(mean)
  {
    MedianOfPair(a, b, m);
    NoneAnchors(a, b, m, frac);
    PairApart(a, b, m, frac);
    hide Anchors, Apart, IsMedian;
    assert |{a, b}| == 2;
  }

  lemma NoneAnchors(a: Candidate, b: Candidate, m: real, frac: real)
    requires a != b && (a.trusted <==> b.trusted)
    ensures forall t: Candidate :: !Anchors({a, b}, t, m, frac)
  {
  }

  lemma PairApart(a: Candidate, b: Candidate, m: real, frac: real)
    requires a.reading.Valid() && b.reading.Valid() && 0.0 < a.reading.value.r <= b.reading.value.r
    ensures b.reading.value.r - a.reading.value.r > frac * m ==> Apart({a, b}, m, frac)
    ensures b.reading.value.r - a.reading.value.r <= frac * m && 0.0 <= frac * m ==> !Apart({a, b}, m, frac)
  {
    assert Gap(b, a) == b.reading.value.r - a.reading.value.r;
  }

  lemma MedianOfPair(a: Candidate, b: Candidate, m: real)
    requires a != b && IsMedian({a, b}, m) && a.reading.Valid() && b.reading.Valid() && a.reading.value.r <= b.reading.value.r
    ensures m == (a.reading.value.r + b.reading.value.r) / 2.0
  {
    var js := {a, b};
    var c, d :| IsMiddle(js, c, d, m);
    assert |js| == 2;
    var low, high := a.reading.value.r, b.reading.value.r;
    if low < high {
      assert UpTo(js, low) == {a} && Below(js, high) == {a} && Below(js, low) == {} && UpTo(js, high) == {a, b};
    }
  }
}
