/** The fold over what the feed ingests: when the watermark misses nothing. */
module FoldedLedger {
  import opened Ledger
  import opened Decode
  import opened Takes
  import opened Fold
  import opened Reingest

  /** A ledger, and how this build reads it. */
  datatype Feed = Feed(ledger: seq<Entry>, program: Pubkey, codec: Codec)

  /** One turn of the drive loop: the stretch `[lo, hi)` goes in, transaction by
      transaction, and then the fold sink runs, or fails, or is cut off. */
  datatype Turn = Turn(lo: nat, hi: nat, passes: seq<Action>)

  predicate Succeeded(e: Entry) {
    !e.failed && e.body.Some?
  }

  /** The fill legs of one entry. */
  function LegsIn(f: Feed, e: Entry): seq<FillRow> {
    if !Succeeded(e) then [] else FillRows(DecodeTx(RawTx(e.signature, 0, e.body.value), f.program, f.codec))
  }

  /** A transaction with no fill inserts nothing. */
  function Inserts(f: Feed, entries: seq<Entry>): seq<Action> {
    if entries == [] then []
    else
      var legs := LegsIn(f, entries[|entries| - 1]);
      Inserts(f, entries[..|entries| - 1]) + (if legs == [] then [] else [Insert(legs)])
  }

  predicate Bounded(f: Feed, turns: seq<Turn>) {
    forall t :: t in turns ==> t.lo <= t.hi <= |f.ledger| && forall a :: a in t.passes ==> !a.Insert?
  }

  function StepsOf(f: Feed, turns: seq<Turn>): seq<Action>
    requires Bounded(f, turns)
  {
    if turns == [] then []
    else
      var t := turns[|turns| - 1];
      assert t in turns;
      StepsOf(f, turns[..|turns| - 1]) + Inserts(f, f.ledger[t.lo..t.hi]) + t.passes
  }

  /** How far the turns have got. */
  function Reach(from: nat, turns: seq<Turn>): nat {
    if turns == [] then from
    else
      var before, hi := Reach(from, turns[..|turns| - 1]), turns[|turns| - 1].hi;
      if before < hi then hi else before
  }

  /** Slots rise across the boundary below `at`, so that no slot lies on both
      sides of it. */
  ghost predicate SplitsNoSlot(f: Feed, at: nat) {
    forall p, q :: 0 <= p < at <= q < |f.ledger| && Succeeded(f.ledger[p]) && Succeeded(f.ledger[q]) ==>
      f.ledger[p].body.value.slot < f.ledger[q].body.value.slot
  }

  /** Each turn continues the ones before, or replays from below where they got,
      as a feed that skips nothing does; and where a pass may have run splits no
      slot. */
  ghost predicate InStep(f: Feed, from: nat, turns: seq<Turn>) {
    turns != [] ==>
      var before, t := turns[..|turns| - 1], turns[|turns| - 1];
      && InStep(f, from, before)
      && from <= t.lo <= Reach(from, before)
      && (before != [] ==> SplitsNoSlot(f, Reach(from, before)))
  }

  ghost predicate PositiveSlots(f: Feed) {
    forall p :: 0 <= p < |f.ledger| && Succeeded(f.ledger[p]) ==> f.ledger[p].body.value.slot > 0
  }

  // -------------------------------------------------------------- one entry

  predicate LegOf(f: Feed, p: nat, r: FillRow) {
    p < |f.ledger| && r in LegsIn(f, f.ledger[p])
  }

  lemma {:induction false} FillRowsAre(ds: seq<Decoded>, r: FillRow)
    ensures r in FillRows(ds) <==> exists d :: d in ds && d.event.FillEvent? && RowOf(d) == r
  {
    if ds != [] {
      var d, before := ds[|ds| - 1], ds[..|ds| - 1];
      FillRowsAre(before, r);
      assert ds == before + [d];
    }
  }

  lemma {:induction false} FillRowsDistinct(ds: seq<Decoded>)
    requires DistinctKeys(ds)
    ensures forall i, j :: 0 <= i < j < |FillRows(ds)| ==> FillRows(ds)[i].key != FillRows(ds)[j].key
  {
    if ds != [] {
      var d, before := ds[|ds| - 1], ds[..|ds| - 1];
      FillRowsDistinct(before);
      forall i | 0 <= i < |FillRows(before)| ensures FillRows(before)[i].key != d.key {
        FillRowsAre(before, FillRows(before)[i]);
        var e :| e in before && e.event.FillEvent? && RowOf(e) == FillRows(before)[i];
      }
    }
  }

  /** The legs of one entry are one transaction, of its slot. */
  lemma LegsAreOne(f: Feed, p: nat)
    requires p < |f.ledger| && LegsIn(f, f.ledger[p]) != []
    ensures Succeeded(f.ledger[p]) && OneTransaction(LegsIn(f, f.ledger[p]))
    ensures forall r :: LegOf(f, p, r) ==>
      r.key.slot == f.ledger[p].body.value.slot && GroupOf(r) == TakeKey(f.ledger[p].signature, 0)
  {
    hide DecodeTx, FillRows, DistinctKeys;
    var tx := RawTx(f.ledger[p].signature, 0, f.ledger[p].body.value);
    var ds := DecodeTx(tx, f.program, f.codec);
    var legs := FillRows(ds);
    DecodeExact(tx, f.program, f.codec);
    FillRowsDistinct(ds);
    forall r | r in legs ensures r.key.slot == tx.body.slot && GroupOf(r) == TakeKey(tx.signature, 0) {
      FillRowsAre(ds, r);
      var d :| d in ds && d.event.FillEvent? && RowOf(d) == r;
      var i :| DecodesTo(tx, i, f.program, f.codec, d);
    }
    assert legs[0] in legs;
  }

  // -------------------------------------------------------------- invariant

  /** The table holds exactly the fills of `[from, reach)`. */
  ghost predicate Ingested(s: State, f: Feed, from: nat, reach: nat) {
    forall r :: r in s.table <==> exists p :: from <= p < reach && LegOf(f, p, r)
  }

  /** The watermark is at its start, or on a fill below `at`. */
  ghost predicate MarkBelow(s: State, f: Feed, at: nat) {
    s.mark == START || exists p, r :: 0 <= p < at && LegOf(f, p, r) && r.key == s.mark
  }

  lemma ExecLast(s: State, acts: seq<Action>, a: Action)
    requires Exec(s, acts + [a]).Some?
    ensures Exec(s, acts).Some? && Enabled(Exec(s, acts).value, a)
    ensures Exec(s, acts + [a]).value == Do(Exec(s, acts).value, a)
  {
    hide Enabled, Do;
    assert (acts + [a])[..|acts|] == acts;
  }

  lemma AheadNext(s: State, acts: seq<Action>, a: Action)
    requires EveryInsertAhead(s, acts)
    requires Exec(s, acts).Some? && a.Insert? && Enabled(Exec(s, acts).value, a) ==>
      var t := Exec(s, acts).value;
      GroupOf(a.legs[0]) in Groups(t.table) || HasAbove(a.legs, GroupOf(a.legs[0]), t.mark)
    ensures EveryInsertAhead(s, acts + [a])
  {
    hide Exec, Enabled, Groups, HasAbove;
    assert (acts + [a])[..|acts|] == acts;
  }

  /** An entry at or above the boundary the watermark lies below has its legs
      above it. */
  lemma NewIsAhead(s: State, f: Feed, at: nat, p: nat)
    requires MarkBelow(s, f, at) && SplitsNoSlot(f, at) && PositiveSlots(f) && at <= p < |f.ledger|
    requires LegsIn(f, f.ledger[p]) != []
    ensures var legs := LegsIn(f, f.ledger[p]); HasAbove(legs, GroupOf(legs[0]), s.mark)
  {
    hide LegsIn;
    var legs := LegsIn(f, f.ledger[p]);
    LegsAreOne(f, p);
    assert LegOf(f, p, legs[0]);
    if s.mark != START {
      var q, r :| 0 <= q < at && LegOf(f, q, r) && r.key == s.mark;
      LegsAreOne(f, q);
    }
    assert Less(s.mark, legs[0].key);
  }

  /** From an idle state the legs of the next entry, or of one replayed, can
      always be inserted. */
  lemma InsertIsEnabled(s: State, f: Feed, from: nat, reach: nat, p: nat)
    requires Ingested(s, f, from, reach) && s.phase.Idle? && DistinctSignatures(f.ledger)
    requires from <= p <= reach && p < |f.ledger| && LegsIn(f, f.ledger[p]) != []
    ensures Enabled(s, Insert(LegsIn(f, f.ledger[p])))
  {
    hide LegsIn, DistinctSignatures, Groups;
    var legs := LegsIn(f, f.ledger[p]);
    LegsAreOne(f, p);
    assert LegOf(f, p, legs[0]);
    var k := GroupOf(legs[0]);
    GroupsAre(s.table, k);
    if k in Groups(s.table) {
      var r :| r in s.table && GroupOf(r) == k;
      var q :| from <= q < reach && LegOf(f, q, r);
      LegsAreOne(f, q);
      OnePlace(f.ledger, p, q);
      forall x | x in legs ensures x in s.table {
        assert LegOf(f, p, x);
      }
    }
  }

  lemma OnePlace(ledger: seq<Entry>, p: nat, q: nat)
    requires DistinctSignatures(ledger) && p < |ledger| && q < |ledger| && ledger[p].signature == ledger[q].signature
    ensures p == q
  {
  }

  /** The entry at `p` goes in, new or replayed. */
  lemma InsertIngests(s: State, f: Feed, from: nat, reach: nat, p: nat)
    requires Inv(s) && Ingested(s, f, from, reach) && from <= p <= reach && p < |f.ledger|
    requires LegsIn(f, f.ledger[p]) != [] && Enabled(s, Insert(LegsIn(f, f.ledger[p])))
    ensures Ingested(Do(s, Insert(LegsIn(f, f.ledger[p]))), f, from, if p < reach then reach else p + 1)
    ensures p < reach ==> GroupOf(LegsIn(f, f.ledger[p])[0]) in Groups(s.table)
  {
    hide LegsIn, Groups, InsertRows, Sorted, TakesFolded, NothingForgotten, MissedBehind, RollupsFollow, Less;
    var legs := LegsIn(f, f.ledger[p]);
    var k := GroupOf(legs[0]);
    assert legs[0] in legs && LegOf(f, p, legs[0]);
    GroupsAre(s.table, k);
    assert legs[..|legs|] == legs;
    if k in Groups(s.table) {
      InsertAgain(s.table, legs);
    } else {
      InsertFresh(s.table, legs, |legs|, k);
    }
    var t := Do(s, Insert(legs));
    assert forall r :: r in t.table <==> r in s.table || r in legs;
    forall r ensures r in legs <==> LegOf(f, p, r) {
    }
  }

  lemma NothingIngests(s: State, f: Feed, from: nat, reach: nat, p: nat)
    requires Ingested(s, f, from, reach) && from <= p <= reach && p < |f.ledger| && LegsIn(f, f.ledger[p]) == []
    ensures Ingested(s, f, from, if p < reach then reach else p + 1)
  {
    hide LegsIn;
    forall r ensures !LegOf(f, p, r) {
    }
  }

  // ------------------------------------------------------------------ a turn

  /** After part of a turn's inserts: the fills up to `reach` are in, and the
      watermark is where the turns before left it. */
  ghost predicate Along(f: Feed, from: nat, at: nat, reach: nat, acts: seq<Action>) {
    Exec(Empty, acts).Some? ==>
      var s := Exec(Empty, acts).value;
      && Ingested(s, f, from, reach) && MarkBelow(s, f, at) && EveryInsertAhead(Empty, acts)
  }

  lemma InsertsNext(f: Feed, lo: nat, hi: nat)
    requires lo < hi <= |f.ledger|
    ensures var legs := LegsIn(f, f.ledger[hi - 1]);
            Inserts(f, f.ledger[lo..hi]) == Inserts(f, f.ledger[lo..hi - 1]) + (if legs == [] then [] else [Insert(legs)])
  {
    hide LegsIn;
    var all := f.ledger[lo..hi];
    assert all[..|all| - 1] == f.ledger[lo..hi - 1] && all[|all| - 1] == f.ledger[hi - 1];
  }

  function Further(reach: nat, p: nat): nat {
    if reach < p then p else reach
  }

  lemma {:induction false} InsertsAreAhead(f: Feed, from: nat, at: nat, reach: nat, acts: seq<Action>, lo: nat, hi: nat)
    requires PositiveSlots(f) && SplitsNoSlot(f, at) && at <= reach && from <= lo <= reach && lo <= hi <= |f.ledger|
    requires Along(f, from, at, reach, acts)
    ensures Along(f, from, at, Further(reach, hi), acts + Inserts(f, f.ledger[lo..hi]))
    decreases hi - lo
  {
    hide Along, PositiveSlots, SplitsNoSlot, LegsIn;
    if lo == hi {
      assert f.ledger[lo..hi] == [] && acts + [] == acts;
    } else {
      hide Inserts;
      var p, e := hi - 1, f.ledger[hi - 1];
      var before := acts + Inserts(f, f.ledger[lo..p]);
      InsertsAreAhead(f, from, at, reach, acts, lo, p);
      InsertsNext(f, lo, hi);
      var legs := LegsIn(f, e);
      if legs == [] {
        assert acts + Inserts(f, f.ledger[lo..hi]) == before;
        EmptyGoesIn(f, from, at, Further(reach, p), p, before);
      } else {
        assert acts + Inserts(f, f.ledger[lo..hi]) == before + [Insert(legs)];
        EntryGoesIn(f, from, at, Further(reach, p), p, before);
      }
    }
  }

  lemma EmptyGoesIn(f: Feed, from: nat, at: nat, reach: nat, p: nat, acts: seq<Action>)
    requires from <= p <= reach && p < |f.ledger| && LegsIn(f, f.ledger[p]) == []
    requires Along(f, from, at, reach, acts)
    ensures Along(f, from, at, Further(reach, p + 1), acts)
  {
    hide Exec, Ingested, MarkBelow, EveryInsertAhead, LegsIn;
    if Exec(Empty, acts).Some? {
      NothingIngests(Exec(Empty, acts).value, f, from, reach, p);
    }
  }

  lemma EntryGoesIn(f: Feed, from: nat, at: nat, reach: nat, p: nat, acts: seq<Action>)
    requires PositiveSlots(f) && SplitsNoSlot(f, at) && from <= p <= reach && p < |f.ledger| && LegsIn(f, f.ledger[p]) != []
    requires at <= reach && Along(f, from, at, reach, acts)
    ensures Along(f, from, at, Further(reach, p + 1), acts + [Insert(LegsIn(f, f.ledger[p]))])
  {
    hide Exec, Ingested, MarkBelow, EveryInsertAhead, LegsIn, SplitsNoSlot, PositiveSlots, Inv, Enabled, Groups, HasAbove;
    var a := Insert(LegsIn(f, f.ledger[p]));
    if Exec(Empty, acts + [a]).Some? {
      ExecLast(Empty, acts, a);
      var s := Exec(Empty, acts).value;
      EmptyIsFolded();
      RunKeeps(Empty, acts);
      InsertIngests(s, f, from, reach, p);
      if p == reach {
        NewIsAhead(s, f, at, p);
      }
      AheadNext(Empty, acts, a);
      MarkStays(s, a, f, at);
    }
  }

  lemma MarkStays(s: State, a: Action, f: Feed, at: nat)
    requires Enabled(s, a) && a.Insert? && MarkBelow(s, f, at)
    ensures MarkBelow(Do(s, a), f, at)
  {
  }

  /** A step of the fold leaves the table, and moves the watermark only onto a row
      of it. */
  lemma PassStep(s: State, a: Action, f: Feed, from: nat, reach: nat)
    requires Inv(s) && Enabled(s, a) && !a.Insert? && Ingested(s, f, from, reach) && MarkBelow(s, f, reach)
    ensures Ingested(Do(s, a), f, from, reach) && MarkBelow(Do(s, a), f, reach)
  {
    hide LegsIn, Groups, Above, TakesFolded, NothingForgotten, MissedBehind, RollupsFollow, HasAbove, LegsTake, MarketTakes, LegOf;
    if a.SetCursor? {
      var fills := s.phase.fills;
      var last := fills[|fills| - 1];
      hide Less;
      AboveMovesOn(s.table, s.mark, |fills|, last);
      assert last in fills && last in s.table;
      var p :| from <= p < reach && LegOf(f, p, last);
    }
  }

  lemma {:induction false} PassesStayAhead(f: Feed, from: nat, reach: nat, acts: seq<Action>, passes: seq<Action>)
    requires Along(f, from, reach, reach, acts) && forall a :: a in passes ==> !a.Insert?
    ensures Along(f, from, reach, reach, acts + passes)
  {
    hide Exec, Ingested, MarkBelow, EveryInsertAhead, Inv, Enabled, Do;
    if passes == [] {
      assert acts + passes == acts;
    } else {
      var a, first := passes[|passes| - 1], passes[..|passes| - 1];
      assert a in passes && passes == first + [a];
      PassesStayAhead(f, from, reach, acts, first);
      assert acts + passes == acts + first + [a];
      if Exec(Empty, acts + passes).Some? {
        ExecLast(Empty, acts + first, a);
        EmptyIsFolded();
        RunKeeps(Empty, acts + first);
        PassStep(Exec(Empty, acts + first).value, a, f, from, reach);
        AheadNext(Empty, acts + first, a);
      }
    }
  }

  lemma MarkRises(f: Feed, from: nat, at: nat, reach: nat, acts: seq<Action>)
    requires Along(f, from, at, reach, acts) && at <= reach
    ensures Along(f, from, reach, reach, acts)
  {
    hide Exec, Ingested, EveryInsertAhead, LegOf;
  }

  lemma {:induction false} TurnsAreAhead(f: Feed, from: nat, turns: seq<Turn>)
    requires from <= |f.ledger| && Bounded(f, turns) && InStep(f, from, turns) && PositiveSlots(f)
    ensures var reach := Reach(from, turns);
            Along(f, from, if turns == [] then 0 else reach, reach, StepsOf(f, turns))
  {
    hide Along, SplitsNoSlot, PositiveSlots, Inserts;
    if turns == [] {
      NothingYet(f, from);
    } else {
      var before, t := turns[..|turns| - 1], turns[|turns| - 1];
      assert t in turns;
      TurnsAreAhead(f, from, before);
      var reach := Reach(from, before);
      NothingBelow(f);
      var at := if before == [] then 0 else reach;
      InsertsAreAhead(f, from, at, reach, StepsOf(f, before), t.lo, t.hi);
      var acts := StepsOf(f, before) + Inserts(f, f.ledger[t.lo..t.hi]);
      MarkRises(f, from, at, Reach(from, turns), acts);
      PassesStayAhead(f, from, Reach(from, turns), acts, t.passes);
    }
  }

  lemma NothingBelow(f: Feed)
    ensures SplitsNoSlot(f, 0)
  {
  }

  lemma NothingYet(f: Feed, from: nat)
    ensures Along(f, from, 0, from, [])
  {
  }

  /** When the deployed chain meets the condition of the fold: a feed that skips
      nothing, batch by batch, whatever it replays and wherever a pass stops or
      fails, never inserts a transaction behind the watermark, if slots rise across
      the boundary each batch begins at. Then once a pass finds nothing new the
      takes are the grouping of every fill ingested. */
  lemma ChainConverges(f: Feed, from: nat, turns: seq<Turn>)
    requires from <= |f.ledger| && Bounded(f, turns) && InStep(f, from, turns) && PositiveSlots(f)
    requires Exec(Empty, StepsOf(f, turns)).Some?
    ensures var s := Exec(Empty, StepsOf(f, turns)).value;
            && EveryInsertAhead(Empty, StepsOf(f, turns))
            && Ingested(s, f, from, Reach(from, turns))
            && (Caught(s) ==> s.takes == AllTakes(s.table))
  {
    hide Exec, Inv, EveryInsertAhead, Ingested, InStep, PositiveSlots, Caught;
    TurnsAreAhead(f, from, turns);
    EmptyIsFolded();
    if Caught(Exec(Empty, StepsOf(f, turns)).value) {
      FoldConverges(Empty, StepsOf(f, turns));
    }
  }
}
