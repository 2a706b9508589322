/** When exactly the tables hold everything below the stored cursor. */
module Completeness {
  import opened Wrappers
  import opened Ledger
  import opened Decode
  import opened Pipeline
  import M = PollMachine
  import PollTheorems

  /** Every position below the stored cursor has been written. */
  ghost predicate Complete(s: State) {
    forall p :: s.start <= p < s.durable ==> p in s.written
  }

  /** The batch about to be saved moves the cursor over nothing that neither it nor
      an earlier batch, of whatever process life, has written. */
  ghost predicate SaveIsWhole(s: State) {
    forall p :: s.durable <= p < CursorOf(s) ==> p in s.written
  }

  /** So does every batch saved in the run. */
  ghost predicate SavesAreWhole(c: Config, s: State, acts: seq<Action>) {
    acts != [] ==>
      && SavesAreWhole(c, s, M.ButLast(acts))
      && (M.Last(acts).SaveCursor? && Exec(c, s, M.ButLast(acts)).Some? ==> SaveIsWhole(Exec(c, s, M.ButLast(acts)).value))
  }

  /** What is still to be written lies above the stored cursor. */
  ghost predicate AheadInv(s: State) {
    !s.committed ==> forall i :: 0 <= i < |Unwritten(s)| ==> s.durable <= Unwritten(s)[i]
  }

  /** What a step writes and saves. */
  lemma StepFrame(c: Config, s: State, a: Action)
    requires Enabled(c, s, a)
    ensures var t := Do(c, s, a);
            && t.start == s.start
            && t.written == (if a.CommitRows? then s.written + Unwritten(s) else s.written)
            && t.durable == (if a.SaveCursor? then CursorOf(s) else s.durable)
            && (a.CommitRows? ==> !s.committed) && (a.SaveCursor? ==> s.committed)
  {
    hide M.Do, M.Enabled, WriteEvents, EventsOf;
  }

  /** A page is committed with nothing in flight, and covers from the stored
      cursor or above. */
  lemma CommitCovers(s: State, from: nat, hi: nat, t: State)
    requires FlightInv(s) && M.EmissionInv(s.src) && BatchInv(s)
    requires !s.src.phase.Idle? && s.src.cur <= from
    requires t.src.covered == s.src.covered + M.Range(from, hi) && t.flushed == s.flushed
    ensures Unwritten(t) == M.Range(from, hi) && s.durable <= from
  {
    hide M.EmissionInv, M.RecordsAt;
    assert InFlight(s).None?;
  }

  lemma AheadKeeps(c: Config, s: State, a: Action)
    requires Inv(c, s) && AheadInv(s) && Enabled(c, s, a)
    ensures AheadInv(Do(c, s, a))
  {
    hide M.Inv, M.Do, M.Enabled, M.EmissionInv, WrittenInv, TableInv, WriteEvents, EventsOf, M.RecordsAt;
    match a
    case Poll(step) =>
      if step.Commit? {
        SourceInv(c, s);
        CommitFrame(c, s);
        CommitCovers(s, s.src.phase.from, s.src.phase.key.newest + 1, Do(c, s, a));
      } else {
        CoversNothing(c.poll, s.src, step);
      }
    case Deliver =>
    case CommitRows =>
    case SaveCursor =>
    case Crash =>
  }

  lemma SourceInv(c: Config, s: State)
    requires Inv(c, s)
    ensures M.EmissionInv(s.src) && (s.src.phase.Hydrating? ==> s.src.cur <= s.src.phase.from)
  {
  }

  lemma CommitFrame(c: Config, s: State)
    requires Enabled(c, s, Poll(M.Commit))
    ensures s.src.phase.Hydrating?
    ensures var t := Do(c, s, Poll(M.Commit));
            && t.src.covered == s.src.covered + M.Range(s.src.phase.from, s.src.phase.key.newest + 1)
            && t == s.(src := t.src)
            && t.src.start == s.src.start && (t.src.guarded ==> s.src.guarded)
  {
    hide M.Range;
  }

  lemma CoversNothing(c: M.Config, s: M.State, a: M.Action)
    requires M.Enabled(c, s, a) && !a.Commit?
    ensures M.Do(c, s, a).covered == s.covered && M.Do(c, s, a).start == s.start && M.Do(c, s, a).guarded == s.guarded
  {
    hide Records, M.Reproduces, M.From, M.TipCondition, M.DoWalkPage;
    if a.WalkPage? {
      M.WalkPageFrame(c, s);
    }
  }

  lemma CompleteStep(c: Config, s: State, a: Action)
    requires Enabled(c, s, a) && AheadInv(s) && s.start <= s.durable <= CursorOf(s)
    ensures Complete(Do(c, s, a)) <==> Complete(s) && (a.SaveCursor? ==> SaveIsWhole(s))
  {
    StepFrame(c, s, a);
    var t := Do(c, s, a);
    hide Do, Enabled, Unwritten, CursorOf;
    if a.CommitRows? {
      forall p | s.start <= p < s.durable ensures p in t.written <==> p in s.written {
      }
    }
  }

  lemma {:induction false} CompleteTells(c: Config, s: State, acts: seq<Action>)
    requires Inv(c, s) && AheadInv(s) && Complete(s) && Exec(c, s, acts).Some?
    ensures AheadInv(Exec(c, s, acts).value)
    ensures Complete(Exec(c, s, acts).value) <==> SavesAreWhole(c, s, acts)
  {
    hide Inv, Do, Enabled, AheadInv, Complete, SaveIsWhole, CursorOf;
    if acts != [] {
      CompleteTells(c, s, M.ButLast(acts));
      RunKeeps(c, s, M.ButLast(acts));
      var t := Exec(c, s, M.ButLast(acts)).value;
      CursorOnlyMovesUp(c, t);
      StartsBelow(c, t);
      AheadKeeps(c, t, M.Last(acts));
      CompleteStep(c, t, M.Last(acts));
    }
  }

  lemma StartsBelow(c: Config, s: State)
    requires Inv(c, s)
    ensures s.start <= s.durable
  {
  }

  // -------------------------------------------------- under the tip condition

  /** Where this life has met the tip condition, what it has covered and not yet
      written begins at the stored cursor, and a batch written is whole. */
  ghost predicate TipInv(s: State) {
    s.src.guarded ==>
      && s.src.start + s.flushed == (if s.committed then CursorOf(s) else s.durable)
      && (s.committed ==> SaveIsWhole(s))
  }

  lemma TipKeeps(c: Config, s: State, a: Action)
    requires Inv(c, s) && TipInv(s) && Enabled(c, s, a)
    ensures TipInv(Do(c, s, a))
  {
    hide M.Inv, M.Do, M.Enabled, M.EmissionInv, WrittenInv, TableInv, WriteEvents, EventsOf, M.RecordsAt, BatchInv;
    match a
    case Poll(step) =>
      if step.Commit? {
        CommitFrame(c, s);
      } else {
        CoversNothing(c.poll, s.src, step);
      }
    case Deliver =>
    case CommitRows => CommitIsWhole(c, s);
    case SaveCursor =>
    case Crash =>
  }

  lemma CommitIsWhole(c: Config, s: State)
    requires Inv(c, s) && TipInv(s) && Enabled(c, s, CommitRows)
    ensures TipInv(Do(c, s, CommitRows))
  {
    hide M.WalkInv, M.HydrateInv, M.ProgressInv, WrittenInv, TableInv, WriteEvents, EventsOf, M.RecordsAt, M.Emitted, M.Increasing;
    var t := Do(c, s, CommitRows);
    assert InFlight(s) == s.hand && s.durable <= s.src.cur == CursorOf(s);
    if s.src.guarded {
      var n := s.src.cur - s.src.start;
      assert s.src.covered == M.Range(s.src.start, s.src.cur) && |s.src.covered| == n;
      forall p | s.durable <= p < CursorOf(t) ensures p in t.written {
        assert Unwritten(s)[p - s.durable] == s.src.covered[p - s.src.start] == p;
      }
    }
  }

  /** The tip condition is enough: where every page committed met it, every batch
      saved is whole. */
  lemma {:induction false} TipMakesSavesWhole(c: Config, s: State, acts: seq<Action>)
    requires Inv(c, s) && TipInv(s) && AllSound(s) && s.src.phase.Idle? && Exec(c, s, acts).Some?
    requires CommitsMetTip(c, s, acts)
    ensures SavesAreWhole(c, s, acts) && TipInv(Exec(c, s, acts).value)
  {
    hide Inv, Do, Enabled, SaveIsWhole, CursorOf, FetchMetTip;
    if acts != [] {
      TipMakesSavesWhole(c, s, M.ButLast(acts));
      RunKeeps(c, s, M.ButLast(acts));
      SoundTells(c, s, M.ButLast(acts));
      var t := Exec(c, s, M.ButLast(acts)).value;
      TipKeeps(c, t, M.Last(acts));
      if M.Last(acts).SaveCursor? {
        StepFrame(c, t, M.Last(acts));
      }
    }
  }

  /** Over every run with crashes anywhere, the exact condition: everything below
      the stored cursor has been written if and only if no batch was saved over a
      position that no batch, of that or an earlier process life, had written. A
      life that skips and crashes before its cursor is saved spoils nothing; where
      every page committed met the tip condition no life skips. */
  lemma CompleteIffSavesAreWhole(c: Config, ledger: seq<Entry>, start: nat, base: Tables, acts: seq<Action>)
    requires c.poll.Valid() && start <= |ledger|
    requires Exec(c, Begin(ledger, start, base), acts).Some?
    ensures Complete(Exec(c, Begin(ledger, start, base), acts).value) <==> SavesAreWhole(c, Begin(ledger, start, base), acts)
    ensures CommitsMetTip(c, Begin(ledger, start, base), acts) ==> SavesAreWhole(c, Begin(ledger, start, base), acts)
  {
    hide Inv, Exec, CommitsMetTip, SavesAreWhole;
    BeginHolds(c, ledger, start, base);
    CompleteTells(c, Begin(ledger, start, base), acts);
    if CommitsMetTip(c, Begin(ledger, start, base), acts) {
      TipMakesSavesWhole(c, Begin(ledger, start, base), acts);
    }
  }

  // -------------------------------------------------------------- the tables

  lemma {:induction false} RecordsAtHas(ledger: seq<Entry>, positions: seq<nat>, r: RawTx)
    requires Within(positions, 0, |ledger|)
    ensures r in M.RecordsAt(ledger, positions) <==> exists p :: p in positions && Record(ledger[p]) == Some(r)
  {
    if positions != [] {
      var p, before := M.Last(positions), M.ButLast(positions);
      RecordsAtHas(ledger, before, r);
      assert positions == before + [p];
      M.RecordsAtNext(ledger, before, p);
      PollTheorems.RecordsOfOne(ledger[p]);
      hide M.RecordsAt, Records;
    }
  }

  lemma OneTransaction(ledger: seq<Entry>, p: nat, q: nat, x: RawTx, y: RawTx)
    requires DistinctSignatures(ledger) && p < |ledger| && q < |ledger|
    requires Record(ledger[p]) == Some(x) && Record(ledger[q]) == Some(y) && x.signature == y.signature
    ensures p == q
  {
  }

  lemma WrittenAgree(ledger: seq<Entry>, positions: seq<nat>)
    requires DistinctSignatures(ledger) && Within(positions, 0, |ledger|)
    ensures RecordsAgree(M.RecordsAt(ledger, positions))
  {
    hide M.RecordsAt, DistinctSignatures, Record;
    var rs := M.RecordsAt(ledger, positions);
    forall x, y | x in rs && y in rs && x.signature == y.signature ensures x == y {
      RecordsAtHas(ledger, positions, x);
      RecordsAtHas(ledger, positions, y);
      var p :| p in positions && Record(ledger[p]) == Some(x);
      var q :| q in positions && Record(ledger[q]) == Some(y);
      OneTransaction(ledger, p, q, x, y);
    }
  }

  /** An event the feed did not find there is in the tables exactly when its
      position was written, and then as itself. */
  lemma StoredIffWritten(c: Config, ledger: seq<Entry>, positions: seq<nat>, base: Tables, p: nat, d: Decoded)
    requires DistinctSignatures(ledger) && Within(positions, 0, |ledger|) && p < |ledger|
    requires !ledger[p].failed && ledger[p].body.Some?
    requires d in DecodeTx(RawTx(ledger[p].signature, 0, ledger[p].body.value), c.program, c.codec) && !Holds(base, d)
    ensures var t := WriteEvents(base, EventsOf(M.RecordsAt(ledger, positions), c.program, c.codec));
            && (Holds(t, d) <==> p in positions)
            && (Holds(t, d) ==> Stored(base, t, d))
  {
    RecordIs(ledger[p]);
    hide M.RecordsAt, DistinctSignatures, Record, WriteEvents, EventsOf, DecodeTx, Stored, KeysAgree, RecordsAgree;
    var rs, r := M.RecordsAt(ledger, positions), Record(ledger[p]).value;
    var ds := EventsOf(rs, c.program, c.codec);
    RecordsAtHas(ledger, positions, r);
    EventsAreOf(rs, c.program, c.codec, d);
    WrittenAgree(ledger, positions);
    EventsAgree(rs, c.program, c.codec);
    if p in positions {
      assert r in rs && d in ds;
      WriteEventsKeeps(base, ds);
      WrittenIsStored(base, ds, d);
    }
    if Holds(WriteEvents(base, ds), d) {
      WriteEventsContent(base, ds, d.key);
      var e :| GivenAt(ds, d.event.FillEvent?, d.key, e);
      EventsAreOf(rs, c.program, c.codec, e);
      var x :| x in rs && e in DecodeTx(x, c.program, c.codec);
      RecordsAtHas(ledger, positions, x);
      var q :| q in positions && Record(ledger[q]) == Some(x);
      EventsOfOneTransaction(x, c.program, c.codec, e, e);
      EventsOfOneTransaction(r, c.program, c.codec, d, d);
      OneTransaction(ledger, p, q, r, x);
    }
  }

  /** So over every run, for an event at or below the stored cursor that the feed
      did not find there: where every saved batch is whole it is in the tables as
      itself, and wherever it is missing some saved batch was not. */
  lemma NothingIsMissing(c: Config, ledger: seq<Entry>, start: nat, base: Tables, acts: seq<Action>, p: nat, d: Decoded)
    requires c.poll.Valid() && start <= |ledger|
    requires Exec(c, Begin(ledger, start, base), acts).Some?
    requires var t := Exec(c, Begin(ledger, start, base), acts).value;
             && start <= p < t.durable && p < |t.src.ledger| && DistinctSignatures(t.src.ledger)
             && !t.src.ledger[p].failed && t.src.ledger[p].body.Some?
             && d in DecodeTx(RawTx(t.src.ledger[p].signature, 0, t.src.ledger[p].body.value), c.program, c.codec)
             && !Holds(base, d)
    ensures var t := Exec(c, Begin(ledger, start, base), acts).value;
            && (Holds(t.tables, d) <==> p in t.written)
            && (Holds(t.tables, d) ==> Stored(base, t.tables, d))
            && (SavesAreWhole(c, Begin(ledger, start, base), acts) ==> Holds(t.tables, d))
  {
    hide Exec, Inv, CommitsMetTip, SavesAreWhole, WriteEvents, EventsOf, DecodeTx, DistinctSignatures, M.RecordsAt, Stored, Holds, Records;
    CrashSafety(c, ledger, start, base, acts);
    CompleteIffSavesAreWhole(c, ledger, start, base, acts);
    BeginHolds(c, ledger, start, base);
    RunKeeps(c, Begin(ledger, start, base), acts);
    var t := Exec(c, Begin(ledger, start, base), acts).value;
    StoredIffWritten(c, t.src.ledger, t.written, base, p, d);
  }
}
