/** The whole ingest path as a transition system: poll source, rows committed
    before the cursor is saved, and a crash allowed at any point. */
module Pipeline {
  import opened Wrappers
  import opened Ledger
  import opened Decode
  import M = PollMachine
  import PollTheorems

  datatype Config = Config(poll: M.Config, program: Pubkey, codec: Codec)

  /** `durable` counts the entries at or below the stored cursor; `hand` is a
      batch returned by the source and not yet through the sink, `committed`
      whether its rows are in. The last six fields are history: where and over
      what tables the feed began, the highest position whose rows are in, whether
      every earlier process life met the tip condition, how many of this life's
      positions have been written, and every position written, in order. */
  datatype State = State(
    src: M.State,
    tables: Tables,
    durable: nat,
    hand: Option<M.Outcome>,
    committed: bool,
    delivered: nat,
    start: nat,
    base: Tables,
    high: nat,
    sound: bool,
    flushed: nat,
    written: seq<nat>)

  datatype Action =
    | Poll(step: M.Action)
    | Deliver
    | CommitRows
    | SaveCursor
    | Crash

  function Begin(ledger: seq<Entry>, start: nat, base: Tables): State {
    State(M.Resume(ledger, start), base, start, None, false, 0, start, base, start, true, 0, [])
  }

  predicate Enabled(c: Config, s: State, a: Action) {
    match a
    case Poll(step) =>
      && M.Enabled(c.poll, s.src, step)
      && (step.CallNext? ==> s.hand.None? && s.delivered == |s.src.log|)
    case Deliver => s.hand.None? && s.delivered < |s.src.log|
    case CommitRows => s.hand.Some? && s.hand.value.Batch? && !s.committed
    case SaveCursor => s.hand.Some? && s.hand.value.Batch? && s.committed
    case Crash => true
  }

  /** The position just above a batch's cursor, the stored one if it has none. */
  function CursorOf(s: State): nat {
    if s.hand.Some? && s.hand.value.Batch? && s.hand.value.cursor.Some? then s.hand.value.cursor.value + 1 else s.durable
  }

  /** The positions this life has covered and not yet written. */
  function Unwritten(s: State): seq<nat> {
    if s.flushed <= |s.src.covered| then s.src.covered[s.flushed..] else []
  }

  function Do(c: Config, s: State, a: Action): State
    requires Enabled(c, s, a)
  {
    match a
    case Poll(step) => s.(src := M.Do(c.poll, s.src, step))
    // A failed poll is logged and retried against the same source.
    case Deliver =>
      var o := s.src.log[s.delivered];
      s.(hand := if o.Failed? then None else Some(o), committed := false, delivered := s.delivered + 1)
    case CommitRows =>
      s.(tables := WriteEvents(s.tables, EventsOf(s.hand.value.records, c.program, c.codec)),
         committed := true,
         flushed := |s.src.covered|,
         written := s.written + Unwritten(s),
         high := if s.high < CursorOf(s) then CursorOf(s) else s.high)
    case SaveCursor => s.(durable := CursorOf(s), hand := None, committed := false)
    // A sink error ends the process; the next life resumes from the stored cursor.
    case Crash =>
      s.(src := M.Resume(s.src.ledger, s.durable), hand := None, committed := false, delivered := 0,
         sound := s.sound && s.src.guarded, flushed := 0)
  }

  function Exec(c: Config, s: State, acts: seq<Action>): Option<State> {
    if acts == [] then Some(s)
    else
      match Exec(c, s, M.ButLast(acts))
      case None => None
      case Some(t) => if Enabled(c, t, M.Last(acts)) then Some(Do(c, t, M.Last(acts))) else None
  }

  // -------------------------------------------------------------- invariant

  /** Every life so far, the current one included, met the tip condition. */
  predicate AllSound(s: State) {
    s.sound && s.src.guarded
  }

  /** What the tables hold once everything in `[start, high)` is in. */
  function TablesAt(c: Config, s: State, high: nat): Tables
    requires s.start <= high <= |s.src.ledger|
  {
    WriteEvents(s.base, EventsOf(Records(s.src.ledger[s.start..high]), c.program, c.codec))
  }

  /** The outcome not yet through the sink, if any. */
  function InFlight(s: State): Option<M.Outcome> {
    if s.hand.Some? then s.hand
    else if s.delivered < |s.src.log| then Some(s.src.log[s.delivered])
    else None
  }

  /** Before it is through, the source is ahead of the store by exactly the page
      in flight; after, they agree. */
  ghost predicate FlightInv(s: State) {
    && s.delivered <= |s.src.log| <= s.delivered + 1
    && (s.hand.Some? ==> s.hand.value.Batch? && s.delivered == |s.src.log|)
    && (InFlight(s).Some? ==> s.src.phase.Idle?)
    && (s.committed ==> s.hand.Some?)
    && match InFlight(s)
       case Some(Batch(records, Some(newest), _)) =>
         && s.durable <= newest < |s.src.ledger|
         && s.src.cur == newest + 1
         && (s.src.guarded ==> records == Records(s.src.ledger[s.durable..newest + 1]))
       case Some(Batch(records, None, _)) => s.src.cur == s.durable && records == []
       case _ => s.src.cur == s.durable
  }

  /** What the batch in flight holds is what this life has covered and not yet
      written. */
  ghost predicate BatchInv(s: State)
    requires M.EmissionInv(s.src)
  {
    && s.flushed <= |s.src.covered|
    && if !s.committed && InFlight(s).Some? && InFlight(s).value.Batch? then
         InFlight(s).value.records == M.RecordsAt(s.src.ledger, Unwritten(s))
       else Unwritten(s) == []
  }

  ghost predicate Within(positions: seq<nat>, lo: nat, hi: nat) {
    forall i :: 0 <= i < |positions| ==> lo <= positions[i] < hi
  }

  /** The tables hold the events of the written positions, and nothing else is
      new in them. */
  ghost predicate WrittenInv(c: Config, s: State) {
    && s.start <= s.src.start && s.high <= |s.src.ledger|
    && Within(s.written, s.start, s.high)
    && s.tables == WriteEvents(s.base, EventsOf(M.RecordsAt(s.src.ledger, s.written), c.program, c.codec))
  }

  ghost predicate TableInv(c: Config, s: State) {
    && s.start <= s.durable <= s.high <= |s.src.ledger|
    && (s.committed ==> CursorOf(s) <= s.high)
    && (AllSound(s) ==> s.tables == TablesAt(c, s, s.high))
  }

  ghost predicate Inv(c: Config, s: State) {
    && M.Inv(c.poll, s.src)
    && FlightInv(s)
    && BatchInv(s)
    && WrittenInv(c, s)
    && TableInv(c, s)
    && (c.poll.checksLowerEnd ==> s.sound)
  }

  // -------------------------------------------------------------- the tables

  /** Re-writing a stretch already in, or one that continues it, lands exactly
      on the tables of the longer of the two. */
  lemma WriteStretch(c: Config, ledger: seq<Entry>, base: Tables, start: nat, lo: nat, high: nat, hi: nat)
    requires start <= lo <= high <= |ledger| && lo <= hi <= |ledger|
    ensures var top := if high < hi then hi else high;
            WriteEvents(WriteEvents(base, EventsOf(Records(ledger[start..high]), c.program, c.codec)),
                        EventsOf(Records(ledger[lo..hi]), c.program, c.codec))
            == WriteEvents(base, EventsOf(Records(ledger[start..top]), c.program, c.codec))
  {
    hide Records, EventsOf, WriteEvents;
    var mid := if high < hi then high else hi;
    var top := if high < hi then hi else high;
    var done := EventsOf(Records(ledger[start..high]), c.program, c.codec);
    var again := EventsOf(Records(ledger[lo..mid]), c.program, c.codec);
    var more := EventsOf(Records(ledger[mid..hi]), c.program, c.codec);
    Split(c, ledger, lo, mid, hi);
    WriteEventsConcat(WriteEvents(base, done), again, more);
    Split(c, ledger, start, lo, high);
    Split(c, ledger, lo, mid, high);
    var early := EventsOf(Records(ledger[start..lo]), c.program, c.codec);
    var late := EventsOf(Records(ledger[mid..high]), c.program, c.codec);
    assert done == early + (again + late);
    assert forall d :: d in again ==> d in done;
    WriteEventsKeeps(base, done);
    WriteEventsAgain(WriteEvents(base, done), again);
    WriteEventsConcat(base, done, more);
    if high < hi {
      Split(c, ledger, start, high, hi);
    } else {
      assert ledger[mid..hi] == [];
      NothingWritten(c, WriteEvents(base, done));
    }
  }

  lemma NothingWritten(c: Config, t: Tables)
    ensures WriteEvents(t, EventsOf(Records([]), c.program, c.codec)) == t
  {
  }

  lemma Split(c: Config, ledger: seq<Entry>, lo: nat, mid: nat, hi: nat)
    requires lo <= mid <= hi <= |ledger|
    ensures EventsOf(Records(ledger[lo..hi]), c.program, c.codec) ==
            EventsOf(Records(ledger[lo..mid]), c.program, c.codec) + EventsOf(Records(ledger[mid..hi]), c.program, c.codec)
  {
    assert ledger[lo..hi] == ledger[lo..mid] + ledger[mid..hi];
    RecordsOfConcat(ledger[lo..mid], ledger[mid..hi]);
    EventsOfConcat(Records(ledger[lo..mid]), Records(ledger[mid..hi]), c.program, c.codec);
  }

  // ------------------------------------------------------------------- steps

  lemma PollKeeps(c: Config, s: State, step: M.Action)
    requires Inv(c, s) && Enabled(c, s, Poll(step))
    ensures Inv(c, Do(c, s, Poll(step)))
  {
    hide M.Exec, Records, EventsOf, WriteEvents, M.RecordsAt, M.Emitted, M.Increasing, M.Range, M.OpenWalk, M.Chain, M.DeepWalk;
    var t := Do(c, s, Poll(step));
    M.StepKeeps(c.poll, s.src, step);
    PollFlight(c, s, step);
    PollBatch(c, s, step);
    PollWritten(c, s, step);
    hide FlightInv, BatchInv, WrittenInv;
    assert t.src.ledger[s.start..s.high] == s.src.ledger[s.start..s.high];
    assert t.src.guarded ==> s.src.guarded;
  }

  lemma PollFlight(c: Config, s: State, step: M.Action)
    requires M.HydrateInv(s.src) && M.EmissionInv(s.src) && M.WalkInv(c.poll, s.src) && FlightInv(s) && Enabled(c, s, Poll(step))
    ensures FlightInv(Do(c, s, Poll(step)))
    ensures var t := Do(c, s, Poll(step));
            && s.src.ledger <= t.src.ledger && (t.src.guarded ==> s.src.guarded)
  {
    hide M.Exec, M.RecordsAt, M.Emitted, EventsOf, WriteEvents, Records, M.Increasing, M.OpenWalk, M.Chain, M.DoWalkPage, M.DoFetchPage;
    var t := Do(c, s, Poll(step));
    match step
    case Append(entries) =>
      match InFlight(s) {
        case Some(Batch(records, Some(newest), _)) =>
          assert t.src.ledger[s.durable..newest + 1] == s.src.ledger[s.durable..newest + 1];
        case _ =>
      }
    case Commit =>
      assert InFlight(s).None?;
    case _ =>
      QuietStep(c.poll, s.src, step);
  }

  /** One more outcome, with neither records nor a cursor. */
  predicate Empty(was: seq<M.Outcome>, now: seq<M.Outcome>) {
    && |now| == |was| + 1 && was == now[..|was|]
    && (M.Last(now).Batch? ==> M.Last(now).records == [] && M.Last(now).cursor.None?)
  }

  /** A step that neither commits a page nor meets an arrival covers nothing and
      returns no records. */
  lemma QuietStep(c: M.Config, s: M.State, a: M.Action)
    requires M.Enabled(c, s, a) && !a.Append? && !a.Commit?
    ensures var t := M.Do(c, s, a);
            && t.ledger == s.ledger && t.covered == s.covered && t.cur == s.cur && t.guarded == s.guarded
            && (s.phase.Idle? ==> a.CallNext? && t.log == s.log)
            && (t.log != s.log ==> t.phase.Idle? && Empty(s.log, t.log))
  {
    hide Records, M.Reproduces, M.From, M.TipCondition, M.DoWalkPage;
    if a.WalkPage? {
      QuietWalk(c, s);
    }
  }

  lemma QuietWalk(c: M.Config, s: M.State)
    requires M.Enabled(c, s, M.WalkPage)
    ensures var t := M.DoWalkPage(c, s);
            && t.ledger == s.ledger && t.covered == s.covered && t.cur == s.cur && t.guarded == s.guarded
            && (t.log != s.log ==> t.phase.Idle? && Empty(s.log, t.log))
  {
    hide M.From;
  }

  lemma PollBatch(c: Config, s: State, step: M.Action)
    requires M.HydrateInv(s.src) && M.EmissionInv(s.src) && FlightInv(s) && BatchInv(s)
    requires Enabled(c, s, Poll(step)) && M.EmissionInv(Do(c, s, Poll(step)).src)
    ensures BatchInv(Do(c, s, Poll(step)))
  {
    hide BatchInv, FlightInv, M.EmissionInv, M.HydrateInv, M.DoWalkPage, M.DoFetchPage, M.DoHydrateNext, M.DoCommit, M.RecordsAt, M.Return;
    match step
    case Append(entries) => GrownBatch(s, Do(c, s, Poll(step)), entries);
    case Commit => CommitBatch(c, s);
    case _ =>
      QuietStep(c.poll, s.src, step);
      QuietBatch(s, Do(c, s, Poll(step)));
  }

  lemma GrownBatch(s: State, t: State, entries: seq<Entry>)
    requires M.EmissionInv(s.src) && M.EmissionInv(t.src) && BatchInv(s)
    requires t == s.(src := s.src.(ledger := s.src.ledger + entries))
    ensures BatchInv(t)
  {
    hide M.Emitted, M.RecordsAt;
    M.RecordsAtGrows(s.src.ledger, entries, Unwritten(s));
  }

  lemma QuietBatch(s: State, t: State)
    requires M.EmissionInv(s.src) && M.EmissionInv(t.src) && FlightInv(s) && BatchInv(s)
    requires t == s.(src := t.src) && t.src.ledger == s.src.ledger && t.src.covered == s.src.covered
    requires t.src.log != s.src.log ==> !s.src.phase.Idle? && Empty(s.src.log, t.src.log)
    ensures BatchInv(t)
  {
    hide M.EmissionInv, M.RecordsAt;
    NoneAt(s.src.ledger);
  }

  lemma CommitBatch(c: Config, s: State)
    requires M.HydrateInv(s.src) && M.EmissionInv(s.src) && FlightInv(s) && BatchInv(s)
    requires Enabled(c, s, Poll(M.Commit)) && M.EmissionInv(Do(c, s, Poll(M.Commit)).src)
    ensures BatchInv(Do(c, s, Poll(M.Commit)))
  {
    hide M.Exec, M.Emitted, EventsOf, WriteEvents, Records, M.RecordsAt, M.Increasing;
    var from, to := s.src.phase.from, s.src.phase.key.newest + 1;
    assert InFlight(s).None?;
    assert Unwritten(Do(c, s, Poll(M.Commit))) == M.Range(from, to);
    M.RecordsAtContiguous(s.src.ledger, from, to);
  }

  lemma NoneAt(ledger: seq<Entry>)
    ensures M.RecordsAt(ledger, []) == []
  {
  }

  lemma PollWritten(c: Config, s: State, step: M.Action)
    requires M.HydrateInv(s.src) && WrittenInv(c, s) && Enabled(c, s, Poll(step))
    ensures WrittenInv(c, Do(c, s, Poll(step)))
  {
    hide M.Exec, M.Emitted, M.Reproduces, EventsOf, WriteEvents, Records, M.RecordsAt;
    if step.Append? {
      M.RecordsAtGrows(s.src.ledger, step.entries, s.written);
    }
  }

  lemma {:induction false} RecordsAtConcat(ledger: seq<Entry>, a: seq<nat>, b: seq<nat>)
    requires Within(a, 0, |ledger|) && Within(b, 0, |ledger|)
    ensures Within(a + b, 0, |ledger|)
    ensures M.RecordsAt(ledger, a + b) == M.RecordsAt(ledger, a) + M.RecordsAt(ledger, b)
  {
    hide Records, M.RecordsAt;
    if b == [] {
      assert a + b == a;
      NoneAt(ledger);
    } else {
      var p, first := M.Last(b), M.ButLast(b);
      RecordsAtConcat(ledger, a, first);
      assert a + b == a + first + [p] && b == first + [p];
      M.RecordsAtNext(ledger, a + first, p);
      M.RecordsAtNext(ledger, first, p);
    }
  }

  lemma CommitWrites(c: Config, s: State)
    requires M.EmissionInv(s.src) && FlightInv(s) && BatchInv(s) && WrittenInv(c, s) && TableInv(c, s)
    requires Enabled(c, s, CommitRows)
    ensures WrittenInv(c, Do(c, s, CommitRows))
  {
    hide M.Emitted, EventsOf, WriteEvents, Records, M.RecordsAt, TablesAt;
    var ledger, more := s.src.ledger, Unwritten(s);
    RecordsAtConcat(ledger, s.written, more);
    var was := M.RecordsAt(ledger, s.written);
    EventsOfConcat(was, s.hand.value.records, c.program, c.codec);
    WriteEventsConcat(s.base, EventsOf(was, c.program, c.codec), EventsOf(s.hand.value.records, c.program, c.codec));
    assert Within(more, s.src.start, s.src.cur);
  }

  lemma StepKeeps(c: Config, s: State, a: Action)
    requires Inv(c, s) && Enabled(c, s, a)
    ensures Inv(c, Do(c, s, a))
  {
    hide M.Exec, Records, EventsOf, WriteEvents, M.RecordsAt, M.Emitted, M.WalkInv, M.ProgressInv, M.HydrateInv;
    match a
    case Poll(step) => PollKeeps(c, s, step);
    case Deliver =>
    case CommitRows =>
      CommitWrites(c, s);
      hide BatchInv, WrittenInv;
      assert BatchInv(Do(c, s, a)) by { CommitEmpties(s, Do(c, s, a)); }
      if s.hand.value.cursor.Some? {
        WriteStretch(c, s.src.ledger, s.base, s.start, s.durable, s.high, CursorOf(s));
      } else {
        NoRecords(c, s.tables);
      }
    case SaveCursor =>
    case Crash =>
      PollTheorems.ResumeHolds(c.poll, s.src.ledger, s.durable);
  }

  lemma CommitEmpties(s: State, t: State)
    requires M.EmissionInv(s.src) && t.src == s.src && t.flushed == |s.src.covered| && t.committed
    ensures BatchInv(t)
  {
  }

  lemma NoRecords(c: Config, t: Tables)
    ensures WriteEvents(t, EventsOf([], c.program, c.codec)) == t
  {
  }

  // ----------------------------------------------------------- crash safety

  lemma {:induction false} RunKeeps(c: Config, s: State, acts: seq<Action>)
    requires Inv(c, s) && Exec(c, s, acts).Some?
    ensures Inv(c, Exec(c, s, acts).value)
    ensures var t := Exec(c, s, acts).value;
            t.start == s.start && t.base == s.base && s.high <= t.high && s.src.ledger <= t.src.ledger
  {
    hide Inv;
    if acts != [] {
      RunKeeps(c, s, M.ButLast(acts));
      var t := Exec(c, s, M.ButLast(acts)).value;
      StepKeeps(c, t, M.Last(acts));
      StepAdvances(c, t, M.Last(acts));
    }
  }

  lemma StepAdvances(c: Config, s: State, a: Action)
    requires Inv(c, s) && Enabled(c, s, a)
    ensures var t := Do(c, s, a);
            t.start == s.start && t.base == s.base && s.high <= t.high && s.src.ledger <= t.src.ledger
  {
    hide M.Do, M.Enabled, M.WalkInv, M.HydrateInv, M.EmissionInv, M.ProgressInv, BatchInv, WrittenInv, EventsOf, WriteEvents;
    if a.Poll? {
      PollTheorems.StepAdvances(c.poll, s.src, a.step);
    }
  }

  lemma BeginHolds(c: Config, ledger: seq<Entry>, start: nat, base: Tables)
    requires c.poll.Valid() && start <= |ledger|
    ensures Inv(c, Begin(ledger, start, base))
  {
  }

  /** The latest page fetched for emission met the tip condition in the state it
      was fetched in. */
  ghost predicate FetchMetTip(c: Config, s: State, acts: seq<Action>) {
    acts != [] &&
    (if M.Last(acts) == Poll(M.FetchPage) then
       Exec(c, s, M.ButLast(acts)).Some? &&
       (var t := Exec(c, s, M.ButLast(acts)).value.src; t.pending != [] && M.TipCondition(c.poll, t, M.Last(t.pending)))
     else FetchMetTip(c, s, M.ButLast(acts)))
  }

  /** Every page committed in any process life met it when it was fetched. */
  ghost predicate CommitsMetTip(c: Config, s: State, acts: seq<Action>) {
    acts != [] ==>
      && CommitsMetTip(c, s, M.ButLast(acts))
      && (M.Last(acts) == Poll(M.Commit) ==> FetchMetTip(c, s, M.ButLast(acts)))
  }

  lemma StepTells(c: Config, s: State, a: Action)
    requires Enabled(c, s, a)
    ensures var t := Do(c, s, a);
            && (a == Poll(M.Commit) ==> s.src.phase.Hydrating?)
            && (AllSound(t) <==> AllSound(s) && (a == Poll(M.Commit) ==> s.src.phase.complete))
            && (t.src.phase.Hydrating? ==>
                  if a == Poll(M.FetchPage) then
                    s.src.pending != [] && (t.src.phase.complete <==> M.TipCondition(c.poll, s.src, M.Last(s.src.pending)))
                  else s.src.phase.Hydrating? && t.src.phase.complete == s.src.phase.complete)
  {
    hide Records, M.TipCondition, M.Reproduces, M.From, EventsOf, WriteEvents;
  }

  /** The history the state carries is that of its run. */
  lemma {:induction false} SoundTells(c: Config, s: State, acts: seq<Action>)
    requires s.src.phase.Idle? && Exec(c, s, acts).Some?
    ensures var t := Exec(c, s, acts).value;
            && (AllSound(t) <==> AllSound(s) && CommitsMetTip(c, s, acts))
            && (t.src.phase.Hydrating? ==> (t.src.phase.complete <==> FetchMetTip(c, s, acts)))
  {
    hide Do, Enabled, AllSound, M.TipCondition;
    if acts != [] {
      SoundTells(c, s, M.ButLast(acts));
      StepTells(c, Exec(c, s, M.ButLast(acts)).value, M.Last(acts));
    }
  }

  /** Over every run with crashes at any point. Whatever was skipped, the tables
      are what they began as plus the events of the positions written, all of
      them in `[start, high)`, and the stored cursor passes neither `high` nor
      the source's. When every committed page met the tip condition, as under
      the lower-end check all do, they are exactly those of the whole stretch. */
  lemma CrashSafety(c: Config, ledger: seq<Entry>, start: nat, base: Tables, acts: seq<Action>)
    requires c.poll.Valid() && start <= |ledger|
    requires Exec(c, Begin(ledger, start, base), acts).Some?
    ensures var t := Exec(c, Begin(ledger, start, base), acts).value;
            var whole := CommitsMetTip(c, Begin(ledger, start, base), acts);
            && ledger <= t.src.ledger
            && start <= t.durable <= t.src.cur <= |t.src.ledger|
            && t.durable <= t.high <= |t.src.ledger|
            && Within(t.written, start, t.high)
            && t.tables == WriteEvents(base, EventsOf(M.RecordsAt(t.src.ledger, t.written), c.program, c.codec))
            && (whole ==>
                  t.tables == WriteEvents(base, EventsOf(Records(t.src.ledger[start..t.high]), c.program, c.codec)))
            && (c.poll.checksLowerEnd ==> whole)
  {
    hide Records, EventsOf, WriteEvents, Exec, M.WalkInv, M.ProgressInv, CommitsMetTip, BatchInv, M.RecordsAt, M.Emitted;
    BeginHolds(c, ledger, start, base);
    RunKeeps(c, Begin(ledger, start, base), acts);
    SoundTells(c, Begin(ledger, start, base), acts);
  }

  /** `d` is in its table: the row held there from the start if there was one,
      and otherwise `d` itself. */
  ghost predicate Stored(base: Tables, t: Tables, d: Decoded) {
    var was, now := if d.event.FillEvent? then base.fills else base.others, if d.event.FillEvent? then t.fills else t.others;
    d.key in now && now[d.key] == if d.key in was then was[d.key] else d
  }

  lemma WrittenIsStored(base: Tables, ds: seq<Decoded>, d: Decoded)
    requires KeysAgree(ds) && d in ds
    ensures Stored(base, WriteEvents(base, ds), d)
  {
    hide WriteEvents;
    WriteEventsContent(base, ds, d.key);
    assert GivenAt(ds, d.event.FillEvent?, d.key, d);
  }

  /** The transactions of any stretch of a ledger with distinct signatures agree. */
  lemma StretchAgrees(ledger: seq<Entry>, lo: nat, hi: nat)
    requires DistinctSignatures(ledger) && lo <= hi <= |ledger|
    ensures RecordsAgree(Records(ledger[lo..hi]))
  {
    hide Records;
    var rs := Records(ledger[lo..hi]);
    forall x, y | x in rs && y in rs && x.signature == y.signature ensures x == y {
      RecordIsOf(ledger[lo..hi], x);
      RecordIsOf(ledger[lo..hi], y);
      var i :| 0 <= i < hi - lo && Record(ledger[lo..hi][i]) == Some(x);
      var j :| 0 <= j < hi - lo && Record(ledger[lo..hi][j]) == Some(y);
      assert ledger[lo..hi][i] == ledger[lo + i] && ledger[lo..hi][j] == ledger[lo + j];
    }
  }

  lemma {:induction false} RecordIsOf(entries: seq<Entry>, r: RawTx)
    requires r in Records(entries)
    ensures exists i :: 0 <= i < |entries| && Record(entries[i]) == Some(r)
  {
    var n := |entries| - 1;
    if Record(entries[n]) != Some(r) {
      RecordIsOf(entries[..n], r);
      var i :| 0 <= i < n && Record(entries[..n][i]) == Some(r);
      assert entries[..n][i] == entries[i];
    }
  }

  /** So every event of every successful transaction at or below the stored
      cursor is in the tables, whatever crashed, under its own content unless a
      row stood at its key before the feed began. */
  lemma NothingBelowTheCursorIsMissing(c: Config, ledger: seq<Entry>, start: nat, base: Tables, acts: seq<Action>, p: nat, d: Decoded)
    requires c.poll.Valid() && start <= |ledger|
    requires Exec(c, Begin(ledger, start, base), acts).Some?
    requires CommitsMetTip(c, Begin(ledger, start, base), acts)
    requires var t := Exec(c, Begin(ledger, start, base), acts).value;
             && start <= p < t.durable && p < |t.src.ledger|
             && DistinctSignatures(t.src.ledger)
             && !t.src.ledger[p].failed && t.src.ledger[p].body.Some?
             && d in DecodeTx(RawTx(t.src.ledger[p].signature, 0, t.src.ledger[p].body.value), c.program, c.codec)
    ensures Stored(base, Exec(c, Begin(ledger, start, base), acts).value.tables, d)
  {
    hide Exec, Inv, CommitsMetTip, Stored, WriteEvents, EventsOf, Records, DecodeTx, DistinctSignatures, KeysAgree, M.RecordsAt;
    CrashSafety(c, ledger, start, base, acts);
    var t := Exec(c, Begin(ledger, start, base), acts).value;
    RecordIs(t.src.ledger[p]);
    hide Record;
    EventsOfOne(c, t.src.ledger[p]);
    assert t.src.ledger[p..p + 1] == [t.src.ledger[p]];
    Split(c, t.src.ledger, start, p, p + 1);
    Split(c, t.src.ledger, start, p + 1, t.high);
    var ds := EventsOf(Records(t.src.ledger[start..t.high]), c.program, c.codec);
    StretchAgrees(t.src.ledger, start, t.high);
    EventsAgree(Records(t.src.ledger[start..t.high]), c.program, c.codec);
    WrittenIsStored(base, ds, d);
  }

  lemma RecordIs(e: Entry)
    ensures Record(e) == if !e.failed && e.body.Some? then Some(RawTx(e.signature, 0, e.body.value)) else None
  {
  }

  lemma EventsOfOne(c: Config, e: Entry)
    requires Record(e).Some?
    ensures EventsOf(Records([e]), c.program, c.codec) == DecodeTx(Record(e).value, c.program, c.codec)
  {
  }

  /** Replay after resume: two runs over the same history whose rows reach the
      same position leave the same tables, however each of them crashed. */
  lemma ReplayLeavesTheSameTables(c: Config, ledger: seq<Entry>, start: nat, base: Tables, crashed: seq<Action>, clean: seq<Action>)
    requires c.poll.Valid() && start <= |ledger|
    requires Exec(c, Begin(ledger, start, base), crashed).Some? && Exec(c, Begin(ledger, start, base), clean).Some?
    requires CommitsMetTip(c, Begin(ledger, start, base), crashed) && CommitsMetTip(c, Begin(ledger, start, base), clean)
    requires var t, u := Exec(c, Begin(ledger, start, base), crashed).value, Exec(c, Begin(ledger, start, base), clean).value;
             && t.high == u.high
             && t.high <= |t.src.ledger| && t.high <= |u.src.ledger|
             && t.src.ledger[..t.high] == u.src.ledger[..t.high]
    ensures Exec(c, Begin(ledger, start, base), crashed).value.tables == Exec(c, Begin(ledger, start, base), clean).value.tables
  {
    hide Exec, Inv, WriteEvents, EventsOf, Records, CommitsMetTip;
    var t, u := Exec(c, Begin(ledger, start, base), crashed).value, Exec(c, Begin(ledger, start, base), clean).value;
    CrashSafety(c, ledger, start, base, crashed);
    CrashSafety(c, ledger, start, base, clean);
    assert t.src.ledger[start..t.high] == t.src.ledger[..t.high][start..];
    assert u.src.ledger[start..u.high] == u.src.ledger[..u.high][start..];
  }

  /** A run may crash at any point, and its next life begins with nothing in hand,
      at the stored cursor, over the tables as they are. */
  lemma CrashAnywhere(c: Config, s: State, acts: seq<Action>)
    requires Exec(c, s, acts).Some?
    ensures Exec(c, s, acts + [Crash]).Some?
    ensures var t, u := Exec(c, s, acts).value, Exec(c, s, acts + [Crash]).value;
            && u.src == M.Resume(t.src.ledger, t.durable) && u.hand.None? && !u.committed && u.delivered == 0
            && u.tables == t.tables && u.durable == t.durable && u.written == t.written
  {
    hide M.Do, M.Enabled;
    assert M.ButLast(acts + [Crash]) == acts && M.Last(acts + [Crash]) == Crash;
  }

  predicate CrashFree(acts: seq<Action>) {
    forall i :: 0 <= i < |acts| ==> !acts[i].Crash?
  }

  /** With no crash the rows reach exactly the stored cursor, or the cursor of
      the batch about to be saved. */
  lemma {:induction false} CrashFreeRowsMeetTheCursor(c: Config, s: State, acts: seq<Action>)
    requires Inv(c, s) && s.high == s.durable && s.hand.None? && CrashFree(acts)
    requires Exec(c, s, acts).Some?
    ensures var t := Exec(c, s, acts).value;
            t.high == if t.committed then CursorOf(t) else t.durable
  {
    hide Inv, M.Exec;
    if acts != [] {
      CrashFreeRowsMeetTheCursor(c, s, M.ButLast(acts));
      RunKeeps(c, s, M.ButLast(acts));
      CursorOnlyMovesUp(c, Exec(c, s, M.ButLast(acts)).value);
      var t := Exec(c, s, M.ButLast(acts)).value;
      HandIsNotCommitted(c, t);
    }
  }

  lemma CursorOnlyMovesUp(c: Config, s: State)
    requires Inv(c, s)
    ensures s.durable <= CursorOf(s)
  {
  }

  lemma HandIsNotCommitted(c: Config, s: State)
    requires Inv(c, s)
    ensures s.committed ==> s.hand.Some? && s.hand.value.Batch?
  {
  }
}
