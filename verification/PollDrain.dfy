/** What a life with no arrivals and no failures comes to, and so what a source
    can and cannot emit. */
module PollDrain {
  import opened Wrappers
  import opened Ledger
  import opened PollMachine
  import opened PollTheorems

  /** The pages of the walk so far, in flight or queued. */
  function Found(s: State): seq<Key> {
    if s.phase.Walking? then s.pending + s.phase.keys else s.pending
  }

  /** The walk saw the tip as it is now, and nothing is left once all is out. */
  ghost predicate Quiet(s: State) {
    && (Found(s) != [] ==> Found(s)[0].newest + 1 == |s.ledger|)
    && (s.reachedBound && s.pending == [] ==> s.cur == |s.ledger|)
    && (s.phase.Hydrating? ==> s.phase.complete)
  }

  /** The step a poll takes next when its calls succeed. */
  function Onward(s: State): Action {
    match s.phase
    case Idle => CallNext
    case Deciding => if !s.reachedBound then BeginWalk(16) else if s.pending != [] then FetchPage else Finish
    case Walking(_, _, _) => WalkPage
    case Hydrating(key, _, at, _, _) => if at <= key.newest then HydrateNext else Commit
  }

  lemma OnwardIsEnabled(c: Config, s: State)
    requires Inv(c, s)
    ensures Enabled(c, s, Onward(s))
  {
    hide Exec, Records, Chain, EmissionInv;
  }

  /** With the tip where it was, every queued page is found whole. */
  lemma QuietPageIsFound(c: Config, s: State)
    requires Inv(c, s) && Quiet(s) && Emitting(s)
    ensures Reproduces(c, s, Last(s.pending)) && From(c, s, Last(s.pending).before) == s.cur
    ensures TipCondition(c, s, Last(s.pending))
  {
    hide Exec, Records, EmissionInv, ProgressInv;
    assert PageOk(c.batchLimit, s.pending, s.cur, |s.ledger|, |s.pending| - 1);
  }

  lemma QuietStays(c: Config, s: State)
    requires Inv(c, s) && Quiet(s)
    ensures Enabled(c, s, Onward(s))
    ensures var t := Do(c, s, Onward(s)); Quiet(t) && t.ledger == s.ledger && (s.guarded ==> t.guarded)
  {
    hide Exec, Records, ProgressInv, Chain;
    OnwardIsEnabled(c, s);
    if Emitting(s) {
      QuietPageIsFound(c, s);
    } else if s.phase.Walking? {
      WalkFinds(c, s);
    } else if s.phase.Hydrating? {
      HydrationEnds(c, s);
    }
  }

  lemma WalkFinds(c: Config, s: State)
    requires WalkInv(c, s) && Quiet(s) && s.cur <= |s.ledger| && s.phase.Walking? && s.phase.left >= 1
    ensures var t := Do(c, s, WalkPage); Quiet(t) && t.ledger == s.ledger && t.guarded == s.guarded
  {
    hide Exec, Chain;
    var Walking(keys, before, left) := s.phase;
    assert s.pending + keys == [] ==> before.None?;
    hide OpenWalk, From;
    var key := Key(before, if Top(s, before) > 0 then Top(s, before) - 1 else 0);
    assert s.pending + (keys + [key]) == s.pending + keys + [key];
    assert (s.pending + keys + [key])[0] == if s.pending + keys == [] then key else (s.pending + keys)[0];
  }

  lemma HydrationEnds(c: Config, s: State)
    requires HydrateInv(s) && Quiet(s) && s.phase.Hydrating? && Enabled(c, s, Onward(s))
    ensures var t := Do(c, s, Onward(s)); Quiet(t) && t.ledger == s.ledger && (s.guarded ==> t.guarded)
  {
    hide Exec, Records;
  }

  /** How far the walk still has to go. */
  function WalkLeft(s: State): nat {
    if s.reachedBound then 0
    else
      var top := Top(s, WalkLow(s));
      if top <= s.cur then 1 else top - s.cur + 1
  }

  function PhaseLeft(s: State): nat {
    match s.phase
    case Idle => 3
    case Deciding => 2
    case Walking(_, _, _) => 1
    case Hydrating(_, _, _, _, _) => 1
  }

  function PageLeft(s: State): nat {
    if s.phase.Hydrating? && s.phase.at <= s.phase.key.newest then s.phase.key.newest + 1 - s.phase.at else 0
  }

  ghost predicate Done(s: State) {
    s.phase.Deciding? && s.reachedBound && s.pending == []
  }

  /** Each step onward leaves less to do. */
  lemma OnwardGoesOn(c: Config, s: State)
    requires Inv(c, s) && Quiet(s) && !Done(s) && Enabled(c, s, Onward(s))
    ensures var t := Do(c, s, Onward(s));
      && s.cur <= t.cur
      && (t.cur == s.cur ==> WalkLeft(t) <= WalkLeft(s))
      && (t.cur == s.cur && WalkLeft(t) == WalkLeft(s) ==> PhaseLeft(t) <= PhaseLeft(s))
      && (t.cur == s.cur && WalkLeft(t) == WalkLeft(s) && PhaseLeft(t) == PhaseLeft(s) ==> PageLeft(t) < PageLeft(s))
  {
    if s.phase.Walking? {
      WalkGoesOn(c, s);
    } else {
      hide Records, ProgressInv, WalkInv;
      if Emitting(s) {
        QuietPageIsFound(c, s);
        hide Reproduces, TipCondition;
      }
      hide EmissionInv, HydrateInv, From;
    }
  }

  lemma WalkGoesOn(c: Config, s: State)
    requires Inv(c, s) && s.phase.Walking? && Enabled(c, s, WalkPage)
    ensures var t := Do(c, s, WalkPage);
      && s.cur <= t.cur
      && (t.cur == s.cur ==> WalkLeft(t) < WalkLeft(s))
  {
    hide EmissionInv, HydrateInv, ProgressInv, Chain, Saturated, Records;
  }

  /** From any quiet state a finite run of successful calls drains the source to
      the tip. */
  lemma {:induction false} Drain(c: Config, s: State) returns (acts: seq<Action>)
    requires Inv(c, s) && Quiet(s)
    ensures Exec(c, s, acts).Some?
    ensures var t := Exec(c, s, acts).value;
            && t.ledger == s.ledger && t.cur == |s.ledger| && t.phase.Idle? && (s.guarded ==> t.guarded)
            && t.log != [] && Last(t.log) == Batch([], None, true)
    decreases |s.ledger| - s.cur, WalkLeft(s), PhaseLeft(s), PageLeft(s)
  {
    hide Exec, Inv, Quiet, Do, Enabled;
    QuietStays(c, s);
    if Done(s) {
      acts := [Finish];
      FinishDrained(c, s);
    } else {
      var t := Do(c, s, Onward(s));
      OnwardGoesOn(c, s);
      StepKeeps(c, s, Onward(s));
      CursorWithin(c, s);
      CursorWithin(c, t);
      var rest := Drain(c, t);
      acts := [Onward(s)] + rest;
      OneStep(c, s, Onward(s));
      ExecConcat(c, s, [Onward(s)], rest);
    }
  }

  lemma CursorWithin(c: Config, s: State)
    requires Inv(c, s)
    ensures s.cur <= |s.ledger|
  {
  }

  lemma OneStep(c: Config, s: State, a: Action)
    requires Enabled(c, s, a)
    ensures Exec(c, s, [a]) == Some(Do(c, s, a))
  {
    assert ButLast([a]) == [];
  }

  lemma FinishDrained(c: Config, s: State)
    requires Inv(c, s) && Quiet(s) && Done(s)
    ensures Exec(c, s, [Finish]).Some?
    ensures var t := Exec(c, s, [Finish]).value;
            && t.ledger == s.ledger && t.cur == |s.ledger| && t.phase.Idle? && t.guarded == s.guarded
            && t.log != [] && Last(t.log) == Batch([], None, true)
  {
    OneStep(c, s, Finish);
  }

  /** A life begun at `start` over a ledger that then stands still can run to
      caught-up, and has then emitted every success from `start` to the tip. */
  lemma DrainsFromTheStart(c: Config, ledger: seq<Entry>, start: nat) returns (acts: seq<Action>)
    requires c.Valid() && start <= |ledger|
    ensures Exec(c, Resume(ledger, start), acts).Some?
    ensures var t := Exec(c, Resume(ledger, start), acts).value;
            && t.ledger == ledger && t.cur == |ledger|
            && t.log != [] && Last(t.log) == Batch([], None, true)
            && Emitted(t.log) == Records(ledger[start..])
            && EachSuccessOnce(ledger, Range(start, |ledger|), Emitted(t.log))
  {
    hide Exec, Inv, CommitsMetTip, EachSuccessOnce;
    var s := Resume(ledger, start);
    ResumeHolds(c, ledger, start);
    acts := Drain(c, s);
    GuardedTells(c, s, acts);
    EmitsExactlyBelowCursor(c, ledger, start, acts);
    assert ledger[start..|ledger|] == ledger[start..];
  }

  /** Some life begun at `start` emits the record. */
  ghost predicate CanEmit(c: Config, ledger: seq<Entry>, start: nat, r: RawTx) {
    exists acts :: EmitsIn(c, ledger, start, acts, r)
  }

  ghost predicate EmitsIn(c: Config, ledger: seq<Entry>, start: nat, acts: seq<Action>, r: RawTx) {
    && Exec(c, Resume(ledger, start), acts).Some?
    && (var t := Exec(c, Resume(ledger, start), acts).value; DistinctSignatures(t.ledger) && r in Emitted(t.log))
  }

  /** What was in the ledger when a life began can be emitted by it exactly when
      it lies at or above the resume point, and a source given no cursor begins
      at zero: history is within its reach, down to the first entry. */
  lemma CanEmitIffAtOrAbove(c: Config, ledger: seq<Entry>, start: nat, p: nat)
    requires c.Valid() && start <= |ledger| && p < |ledger| && DistinctSignatures(ledger)
    requires !ledger[p].failed && ledger[p].body.Some?
    ensures CanEmit(c, ledger, start, RawTx(ledger[p].signature, 0, ledger[p].body.value)) <==> start <= p
  {
    hide Exec, Inv, CommitsMetTip, Records, EachSuccessOnce;
    assert Record(ledger[p]) == Some(RawTx(ledger[p].signature, 0, ledger[p].body.value));
    var r := Record(ledger[p]).value;
    if start <= p {
      var acts := DrainsFromTheStart(c, ledger, start);
      RecordOfEntry(ledger, start, p);
      assert EmitsIn(c, ledger, start, acts, r);
    }
    if CanEmit(c, ledger, start, r) {
      var acts :| EmitsIn(c, ledger, start, acts, r);
      var t := Exec(c, Resume(ledger, start), acts).value;
      EmitsExactlyBelowCursor(c, ledger, start, acts);
      RecordsAtAreDistinct(t.ledger, t.covered, start, t.cur);
      var i :| 0 <= i < |Emitted(t.log)| && Emitted(t.log)[i] == r;
      assert SignedWithin(t.ledger, start, t.cur, r.signature);
      var q :| start <= q < t.cur && t.ledger[q].signature == r.signature;
      assert t.ledger[p] == ledger[p];
    }
  }

  lemma RecordOfEntry(ledger: seq<Entry>, start: nat, p: nat)
    requires start <= p < |ledger| && Record(ledger[p]).Some?
    ensures Record(ledger[p]).value in Records(ledger[start..])
  {
    assert ledger[start..] == ledger[start..p] + [ledger[p]] + ledger[p + 1..];
    RecordsOfConcat(ledger[start..p] + [ledger[p]], ledger[p + 1..]);
    RecordsOfConcat(ledger[start..p], [ledger[p]]);
    RecordsOfOne(ledger[p]);
  }

  const NewConfig := Config(1000, false)

  lemma HistoryIsFound(e: Entry)
    ensures Exec(NewConfig, Resume([e], 0), [CallNext, BeginWalk(16), WalkPage]) ==
            Some(Resume([e], 0).(phase := Deciding, pending := [Key(None, 0)], walkBefore := Some(0), reachedBound := true))
  {
    hide Exec;
    var s0 := Resume([e], 0);
    var s1 := Do(NewConfig, s0, CallNext);
    var s2 := Do(NewConfig, s1, BeginWalk(16));
    var s3 := Do(NewConfig, s2, WalkPage);
    assert s3.pending == [Key(None, 0)];
    ExecPrefix(NewConfig, s0, [CallNext, BeginWalk(16), WalkPage], [s0, s1, s2, s3]);
  }

  /** The one queued page, hydrated. */
  function HistoryRead(e: Entry, r: RawTx): State {
    Resume([e], 0).(phase := Hydrating(Key(None, 0), 0, 1, [r], true), pending := [Key(None, 0)],
                    walkBefore := Some(0), reachedBound := true)
  }

  lemma HistoryIsRead(s: State, e: Entry)
    requires Record(e).Some?
    requires s == Resume([e], 0).(phase := Deciding, pending := [Key(None, 0)], walkBefore := Some(0), reachedBound := true)
    ensures Exec(NewConfig, s, [FetchPage, HydrateNext]) == Some(HistoryRead(e, Record(e).value))
  {
    hide Exec, Records;
    var s1 := Resume([e], 0).(phase := Hydrating(Key(None, 0), 0, 0, [], true), pending := [Key(None, 0)],
                              walkBefore := Some(0), reachedBound := true);
    HistoryIsFetched(s, e);
    RecordsOfOne(e);
    var s2 := Do(NewConfig, s1, HydrateNext);
    assert s2.phase == Hydrating(Key(None, 0), 0, 1, [Record(e).value], true);
    ExecPrefix(NewConfig, s, [FetchPage, HydrateNext], [s, s1, s2]);
  }

  lemma HistoryIsFetched(s: State, e: Entry)
    requires s == Resume([e], 0).(phase := Deciding, pending := [Key(None, 0)], walkBefore := Some(0), reachedBound := true)
    ensures Enabled(NewConfig, s, FetchPage)
    ensures Do(NewConfig, s, FetchPage) ==
            Resume([e], 0).(phase := Hydrating(Key(None, 0), 0, 0, [], true), pending := [Key(None, 0)],
                            walkBefore := Some(0), reachedBound := true)
  {
  }

  lemma HistoryIsReturned(e: Entry, r: RawTx)
    ensures var t := Exec(NewConfig, HistoryRead(e, r), [Commit, CallNext, Finish]);
            && t.Some? && t.value.cur == 1
            && t.value.log == [Batch([r], Some(0), true), Batch([], None, true)]
  {
    hide Exec, Range;
    var s2 := HistoryRead(e, r);
    var s3 := Do(NewConfig, s2, Commit);
    assert s3.pending == [];
    assert s3.log == [Batch([r], Some(0), true)];
    var s4 := Do(NewConfig, s3, CallNext);
    var s5 := Do(NewConfig, s4, Finish);
    assert s5.log == [Batch([r], Some(0), true), Batch([], None, true)] && s5.cur == 1;
    ExecPrefix(NewConfig, s2, [Commit, CallNext, Finish], [s2, s3, s4, s5]);
  }

  /** One success older than the source, under the source's own limits: the first
      poll emits it, the second reports it is caught up. */
  lemma NewSourceReadsHistory(e: Entry)
    requires !e.failed && e.body.Some?
    ensures var acts := [CallNext, BeginWalk(16), WalkPage] + [FetchPage, HydrateNext, Commit, CallNext, Finish];
            var r := Exec(NewConfig, Resume([e], 0), acts);
            && r.Some? && r.value.cur == 1
            && r.value.log == [Batch([RawTx(e.signature, 0, e.body.value)], Some(0), true), Batch([], None, true)]
  {
    hide Exec;
    HistoryIsFound(e);
    var s := Exec(NewConfig, Resume([e], 0), [CallNext, BeginWalk(16), WalkPage]).value;
    HistoryIsRead(s, e);
    HistoryIsReturned(e, Record(e).value);
    ExecConcat(NewConfig, s, [FetchPage, HydrateNext], [Commit, CallNext, Finish]);
    assert [FetchPage, HydrateNext] + [Commit, CallNext, Finish] == [FetchPage, HydrateNext, Commit, CallNext, Finish];
    ExecConcat(NewConfig, Resume([e], 0), [CallNext, BeginWalk(16), WalkPage], [FetchPage, HydrateNext, Commit, CallNext, Finish]);
  }
}
