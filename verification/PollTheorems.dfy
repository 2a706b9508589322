/** What every run of the poll source keeps: nothing skipped, nothing repeated,
    and progress under arrivals. */
module PollTheorems {
  import opened Wrappers
  import opened Ledger
  import opened PollMachine

  lemma ResumeHolds(c: Config, ledger: seq<Entry>, cur: nat)
    requires c.Valid() && cur <= |ledger|
    ensures Inv(c, Resume(ledger, cur))
  {
  }

  /** One step only ever moves the cursor up and the ledger on, and clears
      `stuck` only by moving the cursor. */
  lemma StepAdvances(c: Config, s: State, a: Action)
    requires WalkInv(c, s) && HydrateInv(s) && Enabled(c, s, a)
    ensures var t := Do(c, s, a);
            && t.start == s.start && s.cur <= t.cur && s.ledger <= t.ledger
            && (s.stuck ==> s.cur < t.cur || (t.cur == s.cur && t.stuck))
            && (s.reachedBound && Enumerates(a) ==> t.reachedBound)
  {
    hide Exec, Records;
  }

  lemma ExecLast(c: Config, s: State, acts: seq<Action>)
    requires acts != [] && Exec(c, s, acts).Some?
    ensures Exec(c, s, ButLast(acts)).Some?
    ensures Enabled(c, Exec(c, s, ButLast(acts)).value, Last(acts))
    ensures Exec(c, s, acts).value == Do(c, Exec(c, s, ButLast(acts)).value, Last(acts))
  {
  }

  lemma {:induction false} RunKeeps(c: Config, s: State, acts: seq<Action>)
    requires Inv(c, s) && Exec(c, s, acts).Some?
    ensures Inv(c, Exec(c, s, acts).value)
    ensures Exec(c, s, acts).value.start == s.start
    ensures s.cur <= Exec(c, s, acts).value.cur && s.ledger <= Exec(c, s, acts).value.ledger
  {
    if acts != [] {
      ExecLast(c, s, acts);
      RunKeeps(c, s, ButLast(acts));
      StepKeeps(c, Exec(c, s, ButLast(acts)).value, Last(acts));
      StepAdvances(c, Exec(c, s, ButLast(acts)).value, Last(acts));
    }
  }

  /** No run is spared anything: at any moment entries may arrive, any page call may
      fail, and so may the call for any transaction that is not passed over. */
  lemma AnythingMayHappen(c: Config, s: State, entries: seq<Entry>)
    ensures Enabled(c, s, Append(entries)) && Do(c, s, Append(entries)) == s.(ledger := s.ledger + entries)
    ensures s.phase.Walking? || (s.phase.Deciding? && s.reachedBound && s.pending != []) ==>
      Enabled(c, s, PageFails) && Do(c, s, PageFails) == s.(phase := Idle, log := s.log + [Failed])
    ensures s.phase.Hydrating? && s.phase.at <= s.phase.key.newest && s.phase.at < |s.ledger| && !s.ledger[s.phase.at].failed ==>
      Enabled(c, s, TransactionFails) && Do(c, s, TransactionFails) == s.(phase := Idle, log := s.log + [Failed])
  {
  }

  // ----------------------------------------------------------- no skipping

  /** The latest page fetched for emission met the tip condition in the state it
      was fetched in. */
  ghost predicate FetchMetTip(c: Config, s: State, acts: seq<Action>) {
    acts != [] &&
    (if Last(acts).FetchPage? then
       Exec(c, s, ButLast(acts)).Some? &&
       (var t := Exec(c, s, ButLast(acts)).value; t.pending != [] && TipCondition(c, t, Last(t.pending)))
     else FetchMetTip(c, s, ButLast(acts)))
  }

  /** Every page that was committed met the tip condition when it was fetched. */
  ghost predicate CommitsMetTip(c: Config, s: State, acts: seq<Action>) {
    acts != [] ==> CommitsMetTip(c, s, ButLast(acts)) && (Last(acts).Commit? ==> FetchMetTip(c, s, ButLast(acts)))
  }

  /** The history the state carries is that of its run. */
  lemma {:induction false} GuardedTells(c: Config, s: State, acts: seq<Action>)
    requires s.phase.Idle? && Exec(c, s, acts).Some?
    ensures var t := Exec(c, s, acts).value;
            && (t.guarded <==> s.guarded && CommitsMetTip(c, s, acts))
            && (t.phase.Hydrating? ==> (t.phase.complete <==> FetchMetTip(c, s, acts)))
  {
    hide Records, TipCondition, Reproduces, From;
    if acts != [] {
      ExecLast(c, s, acts);
      GuardedTells(c, s, ButLast(acts));
    }
  }

  /** How many of the positions hold a success that came with its metadata. */
  ghost function Successes(ledger: seq<Entry>, positions: seq<nat>): (n: nat)
    requires forall i :: 0 <= i < |positions| ==> positions[i] < |ledger|
    ensures n <= |positions|
  {
    if positions == [] then 0
    else
      var e := ledger[Last(positions)];
      Successes(ledger, ButLast(positions)) + (if !e.failed && e.body.Some? then 1 else 0)
  }

  /** One record for each of them, in order, and none for any other: its own
      signature, index zero and its own body. */
  ghost predicate EachSuccessOnce(ledger: seq<Entry>, positions: seq<nat>, out: seq<RawTx>) {
    && (forall i :: 0 <= i < |positions| ==> positions[i] < |ledger|)
    && |out| == Successes(ledger, positions)
    && forall i :: 0 <= i < |positions| ==> SuccessAt(ledger, positions, out, i)
  }

  ghost predicate SuccessAt(ledger: seq<Entry>, positions: seq<nat>, out: seq<RawTx>, i: nat)
    requires i < |positions| && forall j :: 0 <= j < |positions| ==> positions[j] < |ledger|
  {
    var e := ledger[positions[i]];
    !e.failed && e.body.Some? ==>
      var k := Successes(ledger, positions[..i]);
      && k < |out|
      && out[k].signature == e.signature && out[k].txnIndex == 0 && out[k].body == e.body.value
  }

  lemma {:induction false} RecordsAreTheSuccesses(ledger: seq<Entry>, positions: seq<nat>)
    requires forall i :: 0 <= i < |positions| ==> positions[i] < |ledger|
    ensures EachSuccessOnce(ledger, positions, RecordsAt(ledger, positions))
  {
    hide Records;
    if positions != [] {
      var before, n := ButLast(positions), |positions| - 1;
      var e := ledger[positions[n]];
      RecordsAreTheSuccesses(ledger, before);
      RecordsOfOne(e);
      hide RecordsAt;
      assert positions == before + [positions[n]];
      RecordsAtNext(ledger, before, positions[n]);
      forall i | 0 <= i < |positions| ensures SuccessAt(ledger, positions, RecordsAt(ledger, positions), i) {
        assert positions[..i] == before[..i];
        if i < n {
          assert SuccessAt(ledger, before, RecordsAt(ledger, before), i);
        } else {
          assert before[..n] == before;
        }
      }
    }
  }

  /** Over every run of arrivals, failures, retries and polls: what was emitted is
      one record, its own, for each success at the covered positions, in order and
      with nothing else. They lie between the resume point and the cursor, and are
      all of that stretch exactly when every committed page met the tip
      condition. */
  lemma EmitsExactlyBelowCursor(c: Config, ledger: seq<Entry>, start: nat, acts: seq<Action>)
    requires c.Valid() && start <= |ledger|
    requires Exec(c, Resume(ledger, start), acts).Some?
    ensures var t := Exec(c, Resume(ledger, start), acts).value;
            var whole := CommitsMetTip(c, Resume(ledger, start), acts);
            && ledger <= t.ledger && start <= t.cur <= |t.ledger|
            && Increasing(t.covered, start, t.cur)
            && Emitted(t.log) == RecordsAt(t.ledger, t.covered)
            && EachSuccessOnce(t.ledger, t.covered, Emitted(t.log))
            && (t.covered == Range(start, t.cur) <==> whole)
            && (whole ==> Emitted(t.log) == Records(t.ledger[start..t.cur]))
  {
    hide CommitsMetTip, EachSuccessOnce;
    ResumeHolds(c, ledger, start);
    RunKeeps(c, Resume(ledger, start), acts);
    GuardedTells(c, Resume(ledger, start), acts);
    var t := Exec(c, Resume(ledger, start), acts).value;
    RecordsAtContiguous(t.ledger, start, t.cur);
    RecordsAreTheSuccesses(t.ledger, t.covered);
  }

  /** With the lower-end check the same holds of every run, unconditionally. */
  lemma RepairedEmitsExactlyBelowCursor(c: Config, ledger: seq<Entry>, start: nat, acts: seq<Action>)
    requires c.Valid() && c.checksLowerEnd && start <= |ledger|
    requires Exec(c, Resume(ledger, start), acts).Some?
    ensures var t := Exec(c, Resume(ledger, start), acts).value;
            && ledger <= t.ledger && start <= t.cur <= |t.ledger|
            && Emitted(t.log) == Records(t.ledger[start..t.cur])
            && EachSuccessOnce(t.ledger, Range(start, t.cur), Emitted(t.log))
  {
    hide CommitsMetTip, EachSuccessOnce;
    ResumeHolds(c, ledger, start);
    RunKeeps(c, Resume(ledger, start), acts);
    GuardedTells(c, Resume(ledger, start), acts);
    EmitsExactlyBelowCursor(c, ledger, start, acts);
  }

  /** How far a log of outcomes has moved a cursor that began at `start`. */
  function Reached(start: nat, log: seq<Outcome>): nat {
    if log == [] then start
    else if Last(log).Batch? && Last(log).cursor.Some? then Last(log).cursor.value + 1
    else Reached(start, ButLast(log))
  }

  lemma ReachedNext(start: nat, log: seq<Outcome>, o: Outcome)
    ensures Reached(start, log + [o]) == if o.Batch? && o.cursor.Some? then o.cursor.value + 1 else Reached(start, log)
  {
    assert ButLast(log + [o]) == log;
  }

  /** The cursor is always that of the last batch returned with one. */
  lemma {:induction false} CursorIsTheLastReturned(c: Config, s: State, acts: seq<Action>)
    requires Exec(c, s, acts).Some? && s.cur == Reached(s.start, s.log)
    ensures var t := Exec(c, s, acts).value; t.start == s.start && t.cur == Reached(t.start, t.log)
  {
    hide Reached, Do, Enabled;
    if acts != [] {
      ExecLast(c, s, acts);
      CursorIsTheLastReturned(c, s, ButLast(acts));
      var t := Exec(c, s, ButLast(acts)).value;
      var u := Do(c, t, Last(acts));
      CursorStep(c, t, Last(acts));
      if u.log != t.log {
        ReachedNext(t.start, t.log, Last(u.log));
      }
    }
  }

  /** A step that returns nothing leaves the cursor; one that returns moves it to
      the cursor it returns, if any. */
  lemma CursorStep(c: Config, s: State, a: Action)
    requires Enabled(c, s, a)
    ensures var t := Do(c, s, a);
            && t.start == s.start
            && (t.log == s.log ==> t.cur == s.cur)
            && (t.log != s.log ==>
                  && t.log != [] && t.log == s.log + [Last(t.log)]
                  && t.cur == if Last(t.log).Batch? && Last(t.log).cursor.Some? then Last(t.log).cursor.value + 1 else s.cur)
  {
    hide DoWalkPage, Records, Reproduces, TipCondition, From;
    if a.WalkPage? {
      WalkPageFrame(c, s);
    }
  }

  /** Where the condition fails the page is still emitted, and exactly its
      `m + k - batchLimit` oldest records are passed over. */
  lemma TipPageLoss(c: Config, s: State)
    requires Inv(c, s) && !c.checksLowerEnd && Enabled(c, s, FetchPage)
    requires !TipCondition(c, s, Last(s.pending))
    ensures var t := Do(c, s, FetchPage);
            var m := Last(s.pending).newest + 1 - s.cur;
            var k := |s.ledger| - (Last(s.pending).newest + 1);
            && t.phase.Hydrating?
            && t.phase.from == s.cur + (m + k - c.batchLimit)
            && s.cur < t.phase.from <= t.phase.key.newest
  {
    assert PageOk(c.batchLimit, s.pending, s.cur, |s.ledger|, |s.pending| - 1);
  }

  /** Where it holds the reply is whole, or the walk restarts with the cursor
      where it was. */
  lemma TipConditionIsEnough(c: Config, s: State)
    requires Inv(c, s) && Enabled(c, s, FetchPage)
    requires TipCondition(c, s, Last(s.pending))
    ensures var t := Do(c, s, FetchPage);
            && t.cur == s.cur
            && (t.phase.Hydrating? ==> t.phase.from == s.cur)
            && (t.phase.Idle? ==> t.pending == [] && !t.reachedBound && t.walkBefore.None?)
  {
    assert PageOk(c.batchLimit, s.pending, s.cur, |s.ledger|, |s.pending| - 1);
  }

  function LossRun(x: Entry): seq<Action> {
    [CallNext, BeginWalk(16), WalkPage, WalkPage, Append([x]), FetchPage, HydrateNext, Commit]
  }

  const LossConfig := Config(2, false)

  lemma RecordsOfOne(e: Entry)
    ensures Records([e]) == if Record(e).Some? then [Record(e).value] else []
  {
  }

  lemma LossWalk(a: Entry, b: Entry)
    ensures var acts := LossRun(a)[..4];
            && Exec(LossConfig, Resume([a, b], 0), acts) ==
                 Some(Resume([a, b], 0).(walkBefore := Some(0), pending := [Key(None, 1)],
                                         reachedBound := true, phase := Deciding))
  {
    var c := LossConfig;
    var s := Resume([a, b], 0);
    var s1 := Do(c, s, CallNext);
    var s2 := Do(c, s1, BeginWalk(16));
    var s3 := Do(c, s2, WalkPage);
    assert s3.phase == Walking([Key(None, 1)], Some(0), 15);
    var s4 := Do(c, s3, WalkPage);
    assert s4.pending == [Key(None, 1)];
    ExecPrefix(c, s, [CallNext, BeginWalk(16), WalkPage, WalkPage], [s, s1, s2, s3, s4]);
    assert LossRun(a)[..4] == [CallNext, BeginWalk(16), WalkPage, WalkPage];
  }

  lemma LossTail(s: State, a: Entry, b: Entry, x: Entry)
    requires Record(b).Some?
    requires s == Resume([a, b], 0).(walkBefore := Some(0), pending := [Key(None, 1)],
                                     reachedBound := true, phase := Deciding)
    ensures var r := Exec(LossConfig, s, LossRun(x)[4..]);
            && r.Some? && r.value.ledger == [a, b, x] && r.value.cur == 2
            && r.value.log == [Batch([Record(b).value], Some(1), true)]
  {
    hide Exec, Records;
    var c := LossConfig;
    var s5 := Do(c, s, Append([x]));
    assert s5.ledger == [a, b, x];
    var s6 := Do(c, s5, FetchPage);
    assert s6.phase == Hydrating(Key(None, 1), 1, 1, [], false);
    RecordsOfOne(b);
    var s7 := Do(c, s6, HydrateNext);
    assert s7.phase == Hydrating(Key(None, 1), 1, 2, [Record(b).value], false);
    var s8 := Do(c, s7, Commit);
    ExecPrefix(c, s, [Append([x]), FetchPage, HydrateNext, Commit], [s, s5, s6, s7, s8]);
    assert LossRun(x)[4..] == [Append([x]), FetchPage, HydrateNext, Commit];
  }

  lemma OneEmitted(o: Outcome)
    requires o.Batch?
    ensures Emitted([o]) == o.records
  {
    EmittedExtends([], o);
  }

  /** Two records, pages of two, one arrival between enumeration and emission:
      the cursor moves past both records and the older one is never emitted. */
  lemma OneArrivalSkipsARecord(a: Entry, b: Entry, x: Entry)
    requires !a.failed && a.body.Some? && !b.failed && b.body.Some?
    ensures var r := Exec(LossConfig, Resume([a, b], 0), LossRun(x));
            && r.Some? && r.value.ledger == [a, b, x] && r.value.cur == 2
            && Emitted(r.value.log) == [RawTx(b.signature, 0, b.body.value)]
            && Records([a, b]) == [RawTx(a.signature, 0, a.body.value), RawTx(b.signature, 0, b.body.value)]
  {
    assert Record(a) == Some(RawTx(a.signature, 0, a.body.value)) && Record(b) == Some(RawTx(b.signature, 0, b.body.value));
    hide Exec, Records, Record, Emitted;
    LossWalk(a, b);
    assert LossRun(x)[..4] == LossRun(a)[..4];
    LossTail(Exec(LossConfig, Resume([a, b], 0), LossRun(x)[..4]).value, a, b, x);
    ExecConcat(LossConfig, Resume([a, b], 0), LossRun(x)[..4], LossRun(x)[4..]);
    assert LossRun(x) == LossRun(x)[..4] + LossRun(x)[4..];
    OneEmitted(Batch([Record(b).value], Some(1), true));
    RecordsOfOne(a);
    RecordsOfOne(b);
    RecordsOfConcat([a], [b]);
    assert [a, b] == [a] + [b];
  }

  /** A list of states in which each step is the action named leads to its end. */
  lemma {:induction false} ExecPrefix(c: Config, s: State, acts: seq<Action>, states: seq<State>)
    requires |states| == |acts| + 1 && states[0] == s
    requires forall i :: 0 <= i < |acts| ==> Enabled(c, states[i], acts[i]) && states[i + 1] == Do(c, states[i], acts[i])
    ensures Exec(c, s, acts) == Some(states[|acts|])
  {
    if acts != [] {
      ExecPrefix(c, s, ButLast(acts), ButLast(states));
      assert Exec(c, s, ButLast(acts)) == Some(states[|acts| - 1]);
    }
  }

  lemma {:induction false} ExecConcat(c: Config, s: State, a: seq<Action>, b: seq<Action>)
    requires Exec(c, s, a).Some?
    ensures Exec(c, s, a + b) == Exec(c, Exec(c, s, a).value, b)
  {
    if b == [] {
      assert a + b == a;
    } else {
      assert ButLast(a + b) == a + ButLast(b) && Last(a + b) == Last(b);
      ExecConcat(c, s, a, ButLast(b));
    }
  }

  // ---------------------------------------------------------- each one once

  /** No run emits a signature twice. */
  lemma EmitsEachOnce(c: Config, ledger: seq<Entry>, start: nat, acts: seq<Action>)
    requires c.Valid() && start <= |ledger|
    requires Exec(c, Resume(ledger, start), acts).Some?
    requires DistinctSignatures(Exec(c, Resume(ledger, start), acts).value.ledger)
    ensures DistinctRecords(Emitted(Exec(c, Resume(ledger, start), acts).value.log))
  {
    EmitsExactlyBelowCursor(c, ledger, start, acts);
    var t := Exec(c, Resume(ledger, start), acts).value;
    RecordsAtAreDistinct(t.ledger, t.covered, start, t.cur);
  }

  ghost predicate SignedWithin(ledger: seq<Entry>, lo: nat, hi: nat, signature: Signature)
    requires hi <= |ledger|
  {
    exists p :: lo <= p < hi && ledger[p].signature == signature
  }

  ghost predicate DistinctRecords(out: seq<RawTx>) {
    forall i, j :: 0 <= i < j < |out| ==> out[i].signature != out[j].signature
  }

  ghost predicate AllSignedWithin(ledger: seq<Entry>, lo: nat, hi: nat, out: seq<RawTx>)
    requires hi <= |ledger|
  {
    forall i :: 0 <= i < |out| ==> SignedWithin(ledger, lo, hi, out[i].signature)
  }

  lemma {:induction false} RecordsAtAreDistinct(ledger: seq<Entry>, positions: seq<nat>, lo: nat, hi: nat)
    requires DistinctSignatures(ledger) && Increasing(positions, lo, hi) && hi <= |ledger|
    ensures DistinctRecords(RecordsAt(ledger, positions))
    ensures AllSignedWithin(ledger, lo, hi, RecordsAt(ledger, positions))
  {
    hide DistinctSignatures, Records;
    if positions != [] {
      var last := Last(positions);
      var before := RecordsAt(ledger, ButLast(positions));
      RecordsAtAreDistinct(ledger, ButLast(positions), lo, last);
      RecordsOfOne(ledger[last]);
      WithinWidens(ledger, lo, last, hi, before);
      assert SignedWithin(ledger, lo, hi, ledger[last].signature);
    }
  }

  lemma WithinWidens(ledger: seq<Entry>, lo: nat, last: nat, hi: nat, out: seq<RawTx>)
    requires DistinctSignatures(ledger) && lo <= last < hi <= |ledger|
    requires AllSignedWithin(ledger, lo, last, out)
    ensures AllSignedWithin(ledger, lo, hi, out)
    ensures forall i :: 0 <= i < |out| ==> out[i].signature != ledger[last].signature
  {
  }

  // --------------------------------------------------------------- progress

  /** A page below the tip is closed and comes back exactly as enumerated,
      whatever has arrived since. */
  lemma ClosedPagesReproduce(c: Config, s: State)
    requires Inv(c, s) && Enabled(c, s, FetchPage) && Last(s.pending).before.Some?
    ensures var t := Do(c, s, FetchPage);
            t.phase.Hydrating? && t.phase.from == s.cur && t.phase.key == Last(s.pending) && t.phase.complete
  {
    assert PageOk(c.batchLimit, s.pending, s.cur, |s.ledger|, |s.pending| - 1);
  }

  predicate Restarts(c: Config, s: State, a: Action) {
    a.FetchPage? && Enabled(c, s, a) && !Reproduces(c, s, Last(s.pending))
  }

  /** What caught-up says of a batch: the walk reached its bound and every page it
      found has been emitted, the newest of them last. */
  lemma CaughtUpTells(c: Config, s: State, a: Action)
    requires Inv(c, s) && Enabled(c, s, a)
    requires Do(c, s, a).log != s.log && Last(Do(c, s, a).log).Batch?
    ensures var t, b := Do(c, s, a), Last(Do(c, s, a).log);
            && (b.caughtUp <==> s.reachedBound && t.pending == [] && !Restarts(c, s, a))
            && (b.caughtUp && b.cursor.Some? ==> s.pending != [] && t.cur == s.pending[0].newest + 1)
            && (b.cursor.None? ==> b.records == [] && t.cur == s.cur)
  {
    hide Records, Emitted, EmissionInv, ProgressInv, Chain, Saturated, From, TipCondition;
  }

  /** From a restart on, either the cursor has moved or the restart is still
      the last thing that happened to the walk. */
  lemma {:induction false} StuckUntilTheCursorMoves(c: Config, s: State, acts: seq<Action>)
    requires Inv(c, s) && s.stuck && Exec(c, s, acts).Some?
    ensures var t := Exec(c, s, acts).value;
            s.cur < t.cur || (t.cur == s.cur && t.stuck)
  {
    if acts != [] {
      ExecLast(c, s, acts);
      StuckUntilTheCursorMoves(c, s, ButLast(acts));
      RunKeeps(c, s, ButLast(acts));
      StepAdvances(c, Exec(c, s, ButLast(acts)).value, Last(acts));
    }
  }

  /** The walk after a restart cannot restart again: its oldest page is closed. */
  lemma NoRestartWhileStuck(c: Config, s: State)
    requires Inv(c, s) && s.stuck
    ensures !Restarts(c, s, FetchPage)
  {
    hide Exec, Records, Emitted, EmissionInv;
    if Emitting(s) {
      assert PageOk(c.batchLimit, s.pending, s.cur, |s.ledger|, |s.pending| - 1);
    }
  }

  /** Between two restarts caused by an unreproducible page the cursor strictly
      advances, under any arrivals and failures. */
  lemma CursorMovesBetweenRestarts(c: Config, s: State, acts: seq<Action>)
    requires Inv(c, s) && Restarts(c, s, FetchPage)
    requires Exec(c, Do(c, s, FetchPage), acts).Some?
    requires Restarts(c, Exec(c, Do(c, s, FetchPage), acts).value, FetchPage)
    ensures s.cur < Exec(c, Do(c, s, FetchPage), acts).value.cur
  {
    hide Exec, Inv;
    StepKeeps(c, s, FetchPage);
    var r := Do(c, s, FetchPage);
    StuckUntilTheCursorMoves(c, r, acts);
    RunKeeps(c, r, acts);
    if Exec(c, r, acts).value.stuck {
      NoRestartWhileStuck(c, Exec(c, r, acts).value);
    }
  }

  /** Where the walk continues from, in flight or between polls. */
  function WalkLow(s: State): Option<nat> {
    if s.phase.Walking? then s.phase.before else s.walkBefore
  }

  predicate Enumerates(a: Action) {
    a.Append? || a.CallNext? || a.BeginWalk? || a.WalkPage?
  }

  function PageCalls(acts: seq<Action>): nat {
    if acts == [] then 0 else PageCalls(ButLast(acts)) + (if Last(acts).WalkPage? then 1 else 0)
  }

  lemma WalkStep(c: Config, s: State, a: Action)
    requires Inv(c, s) && WalkLow(s).Some? && !s.reachedBound
    requires Enumerates(a) && Enabled(c, s, a) && !Do(c, s, a).reachedBound
    ensures var t := Do(c, s, a);
            && t.cur == s.cur && WalkLow(t).Some? && t.cur <= WalkLow(t).value
            && WalkLow(t).value + (if a.WalkPage? then c.batchLimit else 0) == WalkLow(s).value
  {
    hide EmissionInv, ProgressInv, HydrateInv, Chain, Saturated, Records;
  }

  /** The positions the page calls consume, a whole limit each. */
  function Consumed(limit: nat, acts: seq<Action>): nat {
    if acts == [] then 0 else Consumed(limit, ButLast(acts)) + (if Last(acts).WalkPage? then limit else 0)
  }

  lemma {:induction false} ConsumedIs(limit: nat, acts: seq<Action>)
    ensures Consumed(limit, acts) == limit * PageCalls(acts)
  {
    if acts != [] {
      ConsumedIs(limit, ButLast(acts));
      OneMoreCall(limit, PageCalls(ButLast(acts)));
    }
  }

  lemma OneMoreCall(limit: nat, calls: nat)
    ensures limit * (calls + 1) == limit * calls + limit
  {
  }

  lemma {:induction false} WalkConsumes(c: Config, s: State, acts: seq<Action>)
    requires Inv(c, s) && !s.reachedBound && WalkLow(s).Some?
    requires forall i :: 0 <= i < |acts| ==> Enumerates(acts[i])
    requires Exec(c, s, acts).Some? && !Exec(c, s, acts).value.reachedBound
    ensures var t := Exec(c, s, acts).value;
            && t.cur == s.cur && WalkLow(t).Some?
            && t.cur <= WalkLow(t).value
            && WalkLow(t).value + Consumed(c.batchLimit, acts) == WalkLow(s).value
  {
    if acts == [] {
      WalkLowIsAbove(c, s);
    } else {
      hide Inv, WalkLow, Do, Enabled;
      ExecLast(c, s, acts);
      RunKeeps(c, s, ButLast(acts));
      var t := Exec(c, s, ButLast(acts)).value;
      BoundStays(c, t, Last(acts));
      WalkConsumes(c, s, ButLast(acts));
      WalkStep(c, t, Last(acts));
    }
  }

  lemma WalkLowIsAbove(c: Config, s: State)
    requires Inv(c, s) && !s.reachedBound && WalkLow(s).Some?
    ensures s.cur <= WalkLow(s).value
  {
  }

  lemma BoundStays(c: Config, s: State, a: Action)
    requires Inv(c, s) && Enabled(c, s, a) && Enumerates(a)
    ensures s.reachedBound ==> Do(c, s, a).reachedBound
  {
    hide EmissionInv, ProgressInv;
    StepAdvances(c, s, a);
  }

  /** The backward walk terminates under unbounded arrivals: short of the bound
      each page call consumes exactly `batchLimit` positions, so from position
      `b` at most `(b - cur) / batchLimit` calls can leave it unfinished. */
  lemma WalkTerminates(c: Config, s: State, acts: seq<Action>)
    requires Inv(c, s) && !s.reachedBound && WalkLow(s).Some?
    requires forall i :: 0 <= i < |acts| ==> Enumerates(acts[i])
    requires Exec(c, s, acts).Some? && !Exec(c, s, acts).value.reachedBound
    ensures var t := Exec(c, s, acts).value;
            && t.cur == s.cur && WalkLow(t).Some?
            && t.cur <= WalkLow(t).value
            && WalkLow(t).value + c.batchLimit * PageCalls(acts) == WalkLow(s).value
  {
    hide Inv, WalkLow, Exec, PageCalls, Consumed;
    WalkConsumes(c, s, acts);
    ConsumedIs(c.batchLimit, acts);
  }
}
