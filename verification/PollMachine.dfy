/** The poll source as a transition system over ledger positions.

    Its steps are the individual RPC calls of one `next`, interleaved with
    arrivals at the tip. `RpcPollSource` shows that the signature-level code
    takes only these steps; this module shows what every run of them keeps. */
module PollMachine {
  import opened Wrappers
  import opened Ledger

  /** `checksLowerEnd` is false for the code. True selects the repaired variant,
      which also restarts when a reply no longer reaches the page's oldest
      record, that is, the first position above the cursor. */
  datatype Config = Config(batchLimit: nat, checksLowerEnd: bool) {
    predicate Valid() { 1 <= batchLimit }
  }

  /** A queued page: the exclusive upper position it was fetched with (`None` is
      the tip) and the position of its newest record when enumerated. */
  datatype Key = Key(before: Option<nat>, newest: nat)

  datatype Outcome = Failed | Batch(records: seq<RawTx>, cursor: Option<nat>, caughtUp: bool)

  /** Where an in-flight `next` stands. */
  datatype Phase =
    | Idle
    | Deciding
    | Walking(keys: seq<Key>, before: Option<nat>, left: nat)
    | Hydrating(key: Key, from: nat, at: nat, out: seq<RawTx>, complete: bool)

  /** `cur` counts the entries at or below the resume cursor. The last five
      fields are history: what `next` returned, which positions were emitted,
      where this process life began, whether every committed page met the tip
      condition, and whether the walk restarted since the cursor last moved. */
  datatype State = State(
    ledger: seq<Entry>,
    cur: nat,
    walkBefore: Option<nat>,
    pending: seq<Key>,
    reachedBound: bool,
    phase: Phase,
    log: seq<Outcome>,
    covered: seq<nat>,
    start: nat,
    guarded: bool,
    stuck: bool)

  datatype Action =
    | Append(entries: seq<Entry>)
    | CallNext
    | BeginWalk(pages: nat)
    | WalkPage
    | PageFails
    | FetchPage
    | HydrateNext
    | TransactionFails
    | Commit
    | Finish

  function Resume(ledger: seq<Entry>, cur: nat): State {
    State(ledger, cur, None, [], false, Idle, [], [], cur, true, false)
  }

  // ---------------------------------------------------------------- steps

  function Top(s: State, before: Option<nat>): nat {
    if before.None? then |s.ledger| else before.value
  }

  function From(c: Config, s: State, before: Option<nat>): nat {
    ReplyFrom(s.cur, Top(s, before), c.batchLimit)
  }

  function Last<T>(xs: seq<T>): T
    requires xs != []
  {
    xs[|xs| - 1]
  }

  function ButLast<T>(xs: seq<T>): seq<T>
    requires xs != []
  {
    xs[..|xs| - 1]
  }

  /** Whether the reply still holds the page: the code's test on its newest
      record, and the variant's on its oldest. */
  predicate Reproduces(c: Config, s: State, key: Key) {
    && s.cur < Top(s, key.before)
    && From(c, s, key.before) <= key.newest < Top(s, key.before)
    && (c.checksLowerEnd ==> From(c, s, key.before) <= s.cur)
  }

  /** The tip condition: a page of `m` records with `k` arrivals above it comes
      back whole when `m + k <= batchLimit`, and is not found at all when
      `k >= batchLimit`. Closed pages are always whole. */
  predicate TipCondition(c: Config, s: State, key: Key) {
    key.before.None? ==>
      var m := key.newest + 1 - s.cur;
      var k := |s.ledger| - (key.newest + 1);
      m + k <= c.batchLimit || k >= c.batchLimit
  }

  predicate Emitting(s: State) {
    s.phase.Deciding? && s.reachedBound && s.pending != []
  }

  predicate Enabled(c: Config, s: State, a: Action) {
    match a
    case Append(entries) => true
    case CallNext => s.phase.Idle?
    case BeginWalk(pages) => s.phase.Deciding? && !s.reachedBound && pages >= 1
    case WalkPage => s.phase.Walking? && s.phase.left >= 1
    case PageFails => s.phase.Walking? || Emitting(s)
    case FetchPage => Emitting(s)
    case HydrateNext => s.phase.Hydrating? && s.phase.at <= s.phase.key.newest && s.phase.at < |s.ledger|
    case TransactionFails =>
      && s.phase.Hydrating? && s.phase.at <= s.phase.key.newest
      && s.phase.at < |s.ledger| && !s.ledger[s.phase.at].failed
    case Commit => s.phase.Hydrating? && s.phase.at == s.phase.key.newest + 1 && s.pending != []
    case Finish => s.phase.Deciding? && s.reachedBound && s.pending == []
  }

  function Return(s: State, o: Outcome): State {
    s.(phase := Idle, log := s.log + [o])
  }

  function Restart(s: State): State {
    s.(pending := [], reachedBound := false, walkBefore := None)
  }

  function Extend(s: State, keys: seq<Key>, resume: Option<nat>, reached: bool): State {
    s.(pending := s.pending + keys, walkBefore := resume, reachedBound := reached)
  }

  function DoWalkPage(c: Config, s: State): State
    requires Enabled(c, s, WalkPage)
  {
    var Walking(keys, before, left) := s.phase;
    var top := Top(s, before);
    if top <= s.cur then Extend(s, keys, before, true).(phase := Deciding)
    else
      var from := From(c, s, before);
      var keys' := keys + [Key(before, top - 1)];
      if top - from < c.batchLimit then Extend(s, keys', Some(from), true).(phase := Deciding)
      else if left == 1 then Return(Extend(s, keys', Some(from), false), Batch([], None, false))
      else s.(phase := Walking(keys', Some(from), left - 1))
  }

  function DoFetchPage(c: Config, s: State): State
    requires Enabled(c, s, FetchPage)
  {
    var key := Last(s.pending);
    if Reproduces(c, s, key) then
      var from := From(c, s, key.before);
      s.(phase := Hydrating(key, from, from, [], TipCondition(c, s, key)))
    else
      Return(Restart(s), Batch([], None, false)).(stuck := true)
  }

  function DoHydrateNext(c: Config, s: State): State
    requires Enabled(c, s, HydrateNext)
  {
    var Hydrating(key, from, at, out, complete) := s.phase;
    s.(phase := Hydrating(key, from, at + 1, out + Records([s.ledger[at]]), complete))
  }

  function DoCommit(c: Config, s: State): State
    requires Enabled(c, s, Commit)
  {
    var Hydrating(key, from, at, out, complete) := s.phase;
    var rest := ButLast(s.pending);
    var t := s.(pending := rest, cur := key.newest + 1,
                covered := s.covered + Range(from, key.newest + 1),
                guarded := s.guarded && complete, stuck := false);
    Return(t, Batch(out, Some(key.newest), s.reachedBound && rest == []))
  }

  function Do(c: Config, s: State, a: Action): State
    requires Enabled(c, s, a)
  {
    match a
    case Append(entries) => s.(ledger := s.ledger + entries)
    case CallNext => s.(phase := Deciding)
    case BeginWalk(pages) => s.(phase := Walking([], s.walkBefore, pages))
    case WalkPage => DoWalkPage(c, s)
    case PageFails => Return(s, Failed)
    case FetchPage => DoFetchPage(c, s)
    case HydrateNext => DoHydrateNext(c, s)
    case TransactionFails => Return(s, Failed)
    case Commit => DoCommit(c, s)
    case Finish => Return(Restart(s), Batch([], None, true))
  }

  /** The state a list of actions leads to, `None` if one was not enabled. */
  function Exec(c: Config, s: State, acts: seq<Action>): Option<State> {
    if acts == [] then Some(s)
    else
      match Exec(c, s, ButLast(acts))
      case None => None
      case Some(t) => if Enabled(c, t, Last(acts)) then Some(Do(c, t, Last(acts))) else None
  }

  // ------------------------------------------------- what a run has emitted

  function Range(lo: nat, hi: nat): (r: seq<nat>)
    ensures |r| == if lo <= hi then hi - lo else 0
    ensures forall i :: 0 <= i < |r| ==> r[i] == lo + i
  {
    if hi <= lo then [] else seq(hi - lo, i => lo + i)
  }

  function Emitted(log: seq<Outcome>): seq<RawTx> {
    if log == [] then []
    else Emitted(ButLast(log)) + (if Last(log).Batch? then Last(log).records else [])
  }

  /** The records at a list of positions. */
  function RecordsAt(ledger: seq<Entry>, positions: seq<nat>): seq<RawTx>
    requires forall i :: 0 <= i < |positions| ==> positions[i] < |ledger|
  {
    if positions == [] then []
    else RecordsAt(ledger, ButLast(positions)) + Records([ledger[Last(positions)]])
  }

  ghost predicate Increasing(positions: seq<nat>, lo: nat, hi: nat) {
    && (forall i :: 0 <= i < |positions| ==> lo <= positions[i] < hi)
    && (forall i, j :: 0 <= i < j < |positions| ==> positions[i] < positions[j])
  }

  // -------------------------------------------------------------- invariant

  /** Page `i` of a chain ends just above page `i + 1`, the last one at `low`. */
  function PageLow(keys: seq<Key>, low: nat, i: nat): nat
    requires i < |keys|
  {
    if i + 1 < |keys| then keys[i + 1].newest + 1 else low
  }

  ghost predicate PageOk(limit: nat, keys: seq<Key>, low: nat, n: nat, i: nat)
    requires i < |keys|
  {
    && PageLow(keys, low, i) <= keys[i].newest < n
    && keys[i].newest + 1 - PageLow(keys, low, i) <= limit
    && keys[i].before == (if i == 0 then None else Some(keys[i].newest + 1))
  }

  /** Keys tile `[low, keys[0].newest]` in pages of at most `limit`, and only
      the first was fetched from the tip. */
  ghost predicate Chain(limit: nat, keys: seq<Key>, low: nat, n: nat) {
    forall i :: 0 <= i < |keys| ==> PageOk(limit, keys, low, n, i)
  }

  ghost predicate PageFull(limit: nat, keys: seq<Key>, low: nat, i: nat)
    requires i < |keys|
  {
    keys[i].newest + 1 - PageLow(keys, low, i) == limit
  }

  /** While the walk is short of the bound every page found so far is full. */
  ghost predicate Saturated(limit: nat, keys: seq<Key>, low: nat) {
    forall i :: 0 <= i < |keys| ==> PageFull(limit, keys, low, i)
  }

  /** `keys` and `low` describe a walk of ledger `[cur, n)` that has not reached
      its bound. */
  ghost predicate OpenWalk(limit: nat, keys: seq<Key>, low: Option<nat>, cur: nat, n: nat) {
    if keys == [] then low.None?
    else low.Some? && cur <= low.value && Chain(limit, keys, low.value, n) && Saturated(limit, keys, low.value)
  }

  ghost predicate WalkInv(c: Config, s: State) {
    if s.reachedBound then
      !s.phase.Walking? && Chain(c.batchLimit, s.pending, s.cur, |s.ledger|)
    else
      && OpenWalk(c.batchLimit, s.pending, s.walkBefore, s.cur, |s.ledger|)
      && (s.phase.Walking? ==>
            && 1 <= s.phase.left
            && OpenWalk(c.batchLimit, s.pending + s.phase.keys, s.phase.before, s.cur, |s.ledger|))
  }

  ghost predicate HydrateInv(s: State) {
    s.phase.Hydrating? ==>
      var Hydrating(key, from, at, out, complete) := s.phase;
      && s.reachedBound && s.pending != [] && Last(s.pending) == key
      && s.cur <= from <= at <= key.newest + 1
      && from <= key.newest < |s.ledger|
      && out == Records(s.ledger[from..at])
      && (complete <==> from == s.cur)
  }

  ghost predicate EmissionInv(s: State) {
    && s.start <= s.cur <= |s.ledger|
    && Increasing(s.covered, s.start, s.cur)
    && Emitted(s.log) == RecordsAt(s.ledger, s.covered)
    && (s.guarded <==> s.covered == Range(s.start, s.cur))
  }

  /** The first page of a walk, if any, was enumerated with more than one page
      above the cursor. */
  ghost predicate DeepWalk(limit: nat, keys: seq<Key>, cur: nat) {
    keys != [] ==> keys[0].newest + 1 > cur + limit
  }

  /** After a restart the window exceeds one page, so the new walk has at least
      two pages and its oldest one is closed. */
  ghost predicate ProgressInv(c: Config, s: State) {
    s.stuck ==>
      && |s.ledger| > s.cur + c.batchLimit
      && DeepWalk(c.batchLimit, s.pending, s.cur)
      && (s.phase.Walking? ==> DeepWalk(c.batchLimit, s.pending + s.phase.keys, s.cur))
      && (s.reachedBound ==> |s.pending| >= 2)
  }

  ghost predicate VariantInv(c: Config, s: State) {
    c.checksLowerEnd ==> s.guarded && (s.phase.Hydrating? ==> s.phase.complete)
  }

  ghost predicate Inv(c: Config, s: State) {
    && c.Valid()
    && EmissionInv(s)
    && WalkInv(c, s)
    && HydrateInv(s)
    && ProgressInv(c, s)
    && VariantInv(c, s)
  }

  // ------------------------------------------------------------- supporting

  lemma ExecExtends(c: Config, s: State, acts: seq<Action>, a: Action)
    requires Exec(c, s, acts).Some? && Enabled(c, Exec(c, s, acts).value, a)
    ensures Exec(c, s, acts + [a]) == Some(Do(c, Exec(c, s, acts).value, a))
  {
  }

  lemma EmittedExtends(log: seq<Outcome>, o: Outcome)
    ensures Emitted(log + [o]) == Emitted(log) + (if o.Batch? then o.records else [])
  {
  }

  lemma {:induction false} RecordsAtGrows(ledger: seq<Entry>, more: seq<Entry>, positions: seq<nat>)
    requires forall i :: 0 <= i < |positions| ==> positions[i] < |ledger|
    ensures RecordsAt(ledger + more, positions) == RecordsAt(ledger, positions)
  {
    if positions != [] {
      RecordsAtGrows(ledger, more, ButLast(positions));
      assert (ledger + more)[Last(positions)] == ledger[Last(positions)];
    }
  }

  lemma RecordsAtNext(ledger: seq<Entry>, positions: seq<nat>, p: nat)
    requires forall i :: 0 <= i < |positions| ==> positions[i] < |ledger|
    requires p < |ledger|
    ensures RecordsAt(ledger, positions + [p]) == RecordsAt(ledger, positions) + Records([ledger[p]])
  {
  }

  lemma RecordsNext(ledger: seq<Entry>, lo: nat, hi: nat)
    requires lo < hi <= |ledger|
    ensures Records(ledger[lo..hi]) == Records(ledger[lo..hi - 1]) + Records([ledger[hi - 1]])
  {
    RecordsOfConcat(ledger[lo..hi - 1], [ledger[hi - 1]]);
    assert ledger[lo..hi] == ledger[lo..hi - 1] + [ledger[hi - 1]];
  }

  /** Emitting a contiguous stretch appends exactly its records. */
  lemma {:induction false} RecordsAtRange(ledger: seq<Entry>, positions: seq<nat>, lo: nat, hi: nat)
    requires forall i :: 0 <= i < |positions| ==> positions[i] < |ledger|
    requires lo <= hi <= |ledger|
    ensures RecordsAt(ledger, positions + Range(lo, hi)) == RecordsAt(ledger, positions) + Records(ledger[lo..hi])
    decreases hi - lo
  {
    hide RecordsAt;
    if lo == hi {
      assert positions + Range(lo, hi) == positions;
    } else {
      var before := positions + Range(lo, hi - 1);
      assert before + [hi - 1] == positions + Range(lo, hi);
      RecordsAtNext(ledger, before, hi - 1);
      RecordsAtRange(ledger, positions, lo, hi - 1);
      RecordsNext(ledger, lo, hi);
    }
  }

  lemma RecordsAtContiguous(ledger: seq<Entry>, lo: nat, hi: nat)
    requires lo <= hi <= |ledger|
    ensures RecordsAt(ledger, Range(lo, hi)) == Records(ledger[lo..hi])
  {
    RecordsAtRange(ledger, [], lo, hi);
    assert [] + Range(lo, hi) == Range(lo, hi);
  }

  // --------------------------------------------- every step keeps the invariant

  lemma AppendKeepsEmission(s: State, entries: seq<Entry>)
    requires EmissionInv(s)
    ensures EmissionInv(s.(ledger := s.ledger + entries))
  {
    RecordsAtGrows(s.ledger, entries, s.covered);
  }

  lemma AppendKeepsHydrate(s: State, entries: seq<Entry>)
    requires HydrateInv(s)
    ensures HydrateInv(s.(ledger := s.ledger + entries))
  {
    if s.phase.Hydrating? {
      assert (s.ledger + entries)[s.phase.from..s.phase.at] == s.ledger[s.phase.from..s.phase.at];
    }
  }

  lemma ChainGrows(limit: nat, keys: seq<Key>, low: nat, n: nat, m: nat)
    requires Chain(limit, keys, low, n) && n <= m
    ensures Chain(limit, keys, low, m)
  {
    forall i | 0 <= i < |keys| ensures PageOk(limit, keys, low, m, i) {
      assert PageOk(limit, keys, low, n, i);
    }
  }

  lemma AppendKeepsWalk(c: Config, s: State, entries: seq<Entry>)
    requires WalkInv(c, s)
    ensures WalkInv(c, s.(ledger := s.ledger + entries))
  {
    var n, m := |s.ledger|, |s.ledger + entries|;
    if s.reachedBound {
      ChainGrows(c.batchLimit, s.pending, s.cur, n, m);
    } else {
      if s.pending != [] {
        ChainGrows(c.batchLimit, s.pending, s.walkBefore.value, n, m);
      }
      if s.phase.Walking? && s.pending + s.phase.keys != [] {
        ChainGrows(c.batchLimit, s.pending + s.phase.keys, s.phase.before.value, n, m);
      }
    }
  }

  lemma AppendKeeps(c: Config, s: State, entries: seq<Entry>)
    requires Inv(c, s)
    ensures Inv(c, Do(c, s, Append(entries)))
  {
    AppendKeepsEmission(s, entries);
    AppendKeepsHydrate(s, entries);
    AppendKeepsWalk(c, s, entries);
  }

  /** A non-empty reply extends the chain by the page it holds. */
  lemma ChainExtends(limit: nat, keys: seq<Key>, low: Option<nat>, cur: nat, n: nat, from: nat)
    requires OpenWalk(limit, keys, low, cur, n)
    requires cur <= from && 1 <= limit
    requires var top := if low.None? then n else low.value;
             from < top && top - from <= limit
    ensures var top := if low.None? then n else low.value;
            var keys' := keys + [Key(low, top - 1)];
            && Chain(limit, keys', from, n)
            && (top - from == limit ==> Saturated(limit, keys', from))
  {
    var top := if low.None? then n else low.value;
    var keys' := keys + [Key(low, top - 1)];
    forall i | 0 <= i < |keys'|
      ensures PageOk(limit, keys', from, n, i)
      ensures top - from == limit ==> PageFull(limit, keys', from, i)
    {
      if i < |keys| {
        assert keys'[i] == keys[i];
        assert PageLow(keys', from, i) == PageLow(keys, low.value, i);
        assert PageOk(limit, keys, low.value, n, i);
        assert PageFull(limit, keys, low.value, i);
      }
      if i == |keys| && i > 0 {
        assert PageOk(limit, keys, low.value, n, i - 1);
      }
    }
  }

  lemma WalkPageKeepsWalk(c: Config, s: State)
    requires c.Valid() && WalkInv(c, s) && s.cur <= |s.ledger| && Enabled(c, s, WalkPage)
    ensures WalkInv(c, Do(c, s, WalkPage))
  {
    var Walking(keys, before, left) := s.phase;
    var all := s.pending + keys;
    var top := Top(s, before);
    if s.cur < top {
      var from := From(c, s, before);
      ChainExtends(c.batchLimit, all, before, s.cur, |s.ledger|, from);
      assert s.pending + (keys + [Key(before, top - 1)]) == all + [Key(before, top - 1)];
    } else if all != [] {
      assert top == s.cur;
    }
  }

  lemma WalkPageKeepsProgress(c: Config, s: State)
    requires c.Valid() && WalkInv(c, s) && ProgressInv(c, s) && Enabled(c, s, WalkPage)
    ensures ProgressInv(c, Do(c, s, WalkPage))
  {
    hide Exec, Chain, Records;
    var Walking(keys, before, left) := s.phase;
    var all := s.pending + keys;
    if s.stuck {
      if |all| == 1 {
        assert PageFull(c.batchLimit, all, before.value, 0);
      }
      assert forall k: Key :: s.pending + (keys + [k]) == all + [k];
    }
  }

  lemma WalkPageKeeps(c: Config, s: State)
    requires Inv(c, s) && Enabled(c, s, WalkPage)
    ensures Inv(c, Do(c, s, WalkPage))
  {
    hide RecordsAt, Emitted, Increasing, Range, WalkInv, ProgressInv;
    assert s.cur <= |s.ledger|;
    hide EmissionInv;
    WalkPageKeepsWalk(c, s);
    WalkPageKeepsProgress(c, s);
    WalkPageFrame(c, s);
    hide Do;
    NothingKeepsEmission(s, Do(c, s, WalkPage), Batch([], None, false));
  }

  /** What `t` emitted and where it has got to is what `s` had, but for one more
      outcome at most. */
  predicate SameEmitted(s: State, t: State, o: Outcome) {
    && t.ledger == s.ledger && t.cur == s.cur && t.start == s.start && t.covered == s.covered && t.guarded == s.guarded
    && (t.log == s.log || t.log == s.log + [o])
  }

  lemma WalkPageFrame(c: Config, s: State)
    requires Enabled(c, s, WalkPage)
    ensures var t := Do(c, s, WalkPage); SameEmitted(s, t, Batch([], None, false)) && !t.phase.Hydrating?
  {
    hide From, Top;
  }

  /** Returning nothing leaves what was emitted. */
  lemma NothingKeepsEmission(s: State, t: State, o: Outcome)
    requires EmissionInv(s) && SameEmitted(s, t, o) && (o.Batch? ==> o.records == [])
    ensures EmissionInv(t)
  {
    hide RecordsAt, Emitted, Range, Increasing;
    EmittedExtends(s.log, o);
  }

  lemma FetchPageKeeps(c: Config, s: State)
    requires Inv(c, s) && Enabled(c, s, FetchPage)
    ensures Inv(c, Do(c, s, FetchPage))
  {
    hide RecordsAt, Emitted, Increasing, Range, Records;
    assert PageOk(c.batchLimit, s.pending, s.cur, |s.ledger|, |s.pending| - 1);
    assert s.cur <= |s.ledger|;
    hide EmissionInv, Chain;
    var t := Do(c, s, FetchPage);
    FetchFrame(c, s);
    assert HydrateInv(t) by {
      if t.phase.Hydrating? {
        NoRecords(s.ledger, t.phase.from);
      }
    }
    hide Reproduces, TipCondition, From, Top;
    NothingKeepsEmission(s, t, Batch([], None, false));
  }

  lemma FetchFrame(c: Config, s: State)
    requires Enabled(c, s, FetchPage)
    ensures SameEmitted(s, Do(c, s, FetchPage), Batch([], None, false))
  {
    hide Reproduces, TipCondition, From, Top;
  }

  lemma NoRecords(ledger: seq<Entry>, at: nat)
    requires at <= |ledger|
    ensures Records(ledger[at..at]) == []
  {
    assert ledger[at..at] == [];
  }

  lemma HydrateNextKeeps(c: Config, s: State)
    requires Inv(c, s) && Enabled(c, s, HydrateNext)
    ensures Inv(c, Do(c, s, HydrateNext))
  {
    hide Records, RecordsAt, Exec, Emitted, Chain, OpenWalk, DeepWalk, Increasing;
    HydrateNextExtends(c, s);
    hide HydrateInv;
  }

  lemma HydrateNextExtends(c: Config, s: State)
    requires HydrateInv(s) && Enabled(c, s, HydrateNext)
    ensures HydrateInv(Do(c, s, HydrateNext))
  {
    hide Exec, Records, DoWalkPage, DoFetchPage, DoCommit, Return, Restart, Emitting, Last;
    var Hydrating(key, from, at, out, complete) := s.phase;
    assert s.ledger[from..at + 1] == s.ledger[from..at] + [s.ledger[at]];
    RecordsOfConcat(s.ledger[from..at], [s.ledger[at]]);
  }

  lemma {:induction false} IncreasingIsShort(positions: seq<nat>, lo: nat, hi: nat)
    requires lo <= hi && Increasing(positions, lo, hi)
    ensures |positions| <= hi - lo
  {
    if positions != [] {
      IncreasingIsShort(ButLast(positions), lo, Last(positions));
    }
  }

  /** The covered positions stay contiguous exactly when the new stretch starts
      at the old cursor. */
  lemma CommitCovers(covered: seq<nat>, start: nat, cur: nat, from: nat, hi: nat)
    requires start <= cur <= from < hi
    requires Increasing(covered, start, cur)
    ensures Increasing(covered + Range(from, hi), start, hi)
    ensures covered == Range(start, cur) && from == cur <==> covered + Range(from, hi) == Range(start, hi)
  {
    var all := covered + Range(from, hi);
    if all == Range(start, hi) {
      assert |covered| == from - start;
      IncreasingIsShort(covered, start, cur);
      assert covered == all[..|covered|];
    }
    if covered == Range(start, cur) && from == cur {
      assert all == Range(start, hi);
    }
  }

  lemma CommitKeepsEmission(c: Config, s: State)
    requires EmissionInv(s) && HydrateInv(s) && Enabled(c, s, Commit)
    ensures EmissionInv(Do(c, s, Commit))
  {
    hide Records, RecordsAt, Emitted, Exec, Range, Increasing;
    var Hydrating(key, from, at, out, complete) := s.phase;
    var hi := key.newest + 1;
    assert out == Records(s.ledger[from..hi]);
    CommitEmits(s, Do(c, s, Commit), from, hi, complete, Batch(out, Some(key.newest), s.reachedBound && ButLast(s.pending) == []));
  }

  lemma CommitEmits(s: State, t: State, from: nat, hi: nat, complete: bool, o: Outcome)
    requires EmissionInv(s) && s.cur <= from < hi <= |s.ledger|
    requires o.Batch? && o.records == Records(s.ledger[from..hi]) && (complete <==> from == s.cur)
    requires t.ledger == s.ledger && t.start == s.start && t.cur == hi && t.log == s.log + [o]
    requires t.covered == s.covered + Range(from, hi) && (t.guarded <==> s.guarded && complete)
    ensures EmissionInv(t)
  {
    hide Records, RecordsAt, Emitted, Range;
    EmittedExtends(s.log, o);
    CommitCovers(s.covered, s.start, s.cur, from, hi);
    RecordsAtRange(s.ledger, s.covered, from, hi);
    hide Increasing;
    if t.guarded {
      assert t.covered == Range(s.start, hi);
    }
  }

  lemma CommitKeepsWalk(c: Config, s: State)
    requires WalkInv(c, s) && HydrateInv(s) && Enabled(c, s, Commit)
    ensures WalkInv(c, Do(c, s, Commit))
  {
    var t := Do(c, s, Commit);
    forall i | 0 <= i < |t.pending| ensures PageOk(c.batchLimit, t.pending, t.cur, |t.ledger|, i) {
      assert PageOk(c.batchLimit, s.pending, s.cur, |s.ledger|, i);
      assert t.pending[i] == s.pending[i];
      assert PageLow(t.pending, t.cur, i) == PageLow(s.pending, s.cur, i);
    }
  }

  lemma CommitKeeps(c: Config, s: State)
    requires Inv(c, s) && Enabled(c, s, Commit)
    ensures Inv(c, Do(c, s, Commit))
  {
    CommitKeepsEmission(c, s);
    CommitKeepsWalk(c, s);
  }

  predicate Returns(a: Action) {
    a.PageFails? || a.TransactionFails? || a.Finish?
  }

  lemma ReturnFrame(c: Config, s: State, a: Action)
    requires Enabled(c, s, a) && Returns(a)
    ensures var t := Do(c, s, a);
            && SameEmitted(s, t, if a.Finish? then Batch([], None, true) else Failed)
            && t.phase.Idle? && t.stuck == s.stuck
            && (if a.Finish? then s.reachedBound && s.pending == [] && t.pending == [] && !t.reachedBound && t.walkBefore.None?
                else t.pending == s.pending && t.reachedBound == s.reachedBound && t.walkBefore == s.walkBefore)
  {
  }

  lemma ReturnKeepsWalk(c: Config, s: State, a: Action)
    requires WalkInv(c, s) && ProgressInv(c, s) && Enabled(c, s, a) && Returns(a)
    ensures WalkInv(c, Do(c, s, a)) && ProgressInv(c, Do(c, s, a))
  {
    hide Chain, Saturated, DeepWalk;
    ReturnFrame(c, s, a);
    hide Do, Enabled;
  }

  lemma ReturnKeeps(c: Config, s: State, a: Action)
    requires Inv(c, s) && Enabled(c, s, a) && Returns(a)
    ensures Inv(c, Do(c, s, a))
  {
    hide EmissionInv, WalkInv, ProgressInv;
    ReturnFrame(c, s, a);
    ReturnKeepsWalk(c, s, a);
    hide Do, Enabled, Records;
    NothingKeepsEmission(s, Do(c, s, a), if a.Finish? then Batch([], None, true) else Failed);
  }

  lemma StepKeeps(c: Config, s: State, a: Action)
    requires Inv(c, s) && Enabled(c, s, a)
    ensures Inv(c, Do(c, s, a))
  {
    match a
    case Append(entries) => AppendKeeps(c, s, entries);
    case CallNext =>
    case BeginWalk(_) => assert s.pending + [] == s.pending;
    case WalkPage => WalkPageKeeps(c, s);
    case FetchPage => FetchPageKeeps(c, s);
    case HydrateNext => HydrateNextKeeps(c, s);
    case Commit => CommitKeeps(c, s);
    case PageFails => ReturnKeeps(c, s, a);
    case TransactionFails => ReturnKeeps(c, s, a);
    case Finish => ReturnKeeps(c, s, a);
  }
}
