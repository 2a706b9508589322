/** The RPC-poll source in the code's own form: signatures, a mutable pager and
    fallible calls. Every method is shown to take only `PollMachine` steps. */
module RpcPoll {
  import opened Wrappers
  import opened Ledger
  import opened Paging
  import M = PollMachine
  import PollTheorems

  const MAX_SIGNATURES_PER_PAGE := 1000
  const DEFAULT_MAX_PAGES_PER_POLL := 16

  /** The address of an enumerated page: both ends of its window. */
  datatype PageKey = PageKey(before: Option<Signature>, newest: Signature)

  datatype WalkSegment = WalkSegment(keys: seq<PageKey>, resume: Option<Signature>, reachedBound: bool)

  datatype Batch = Batch(records: seq<RawTx>, cursor: Option<Signature>, caughtUp: bool)

  // ------------------------------------------- signatures against positions

  ghost predicate MarkAt(ledger: seq<Entry>, mark: Option<Signature>, at: Option<nat>) {
    && (mark.Some? <==> at.Some?)
    && (at.Some? ==> at.value < |ledger| && ledger[at.value].signature == mark.value)
  }

  /** The cursor sits on the newest of the first `cur` entries. */
  ghost predicate CursorAt(ledger: seq<Entry>, cursor: Option<Signature>, cur: nat) {
    && (cursor.None? <==> cur == 0)
    && (cur > 0 ==> cur <= |ledger| && ledger[cur - 1].signature == cursor.value)
  }

  ghost predicate KeyAt(ledger: seq<Entry>, key: PageKey, k: M.Key) {
    MarkAt(ledger, key.before, k.before) && MarkAt(ledger, Some(key.newest), Some(k.newest))
  }

  ghost predicate KeysAt(ledger: seq<Entry>, keys: seq<PageKey>, ks: seq<M.Key>) {
    |keys| == |ks| && forall i :: 0 <= i < |keys| ==> KeyAt(ledger, keys[i], ks[i])
  }

  ghost predicate OutcomeAt(ledger: seq<Entry>, r: Result<Batch>, o: M.Outcome) {
    match r
    case Err => o.Failed?
    case Ok(b) => o.Batch? && b.records == o.records && b.caughtUp == o.caughtUp && MarkAt(ledger, b.cursor, o.cursor)
  }

  ghost predicate Started(origin: M.State) {
    origin == M.Resume(origin.ledger, origin.start) && origin.start <= |origin.ledger|
  }

  /** `s` is where the run of `trace` from `origin` has led, over this ledger and
      this cursor. */
  ghost predicate Agrees(c: M.Config, origin: M.State, trace: seq<M.Action>,
                         ledger: seq<Entry>, cursor: Option<Signature>, s: M.State) {
    && DistinctSignatures(ledger)
    && c.Valid() && !c.checksLowerEnd && Started(origin)
    && M.Exec(c, origin, trace) == Some(s)
    && s.ledger == ledger
    && CursorAt(ledger, cursor, s.cur)
  }

  lemma KeysAtGrows(ledger: seq<Entry>, longer: seq<Entry>, keys: seq<PageKey>, ks: seq<M.Key>)
    requires KeysAt(ledger, keys, ks) && ledger <= longer
    ensures KeysAt(longer, keys, ks)
  {
  }

  lemma MarkAtGrows(ledger: seq<Entry>, longer: seq<Entry>, mark: Option<Signature>, at: Option<nat>)
    requires MarkAt(ledger, mark, at) && ledger <= longer
    ensures MarkAt(longer, mark, at)
  {
  }

  lemma NoMarkAt(ledger: seq<Entry>)
    ensures MarkAt(ledger, None, None)
  {
  }

  lemma NoKeysAt(ledger: seq<Entry>)
    ensures KeysAt(ledger, [], [])
  {
  }

  lemma KeysAtNext(ledger: seq<Entry>, keys: seq<PageKey>, ks: seq<M.Key>, key: PageKey, k: M.Key)
    requires KeysAt(ledger, keys, ks) && KeyAt(ledger, key, k)
    ensures KeysAt(ledger, keys + [key], ks + [k])
  {
  }

  lemma KeysAtLength(ledger: seq<Entry>, keys: seq<PageKey>, ks: seq<M.Key>)
    requires KeysAt(ledger, keys, ks)
    ensures |keys| == |ks|
  {
  }

  lemma LastKeyAt(ledger: seq<Entry>, keys: seq<PageKey>, ks: seq<M.Key>)
    requires KeysAt(ledger, keys, ks) && keys != []
    ensures ks != [] && KeyAt(ledger, M.Last(keys), M.Last(ks))
    ensures KeysAt(ledger, M.ButLast(keys), M.ButLast(ks))
  {
  }

  lemma KeysAtConcat(ledger: seq<Entry>, a: seq<PageKey>, b: seq<PageKey>, ka: seq<M.Key>, kb: seq<M.Key>)
    requires KeysAt(ledger, a, ka) && KeysAt(ledger, b, kb)
    ensures KeysAt(ledger, a + b, ka + kb)
  {
  }

  lemma SummaryOf(ledger: seq<Entry>, from: nat, upper: nat, i: nat)
    requires from + i < upper <= |ledger|
    ensures Summaries(ledger, from, upper)[upper - from - 1 - i] ==
            Summary(ledger[from + i].signature, ledger[from + i].failed)
  {
  }

  /** Where a page's newest record sits in a reply over `[from, top)`. */
  lemma HeadOfPage(ledger: seq<Entry>, from: nat, top: nat, newest: nat)
    requires DistinctSignatures(ledger) && from <= top <= |ledger| && newest < |ledger|
    ensures var page := Summaries(ledger, from, top);
            match IndexOf(page, ledger[newest].signature)
            case Some(head) => from <= newest < top && page[head..] == Summaries(ledger, from, newest + 1)
            case None => !(from <= newest < top)
  {
    hide Summaries, DistinctSignatures;
    var page := Summaries(ledger, from, top);
    match IndexOf(page, ledger[newest].signature)
    case Some(head) =>
      SummaryOf(ledger, from, top, top - 1 - head - from);
      OnePosition(ledger, top - 1 - head, newest);
      OlderPart(ledger, from, top, head);
    case None =>
      if from <= newest < top {
        SummaryOf(ledger, from, top, newest - from);
        assert false;
      }
  }

  lemma EndsOfPage(ledger: seq<Entry>, from: nat, top: nat)
    requires from < top <= |ledger|
    ensures var page := Summaries(ledger, from, top);
            && MarkAt(ledger, Some(page[0].signature), Some(top - 1))
            && MarkAt(ledger, Some(page[|page| - 1].signature), Some(from))
  {
    SummaryOf(ledger, from, top, 0);
    SummaryOf(ledger, from, top, top - 1 - from);
  }

  lemma OnePosition(ledger: seq<Entry>, i: nat, j: nat)
    requires DistinctSignatures(ledger) && i < |ledger| && j < |ledger| && ledger[i].signature == ledger[j].signature
    ensures i == j
  {
  }

  lemma OlderPart(ledger: seq<Entry>, from: nat, top: nat, head: nat)
    requires from <= top - head <= top <= |ledger|
    ensures Summaries(ledger, from, top)[head..] == Summaries(ledger, from, top - head)
  {
  }

  /** What a page call answers, in positions. */
  lemma ReplyAt(ledger: seq<Entry>, before: Option<Signature>, until: Option<Signature>,
                at: Option<nat>, cur: nat, limit: nat)
    requires DistinctSignatures(ledger) && MarkAt(ledger, before, at) && CursorAt(ledger, until, cur)
    ensures var top := if at.None? then |ledger| else at.value;
            Page(ledger, before, until, limit) ==
              if top <= cur then [] else Summaries(ledger, ReplyFrom(cur, top, limit), top)
  {
    if at.Some? {
      PositionOfEntry(ledger, at.value);
    }
    if cur > 0 {
      PositionOfEntry(ledger, cur - 1);
    }
  }

  // -------------------------------------------------------------- transport

  /** The RPC node. Any call may fail, and the ledger may have grown at the tip
      since the previous one. */
  class Transport {
    var ledger: seq<Entry>

    constructor (entries: seq<Entry>)
      requires DistinctSignatures(entries)
      ensures ledger == entries
    {
      ledger := entries;
    }

    method Arrivals()
      requires DistinctSignatures(ledger)
      modifies this
      ensures old(ledger) <= ledger && DistinctSignatures(ledger)
    {
      var entries: seq<Entry> := *;
      if DistinctSignatures(ledger + entries) {
        ledger := ledger + entries;
      }
    }

    method GetPage(before: Option<Signature>, until: Option<Signature>, limit: nat)
      returns (r: Result<seq<Summary>>)
      requires DistinctSignatures(ledger)
      modifies this
      ensures old(ledger) <= ledger && DistinctSignatures(ledger)
      ensures r.Ok? ==> r.value == Page(ledger, before, until, limit)
    {
      Arrivals();
      var fails: bool := *;
      r := if fails then Err else Ok(Page(ledger, before, until, limit));
    }

    /** The body of a transaction the ledger holds; the other error is a
        signature the node does not know. */
    method GetTransaction(signature: Signature) returns (r: Result<Option<Body>>)
      requires DistinctSignatures(ledger)
      modifies this
      ensures old(ledger) <= ledger && DistinctSignatures(ledger)
      ensures r.Ok? ==> Position(ledger, signature).Some?
                        && r.value == ledger[Position(ledger, signature).value].body
    {
      Arrivals();
      var fails: bool := *;
      var p := Position(ledger, signature);
      r := if fails || p.None? then Err else Ok(ledger[p.value].body);
    }
  }

  // ----------------------------------------------------------------- source

  class RpcPollSource {
    const client: Transport
    const batchLimit: nat
    var maxPagesPerPoll: nat
    var lastSignature: Option<Signature>
    var walkBefore: Option<Signature>
    const pager: Backfill<PageKey>

    /** The run so far: where this process life began and the steps taken. */
    ghost var origin: M.State
    ghost var trace: seq<M.Action>

    ghost function Config(): M.Config
      reads this
    {
      M.Config(batchLimit, false)
    }

    ghost predicate At(s: M.State)
      reads this, client
    {
      Agrees(Config(), origin, trace, client.ledger, lastSignature, s)
    }

    /** The pager and the walk marker agree with `s` too. */
    ghost predicate Shadows(s: M.State)
      reads this, client, pager
    {
      && At(s)
      && MarkAt(client.ledger, walkBefore, s.walkBefore)
      && KeysAt(client.ledger, pager.pending, s.pending)
      && pager.reachedBound == s.reachedBound
      && 1 <= maxPagesPerPoll
    }

    ghost function Machine(): M.State
      reads this
      requires M.Exec(Config(), origin, trace).Some?
    {
      M.Exec(Config(), origin, trace).value
    }

    ghost predicate Valid()
      reads this, client, pager
    {
      && M.Exec(Config(), origin, trace).Some?
      && Shadows(Machine()) && Machine().phase.Idle?
    }

    constructor (client: Transport, limit: nat)
      requires DistinctSignatures(client.ledger)
      ensures Valid() && fresh(pager) && this.client == client
      ensures batchLimit == if limit < 1 then 1 else if limit > 1000 then 1000 else limit
      ensures lastSignature.None? && maxPagesPerPoll == 16
      ensures trace == [] && origin == M.Resume(client.ledger, 0) && Machine() == origin
    {
      this.client := client;
      batchLimit := if limit < 1 then 1 else if limit > MAX_SIGNATURES_PER_PAGE then MAX_SIGNATURES_PER_PAGE else limit;
      maxPagesPerPoll := DEFAULT_MAX_PAGES_PER_POLL;
      lastSignature := None;
      walkBefore := None;
      pager := new Backfill<PageKey>();
      origin := M.Resume(client.ledger, 0);
      trace := [];
      new;
    }

    /** The budget of pages for one call, at any time and at least one. */
    method WithMaxPagesPerPoll(pages: nat)
      requires Valid()
      modifies this`maxPagesPerPoll
      ensures Valid() && Machine() == old(Machine())
      ensures maxPagesPerPoll == if pages < 1 then 1 else pages
    {
      maxPagesPerPoll := if pages < 1 then 1 else pages;
    }

    /** Only the cursor is written. Between walks, with a signature the ledger
        holds, that is a life begun just above it. */
    method ResumeFrom(cursor: Signature)
      modifies this`lastSignature, this`origin, this`trace
      ensures lastSignature == Some(cursor)
      ensures old(Valid()) && old(BetweenWalks()) && Position(client.ledger, cursor).Some? ==>
        && Valid() && trace == []
        && Machine() == M.Resume(client.ledger, Position(client.ledger, cursor).value + 1)
    {
      lastSignature := Some(cursor);
      ghost var at := Position(client.ledger, cursor);
      if at.Some? {
        origin, trace := M.Resume(client.ledger, at.value + 1), [];
      }
    }

    ghost predicate BetweenWalks()
      reads this, pager
    {
      pager.pending == [] && !pager.reachedBound && walkBefore.None?
    }

    /** Every state the run reaches satisfies the machine's invariant. */
    lemma Kept(s: M.State)
      requires At(s)
      ensures M.Inv(Config(), s)
    {
      PollTheorems.ResumeHolds(Config(), origin.ledger, origin.start);
      PollTheorems.RunKeeps(Config(), origin, trace);
    }

    /** All this life has returned so far: its own record for each success at the
        positions it has covered, in order, and nothing else. */
    lemma ReturnedSoFar()
      requires Valid()
      ensures PollTheorems.EachSuccessOnce(client.ledger, Machine().covered, M.Emitted(Machine().log))
      ensures M.Increasing(Machine().covered, Machine().start, Machine().cur)
    {
      Kept(Machine());
      PollTheorems.RecordsAreTheSuccesses(client.ledger, Machine().covered);
    }

    /** The page about to be emitted starts at the cursor and is closed or open
        at the tip. */
    lemma QueuedPage(s: M.State)
      requires At(s) && M.Emitting(s)
      ensures var k := M.Last(s.pending);
              && s.cur <= k.newest < |s.ledger|
              && (k.before.Some? ==> k.before.value == k.newest + 1)
    {
      Kept(s);
      assert M.PageOk(batchLimit, s.pending, s.cur, |s.ledger|, |s.pending| - 1);
    }

    /** What a page call answers, in positions. */
    lemma Reply(s: M.State, before: Option<Signature>, at: Option<nat>)
      requires At(s) && MarkAt(client.ledger, before, at)
      ensures s.ledger == client.ledger
      ensures var top, from := M.Top(s, at), M.From(Config(), s, at);
              && top <= |client.ledger|
              && (s.cur < top ==> from < top)
              && Page(client.ledger, before, lastSignature, batchLimit) ==
                   if top <= s.cur then [] else Summaries(client.ledger, from, top)
    {
      ReplyAt(client.ledger, before, lastSignature, at, s.cur, batchLimit);
    }

    /** Record one step of the run. */
    ghost method Take(s: M.State, a: M.Action) returns (t: M.State)
      requires At(s) && M.Enabled(Config(), s, a) && !a.Append? && !a.Commit?
      modifies this`trace
      ensures trace == old(trace) + [a]
      ensures t == M.Do(Config(), s, a) && At(t)
    {
      M.ExecExtends(Config(), origin, trace, a);
      trace := trace + [a];
      t := M.Do(Config(), s, a);
    }

    /** Record what arrived during a call. */
    ghost method Observe(s: M.State, was: seq<Entry>) returns (t: M.State)
      requires Agrees(Config(), origin, trace, was, lastSignature, s)
      requires was <= client.ledger && DistinctSignatures(client.ledger)
      modifies this`trace
      ensures old(trace) <= trace
      ensures t == s.(ledger := client.ledger) && At(t)
    {
      var more := client.ledger[|was|..];
      assert was + more == client.ledger;
      M.ExecExtends(Config(), origin, trace, M.Append(more));
      trace := trace + [M.Append(more)];
      t := M.Do(Config(), s, M.Append(more));
    }

    /** Record a call that failed. */
    ghost method TakeFailure(s: M.State, a: M.Action) returns (t: M.State)
      requires At(s) && M.Enabled(Config(), s, a) && (a.PageFails? || a.TransactionFails?)
      modifies this`trace
      ensures old(trace) <= trace && At(t) && t == M.Return(s, M.Failed)
    {
      t := Take(s, a);
    }

    ghost method TakeBeginWalk(s: M.State) returns (t: M.State)
      requires At(s) && s.phase.Deciding? && !s.reachedBound && 1 <= maxPagesPerPoll
      modifies this`trace
      ensures old(trace) <= trace && At(t)
      ensures t == s.(phase := M.Walking([], s.walkBefore, maxPagesPerPoll))
    {
      t := Take(s, M.BeginWalk(maxPagesPerPoll));
    }

    /** Record one answered page call of the walk. */
    ghost method TakeWalkPage(s: M.State, ks: seq<M.Key>, at: Option<nat>, left: nat) returns (t: M.State)
      requires At(s) && s.phase == M.Walking(ks, at, left) && left >= 1
      modifies this`trace
      ensures old(trace) <= trace && At(t) && t == Walked(s, ks, at, left)
    {
      t := Take(s, M.WalkPage);
    }

    /** Record a page fetched for emission, or found unreproducible. */
    ghost method TakeFetch(s: M.State) returns (t: M.State)
      requires At(s) && M.Emitting(s)
      modifies this`trace
      ensures old(trace) <= trace && At(t)
      ensures var k := M.Last(s.pending);
              var top, from := M.Top(s, k.before), M.From(Config(), s, k.before);
              t == if s.cur < top && from <= k.newest < top
                   then s.(phase := M.Hydrating(k, from, from, [], M.TipCondition(Config(), s, k)))
                   else M.Return(M.Restart(s), M.Batch([], None, false)).(stuck := true)
    {
      t := Take(s, M.FetchPage);
    }

    /** Record one transaction hydrated or skipped. */
    ghost method TakeHydrate(s: M.State) returns (t: M.State)
      requires At(s) && s.phase.Hydrating? && s.phase.at <= s.phase.key.newest && s.phase.at < |s.ledger|
      modifies this`trace
      ensures old(trace) <= trace && At(t)
      ensures var e := s.ledger[s.phase.at];
              t == s.(phase := s.phase.(at := s.phase.at + 1,
                        out := if Record(e).Some? then s.phase.out + [Record(e).value] else s.phase.out))
    {
      t := Take(s, M.HydrateNext);
      PollTheorems.RecordsOfOne(s.ledger[s.phase.at]);
      assert s.phase.out + [] == s.phase.out;
    }

    lemma Settled(s: M.State)
      requires Shadows(s) && s.phase.Idle?
      ensures Valid() && Machine() == s
    {
    }

    ghost method TakeCall(s: M.State) returns (t: M.State)
      requires At(s) && s.phase.Idle?
      modifies this`trace
      ensures old(trace) <= trace && At(t) && t == s.(phase := M.Deciding)
    {
      t := Take(s, M.CallNext);
    }

    ghost method TakeFinish(s: M.State) returns (t: M.State)
      requires At(s) && M.Enabled(Config(), s, M.Finish)
      modifies this`trace
      ensures old(trace) <= trace && At(t)
      ensures t == M.Return(M.Restart(s), M.Batch([], None, true))
    {
      t := Take(s, M.Finish);
    }

    /** Record an emission, the cursor having just moved from `was`. */
    ghost method TakeCommit(s: M.State, was: Option<Signature>) returns (t: M.State)
      requires Agrees(Config(), origin, trace, client.ledger, was, s)
      requires s.phase.Hydrating? && s.phase.at == s.phase.key.newest + 1 && s.pending != []
      requires MarkAt(client.ledger, lastSignature, Some(s.phase.key.newest))
      modifies this`trace
      ensures old(trace) <= trace && At(t)
      ensures t.phase.Idle? && t.pending == M.ButLast(s.pending) && t.reachedBound == s.reachedBound && t.walkBefore == s.walkBefore
      ensures t.log == s.log + [M.Batch(s.phase.out, Some(s.phase.key.newest), s.reachedBound && t.pending == [])]
    {
      hide M.Exec, DistinctSignatures;
      M.ExecExtends(Config(), origin, trace, M.Commit);
      trace := trace + [M.Commit];
      t := M.DoCommit(Config(), s);
    }

    /** The entry a page's summary stands for, and what its transaction call
        answers. */
    lemma Fetched(s: M.State, i: nat)
      requires At(s) && i < |client.ledger|
      ensures Position(client.ledger, client.ledger[i].signature) == Some(i)
    {
    }

    lemma LedgerOf(s: M.State)
      requires At(s)
      ensures s.ledger == client.ledger && DistinctSignatures(client.ledger)
    {
    }

    lemma Bounds(s: M.State)
      requires At(s)
      ensures 1 <= batchLimit
    {
    }

    /** Where one answered page call leaves the walk. */
    ghost function Walked(s: M.State, ks: seq<M.Key>, at: Option<nat>, left: nat): M.State
      reads this
    {
      var top, from := M.Top(s, at), M.From(Config(), s, at);
      if top <= s.cur then M.Extend(s, ks, at, true).(phase := M.Deciding)
      else
        var ks' := ks + [M.Key(at, if top == 0 then 0 else top - 1)];
        if top - from < batchLimit then M.Extend(s, ks', Some(from), true).(phase := M.Deciding)
        else if left <= 1 then M.Return(M.Extend(s, ks', Some(from), false), M.Batch([], None, false))
        else s.(phase := M.Walking(ks', Some(from), left - 1))
    }

    /** Ask for the next page down: the reply, and where it leaves the run. */
    method RequestPage(before: Option<Signature>, ghost s: M.State, ghost ks: seq<M.Key>, ghost at: Option<nat>, ghost left: nat)
      returns (r: Result<seq<Summary>>, ghost t: M.State)
      requires At(s) && s.phase == M.Walking(ks, at, left) && left >= 1 && MarkAt(client.ledger, before, at)
      modifies client, this`trace
      ensures old(client.ledger) <= client.ledger && old(trace) <= trace && At(t)
      ensures MarkAt(client.ledger, before, at)
      ensures var now := s.(ledger := client.ledger);
              var top, from := M.Top(now, at), M.From(Config(), now, at);
              match r
              case Err => t == M.Return(now, M.Failed)
              case Ok(page) =>
                && t == Walked(now, ks, at, left)
                && |page| == (if top <= s.cur then 0 else top - from)
                && (page == [] <==> top <= s.cur)
                && (page != [] ==>
                      && MarkAt(client.ledger, Some(page[0].signature), Some(top - 1))
                      && MarkAt(client.ledger, Some(page[|page| - 1].signature), Some(from)))
    {
      hide M.Exec, M.Inv, M.Do, M.Return, M.From, M.Top, Walked, Summaries, DistinctSignatures, MarkAt, Page, Agrees;
      ghost var was := client.ledger;
      LedgerOf(s);
      r := client.GetPage(before, lastSignature, batchLimit);
      t := Observe(s, was);
      MarkAtGrows(was, client.ledger, before, at);
      if r.Err? {
        t := TakeFailure(t, M.PageFails);
      } else {
        Reply(t, before, at);
        if s.cur < M.Top(t, at) {
          EndsOfPage(client.ledger, M.From(Config(), t, at), M.Top(t, at));
        }
        t := TakeWalkPage(t, ks, at, left);
      }
    }

    /** One segment of the walk: call after call from the mark down, until a short
        reply, a failure or the budget ends it. */
    method EnumeratePages(ghost s: M.State)
      returns (r: Result<WalkSegment>, ghost t: M.State, ghost ks: seq<M.Key>)
      requires At(s) && s.phase.Deciding? && !s.reachedBound && MarkAt(client.ledger, walkBefore, s.walkBefore)
      requires 1 <= maxPagesPerPoll
      modifies client, this`trace
      ensures old(client.ledger) <= client.ledger && old(trace) <= trace && At(t)
      ensures var now := s.(ledger := client.ledger);
              match r
              case Err => t == M.Return(now.(phase := t.phase), M.Failed)
              case Ok(segment) =>
                && KeysAt(client.ledger, segment.keys, ks)
                && MarkAt(client.ledger, segment.resume, t.walkBefore)
                && t == (var u := M.Extend(now, ks, t.walkBefore, segment.reachedBound);
                         if segment.reachedBound then u.(phase := M.Deciding)
                         else M.Return(u, M.Batch([], None, false)))
    {
      hide M.Exec, M.Inv, M.Do, DistinctSignatures, Page, Agrees, KeysAt, MarkAt, M.From, Summaries, Records, M.Top;
      var keys: seq<PageKey> := [];
      var before := walkBefore;
      ks := [];
      LedgerOf(s);
      Bounds(s);
      t := TakeBeginWalk(s);
      ghost var at := s.walkBefore;
      NoKeysAt(client.ledger);
      for i := 0 to maxPagesPerPoll
        invariant old(client.ledger) <= client.ledger && old(trace) <= trace && At(t)
        invariant KeysAt(client.ledger, keys, ks) && MarkAt(client.ledger, before, at)
        invariant var now := s.(ledger := client.ledger);
          t == if i < maxPagesPerPoll then now.(phase := M.Walking(ks, at, maxPagesPerPoll - i))
               else M.Return(M.Extend(now, ks, at, false).(phase := t.phase), M.Batch([], None, false))
      {
        ghost var was, u := client.ledger, t;
        var reply;
        reply, t := RequestPage(before, u, ks, at, maxPagesPerPoll - i);
        if reply.Err? {
          return Err, t, ks;
        }
        var page := reply.value;
        KeysAtGrows(was, client.ledger, keys, ks);
        if page == [] {
          return Ok(WalkSegment(keys, before, true)), t, ks;
        }
        ghost var now := u.(ledger := client.ledger);
        ghost var k := M.Key(at, M.Top(now, at) - 1);
        var key := PageKey(before, page[0].signature);
        KeysAtNext(client.ledger, keys, ks, key, k);
        keys, ks := keys + [key], ks + [k];
        var saturated := |page| >= batchLimit;
        before, at := Some(page[|page| - 1].signature), Some(M.From(Config(), now, at));
        if !saturated {
          return Ok(WalkSegment(keys, before, true)), t, ks;
        }
      }
      r := Ok(WalkSegment(keys, before, false));
    }

    /** The call for a queued page: the reply, in positions. */
    method RequestQueued(key: PageKey, ghost s: M.State) returns (r: Result<seq<Summary>>, ghost t: M.State)
      requires At(s) && M.Emitting(s) && KeyAt(client.ledger, key, M.Last(s.pending))
      modifies client, this`trace
      ensures old(client.ledger) <= client.ledger && old(trace) <= trace && At(t)
      ensures var now, k := s.(ledger := client.ledger), M.Last(s.pending);
              match r
              case Err => t == M.Return(now, M.Failed)
              case Ok(page) =>
                var from, top := M.From(Config(), t, k.before), M.Top(t, k.before);
                && t == now && s.cur < top && from <= top <= |client.ledger|
                && k.newest < |client.ledger| && client.ledger[k.newest].signature == key.newest
                && page == Summaries(client.ledger, from, top)
    {
      hide M.Exec, M.Inv, M.Do, DistinctSignatures, Page, Agrees, Summaries, M.Return;
      ghost var k := M.Last(s.pending);
      ghost var was := client.ledger;
      LedgerOf(s);
      QueuedPage(s);
      r := client.GetPage(key.before, lastSignature, batchLimit);
      t := Observe(s, was);
      if r.Err? {
        t := TakeFailure(t, M.PageFails);
      } else {
        Reply(t, key.before, k.before);
      }
    }

    /** Fetch a queued page a second time: its summaries from the recorded newest
        down, or nothing when the reply no longer holds that signature. */
    method FetchPage(key: PageKey, ghost s: M.State)
      returns (r: Result<Option<seq<Summary>>>, ghost t: M.State)
      requires At(s) && M.Emitting(s) && KeyAt(client.ledger, key, M.Last(s.pending))
      modifies client, this`trace
      ensures old(client.ledger) <= client.ledger && old(trace) <= trace && At(t)
      ensures var now := s.(ledger := client.ledger);
              match r
              case Err => t == M.Return(now, M.Failed)
              case Ok(None) => t == M.Return(M.Restart(now), M.Batch([], None, false)).(stuck := true)
              case Ok(Some(page)) =>
                && t.phase.Hydrating? && t.phase.key == M.Last(s.pending)
                && t == now.(phase := M.Hydrating(t.phase.key, t.phase.from, t.phase.from, [], t.phase.complete))
                && t.phase.from <= t.phase.key.newest < |client.ledger|
                && page == Summaries(client.ledger, t.phase.from, t.phase.key.newest + 1)
    {
      hide M.Exec, M.Inv, M.Do, DistinctSignatures, Page, Agrees, IndexOf, Summaries, M.TipCondition, M.Return, M.Restart, M.From, M.Top;
      ghost var k := M.Last(s.pending);
      var reply;
      reply, t := RequestQueued(key, s);
      if reply.Err? {
        return Err, t;
      }
      var page := reply.value;
      LedgerOf(t);
      HeadOfPage(client.ledger, M.From(Config(), t, k.before), M.Top(t, k.before), k.newest);
      t := TakeFetch(t);
      match IndexOf(page, key.newest) {
        case Some(head) => r := Ok(Some(page[head..]));
        case None => r := Ok(None);
      }
    }

    /** One transaction call: the record it yields, and where it leaves the run. */
    method RequestTransaction(summary: Summary, ghost s: M.State)
      returns (r: Result<Option<RawTx>>, ghost t: M.State)
      requires At(s) && s.phase.Hydrating? && s.phase.at <= s.phase.key.newest && s.phase.at < |client.ledger|
      requires var e := client.ledger[s.phase.at];
               !e.failed && summary.signature == e.signature
      modifies client, this`trace
      ensures old(client.ledger) <= client.ledger && old(trace) <= trace && At(t)
      ensures var now := s.(ledger := client.ledger);
              match r
              case Err => t == M.Return(now, M.Failed)
              case Ok(record) =>
                t == now.(phase := s.phase.(at := s.phase.at + 1,
                            out := if record.Some? then s.phase.out + [record.value] else s.phase.out))
    {
      hide M.Exec, M.Inv, M.Do, DistinctSignatures, Agrees;
      ghost var was := client.ledger;
      ghost var e := was[s.phase.at];
      LedgerOf(s);
      var tx := client.GetTransaction(summary.signature);
      t := Observe(s, was);
      assert client.ledger[s.phase.at] == e;
      Fetched(t, s.phase.at);
      if tx.Err? {
        t := TakeFailure(t, M.TransactionFails);
        return Err, t;
      }
      t := TakeHydrate(t);
      r := Ok(if tx.value.Some? then Some(RawTx(summary.signature, 0, tx.value.value)) else None);
    }

    /** Fetch each transaction of a page, oldest first, skipping failed ones. */
    method Hydrate(page: seq<Summary>, ghost s: M.State)
      returns (r: Result<seq<RawTx>>, ghost t: M.State)
      requires At(s) && s.phase.Hydrating? && s.phase.at == s.phase.from && s.phase.out == []
      requires s.phase.from <= s.phase.key.newest < |client.ledger|
      requires page == Summaries(client.ledger, s.phase.from, s.phase.key.newest + 1)
      modifies client, this`trace
      ensures old(client.ledger) <= client.ledger && old(trace) <= trace && At(t)
      ensures match r
              case Err => t == M.Return(s.(ledger := client.ledger, phase := t.phase), M.Failed)
              case Ok(out) =>
                t == s.(ledger := client.ledger,
                        phase := s.phase.(at := s.phase.key.newest + 1, out := out))
    {
      hide M.Exec, M.Inv, M.Do, DistinctSignatures, Agrees, Summaries, Records;
      var out: seq<RawTx> := [];
      t := s;
      ghost var from := s.phase.from;
      ghost var entries := client.ledger;
      LedgerOf(s);
      for i := 0 to |page|
        invariant entries <= client.ledger && old(trace) <= trace && At(t)
        invariant t == s.(ledger := client.ledger, phase := s.phase.(at := from + i, out := out))
      {
        var summary := page[|page| - 1 - i];
        SummaryOf(entries, from, s.phase.key.newest + 1, i);
        assert client.ledger[from + i] == entries[from + i];
        if summary.failed {
          t := TakeHydrate(t);
          continue;
        }
        var tx;
        tx, t := RequestTransaction(summary, t);
        if tx.Err? {
          return Err, t;
        }
        if tx.value.Some? {
          out := out + [tx.value.value];
        }
      }
      r := Ok(out);
    }

    /** Empty the queue and forget where the walk stood, so that the next call
        enumerates from the tip. */
    method RestartWalk()
      modifies this`walkBefore, pager
      ensures walkBefore.None? && pager.pending == [] && !pager.reachedBound
    {
      pager.Restart();
      walkBefore := None;
    }

    /** Emit the oldest queued page: fetch, hydrate, and only then commit. */
    method EmitPage(key: PageKey, ghost s: M.State) returns (r: Result<Batch>, ghost t: M.State)
      requires Shadows(s) && M.Emitting(s) && pager.pending != [] && key == M.Last(pager.pending)
      modifies this`walkBefore, this`lastSignature, this`trace, client, pager
      ensures Shadows(t) && t.phase.Idle?
      ensures old(client.ledger) <= client.ledger && old(trace) <= trace
      ensures |t.log| == |s.log| + 1 && s.log <= t.log && OutcomeAt(client.ledger, r, M.Last(t.log))
      ensures lastSignature == if r.Ok? && r.value.cursor.Some? then r.value.cursor else old(lastSignature)
      ensures r.Ok? && r.value.cursor.None? ==> pager.pending == [] && !r.value.caughtUp
    {
      hide M.Exec, M.Inv, M.Do, M.DoCommit, DistinctSignatures, Page, Agrees, KeysAt, Summaries, Records, KeyAt, MarkAt;
      ghost var ks, was := s.pending, client.ledger;
      LastKeyAt(client.ledger, pager.pending, ks);
      var fetched;
      fetched, t := FetchPage(key, s);
      KeysAtGrows(was, client.ledger, pager.pending, ks);
      MarkAtGrows(was, client.ledger, walkBefore, s.walkBefore);
      NoMarkAt(client.ledger);
      if fetched.Err? {
        return Err, t;
      }
      if fetched.value.None? {
        RestartWalk();
        NoKeysAt(client.ledger);
        return Ok(Batch([], None, false)), t;
      }
      was := client.ledger;
      var out;
      out, t := Hydrate(fetched.value.value, t);
      KeysAtGrows(was, client.ledger, pager.pending, ks);
      MarkAtGrows(was, client.ledger, walkBefore, s.walkBefore);
      if out.Err? {
        return Err, t;
      }
      ghost var cursor := lastSignature;
      LastKeyAt(client.ledger, pager.pending, ks);
      pager.Commit();
      lastSignature := Some(key.newest);
      t := TakeCommit(t, cursor);
      KeysAtLength(client.ledger, pager.pending, t.pending);
      r := Ok(Batch(out.value, Some(key.newest), pager.CaughtUp()));
    }

    /** Enumerate one segment and queue what it found; `None` while the walk has
        reached its bound and the poll goes on. */
    method WalkSegmentOf(ghost s: M.State) returns (r: Option<Result<Batch>>, ghost t: M.State)
      requires Shadows(s) && s.phase.Deciding? && !s.reachedBound
      modifies this`walkBefore, this`trace, client, pager
      ensures Shadows(t) && old(client.ledger) <= client.ledger && old(trace) <= trace
      ensures r.None? ==> t.phase.Deciding? && t.reachedBound && t.log == s.log
      ensures r.Some? ==>
        && t.phase.Idle? && |t.log| == |s.log| + 1 && s.log <= t.log
        && OutcomeAt(client.ledger, r.value, M.Last(t.log))
        && (r.value.Ok? ==> r.value.value == Batch([], None, false))
    {
      hide M.Exec, M.Inv, M.Do, DistinctSignatures, Page, Agrees, KeysAt;
      var segment;
      ghost var ks;
      ghost var was := client.ledger;
      segment, t, ks := EnumeratePages(s);
      KeysAtGrows(was, client.ledger, pager.pending, s.pending);
      if segment.Err? {
        return Some(Err), t;
      }
      walkBefore := segment.value.resume;
      KeysAtConcat(client.ledger, pager.pending, segment.value.keys, s.pending, ks);
      pager.Extend(segment.value.keys, segment.value.reachedBound);
      r := if segment.value.reachedBound then None else Some(Ok(Batch([], None, false)));
    }

    /** One poll. The run grows by steps of the machine, one of which is the
        return of exactly this result; the cursor moves only to the cursor of a
        returned batch. */
    method Next() returns (r: Result<Batch>)
      requires Valid()
      modifies this`walkBefore, this`lastSignature, this`trace, client, pager
      ensures Valid() && old(client.ledger) <= client.ledger && old(trace) <= trace
      ensures |Machine().log| == |old(Machine().log)| + 1 && old(Machine().log) <= Machine().log
      ensures OutcomeAt(client.ledger, r, M.Last(Machine().log))
      ensures lastSignature == if r.Ok? && r.value.cursor.Some? then r.value.cursor else old(lastSignature)
    {
      hide M.Exec, M.Inv, M.Do, DistinctSignatures, Page, Agrees, KeysAt, MarkAt;
      ghost var log := Machine().log;
      ghost var s := TakeCall(Machine());
      while true
        invariant Shadows(s) && s.phase.Deciding? && s.log == log
        invariant old(client.ledger) <= client.ledger && old(trace) <= trace
        invariant lastSignature == old(lastSignature)
        decreases !pager.reachedBound
      {
        KeysAtLength(client.ledger, pager.pending, s.pending);
        match pager.Step() {
          case Enumerate =>
            var returned;
            returned, s := WalkSegmentOf(s);
            if returned.Some? {
              Settled(s);
              return returned.value;
            }
          case Emit(key) =>
            r, s := EmitPage(key, s);
            Settled(s);
            return;
          case Done =>
            RestartWalk();
            NoKeysAt(client.ledger);
            s := TakeFinish(s);
            NoMarkAt(client.ledger);
            Settled(s);
            return Ok(Batch([], None, true));
        }
      }
    }
  }

  /** The first summary carrying a signature. */
  function IndexOf(page: seq<Summary>, signature: Signature): (r: Option<nat>)
    ensures r.Some? ==> r.value < |page| && page[r.value].signature == signature
    ensures r.None? ==> forall i :: 0 <= i < |page| ==> page[i].signature != signature
  {
    if page == [] then None
    else if page[0].signature == signature then Some(0)
    else
      match IndexOf(page[1..], signature)
      case None => None
      case Some(i) => Some(i + 1)
  }
}
