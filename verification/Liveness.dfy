/** An edge-triggered reporter over a bounded channel that drops. */
module Liveness {
  import opened Wrappers

  datatype LinkState = Up | Down(reason: Option<string>)

  datatype Update = Update(feed: string, at: int, state: LinkState)

  const DROP_REPORT_EVERY: nat := 100
  const MIN_WARN_INTERVAL_SECS: int := 60
  const PRODUCER_ENDED: string := "the transport producer ended without closing the link"

  /** The consumer's channel: `accepted` is everything ever taken in, of which
      `held` are not yet received. */
  datatype Channel = Channel(capacity: nat, held: nat, closed: bool, accepted: seq<Update>)

  function Free(c: Channel): nat {
    if c.closed || c.held >= c.capacity then 0 else c.capacity - c.held
  }

  datatype Line = Behind(at: int, dropped: nat) | Gone(dropped: nat) | Recovered(after: nat)

  /** `lines` and `offers` are history: what was logged, and whether each offer
      was accepted. */
  datatype Sender = Sender(
    dropped: nat, closedReported: bool, lastWarnAt: int, warned: bool, lines: seq<Line>, offers: seq<bool>)

  function Offer(s: Sender, c: Channel, u: Update, now: int): (Sender, Channel, bool) {
    if c.closed then
      var dropped := s.dropped + 1;
      (s.(dropped := dropped, closedReported := true, offers := s.offers + [false],
          lines := if s.closedReported then s.lines else s.lines + [Gone(dropped)]),
       c, false)
    else if c.held >= c.capacity then
      var dropped := s.dropped + 1;
      var due := dropped == 1 || dropped % DROP_REPORT_EVERY == 0;
      var says := due && now - s.lastWarnAt >= MIN_WARN_INTERVAL_SECS;
      (s.(dropped := dropped, offers := s.offers + [false], lastWarnAt := if says then now else s.lastWarnAt,
          warned := s.warned || says, lines := if says then s.lines + [Behind(now, dropped)] else s.lines),
       c, false)
    else
      (s.(dropped := 0, warned := s.warned && s.dropped == 0, offers := s.offers + [true],
          lines := if s.dropped > 0 && s.warned then s.lines + [Recovered(s.dropped)] else s.lines),
       c.(held := c.held + 1, accepted := c.accepted + [u]), true)
  }

  /** `sets` is history, every transition ever set; `picked` are the positions in
      it of what the channel accepted. */
  datatype Reporter = Reporter(
    feed: string, latest: Option<Update>, delivered: bool, sender: Sender, channel: Channel,
    sets: seq<Update>, picked: seq<nat>)

  function New(feed: string, channel: Channel): Reporter {
    Reporter(feed, None, true, Sender(0, false, 0, false, [], []), channel, [], [])
  }

  function Flush(r: Reporter, now: int): Reporter {
    if r.delivered || r.latest.None? then r
    else
      var (sender, channel, ok) := Offer(r.sender, r.channel, r.latest.value, now);
      r.(sender := sender, channel := channel, delivered := ok,
         picked := if ok && r.sets != [] then r.picked + [|r.sets| - 1] else r.picked)
  }

  function Set(r: Reporter, state: LinkState, at: int, now: int): Reporter {
    var u := Update(r.feed, at, state);
    Flush(r.(latest := Some(u), delivered := false, sets := r.sets + [u]), now)
  }

  function DropReporter(r: Reporter, at: int, now: int): Reporter {
    var f := Flush(r, now);
    if f.delivered && f.latest.Some? && f.latest.value.state.Up? then Set(f, Down(Some(PRODUCER_ENDED)), at, now) else f
  }

  /** The producer sets and reasserts; the consumer receives, or goes away. */
  datatype Op = SetTo(state: LinkState, at: int, now: int) | Reassert(now: int) | Receive | Close

  function Step(r: Reporter, op: Op): Reporter {
    match op
    case SetTo(state, at, now) => Set(r, state, at, now)
    case Reassert(now) => Flush(r, now)
    case Receive => if r.channel.held == 0 then r else r.(channel := r.channel.(held := r.channel.held - 1))
    case Close => r.(channel := r.channel.(closed := true))
  }

  function Run(feed: string, channel: Channel, ops: seq<Op>): Reporter {
    if ops == [] then New(feed, channel) else Step(Run(feed, channel, ops[..|ops| - 1]), ops[|ops| - 1])
  }

  /** The consumer's side: receiving frees a slot where one is held, and going away
      leaves no room for good. */
  lemma ConsumerSteps(r: Reporter)
    ensures var c, d := r.channel, Step(r, Receive).channel;
            Step(r, Receive) == r.(channel := d) && d == c.(held := d.held) && d.held == if c.held == 0 then 0 else c.held - 1
    ensures Step(r, Close) == r.(channel := r.channel.(closed := true)) && Free(Step(r, Close).channel) == 0
  {
  }

  // --------------------------------------------------------------- invariant

  /** The accepted records are the transitions at these increasing positions, so a
      subsequence, each at most once and as it was set. */
  ghost predicate PicksFrom(accepted: seq<Update>, sets: seq<Update>, picked: seq<nat>) {
    && |picked| == |accepted|
    && (forall i :: 0 <= i < |picked| ==> picked[i] < |sets| && accepted[i] == sets[picked[i]])
    && (forall i, j :: 0 <= i < j < |picked| ==> picked[i] < picked[j])
  }

  /** The last thing accepted is the last thing set. */
  predicate Current(r: Reporter) {
    r.sets == [] || (r.picked != [] && r.picked[|r.picked| - 1] == |r.sets| - 1)
  }

  /** The refusals at the end of a list of offers. */
  function TrailingRefusals(offers: seq<bool>): nat {
    if offers == [] || offers[|offers| - 1] then 0 else TrailingRefusals(offers[..|offers| - 1]) + 1
  }

  function BehindTimes(lines: seq<Line>): seq<int> {
    if lines == [] then []
    else
      var l := lines[|lines| - 1];
      BehindTimes(lines[..|lines| - 1]) + (if l.Behind? then [l.at] else [])
  }

  function GoneCount(lines: seq<Line>): nat {
    if lines == [] then 0 else GoneCount(lines[..|lines| - 1]) + (if lines[|lines| - 1].Gone? then 1 else 0)
  }

  ghost predicate Spaced(times: seq<int>) {
    forall i :: 0 < i < |times| ==> times[i] - times[i - 1] >= MIN_WARN_INTERVAL_SECS
  }

  ghost predicate SenderInv(s: Sender) {
    && s.dropped == TrailingRefusals(s.offers)
    && Spaced(BehindTimes(s.lines))
    && (BehindTimes(s.lines) != [] ==> BehindTimes(s.lines)[|BehindTimes(s.lines)| - 1] == s.lastWarnAt)
    && GoneCount(s.lines) == (if s.closedReported then 1 else 0)
    && (s.warned ==> s.dropped > 0)
  }

  ghost predicate Inv(r: Reporter) {
    && r.latest == (if r.sets == [] then None else Some(r.sets[|r.sets| - 1]))
    && PicksFrom(r.channel.accepted, r.sets, r.picked)
    && (r.delivered <==> Current(r))
    && SenderInv(r.sender)
  }

  lemma LinesGrow(lines: seq<Line>, l: Line)
    ensures BehindTimes(lines + [l]) == if l.Behind? then BehindTimes(lines) + [l.at] else BehindTimes(lines)
    ensures GoneCount(lines + [l]) == GoneCount(lines) + (if l.Gone? then 1 else 0)
  {
  }

  lemma OffersGrow(offers: seq<bool>, ok: bool)
    ensures TrailingRefusals(offers + [ok]) == if ok then 0 else TrailingRefusals(offers) + 1
  {
  }

  lemma SpacedGrows(times: seq<int>, at: int)
    requires Spaced(times) && (times != [] ==> at - times[|times| - 1] >= MIN_WARN_INTERVAL_SECS)
    ensures Spaced(times + [at])
  {
  }

  lemma OfferKeeps(s: Sender, c: Channel, u: Update, now: int)
    requires SenderInv(s)
    ensures SenderInv(Offer(s, c, u, now).0)
  {
    hide TrailingRefusals, BehindTimes, GoneCount, Spaced;
    var t := Offer(s, c, u, now).0;
    if c.closed {
      OffersGrow(s.offers, false);
      LinesGrow(s.lines, Gone(s.dropped + 1));
    } else if c.held >= c.capacity {
      OffersGrow(s.offers, false);
      if t.lines != s.lines {
        LinesGrow(s.lines, Behind(now, s.dropped + 1));
        SpacedGrows(BehindTimes(s.lines), now);
      }
    } else {
      OffersGrow(s.offers, true);
      LinesGrow(s.lines, Recovered(s.dropped));
    }
  }

  /** What one offer does and says, whatever came before. It is taken exactly when
      the channel is open and has room, and then says it has caught up if refusals
      were warned of. A refusal by a closed channel is said once; one by a full
      channel when it is the first of its run or a hundredth, a minute or more after
      the last warning. */
  lemma OfferIsTold(s: Sender, c: Channel, u: Update, now: int)
    requires SenderInv(s)
    ensures var (t, after, ok) := Offer(s, c, u, now);
            && (ok <==> !c.closed && c.held < c.capacity)
            && (ok ==>
                  && after == Channel(c.capacity, c.held + 1, false, c.accepted + [u])
                  && t.dropped == 0 && !t.warned && t.closedReported == s.closedReported && t.lastWarnAt == s.lastWarnAt
                  && t.lines == s.lines + (if s.warned then [Recovered(s.dropped)] else []))
            && (!ok ==>
                  && after == c && t.dropped == s.dropped + 1
                  && (c.closed ==>
                        && t.closedReported && t.warned == s.warned && t.lastWarnAt == s.lastWarnAt
                        && t.lines == s.lines + (if s.closedReported then [] else [Gone(s.dropped + 1)]))
                  && (!c.closed ==>
                        var says := (s.dropped == 0 || (s.dropped + 1) % 100 == 0) && now >= s.lastWarnAt + 60;
                        && t.closedReported == s.closedReported
                        && t.lines == s.lines + (if says then [Behind(now, s.dropped + 1)] else [])
                        && t.lastWarnAt == (if says then now else s.lastWarnAt) && t.warned == (says || s.warned)))
  {
    hide TrailingRefusals, BehindTimes, GoneCount, Spaced;
    assert s.lines + [] == s.lines;
  }

  lemma FlushKeeps(r: Reporter, now: int)
    requires r.latest == (if r.sets == [] then None else Some(r.sets[|r.sets| - 1]))
    requires PicksFrom(r.channel.accepted, r.sets, r.picked) && (r.delivered <==> Current(r)) && SenderInv(r.sender)
    ensures Inv(Flush(r, now))
  {
    hide SenderInv, PicksFrom;
    if !r.delivered && r.latest.Some? {
      OfferKeeps(r.sender, r.channel, r.latest.value, now);
      OfferTakes(r.sender, r.channel, r.latest.value, now);
      hide Offer;
      PicksLast(r.channel.accepted, r.sets, r.picked);
    }
  }

  /** What an offer does to the channel. */
  lemma OfferTakes(s: Sender, c: Channel, u: Update, now: int)
    ensures var (_, after, ok) := Offer(s, c, u, now);
            after.accepted == if ok then c.accepted + [u] else c.accepted
  {
  }

  lemma PicksLast(accepted: seq<Update>, sets: seq<Update>, picked: seq<nat>)
    requires PicksFrom(accepted, sets, picked) && sets != [] && (picked == [] || picked[|picked| - 1] != |sets| - 1)
    ensures PicksFrom(accepted + [sets[|sets| - 1]], sets, picked + [|sets| - 1])
  {
    if picked != [] {
      var n := |picked| - 1;
      assert picked[n] < |sets| - 1;
      forall i | 0 <= i <= n ensures picked[i] < |sets| - 1 {
        assert i < n ==> picked[i] < picked[n];
      }
    }
  }

  lemma SetKeeps(r: Reporter, state: LinkState, at: int, now: int)
    requires Inv(r)
    ensures Inv(Set(r, state, at, now))
  {
    hide SenderInv;
    var u := Update(r.feed, at, state);
    FlushKeeps(r.(latest := Some(u), delivered := false, sets := r.sets + [u]), now);
  }

  /** Over every run: the accepted records are a subsequence of the transitions
      set, each at most once with its original stamp; `delivered` holds exactly
      when the last accepted is the latest set; `dropped` counts the refusals since
      the last accept; and warnings are a minute apart, closure said once. */
  lemma {:induction false} RunKeeps(feed: string, channel: Channel, ops: seq<Op>)
    requires channel.accepted == []
    ensures Inv(Run(feed, channel, ops))
  {
    hide SenderInv, Set, Flush;
    if ops == [] {
      assert SenderInv(Sender(0, false, 0, false, [], [])) by { FreshSender(); }
    } else {
      RunKeeps(feed, channel, ops[..|ops| - 1]);
      var r := Run(feed, channel, ops[..|ops| - 1]);
      match ops[|ops| - 1]
      case SetTo(state, at, now) => SetKeeps(r, state, at, now);
      case Reassert(now) => FlushKeeps(r, now);
      case _ =>
    }
  }

  lemma FreshSender()
    ensures SenderInv(Sender(0, false, 0, false, [], []))
  {
  }

  predicate LastIsUp(c: Channel) {
    c.accepted != [] && c.accepted[|c.accepted| - 1].state.Up?
  }

  /** What the consumer is left holding when the producer ends, exactly: the last
      record is Up only if the channel had no room at all and it was Up already, or
      had room for one and spent it on an Up still undelivered. */
  lemma DropLeavesUpIff(r: Reporter, at: int, now: int)
    requires Inv(r)
    ensures var free := Free(r.channel);
            LastIsUp(DropReporter(r, at, now).channel) <==>
            || (free == 0 && LastIsUp(r.channel))
            || (free == 1 && !r.delivered && r.latest.Some? && r.latest.value.state.Up?)
  {
    if r.delivered {
      DeliveredIsLast(r);
    }
    FlushIs(r, now);
    var f, u := Flush(r, now), Update(r.feed, at, Down(Some(PRODUCER_ENDED)));
    FlushIs(f.(latest := Some(u), delivered := false, sets := f.sets + [u]), now);
    FlushKeepsFeed(r, now);
    hide Flush, Inv, Free;
  }

  /** The last word of a producer that ended on an Up the consumer has: down, and
      why. */
  lemma DropSays(r: Reporter, at: int, now: int)
    requires Inv(r)
    ensures var f, d := Flush(r, now), DropReporter(r, at, now);
            if f.delivered && f.latest.Some? && f.latest.value.state.Up? then
              d.sets == r.sets + [Update(r.feed, at, Down(Some("the transport producer ended without closing the link")))]
            else d == f
  {
    FlushKeepsFeed(r, now);
    FlushSets(r, now);
    var f := Flush(r, now);
    var u := Update(r.feed, at, Down(Some(PRODUCER_ENDED)));
    FlushSets(f.(latest := Some(u), delivered := false, sets := f.sets + [u]), now);
    hide Flush, Inv;
  }

  lemma FlushSets(r: Reporter, now: int)
    ensures Flush(r, now).sets == r.sets
  {
  }

  lemma FlushKeepsFeed(r: Reporter, now: int)
    ensures Flush(r, now).feed == r.feed
  {
  }

  /** What a flush leaves in the channel. */
  lemma FlushIs(r: Reporter, now: int)
    ensures var f := Flush(r, now);
            && f.latest == r.latest
            && (if r.delivered || r.latest.None? then f == r
                else if Free(r.channel) == 0 then !f.delivered && f.channel == r.channel
                else f.delivered && f.channel.accepted == r.channel.accepted + [r.latest.value] && Free(f.channel) == Free(r.channel) - 1)
  {
  }

  lemma DeliveredIsLast(r: Reporter)
    requires Inv(r) && r.delivered
    ensures r.latest.None? ==> r.channel.accepted == []
    ensures r.latest.Some? ==> r.channel.accepted != [] && r.channel.accepted[|r.channel.accepted| - 1] == r.latest.value
  {
    hide SenderInv;
    var n := |r.picked|;
    if n > 0 {
      assert r.channel.accepted[n - 1] == r.sets[r.picked[n - 1]];
    }
  }

  /** So with two free slots on an open channel it never is. */
  lemma DropWithRoomLeavesDown(feed: string, channel: Channel, ops: seq<Op>, at: int, now: int)
    requires channel.accepted == [] && Free(Run(feed, channel, ops).channel) >= 2
    ensures var end := DropReporter(Run(feed, channel, ops), at, now);
            !LastIsUp(end.channel) && end.delivered
  {
    hide Run, DropReporter;
    RunKeeps(feed, channel, ops);
    DropLeavesUpIff(Run(feed, channel, ops), at, now);
    DropDelivers(Run(feed, channel, ops), at, now);
  }

  lemma DropDelivers(r: Reporter, at: int, now: int)
    requires Inv(r) && Free(r.channel) >= 2
    ensures DropReporter(r, at, now).delivered
  {
  }

  /** A transition the channel refused goes out, as it was set, on the first
      reassert that finds room. */
  lemma ReassertDelivers(r: Reporter, now: int)
    requires Inv(r) && Free(r.channel) >= 1
    ensures var f := Flush(r, now);
      && f.delivered && Current(f)
      && (r.sets != [] ==> f.channel.accepted[|f.channel.accepted| - 1] == r.sets[|r.sets| - 1])
  {
  }
}
