/** The reporter in the code's own form: three objects updated in place, the
    channel shared with its consumer. */
module LivenessReporter {
  import opened Wrappers
  import opened Liveness

  datatype SendResult = Sent | Full | Closed

  class BoundedChannel {
    const capacity: nat
    var queue: seq<Update>
    var closed: bool
    ghost var accepted: seq<Update>

    constructor (capacity: nat)
      ensures State() == Channel(capacity, 0, false, [])
    {
      this.capacity := capacity;
      queue, closed, accepted := [], false, [];
    }

    ghost function State(): Channel
      reads this
    {
      Channel(capacity, |queue|, closed, accepted)
    }

    method TrySend(u: Update) returns (r: SendResult)
      modifies this
      ensures r == if old(closed) then Closed else if |old(queue)| >= capacity then Full else Sent
      ensures closed == old(closed)
      ensures queue == if r.Sent? then old(queue) + [u] else old(queue)
      ensures accepted == if r.Sent? then old(accepted) + [u] else old(accepted)
    {
      if closed {
        return Closed;
      }
      if |queue| >= capacity {
        return Full;
      }
      queue, accepted := queue + [u], accepted + [u];
      r := Sent;
    }

    /** The consumer takes the oldest record held. */
    method Receive() returns (u: Option<Update>)
      modifies this
      ensures closed == old(closed) && accepted == old(accepted)
      ensures u == if old(queue) == [] then None else Some(old(queue)[0])
      ensures queue == if old(queue) == [] then [] else old(queue)[1..]
    {
      u := None;
      if queue != [] {
        u, queue := Some(queue[0]), queue[1..];
      }
    }
  }

  class DampedSender {
    const tx: BoundedChannel
    var dropped: nat
    var closedReported: bool
    var lastWarnAt: int
    var warned: bool
    ghost var lines: seq<Line>
    ghost var offers: seq<bool>

    constructor (tx: BoundedChannel)
      ensures this.tx == tx && State() == Sender(0, false, 0, false, [], [])
    {
      this.tx := tx;
      dropped, closedReported, lastWarnAt, warned := 0, false, 0, false;
      lines, offers := [], [];
    }

    ghost function State(): Sender
      reads this
    {
      Sender(dropped, closedReported, lastWarnAt, warned, lines, offers)
    }

    method Send(u: Update, now: int) returns (ok: bool)
      modifies this, tx
      ensures (State(), tx.State(), ok) == Offer(old(State()), old(tx.State()), u, now)
    {
      var r := tx.TrySend(u);
      offers := offers + [r.Sent?];
      match r
      case Sent =>
        if dropped > 0 {
          if warned {
            lines := lines + [Recovered(dropped)];
          }
          dropped, warned := 0, false;
        }
        ok := true;
      case Closed =>
        dropped := dropped + 1;
        if !closedReported {
          closedReported := true;
          lines := lines + [Gone(dropped)];
        }
        ok := false;
      case Full =>
        dropped := dropped + 1;
        var due := dropped == 1 || dropped % DROP_REPORT_EVERY == 0;
        if due && now - lastWarnAt >= MIN_WARN_INTERVAL_SECS {
          lastWarnAt, warned := now, true;
          lines := lines + [Behind(now, dropped)];
        }
        ok := false;
    }
  }

  class LivenessReporter {
    const sender: DampedSender
    const feed: string
    var latest: Option<Update>
    var delivered: bool
    ghost var sets: seq<Update>
    ghost var picked: seq<nat>

    constructor (tx: BoundedChannel, feed: string)
      ensures sender.tx == tx && fresh(sender)
      ensures State() == New(feed, tx.State())
    {
      sender := new DampedSender(tx);
      this.feed := feed;
      latest, delivered := None, true;
      sets, picked := [], [];
    }

    ghost function State(): Reporter
      reads this, sender, sender.tx
    {
      Reporter(feed, latest, delivered, sender.State(), sender.tx.State(), sets, picked)
    }

    method FlushLatest(now: int)
      modifies this, sender, sender.tx
      ensures State() == Flush(old(State()), now)
    {
      if delivered || latest.None? {
        return;
      }
      delivered := sender.Send(latest.value, now);
      if delivered && sets != [] {
        picked := picked + [|sets| - 1];
      }
    }

    method SetState(state: LinkState, at: int, now: int)
      modifies this, sender, sender.tx
      ensures State() == Set(old(State()), state, at, now)
    {
      latest := Some(Update(feed, at, state));
      delivered := false;
      sets := sets + [latest.value];
      FlushLatest(now);
    }

    /** Offer the retained transition again; with nothing retained, do nothing. */
    method Retry(now: int)
      modifies this, sender, sender.tx
      ensures State() == Flush(old(State()), now)
    {
      FlushLatest(now);
    }

    /** The producer is ending. */
    method Drop(at: int, now: int)
      modifies this, sender, sender.tx
      ensures State() == DropReporter(old(State()), at, now)
    {
      FlushLatest(now);
      if delivered && latest.Some? && latest.value.state.Up? {
        SetState(Down(Some(PRODUCER_ENDED)), at, now);
      }
    }
  }
}
