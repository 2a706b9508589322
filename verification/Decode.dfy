/** Decoding a transaction's event-CPIs, and the tables they are written to. */
module Decode {
  import opened Wrappers
  import opened Ledger

  type Bytes = seq<bv8>

  /** The fields of a fill leg the rollups read. Atom counts are unsigned. */
  datatype Fill = Fill(market: string, taker: string, side: int, base: nat, quote: nat, takerFee: nat)

  datatype Event = FillEvent(fill: Fill) | OtherEvent(kind: string, payload: Bytes)

  /** The frozen primary key of an event. */
  datatype EventKey = EventKey(slot: int, txnIndex: int, signature: Signature, ordinal: nat)

  datatype Decoded = Decoded(key: EventKey, blockTime: Option<int>, event: Event)

  /** A build's event codec: any partial reading of a tag-stripped payload. */
  type Codec = Bytes -> Option<Event>

  const EVENT_IX_TAG_LE: Bytes := [0xe4, 0x45, 0xa5, 0x2e, 0x51, 0xcb, 0x9a, 0x1d]
  const DISCRIMINATOR_LEN := 8

  function StripEventTag(data: Bytes): Option<Bytes> {
    if EVENT_IX_TAG_LE <= data && |data| >= |EVENT_IX_TAG_LE| + DISCRIMINATOR_LEN
    then Some(data[|EVENT_IX_TAG_LE|..])
    else None
  }

  predicate EmittedBy(keys: seq<Pubkey>, programIndex: nat, program: Pubkey) {
    programIndex < |keys| && keys[programIndex] == program
  }

  /** Walk the blobs in order. The ordinal counts every tagged blob, before the
      emitter check and before the codec is asked. */
  function DecodeBlobs(tx: RawTx, blobs: seq<InnerIx>, ordinal: nat, program: Pubkey, codec: Codec): seq<Decoded> {
    if blobs == [] then []
    else
      match StripEventTag(blobs[0].data)
      case None => DecodeBlobs(tx, blobs[1..], ordinal, program, codec)
      case Some(payload) =>
        var rest := DecodeBlobs(tx, blobs[1..], ordinal + 1, program, codec);
        if tx.body.keys.None? || !EmittedBy(tx.body.keys.value, blobs[0].programIndex, program) then rest
        else
          match codec(payload)
          case None => rest
          case Some(event) =>
            [Decoded(EventKey(tx.body.slot, tx.txnIndex, tx.signature, ordinal), tx.body.blockTime, event)] + rest
  }

  function DecodeTx(tx: RawTx, program: Pubkey, codec: Codec): seq<Decoded> {
    DecodeBlobs(tx, tx.body.blobs, 0, program, codec)
  }

  // ------------------------------------------------------- what an ordinal is

  /** How many of the blobs carry the event tag. */
  function Tagged(blobs: seq<InnerIx>): nat {
    if blobs == [] then 0 else Tagged(blobs[1..]) + (if StripEventTag(blobs[0].data).Some? then 1 else 0)
  }

  /** Blob `j` is the tag and at least a discriminator after it. */
  predicate IsTagged(blobs: seq<InnerIx>, j: nat) {
    && j < |blobs| && |blobs[j].data| >= 16
    && blobs[j].data[..8] == [0xe4, 0x45, 0xa5, 0x2e, 0x51, 0xcb, 0x9a, 0x1d]
  }

  /** The key of blob `i`, a function of the transaction alone: where the
      transaction is, and how many tagged blobs come before, whoever emitted them
      and whether or not anything reads them. */
  function KeyOf(tx: RawTx, i: nat): EventKey {
    EventKey(tx.body.slot, tx.txnIndex, tx.signature, |TaggedBefore(tx.body.blobs, i)|)
  }

  function TaggedBefore(blobs: seq<InnerIx>, i: nat): set<nat> {
    set j: nat | j < i && IsTagged(blobs, j)
  }

  /** Blob `i` was emitted by the trusted program, and is the tag followed by a
      payload this codec reads as `event`. */
  ghost predicate Carries(tx: RawTx, i: nat, program: Pubkey, codec: Codec, event: Event) {
    && i < |tx.body.blobs|
    && tx.body.keys.Some?
    && tx.body.blobs[i].programIndex < |tx.body.keys.value|
    && tx.body.keys.value[tx.body.blobs[i].programIndex] == program
    && exists payload :: ReadsAs(tx.body.blobs[i].data, payload, codec, event)
  }

  ghost predicate ReadsAs(data: Bytes, payload: Bytes, codec: Codec, event: Event) {
    && data == [0xe4, 0x45, 0xa5, 0x2e, 0x51, 0xcb, 0x9a, 0x1d] + payload && |payload| >= 8
    && codec(payload) == Some(event)
  }

  lemma StripIs(blobs: seq<InnerIx>, j: nat)
    requires j < |blobs|
    ensures StripEventTag(blobs[j].data).Some? <==> IsTagged(blobs, j)
  {
  }

  lemma CarriedIs(data: Bytes, codec: Codec, event: Event)
    ensures (exists payload :: ReadsAs(data, payload, codec, event)) <==>
            StripEventTag(data).Some? && codec(StripEventTag(data).value) == Some(event)
  {
    var stripped := StripEventTag(data);
    if stripped.Some? && codec(stripped.value) == Some(event) {
      assert data == data[..8] + data[8..];
      assert ReadsAs(data, stripped.value, codec, event);
    }
    if exists payload :: ReadsAs(data, payload, codec, event) {
      var payload :| ReadsAs(data, payload, codec, event);
      assert data[8..] == payload && data[..8] == EVENT_IX_TAG_LE;
    }
  }

  lemma {:induction false} TaggedCounts(blobs: seq<InnerIx>, i: nat)
    requires i <= |blobs|
    ensures |TaggedBefore(blobs, i)| == Tagged(blobs[..i])
  {
    if i == 0 {
      assert TaggedBefore(blobs, 0) == {};
    } else {
      OneMoreBefore(blobs, i - 1);
      hide TaggedBefore, IsTagged;
      TaggedCounts(blobs, i - 1);
      TaggedNext(blobs, i - 1);
      StripIs(blobs, i - 1);
      hide Tagged, StripEventTag;
    }
  }

  lemma OneMoreBefore(blobs: seq<InnerIx>, i: nat)
    ensures i !in TaggedBefore(blobs, i)
    ensures TaggedBefore(blobs, i + 1) == if IsTagged(blobs, i) then TaggedBefore(blobs, i) + {i} else TaggedBefore(blobs, i)
  {
    hide IsTagged;
  }

  lemma {:induction false} TaggedOfConcat(a: seq<InnerIx>, b: seq<InnerIx>)
    ensures Tagged(a + b) == Tagged(a) + Tagged(b)
  {
    if a == [] {
      assert a + b == b;
    } else {
      assert (a + b)[1..] == a[1..] + b;
      TaggedOfConcat(a[1..], b);
    }
  }

  lemma TaggedNext(blobs: seq<InnerIx>, at: nat)
    requires at < |blobs|
    ensures Tagged(blobs[..at + 1]) == Tagged(blobs[..at]) + (if StripEventTag(blobs[at].data).Some? then 1 else 0)
  {
    TaggedOfConcat(blobs[..at], [blobs[at]]);
    assert blobs[..at + 1] == blobs[..at] + [blobs[at]];
  }

  /** `d` is what blob `i` decodes to. */
  ghost predicate DecodesTo(tx: RawTx, i: nat, program: Pubkey, codec: Codec, d: Decoded) {
    && Carries(tx, i, program, codec, d.event)
    && d.key == KeyOf(tx, i) && d.blockTime == tx.body.blockTime
  }

  ghost predicate Sound(tx: RawTx, at: nat, program: Pubkey, codec: Codec, out: seq<Decoded>) {
    forall d :: d in out ==> exists i :: at <= i && DecodesTo(tx, i, program, codec, d)
  }

  ghost predicate Complete(tx: RawTx, at: nat, program: Pubkey, codec: Codec, out: seq<Decoded>) {
    forall i, d :: at <= i && DecodesTo(tx, i, program, codec, d) ==> d in out
  }

  ghost predicate OrdinalsRise(from: nat, out: seq<Decoded>) {
    && (forall j :: 0 <= j < |out| ==> from <= out[j].key.ordinal)
    && (forall j, k :: 0 <= j < k < |out| ==> out[j].key.ordinal < out[k].key.ordinal)
  }

  /** The first blob from `at` on decodes to one event, which it carries, or to
      none. */
  lemma FirstBlob(tx: RawTx, at: nat, program: Pubkey, codec: Codec, out: seq<Decoded>, rest: seq<Decoded>)
    requires at < |tx.body.blobs|
    requires out == DecodeBlobs(tx, tx.body.blobs[at..], Tagged(tx.body.blobs[..at]), program, codec)
    requires rest == DecodeBlobs(tx, tx.body.blobs[at + 1..], Tagged(tx.body.blobs[..at + 1]), program, codec)
    ensures out == rest || (out != [] && out == [out[0]] + rest && DecodesTo(tx, at, program, codec, out[0]))
    ensures forall d :: DecodesTo(tx, at, program, codec, d) ==> out != [] && out == [out[0]] + rest && out[0] == d
    ensures out != rest ==> out != [] && out[0].key.ordinal == Tagged(tx.body.blobs[..at]) < Tagged(tx.body.blobs[..at + 1])
  {
    var blobs := tx.body.blobs;
    assert blobs[at..][1..] == blobs[at + 1..];
    TaggedNext(blobs, at);
    TaggedCounts(blobs, at);
    StripIs(blobs, at);
    forall e ensures (exists payload :: ReadsAs(blobs[at].data, payload, codec, e)) <==>
                     StripEventTag(blobs[at].data).Some? && codec(StripEventTag(blobs[at].data).value) == Some(e) {
      CarriedIs(blobs[at].data, codec, e);
    }
    hide Tagged, StripEventTag, ReadsAs, IsTagged;
  }

  /** The blobs from `at` on decode to exactly the events they hold, at
      increasing ordinals. */
  lemma {:induction false} DecodeBlobsExact(tx: RawTx, at: nat, program: Pubkey, codec: Codec, out: seq<Decoded>)
    requires at <= |tx.body.blobs|
    requires out == DecodeBlobs(tx, tx.body.blobs[at..], Tagged(tx.body.blobs[..at]), program, codec)
    ensures Sound(tx, at, program, codec, out)
    ensures Complete(tx, at, program, codec, out)
    ensures OrdinalsRise(Tagged(tx.body.blobs[..at]), out)
    decreases |tx.body.blobs| - at
  {
    var blobs := tx.body.blobs;
    if at == |blobs| {
      NoneFrom(tx, at, program, codec);
    } else {
      var rest := DecodeBlobs(tx, blobs[at + 1..], Tagged(blobs[..at + 1]), program, codec);
      FirstBlob(tx, at, program, codec, out, rest);
      TaggedNext(blobs, at);
      hide DecodeBlobs, Tagged, DecodesTo, StripEventTag;
      DecodeBlobsExact(tx, at + 1, program, codec, rest);
      forall i, d | at <= i && DecodesTo(tx, i, program, codec, d) ensures d in out {
      }
    }
  }

  lemma NoneFrom(tx: RawTx, at: nat, program: Pubkey, codec: Codec)
    requires at == |tx.body.blobs|
    ensures DecodeBlobs(tx, tx.body.blobs[at..], Tagged(tx.body.blobs[..at]), program, codec) == []
    ensures forall i, d :: at <= i ==> !DecodesTo(tx, i, program, codec, d)
  {
  }

  /** An event is decoded exactly when some blob carries it: one the trusted
      program emitted, the tag followed by a payload of at least a discriminator
      that the codec reads as that event. It lies under the key of that blob at the
      transaction's time, no two events share a key, and they come in the order of
      their ordinals. */
  lemma DecodeExact(tx: RawTx, program: Pubkey, codec: Codec)
    ensures forall d :: d in DecodeTx(tx, program, codec) <==> exists i :: DecodesTo(tx, i, program, codec, d)
    ensures DistinctKeys(DecodeTx(tx, program, codec)) && OrdinalsRise(0, DecodeTx(tx, program, codec))
  {
    hide DecodesTo, DecodeBlobs;
    assert tx.body.blobs[0..] == tx.body.blobs;
    assert tx.body.blobs[..0] == [];
    DecodeBlobsExact(tx, 0, program, codec, DecodeTx(tx, program, codec));
  }

  ghost predicate DistinctKeys(ds: seq<Decoded>) {
    forall j, k :: 0 <= j < k < |ds| ==> ds[j].key != ds[k].key
  }

  lemma MoreBefore(blobs: seq<InnerIx>, i: nat, j: nat)
    requires i < j && IsTagged(blobs, i)
    ensures |TaggedBefore(blobs, i)| < |TaggedBefore(blobs, j)|
  {
    hide IsTagged;
    var before := TaggedBefore(blobs, i);
    assert before + {i} <= TaggedBefore(blobs, j);
    FewerWithin(before + {i}, TaggedBefore(blobs, j));
  }

  lemma FewerWithin(a: set<nat>, b: set<nat>)
    requires a <= b
    ensures |a| <= |b|
  {
    assert b == a + (b - a);
  }

  lemma CarriedIsTagged(tx: RawTx, i: nat, program: Pubkey, codec: Codec, event: Event)
    requires Carries(tx, i, program, codec, event)
    ensures IsTagged(tx.body.blobs, i)
  {
    var payload :| ReadsAs(tx.body.blobs[i].data, payload, codec, event);
  }

  /** Any two builds and any two trusted programs: rows under one key come from
      one blob, and rows from one blob lie under one key. */
  lemma KeysDependOnTheTransactionAlone(tx: RawTx, p: Pubkey, c: Codec, q: Pubkey, e: Codec, i: nat, j: nat, x: Decoded, y: Decoded)
    requires DecodesTo(tx, i, p, c, x) && DecodesTo(tx, j, q, e, y)
    ensures x.key == y.key <==> i == j
  {
    CarriedIsTagged(tx, i, p, c, x.event);
    CarriedIsTagged(tx, j, q, e, y.event);
    hide TaggedBefore, Carries;
    if i < j {
      MoreBefore(tx.body.blobs, i, j);
    } else if j < i {
      MoreBefore(tx.body.blobs, j, i);
    }
  }

  // ------------------------------------------------------------------ tables

  /** The two raw tiers, each keyed on the event key. */
  datatype Tables = Tables(fills: map<EventKey, Decoded>, others: map<EventKey, Decoded>)

  /** One insert with `ON CONFLICT DO NOTHING`. */
  function WriteEvent(t: Tables, d: Decoded): Tables {
    if d.event.FillEvent? then
      if d.key in t.fills then t else t.(fills := t.fills[d.key := d])
    else
      if d.key in t.others then t else t.(others := t.others[d.key := d])
  }

  function Written(t: Tables, d: Decoded): nat {
    if WriteEvent(t, d) == t then 0 else 1
  }

  function WriteEvents(t: Tables, ds: seq<Decoded>): Tables {
    if ds == [] then t else WriteEvent(WriteEvents(t, ds[..|ds| - 1]), ds[|ds| - 1])
  }

  predicate Holds(t: Tables, d: Decoded) {
    if d.event.FillEvent? then d.key in t.fills else d.key in t.others
  }

  lemma {:induction false} WriteEventsConcat(t: Tables, a: seq<Decoded>, b: seq<Decoded>)
    ensures WriteEvents(t, a + b) == WriteEvents(WriteEvents(t, a), b)
  {
    if b == [] {
      assert a + b == a;
    } else {
      assert (a + b)[..|a + b| - 1] == a + b[..|b| - 1];
      WriteEventsConcat(t, a, b[..|b| - 1]);
    }
  }

  /** Writing keeps every stored row and stores what it is given. */
  lemma {:induction false} WriteEventsKeeps(t: Tables, ds: seq<Decoded>)
    ensures var u := WriteEvents(t, ds);
            && (forall k :: k in t.fills ==> k in u.fills && u.fills[k] == t.fills[k])
            && (forall k :: k in t.others ==> k in u.others && u.others[k] == t.others[k])
            && (forall d :: d in ds ==> Holds(u, d))
  {
    if ds != [] {
      WriteEventsKeeps(t, ds[..|ds| - 1]);
      assert ds == ds[..|ds| - 1] + [ds[|ds| - 1]];
    }
  }

  /** Writing what is already stored changes nothing. */
  lemma {:induction false} WriteEventsAgain(t: Tables, ds: seq<Decoded>)
    requires forall d :: d in ds ==> Holds(t, d)
    ensures WriteEvents(t, ds) == t
  {
    if ds != [] {
      assert ds[|ds| - 1] in ds;
      WriteEventsAgain(t, ds[..|ds| - 1]);
    }
  }

  function EventsOf(records: seq<RawTx>, program: Pubkey, codec: Codec): seq<Decoded> {
    if records == [] then []
    else EventsOf(records[..|records| - 1], program, codec) + DecodeTx(records[|records| - 1], program, codec)
  }

  lemma NoEvents(program: Pubkey, codec: Codec)
    ensures EventsOf([], program, codec) == []
  {
  }

  lemma EventsNext(records: seq<RawTx>, r: RawTx, program: Pubkey, codec: Codec)
    ensures EventsOf(records + [r], program, codec) == EventsOf(records, program, codec) + DecodeTx(r, program, codec)
  {
    assert (records + [r])[..|records|] == records;
  }

  lemma {:induction false} EventsOfConcat(a: seq<RawTx>, b: seq<RawTx>, program: Pubkey, codec: Codec)
    ensures EventsOf(a + b, program, codec) == EventsOf(a, program, codec) + EventsOf(b, program, codec)
  {
    hide EventsOf, DecodeTx;
    if b == [] {
      assert a + b == a;
      NoEvents(program, codec);
    } else {
      var r, first := b[|b| - 1], b[..|b| - 1];
      EventsOfConcat(a, first, program, codec);
      assert a + b == a + first + [r] && b == first + [r];
      EventsNext(a + first, r, program, codec);
      EventsNext(first, r, program, codec);
    }
  }

  /** The batch writer, in order of arrival and of event. */
  method WriteBatch(t: Tables, records: seq<RawTx>, program: Pubkey, codec: Codec) returns (u: Tables, written: nat)
    ensures u == WriteEvents(t, EventsOf(records, program, codec))
    ensures written == |u.fills| + |u.others| - |t.fills| - |t.others|
  {
    u, written := t, 0;
    for i := 0 to |records|
      invariant u == WriteEvents(t, EventsOf(records[..i], program, codec))
      invariant written == |u.fills| + |u.others| - |t.fills| - |t.others|
    {
      var events := DecodeTx(records[i], program, codec);
      ghost var before := u;
      for j := 0 to |events|
        invariant u == WriteEvents(before, events[..j])
        invariant written == |u.fills| + |u.others| - |t.fills| - |t.others|
      {
        var n := Written(u, events[j]);
        assert events[..j + 1][..j] == events[..j];
        u, written := WriteEvent(u, events[j]), written + n;
      }
      assert events[..|events|] == events;
      assert records[..i + 1][..i] == records[..i];
      WriteEventsConcat(t, EventsOf(records[..i], program, codec), events);
    }
    assert records[..|records|] == records;
  }

  // ------------------------------------------------- a codec that reads more

  /** `wide` reads whatever `narrow` reads, the same way. */
  ghost predicate Extends(wide: Codec, narrow: Codec) {
    forall p :: narrow(p).Some? ==> wide(p) == narrow(p)
  }

  predicate GivenAt(ds: seq<Decoded>, fills: bool, k: EventKey, d: Decoded) {
    d in ds && d.key == k && d.event.FillEvent? == fills
  }

  /** The row a table ends up with at a key: the one it had, else one given. */
  ghost predicate RowAt(was: map<EventKey, Decoded>, now: map<EventKey, Decoded>, ds: seq<Decoded>, fills: bool, k: EventKey) {
    if k in was then k in now && now[k] == was[k]
    else if exists d :: GivenAt(ds, fills, k, d) then k in now && GivenAt(ds, fills, k, now[k])
    else k !in now
  }

  /** Rows under one key are one row. */
  ghost predicate KeysAgree(ds: seq<Decoded>) {
    forall x, y :: x in ds && y in ds && x.key == y.key ==> x == y
  }

  lemma {:induction false} WriteEventsContent(t: Tables, ds: seq<Decoded>, k: EventKey)
    ensures RowAt(t.fills, WriteEvents(t, ds).fills, ds, true, k)
    ensures RowAt(t.others, WriteEvents(t, ds).others, ds, false, k)
  {
    if ds != [] {
      var n := |ds| - 1;
      WriteEventsContent(t, ds[..n], k);
      hide WriteEvents;
      var u := WriteEvents(t, ds[..n]);
      OneMoreRow(t.fills, u.fills, ds, true, k);
      OneMoreRow(t.others, u.others, ds, false, k);
      assert WriteEvents(t, ds) == WriteEvent(u, ds[n]) by { WriteEventsLast(t, ds); }
    }
  }

  lemma WriteEventsLast(t: Tables, ds: seq<Decoded>)
    requires ds != []
    ensures WriteEvents(t, ds) == WriteEvent(WriteEvents(t, ds[..|ds| - 1]), ds[|ds| - 1])
  {
  }

  /** Insert-if-absent of the last row of a list carries the content one further. */
  lemma OneMoreRow(was: map<EventKey, Decoded>, now: map<EventKey, Decoded>, ds: seq<Decoded>, fills: bool, k: EventKey)
    requires ds != [] && RowAt(was, now, ds[..|ds| - 1], fills, k)
    ensures var d := ds[|ds| - 1];
            RowAt(was, if d.event.FillEvent? == fills && d.key !in now then now[d.key := d] else now, ds, fills, k)
  {
    var d, first := ds[|ds| - 1], ds[..|ds| - 1];
    assert ds == first + [d];
    hide RowAt;
    if d.key == k && d.event.FillEvent? == fills {
      RowGiven(was, now, ds, fills, k);
    } else {
      assert forall x :: GivenAt(ds, fills, k, x) <==> GivenAt(first, fills, k, x);
      RowPassedOver(was, now, ds, fills, k);
    }
  }

  /** The last row of the list is for this place. */
  lemma RowGiven(was: map<EventKey, Decoded>, now: map<EventKey, Decoded>, ds: seq<Decoded>, fills: bool, k: EventKey)
    requires ds != [] && RowAt(was, now, ds[..|ds| - 1], fills, k) && GivenAt(ds, fills, k, ds[|ds| - 1])
    ensures RowAt(was, if k !in now then now[k := ds[|ds| - 1]] else now, ds, fills, k)
  {
    var first := ds[..|ds| - 1];
    assert forall x :: x in first ==> x in ds;
    assert k !in was && k in now ==> GivenAt(first, fills, k, now[k]);
  }

  /** It is not, and the place is as it was. */
  lemma RowPassedOver(was: map<EventKey, Decoded>, now: map<EventKey, Decoded>, ds: seq<Decoded>, fills: bool, k: EventKey)
    requires ds != [] && RowAt(was, now, ds[..|ds| - 1], fills, k)
    requires forall x :: GivenAt(ds, fills, k, x) <==> GivenAt(ds[..|ds| - 1], fills, k, x)
    ensures var d := ds[|ds| - 1];
            d.key != k || d.event.FillEvent? != fills ==>
              RowAt(was, if d.event.FillEvent? == fills && d.key !in now then now[d.key := d] else now, ds, fills, k)
  {
  }

  /** Writing part of a list first changes nothing about writing the whole of it. */
  lemma PartThenWhole(t: Tables, ns: seq<Decoded>, ws: seq<Decoded>)
    requires KeysAgree(ws) && forall n :: n in ns ==> n in ws
    ensures WriteEvents(WriteEvents(t, ns), ws) == WriteEvents(t, ws)
  {
    hide WriteEvents;
    var u := WriteEvents(t, ns);
    var a, b := WriteEvents(u, ws), WriteEvents(t, ws);
    forall k
      ensures k in a.fills <==> k in b.fills
      ensures k in a.fills ==> a.fills[k] == b.fills[k]
      ensures k in a.others <==> k in b.others
      ensures k in a.others ==> a.others[k] == b.others[k]
    {
      WriteEventsContent(t, ns, k);
      WriteEventsContent(u, ws, k);
      WriteEventsContent(t, ws, k);
      SameRow(t.fills, u.fills, a.fills, b.fills, ns, ws, true, k);
      SameRow(t.others, u.others, a.others, b.others, ns, ws, false, k);
    }
    assert a.fills == b.fills && a.others == b.others;
  }

  lemma SameRow(t: map<EventKey, Decoded>, u: map<EventKey, Decoded>, a: map<EventKey, Decoded>, b: map<EventKey, Decoded>,
                ns: seq<Decoded>, ws: seq<Decoded>, fills: bool, k: EventKey)
    requires KeysAgree(ws) && forall n :: n in ns ==> n in ws
    requires RowAt(t, u, ns, fills, k) && RowAt(u, a, ws, fills, k) && RowAt(t, b, ws, fills, k)
    ensures (k in a <==> k in b) && (k in a ==> a[k] == b[k])
  {
    assert forall d :: GivenAt(ns, fills, k, d) ==> GivenAt(ws, fills, k, d);
    assert forall x, y :: GivenAt(ws, fills, k, x) && GivenAt(ws, fills, k, y) ==> x == y;
  }

  /** One signature is one transaction, however often a list replays it. */
  ghost predicate RecordsAgree(records: seq<RawTx>) {
    forall x, y :: x in records && y in records && x.signature == y.signature ==> x == y
  }

  /** An event of a list is an event of one of its transactions, and says which. */
  lemma {:induction false} EventsAreOf(records: seq<RawTx>, program: Pubkey, codec: Codec, d: Decoded)
    ensures d in EventsOf(records, program, codec) <==> exists r :: r in records && d in DecodeTx(r, program, codec)
  {
    if records != [] {
      var n := |records| - 1;
      EventsAreOf(records[..n], program, codec, d);
      assert records == records[..n] + [records[n]];
    }
  }

  lemma EventsAgree(records: seq<RawTx>, program: Pubkey, codec: Codec)
    requires RecordsAgree(records)
    ensures KeysAgree(EventsOf(records, program, codec))
  {
    hide EventsOf, DecodeTx, DistinctKeys;
    var ds := EventsOf(records, program, codec);
    forall d, e | d in ds && e in ds && d.key == e.key ensures d == e {
      EventsAreOf(records, program, codec, d);
      EventsAreOf(records, program, codec, e);
      var x :| x in records && d in DecodeTx(x, program, codec);
      var y :| y in records && e in DecodeTx(y, program, codec);
      EventsOfOneTransaction(x, program, codec, d, d);
      EventsOfOneTransaction(y, program, codec, e, e);
      EventsOfOneTransaction(x, program, codec, d, e);
    }
  }

  lemma EventsOfOneTransaction(tx: RawTx, program: Pubkey, codec: Codec, d: Decoded, e: Decoded)
    requires d in DecodeTx(tx, program, codec)
    ensures d.key.signature == tx.signature
    ensures e in DecodeTx(tx, program, codec) && e.key == d.key ==> e == d
  {
    hide DecodeTx;
    DecodeExact(tx, program, codec);
    var i :| DecodesTo(tx, i, program, codec, d);
  }

  /** Re-ingesting any list of transactions, replays included, under a codec that
      reads more leaves the tables as if the wider codec had ingested it all along:
      stored rows stand, and no event is stored twice. */
  lemma ReingestUnderWiderCodec(t: Tables, records: seq<RawTx>, program: Pubkey, narrow: Codec, wide: Codec)
    requires Extends(wide, narrow) && RecordsAgree(records)
    ensures WriteEvents(WriteEvents(t, EventsOf(records, program, narrow)), EventsOf(records, program, wide))
            == WriteEvents(t, EventsOf(records, program, wide))
  {
    hide WriteEvents, EventsOf, DecodeTx, KeysAgree;
    EventsAgree(records, program, wide);
    NarrowListWithinWide(records, program, narrow, wide);
    PartThenWhole(t, EventsOf(records, program, narrow), EventsOf(records, program, wide));
  }

  lemma NarrowListWithinWide(records: seq<RawTx>, program: Pubkey, narrow: Codec, wide: Codec)
    requires Extends(wide, narrow)
    ensures forall n :: n in EventsOf(records, program, narrow) ==> n in EventsOf(records, program, wide)
  {
    hide EventsOf, DecodeTx;
    forall n | n in EventsOf(records, program, narrow) ensures n in EventsOf(records, program, wide) {
      EventsAreOf(records, program, narrow, n);
      EventsAreOf(records, program, wide, n);
      var r :| r in records && n in DecodeTx(r, program, narrow);
      NarrowWithinWide(r, program, narrow, wide);
    }
  }

  lemma NarrowWithinWide(tx: RawTx, program: Pubkey, narrow: Codec, wide: Codec)
    requires Extends(wide, narrow)
    ensures forall n :: n in DecodeTx(tx, program, narrow) ==> n in DecodeTx(tx, program, wide)
  {
    DecodeExact(tx, program, narrow);
    DecodeExact(tx, program, wide);
    hide DecodeTx, DecodesTo, Extends;
    forall n | n in DecodeTx(tx, program, narrow) ensures n in DecodeTx(tx, program, wide) {
      var i: nat :| DecodesTo(tx, i, program, narrow, n);
      WiderReads(tx, i, program, narrow, wide, n);
    }
  }

  lemma WiderReads(tx: RawTx, i: nat, program: Pubkey, narrow: Codec, wide: Codec, n: Decoded)
    requires Extends(wide, narrow) && DecodesTo(tx, i, program, narrow, n)
    ensures DecodesTo(tx, i, program, wide, n)
  {
    var payload :| ReadsAs(tx.body.blobs[i].data, payload, narrow, n.event);
    assert ReadsAs(tx.body.blobs[i].data, payload, wide, n.event);
  }
}
