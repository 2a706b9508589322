/** The program's transaction history as the RPC node serves it: an append-only
    sequence, oldest first, answered newest first in capped pages. */
module Ledger {
  import opened Wrappers

  type Signature = string
  type Pubkey = string

  /** What a program emitted from inside a transaction; `programIndex` is an index
      into the account keys, not yet looked up. */
  datatype InnerIx = InnerIx(programIndex: nat, data: seq<bv8>)

  /** What a fetched transaction carries besides its signature. `keys` is the
      assembled account-key list, `None` when an address would not parse. */
  datatype Body = Body(slot: int, blockTime: Option<int>, blobs: seq<InnerIx>, keys: Option<seq<Pubkey>>)

  /** One ledger entry. `failed` is the on-chain error flag of the summary;
      `body` is `None` when the fetched transaction has no metadata. */
  datatype Entry = Entry(signature: Signature, failed: bool, body: Option<Body>)

  datatype RawTx = RawTx(signature: Signature, txnIndex: int, body: Body)

  datatype Summary = Summary(signature: Signature, failed: bool)

  predicate DistinctSignatures(ledger: seq<Entry>) {
    forall i, j :: 0 <= i < j < |ledger| ==> ledger[i].signature != ledger[j].signature
  }

  /** The record an entry yields, when it yields one. */
  function Record(e: Entry): Option<RawTx> {
    if e.failed || e.body.None? then None else Some(RawTx(e.signature, 0, e.body.value))
  }

  /** The records of a stretch of ledger, oldest first. */
  function Records(entries: seq<Entry>): seq<RawTx> {
    if entries == [] then []
    else
      var e := entries[|entries| - 1];
      Records(entries[..|entries| - 1]) + (if Record(e).Some? then [Record(e).value] else [])
  }

  lemma {:induction false} RecordsOfConcat(a: seq<Entry>, b: seq<Entry>)
    ensures Records(a + b) == Records(a) + Records(b)
  {
    if b == [] {
      assert a + b == a;
    } else {
      var n := |b| - 1;
      assert (a + b)[..|a + b| - 1] == a + b[..n];
      RecordsOfConcat(a, b[..n]);
    }
  }

  /** Where a signature sits in the ledger. */
  function Position(ledger: seq<Entry>, signature: Signature): (r: Option<nat>)
    ensures r.Some? ==> r.value < |ledger| && ledger[r.value].signature == signature
    ensures r.None? ==> forall i :: 0 <= i < |ledger| ==> ledger[i].signature != signature
  {
    if ledger == [] then None
    else if ledger[|ledger| - 1].signature == signature then Some(|ledger| - 1)
    else Position(ledger[..|ledger| - 1], signature)
  }

  lemma PositionOfEntry(ledger: seq<Entry>, i: nat)
    requires DistinctSignatures(ledger) && i < |ledger|
    ensures Position(ledger, ledger[i].signature) == Some(i)
  {
  }

  /** The exclusive upper position a `before` marker stands for. */
  function Upper(ledger: seq<Entry>, before: Option<Signature>): (r: nat)
    ensures r <= |ledger|
  {
    match before
    case None => |ledger|
    case Some(b) =>
      match Position(ledger, b)
      case None => |ledger|
      case Some(p) => p
  }

  /** The first position above an `until` marker. */
  function Lower(ledger: seq<Entry>, until: Option<Signature>): (r: nat)
    ensures r <= |ledger|
  {
    match until
    case None => 0
    case Some(u) =>
      match Position(ledger, u)
      case None => 0
      case Some(p) => p + 1
  }

  /** The lowest position a reply over `[lower, upper)` reaches. */
  function ReplyFrom(lower: nat, upper: nat, limit: nat): (r: nat)
    ensures lower <= upper ==> lower <= r <= upper && upper - r <= limit
    ensures lower <= upper ==> r == lower || upper - r == limit
  {
    if upper <= lower + limit then lower else upper - limit
  }

  /** Summaries of positions `[from, upper)`, newest first. */
  function Summaries(ledger: seq<Entry>, from: nat, upper: nat): (r: seq<Summary>)
    requires from <= upper <= |ledger|
    ensures |r| == upper - from
    ensures forall i :: 0 <= i < |r| ==>
      r[i] == Summary(ledger[upper - 1 - i].signature, ledger[upper - 1 - i].failed)
  {
    seq(upper - from, i requires 0 <= i < upper - from =>
      Summary(ledger[upper - 1 - i].signature, ledger[upper - 1 - i].failed))
  }

  /** `getSignaturesForAddress`: newest first, strictly below `before`, strictly
      above `until`, capped at `limit` taken from the newest end. */
  function Page(ledger: seq<Entry>, before: Option<Signature>, until: Option<Signature>, limit: nat): seq<Summary> {
    var upper := Upper(ledger, before);
    var lower := Lower(ledger, until);
    if upper <= lower then [] else Summaries(ledger, ReplyFrom(lower, upper, limit), upper)
  }

  /** The window a query asks about, newest first and uncapped. */
  function Window(ledger: seq<Entry>, before: Option<Signature>, until: Option<Signature>): seq<Summary> {
    var upper, lower := Upper(ledger, before), Lower(ledger, until);
    if upper <= lower then [] else Summaries(ledger, lower, upper)
  }

  /** A reply is the newest `limit` entries of its window, or all of a shorter one. */
  lemma PageIsNewest(ledger: seq<Entry>, before: Option<Signature>, until: Option<Signature>, limit: nat)
    ensures var whole := Window(ledger, before, until);
            Page(ledger, before, until, limit) == whole[..if limit < |whole| then limit else |whole|]
  {
  }
}
