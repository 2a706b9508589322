/** The runner and the store sink in the code's own form. */
module Runner {
  import opened Wrappers
  import opened Ledger
  import opened Decode
  import opened RpcPoll
  import M = PollMachine
  import PollTheorems

  /** The warehouse: the raw event tables and this feed's stored cursor. */
  class Database {
    var tables: Tables
    var cursor: Option<Signature>

    constructor (tables: Tables, cursor: Option<Signature>)
      ensures this.tables == tables && this.cursor == cursor
    {
      this.tables := tables;
      this.cursor := cursor;
    }

    /** Commit a transaction's writes. An error is a roll-back, or a commit whose
        reply was lost. */
    method CommitTransaction(written: Tables) returns (ok: bool)
      modifies this`tables
      ensures tables == written || (!ok && tables == old(tables))
    {
      ok := *;
      var takesEffect: bool := *;
      if ok || takesEffect {
        tables := written;
      }
    }

    /** Save the cursor, likewise. */
    method Save(cursor: Signature) returns (ok: bool)
      modifies this`cursor
      ensures this.cursor == Some(cursor) || (!ok && this.cursor == old(this.cursor))
    {
      ok := *;
      var takesEffect: bool := *;
      if ok || takesEffect {
        this.cursor := Some(cursor);
      }
    }
  }

  class StoreSink {
    const db: Database
    const program: Pubkey
    const codec: Codec

    constructor (db: Database, program: Pubkey, codec: Codec)
      ensures this.db == db && this.program == program && this.codec == codec
    {
      this.db := db;
      this.program := program;
      this.codec := codec;
    }

    /** The tables once a batch's rows are in. */
    function With(tables: Tables, batch: Batch): Tables {
      WriteEvents(tables, EventsOf(batch.records, program, codec))
    }

    /** Rows first, cursor second. On an error nothing may be in, or the rows, or
        the rows and the cursor where a reply was lost; never the cursor without
        the rows. */
    method Handle(batch: Batch) returns (ok: bool)
      modifies db
      ensures ok ==>
        && db.tables == With(old(db.tables), batch)
        && db.cursor == if batch.cursor.Some? then batch.cursor else old(db.cursor)
      ensures !ok ==>
        || (db.tables == old(db.tables) && db.cursor == old(db.cursor))
        || (db.tables == With(old(db.tables), batch)
            && (db.cursor == old(db.cursor) || (batch.cursor.Some? && db.cursor == batch.cursor)))
    {
      var connected: bool := *;
      if !connected {
        return false;
      }
      var written, n := WriteBatch(db.tables, batch.records, program, codec);
      ok := db.CommitTransaction(written);
      if !ok {
        return false;
      }
      if batch.cursor.Some? {
        ok := db.Save(batch.cursor.value);
      }
    }
  }

  /** How a run ended: shut down, or a sink error that ends the process. */
  datatype Exit = Shutdown | SinkError

  /** The stored cursor is the source's, and the tables hold what the source
      has emitted on top of what they held before. */
  ghost predicate InStep(source: RpcPollSource, sink: StoreSink, base: Tables)
    reads source, source.client, source.pager, sink.db
  {
    && source.Valid()
    && sink.db.cursor == source.lastSignature
    && sink.db.tables == WriteEvents(base, EventsOf(M.Emitted(source.Machine().log), sink.program, sink.codec))
  }

  /** One turn's batch carries the records just emitted. */
  lemma TurnExtends(log: seq<M.Outcome>, next: seq<M.Outcome>, base: Tables, batch: Batch, ledger: seq<Entry>, program: Pubkey, codec: Codec)
    requires |next| == |log| + 1 && log <= next
    requires OutcomeAt(ledger, Ok(batch), M.Last(next))
    ensures WriteEvents(base, EventsOf(M.Emitted(next), program, codec)) ==
            WriteEvents(WriteEvents(base, EventsOf(M.Emitted(log), program, codec)), EventsOf(batch.records, program, codec))
  {
    assert next == log + [M.Last(next)];
    M.EmittedExtends(log, M.Last(next));
    EventsOfConcat(M.Emitted(log), batch.records, program, codec);
    WriteEventsConcat(base, EventsOf(M.Emitted(log), program, codec), EventsOf(batch.records, program, codec));
  }

  lemma FailureExtends(log: seq<M.Outcome>, next: seq<M.Outcome>, ledger: seq<Entry>)
    requires |next| == |log| + 1 && log <= next
    requires OutcomeAt(ledger, Err, M.Last(next))
    ensures M.Emitted(next) == M.Emitted(log)
  {
    assert next == log + [M.Last(next)];
    M.EmittedExtends(log, M.Last(next));
  }

  /** The source's cursor is where the outcomes so far have moved it. */
  lemma SourceCursor(source: RpcPollSource)
    requires source.Valid()
    ensures CursorAt(source.client.ledger, source.lastSignature, PollTheorems.Reached(source.origin.start, source.Machine().log))
  {
    hide M.Exec;
    PollTheorems.CursorIsTheLastReturned(source.Config(), source.origin, source.trace);
  }

  lemma CursorAtGrows(ledger: seq<Entry>, longer: seq<Entry>, cursor: Option<Signature>, cur: nat)
    requires CursorAt(ledger, cursor, cur) && ledger <= longer
    ensures CursorAt(longer, cursor, cur)
  {
  }

  /** The stored cursor is where these outcomes moved it. */
  ghost predicate CursorIs(source: RpcPollSource, sink: StoreSink, log: seq<M.Outcome>)
    reads source, source.client, sink.db
  {
    CursorAt(source.client.ledger, sink.db.cursor, PollTheorems.Reached(source.origin.start, log))
  }

  /** The tables hold what these outcomes emitted. */
  ghost predicate RowsAre(sink: StoreSink, base: Tables, log: seq<M.Outcome>)
    reads sink.db
  {
    sink.db.tables == WriteEvents(base, EventsOf(M.Emitted(log), sink.program, sink.codec))
  }

  /** The drive loop. `turns` is how many polls complete before the shutdown
      signal is seen. A source error is retried against the same source. A sink
      error ends the run with the cursor and the rows of every batch before, and
      of the last one nothing, its rows, or, where a reply was lost, its rows and
      its cursor. */
  method RunUntil(source: RpcPollSource, sink: StoreSink, turns: nat, ghost base: Tables) returns (exit: Exit)
    requires InStep(source, sink, base)
    modifies source`walkBefore, source`lastSignature, source`trace, source.client, source.pager, sink.db
    ensures source.Valid() && old(source.client.ledger) <= source.client.ledger
    ensures exit.Shutdown? ==>
      && InStep(source, sink, base)
      && CursorIs(source, sink, source.Machine().log)
    ensures exit.SinkError? ==>
      var log := source.Machine().log;
      && log != []
      && (|| (CursorIs(source, sink, M.ButLast(log)) && RowsAre(sink, base, M.ButLast(log)))
          || (CursorIs(source, sink, M.ButLast(log)) && RowsAre(sink, base, log))
          || (CursorIs(source, sink, log) && RowsAre(sink, base, log)))
  {
    hide M.Exec, M.Inv, Agrees, M.Emitted, EventsOf, WriteEvents, CursorAt, PollTheorems.Reached;
    for turn := 0 to turns
      invariant InStep(source, sink, base)
      invariant old(source.client.ledger) <= source.client.ledger
    {
      ghost var log, ledger := source.Machine().log, source.client.ledger;
      SourceCursor(source);
      var polled := source.Next();
      ghost var next := source.Machine().log;
      if polled.Err? {
        FailureExtends(log, next, source.client.ledger);
        continue;
      }
      var batch := polled.value;
      TurnExtends(log, next, base, batch, source.client.ledger, sink.program, sink.codec);
      ghost var stored := sink.db.cursor;
      SourceCursor(source);
      var ok := sink.Handle(batch);
      if !ok {
        assert M.ButLast(next) == log;
        CursorAtGrows(ledger, source.client.ledger, stored, PollTheorems.Reached(source.origin.start, log));
        return SinkError;
      }
    }
    SourceCursor(source);
    exit := Shutdown;
  }
}
