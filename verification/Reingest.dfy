/** What re-ingesting under a wider codec leaves of the fill table and of the
    takes folded from it. */
module Reingest {
  import opened Ledger
  import opened Decode
  import opened Takes
  import Fold

  function RowOf(d: Decoded): FillRow
    requires d.event.FillEvent?
  {
    FillRow(d.key, d.blockTime, d.event.fill)
  }

  /** The fill rows among a list of events, in order. */
  function FillRows(ds: seq<Decoded>): seq<FillRow> {
    if ds == [] then []
    else
      var d := ds[|ds| - 1];
      FillRows(ds[..|ds| - 1]) + (if d.event.FillEvent? then [RowOf(d)] else [])
  }

  ghost predicate Holding(fills: map<EventKey, Decoded>, r: FillRow) {
    r.key in fills && fills[r.key].event.FillEvent? && fills[r.key].key == r.key && RowOf(fills[r.key]) == r
  }

  /** Every row the map holds is a fill under its own key. */
  ghost predicate Fills(fills: map<EventKey, Decoded>) {
    forall k :: k in fills ==> fills[k].event.FillEvent? && fills[k].key == k
  }

  /** The fill table of the warehouse, listed in the order the fold reads it. */
  ghost predicate Listing(table: seq<FillRow>, fills: map<EventKey, Decoded>) {
    Sorted(table) && Fills(fills) && forall r :: r in table <==> Holding(fills, r)
  }

  /** One insert is one insert, on either form of the table. */
  lemma InsertLists(table: seq<FillRow>, fills: map<EventKey, Decoded>, d: Decoded)
    requires Listing(table, fills) && d.event.FillEvent?
    ensures Listing(InsertRow(table, RowOf(d)), if d.key in fills then fills else fills[d.key := d])
  {
    hide InsertRow, Sorted;
    var r := RowOf(d);
    if d.key in fills {
      var q := RowOf(fills[d.key]);
      assert Holding(fills, q);
      Fold.InsertOldKey(table, q, r);
    } else {
      assert Fold.NewKey(table, r);
      Fold.InsertNewRow(table, r);
    }
  }

  lemma InsertRowsNext(table: seq<FillRow>, rows: seq<FillRow>, r: FillRow)
    ensures InsertRows(table, rows + [r]) == InsertRow(InsertRows(table, rows), r)
  {
    assert (rows + [r])[..|rows|] == rows;
  }

  /** Writing events keeps the two in step. */
  lemma {:induction false} WritesList(table: seq<FillRow>, t: Tables, ds: seq<Decoded>)
    requires Listing(table, t.fills)
    ensures Listing(InsertRows(table, FillRows(ds)), WriteEvents(t, ds).fills)
  {
    hide Listing, InsertRow;
    if ds != [] {
      var before, d := ds[..|ds| - 1], ds[|ds| - 1];
      WritesList(table, t, before);
      WriteEventsLast(t, ds);
      hide WriteEvents;
      if d.event.FillEvent? {
        InsertLists(InsertRows(table, FillRows(before)), WriteEvents(t, before).fills, d);
        InsertRowsNext(table, FillRows(before), RowOf(d));
      } else {
        assert FillRows(ds) == FillRows(before);
      }
    }
  }

  lemma OneListing(a: seq<FillRow>, b: seq<FillRow>, fills: map<EventKey, Decoded>)
    requires Listing(a, fills) && Listing(b, fills)
    ensures a == b
  {
    hide Sorted;
    assert forall q :: q in a <==> q in b;
    Fold.SortedEqual(a, b);
  }

  /** Ingesting any list of transactions under one codec and again under one that
      reads more leaves the fill table, row for row, that the wider one alone
      would have left. So no event counts twice: the takes are the same, and the
      legs, base, quote and fees they total are those of the rows once each. */
  lemma NoEventCountsTwice(table: seq<FillRow>, t: Tables, records: seq<RawTx>, program: Pubkey, narrow: Codec, wide: Codec, order: seq<TakeKey>)
    requires Listing(table, t.fills) && Extends(wide, narrow) && RecordsAgree(records)
    requires Lists(order, Groups(InsertRows(table, FillRows(EventsOf(records, program, wide)))))
    ensures var once := InsertRows(table, FillRows(EventsOf(records, program, wide)));
            var again := InsertRows(InsertRows(table, FillRows(EventsOf(records, program, narrow))), FillRows(EventsOf(records, program, wide)));
            && again == once
            && Listing(once, WriteEvents(t, EventsOf(records, program, wide)).fills)
            && TotalsOfTakes(AllTakes(again), order) == TotalsOfFills(once)
  {
    hide Listing, InsertRows, FillRows, EventsOf, WriteEvents, Extends, RecordsAgree, TotalsOfTakes, TotalsOfFills, Groups, AllTakes;
    var ns, ws := EventsOf(records, program, narrow), EventsOf(records, program, wide);
    WritesList(table, t, ns);
    WritesList(InsertRows(table, FillRows(ns)), WriteEvents(t, ns), ws);
    WritesList(table, t, ws);
    ReingestUnderWiderCodec(t, records, program, narrow, wide);
    var once := InsertRows(table, FillRows(ws));
    OneListing(InsertRows(InsertRows(table, FillRows(ns)), FillRows(ws)), once, WriteEvents(t, ws).fills);
    FoldConserves(once, order);
  }
}
