/** Takes as groups of fill legs, and the order in which the fold reads the fills. */
module Takes {
  import opened Wrappers
  import opened Decode
  import opened Ledger

  /** One row of the fill table. */
  datatype FillRow = FillRow(key: EventKey, blockTime: Option<int>, fill: Fill)

  datatype TakeKey = TakeKey(signature: Signature, txnIndex: int)

  datatype Take = Take(
    key: TakeKey, slot: int, blockTime: Option<int>, market: string, taker: string, side: int,
    legCount: nat, base: nat, quote: nat, takerFee: nat, avgPrice: Option<real>)

  function GroupOf(r: FillRow): TakeKey {
    TakeKey(r.key.signature, r.key.txnIndex)
  }

  // ------------------------------------------------------------ the row order

  /** Text order by code point. */
  predicate TextLess(a: string, b: string) {
    b != [] && (a == [] || a[0] < b[0] || (a[0] == b[0] && TextLess(a[1..], b[1..])))
  }

  lemma {:induction false} TextTotal(a: string, b: string)
    ensures a == b || TextLess(a, b) || TextLess(b, a)
  {
    if a != [] && b != [] && a[0] == b[0] {
      TextTotal(a[1..], b[1..]);
      assert a == [a[0]] + a[1..] && b == [b[0]] + b[1..];
    }
  }

  lemma {:induction false} TextTransitive(a: string, b: string, c: string)
    requires TextLess(a, b) && TextLess(b, c)
    ensures TextLess(a, c)
  {
    if a != [] && a[0] == b[0] == c[0] {
      TextTransitive(a[1..], b[1..], c[1..]);
    }
  }

  lemma {:induction false} TextIrreflexive(a: string)
    ensures !TextLess(a, a)
  {
    if a != [] {
      TextIrreflexive(a[1..]);
    }
  }

  /** `(slot, txn_index, event_ordinal, signature)` compared as a tuple: the
      order of the watermark, in which the ordinal precedes the signature. */
  predicate Less(a: EventKey, b: EventKey) {
    if a.slot != b.slot then a.slot < b.slot
    else if a.txnIndex != b.txnIndex then a.txnIndex < b.txnIndex
    else if a.ordinal != b.ordinal then a.ordinal < b.ordinal
    else TextLess(a.signature, b.signature)
  }

  lemma LessTotal(a: EventKey, b: EventKey)
    ensures a == b || Less(a, b) || Less(b, a)
  {
    TextTotal(a.signature, b.signature);
  }

  lemma LessTransitive(a: EventKey, b: EventKey, c: EventKey)
    requires Less(a, b) && Less(b, c)
    ensures Less(a, c)
  {
    if a.slot == b.slot == c.slot && a.txnIndex == b.txnIndex == c.txnIndex && a.ordinal == b.ordinal == c.ordinal {
      TextTransitive(a.signature, b.signature, c.signature);
    }
  }

  lemma LessIrreflexive(a: EventKey)
    ensures !Less(a, a)
  {
    TextIrreflexive(a.signature);
  }

  // ------------------------------------------------------------ the fill table

  /** The table, listed in the order its watermarked query reads it. */
  ghost predicate Sorted(table: seq<FillRow>) {
    forall i, j :: 0 <= i < j < |table| ==> Less(table[i].key, table[j].key)
  }

  /** Insert unless the key is there. */
  function InsertRow(table: seq<FillRow>, r: FillRow): seq<FillRow> {
    if table == [] then [r]
    else
      var last := table[|table| - 1];
      if last.key == r.key then table
      else if Less(last.key, r.key) then table + [r]
      else InsertRow(table[..|table| - 1], r) + [last]
  }

  function InsertRows(table: seq<FillRow>, rows: seq<FillRow>): seq<FillRow> {
    if rows == [] then table
    else InsertRow(InsertRows(table, rows[..|rows| - 1]), rows[|rows| - 1])
  }

  /** `fill_events WHERE (slot, txn_index, event_ordinal, signature) > mark`. */
  function Above(table: seq<FillRow>, mark: EventKey): seq<FillRow> {
    if table == [] then []
    else
      var last := table[|table| - 1];
      Above(table[..|table| - 1], mark) + (if Less(mark, last.key) then [last] else [])
  }

  /** All legs of one take. */
  function LegsFor(table: seq<FillRow>, k: TakeKey): seq<FillRow> {
    if table == [] then []
    else
      var last := table[|table| - 1];
      LegsFor(table[..|table| - 1], k) + (if GroupOf(last) == k then [last] else [])
  }

  // ---------------------------------------------------------------- one take

  function SumBase(legs: seq<FillRow>): nat {
    if legs == [] then 0 else SumBase(legs[..|legs| - 1]) + legs[|legs| - 1].fill.base
  }

  function SumQuote(legs: seq<FillRow>): nat {
    if legs == [] then 0 else SumQuote(legs[..|legs| - 1]) + legs[|legs| - 1].fill.quote
  }

  function SumFee(legs: seq<FillRow>): nat {
    if legs == [] then 0 else SumFee(legs[..|legs| - 1]) + legs[|legs| - 1].fill.takerFee
  }

  /** The take a non-empty group of legs folds into. */
  function TakeOf(legs: seq<FillRow>): Take
    requires legs != []
  {
    var base, quote := SumBase(legs), SumQuote(legs);
    var first := legs[0];
    Take(GroupOf(first), first.key.slot, first.blockTime, first.fill.market, first.fill.taker, first.fill.side,
         |legs|, base, quote, SumFee(legs),
         if base == 0 then None else Some(quote as real / base as real))
  }

  /** The groups a list of rows falls into. */
  function Groups(rows: seq<FillRow>): set<TakeKey> {
    if rows == [] then {} else Groups(rows[..|rows| - 1]) + {GroupOf(rows[|rows| - 1])}
  }

  /** Every take of a table, by definition. */
  function AllTakes(table: seq<FillRow>): map<TakeKey, Take> {
    map k | k in Groups(table) :: LegsTake(table, k)
  }

  function LegsTake(table: seq<FillRow>, k: TakeKey): Take
    requires k in Groups(table)
  {
    LegsPresent(table, k);
    TakeOf(LegsFor(table, k))
  }

  lemma {:induction false} LegsPresent(table: seq<FillRow>, k: TakeKey)
    ensures LegsFor(table, k) != [] <==> k in Groups(table)
    ensures forall r :: r in LegsFor(table, k) <==> r in table && GroupOf(r) == k
  {
    if table != [] {
      var n := |table| - 1;
      LegsPresent(table[..n], k);
      assert table == table[..n] + [table[n]];
    }
  }

  /** `group_takes`: bucket the legs, then fold each bucket. */
  method GroupTakes(fills: seq<FillRow>) returns (takes: map<TakeKey, Take>)
    ensures takes == AllTakes(fills)
  {
    var groups: map<TakeKey, seq<FillRow>> := map[];
    for i := 0 to |fills|
      invariant groups.Keys == Groups(fills[..i])
      invariant forall k :: k in groups ==> groups[k] == LegsFor(fills[..i], k)
    {
      var k := GroupOf(fills[i]);
      assert fills[..i + 1][..i] == fills[..i];
      LegsPresent(fills[..i], k);
      groups := groups[k := (if k in groups then groups[k] else []) + [fills[i]]];
    }
    assert fills[..|fills|] == fills;
    forall k | k in groups ensures groups[k] != [] {
      LegsPresent(fills, k);
    }
    takes := map k | k in groups :: TakeOf(groups[k]);
  }

  // ------------------------------------------------------------- conservation

  datatype Totals = Totals(legs: nat, base: nat, quote: nat, takerFee: nat)

  function TotalsOfFills(fills: seq<FillRow>): Totals {
    Totals(|fills|, SumBase(fills), SumQuote(fills), SumFee(fills))
  }

  function Add(a: Totals, t: Take): Totals {
    Totals(a.legs + t.legCount, a.base + t.base, a.quote + t.quote, a.takerFee + t.takerFee)
  }

  function TotalsOfTakes(takes: map<TakeKey, Take>, order: seq<TakeKey>): Totals
    requires forall k :: k in order ==> k in takes
  {
    if order == [] then Totals(0, 0, 0, 0)
    else Add(TotalsOfTakes(takes, order[..|order| - 1]), takes[order[|order| - 1]])
  }

  ghost predicate Lists(order: seq<TakeKey>, keys: set<TakeKey>) {
    && (forall k :: k in order <==> k in keys)
    && (forall i, j :: 0 <= i < j < |order| ==> order[i] != order[j])
  }

  /** The rows of the groups in a list. */
  function LegsAmong(table: seq<FillRow>, order: seq<TakeKey>): seq<FillRow> {
    if table == [] then []
    else
      var last := table[|table| - 1];
      LegsAmong(table[..|table| - 1], order) + (if GroupOf(last) in order then [last] else [])
  }

  function Plus(a: Totals, b: Totals): Totals {
    Totals(a.legs + b.legs, a.base + b.base, a.quote + b.quote, a.takerFee + b.takerFee)
  }

  lemma {:induction false} AmongNext(table: seq<FillRow>, order: seq<TakeKey>, k: TakeKey)
    requires k !in order
    ensures TotalsOfFills(LegsAmong(table, order + [k])) ==
            Plus(TotalsOfFills(LegsAmong(table, order)), TotalsOfFills(LegsFor(table, k)))
  {
    hide TotalsOfFills;
    if table == [] {
      NoTotals();
    } else {
      var before, last := table[..|table| - 1], table[|table| - 1];
      AmongNext(before, order, k);
      AmongStep(table, order);
      AmongStep(table, order + [k]);
      LegsStep(table, k);
      hide LegsAmong, LegsFor;
      var a, b, c := LegsAmong(before, order), LegsFor(before, k), LegsAmong(before, order + [k]);
      if GroupOf(last) == k {
        TotalsNext(b, last);
        TotalsNext(c, last);
      } else if GroupOf(last) in order {
        TotalsNext(a, last);
        TotalsNext(c, last);
      }
    }
  }

  lemma AmongStep(table: seq<FillRow>, order: seq<TakeKey>)
    requires table != []
    ensures var n := |table| - 1;
            LegsAmong(table, order) ==
            if GroupOf(table[n]) in order then LegsAmong(table[..n], order) + [table[n]] else LegsAmong(table[..n], order)
  {
  }

  lemma LegsStep(table: seq<FillRow>, k: TakeKey)
    requires table != []
    ensures var n := |table| - 1;
            LegsFor(table, k) == if GroupOf(table[n]) == k then LegsFor(table[..n], k) + [table[n]] else LegsFor(table[..n], k)
  {
  }

  lemma TotalsNext(rows: seq<FillRow>, r: FillRow)
    ensures TotalsOfFills(rows + [r]) ==
            Plus(TotalsOfFills(rows), Totals(1, r.fill.base, r.fill.quote, r.fill.takerFee))
  {
  }

  lemma {:induction false} AmongAll(table: seq<FillRow>, order: seq<TakeKey>)
    requires forall r :: r in table ==> GroupOf(r) in order
    ensures LegsAmong(table, order) == table
  {
    if table != [] {
      AmongAll(table[..|table| - 1], order);
      assert table[|table| - 1] in table;
    }
  }

  lemma {:induction false} NoneAmong(table: seq<FillRow>)
    ensures LegsAmong(table, []) == []
  {
    if table != [] {
      NoneAmong(table[..|table| - 1]);
    }
  }

  lemma NoTotals()
    ensures TotalsOfFills([]) == Totals(0, 0, 0, 0)
  {
  }

  lemma {:induction false} TakesTotalTheirLegs(table: seq<FillRow>, order: seq<TakeKey>)
    requires forall k :: k in order ==> k in Groups(table)
    requires forall i, j :: 0 <= i < j < |order| ==> order[i] != order[j]
    ensures TotalsOfTakes(AllTakes(table), order) == TotalsOfFills(LegsAmong(table, order))
  {
    hide SumBase, SumQuote, SumFee, LegsAmong, LegsFor, Groups;
    if order == [] {
      NoneAmong(table);
      NoTotals();
    } else {
      var n := |order| - 1;
      TakesTotalTheirLegs(table, order[..n]);
      LegsPresent(table, order[n]);
      assert order == order[..n] + [order[n]];
      AmongNext(table, order[..n], order[n]);
    }
  }

  /** Folding conserves the leg count and the base, quote and fee totals. */
  lemma FoldConserves(table: seq<FillRow>, order: seq<TakeKey>)
    requires Lists(order, Groups(table))
    ensures TotalsOfTakes(AllTakes(table), order) == TotalsOfFills(table)
  {
    TakesTotalTheirLegs(table, order);
    forall r | r in table ensures GroupOf(r) in order {
      LegsPresent(table, GroupOf(r));
      assert r in LegsFor(table, GroupOf(r));
    }
    AmongAll(table, order);
  }

  /** A take's average price is its quote over its base, and it has one exactly
      when it moved any base. */
  lemma AveragePriceIs(legs: seq<FillRow>)
    requires legs != []
    ensures TakeOf(legs).avgPrice.None? <==> TakeOf(legs).base == 0
    ensures TakeOf(legs).avgPrice.Some? ==>
      TakeOf(legs).avgPrice.value * (TakeOf(legs).base as real) == TakeOf(legs).quote as real
  {
  }

  // ------------------------------------------------------------- in the open

  /** The sum of a column over the rows of one transaction, whatever the rest of the
      table. */
  ghost function ColumnOf(table: seq<FillRow>, signature: Signature, txnIndex: int, column: FillRow -> nat): nat {
    if table == [] then 0
    else
      var r := table[0];
      (if r.key.signature == signature && r.key.txnIndex == txnIndex then column(r) else 0) + ColumnOf(table[1..], signature, txnIndex, column)
  }

  ghost predicate IsFirst(table: seq<FillRow>, signature: Signature, txnIndex: int, i: nat)
    requires i < |table|
  {
    && table[i].key.signature == signature && table[i].key.txnIndex == txnIndex
    && forall j :: 0 <= j < i ==> table[j].key.signature != signature || table[j].key.txnIndex != txnIndex
  }

  /** A take is its transaction: what its first leg says of the market, the taker, the
      side, the slot and the time; and its legs counted and their base, quote and
      fees summed. */
  ghost predicate TakeTold(table: seq<FillRow>, take: Take) {
    var signature, index := take.key.signature, take.key.txnIndex;
    && (exists i :: 0 <= i < |table| && IsFirst(table, signature, index, i) && SaysOf(take, table[i]))
    && take.legCount == ColumnOf(table, signature, index, r => 1)
    && take.base == ColumnOf(table, signature, index, (r: FillRow) => r.fill.base)
    && take.quote == ColumnOf(table, signature, index, (r: FillRow) => r.fill.quote)
    && take.takerFee == ColumnOf(table, signature, index, (r: FillRow) => r.fill.takerFee)
    && (take.avgPrice.None? <==> take.base == 0)
    && (take.avgPrice.Some? ==> take.avgPrice.value * (take.base as real) == take.quote as real)
  }

  ghost predicate SaysOf(take: Take, r: FillRow) {
    && take.slot == r.key.slot && take.blockTime == r.blockTime
    && take.market == r.fill.market && take.taker == r.fill.taker && take.side == r.fill.side
  }

  lemma {:induction false} ColumnNext(table: seq<FillRow>, r: FillRow, k: TakeKey, column: FillRow -> nat)
    ensures ColumnOf(table + [r], k.signature, k.txnIndex, column) ==
            ColumnOf(table, k.signature, k.txnIndex, column) + (if GroupOf(r) == k then column(r) else 0)
  {
    if table == [] {
      assert (table + [r])[1..] == [];
    } else {
      assert (table + [r])[1..] == table[1..] + [r];
      ColumnNext(table[1..], r, k, column);
    }
  }

  lemma {:induction false} LegsSum(table: seq<FillRow>, k: TakeKey)
    ensures var legs := LegsFor(table, k);
            && |legs| == ColumnOf(table, k.signature, k.txnIndex, r => 1)
            && SumBase(legs) == ColumnOf(table, k.signature, k.txnIndex, (r: FillRow) => r.fill.base)
            && SumQuote(legs) == ColumnOf(table, k.signature, k.txnIndex, (r: FillRow) => r.fill.quote)
            && SumFee(legs) == ColumnOf(table, k.signature, k.txnIndex, (r: FillRow) => r.fill.takerFee)
  {
    if table != [] {
      var before, last := table[..|table| - 1], table[|table| - 1];
      LegsSum(before, k);
      LegsStep(table, k);
      assert table == before + [last];
      ColumnNext(before, last, k, r => 1);
      ColumnNext(before, last, k, (r: FillRow) => r.fill.base);
      ColumnNext(before, last, k, (r: FillRow) => r.fill.quote);
      ColumnNext(before, last, k, (r: FillRow) => r.fill.takerFee);
      if GroupOf(last) == k {
        TotalsNext(LegsFor(before, k), last);
      }
    }
  }

  lemma {:induction false} FirstLeg(table: seq<FillRow>, k: TakeKey)
    requires LegsFor(table, k) != []
    ensures exists i :: 0 <= i < |table| && IsFirst(table, k.signature, k.txnIndex, i) && table[i] == LegsFor(table, k)[0]
  {
    var n := |table| - 1;
    LegsStep(table, k);
    if LegsFor(table[..n], k) == [] {
      LegsPresent(table[..n], k);
      forall j | 0 <= j < n ensures GroupOf(table[j]) != k {
        assert table[..n][j] == table[j] && table[j] in table[..n];
      }
      assert IsFirst(table, k.signature, k.txnIndex, n);
    } else {
      FirstLeg(table[..n], k);
      var i :| 0 <= i < n && IsFirst(table[..n], k.signature, k.txnIndex, i) && table[..n][i] == LegsFor(table[..n], k)[0];
      assert IsFirst(table, k.signature, k.txnIndex, i);
    }
  }

  lemma TakeIsTold(table: seq<FillRow>, k: TakeKey)
    requires k in Groups(table)
    ensures LegsTake(table, k).key == k && TakeTold(table, LegsTake(table, k))
  {
    hide Groups, LegsFor, ColumnOf, SumBase, SumQuote, SumFee, IsFirst;
    LegsPresent(table, k);
    var legs := LegsFor(table, k);
    assert legs[0] in legs;
    LegsSum(table, k);
    FirstLeg(table, k);
    AveragePriceIs(legs);
  }

  /** Every take of a table, and no other, once each. */
  lemma AllTakesAreTold(table: seq<FillRow>)
    ensures forall k :: k in AllTakes(table) <==> exists i :: 0 <= i < |table| && table[i].key.signature == k.signature && table[i].key.txnIndex == k.txnIndex
    ensures forall k :: k in AllTakes(table) ==> AllTakes(table)[k].key == k && TakeTold(table, AllTakes(table)[k])
  {
    hide TakeTold;
    forall k ensures k in Groups(table) <==> exists i :: 0 <= i < |table| && table[i].key.signature == k.signature && table[i].key.txnIndex == k.txnIndex {
      GroupsHold(table, k);
    }
    hide Groups, LegsFor;
    forall k | k in Groups(table) ensures LegsTake(table, k).key == k && TakeTold(table, LegsTake(table, k)) {
      TakeIsTold(table, k);
    }
  }

  lemma {:induction false} GroupsHold(table: seq<FillRow>, k: TakeKey)
    ensures k in Groups(table) <==> exists i :: 0 <= i < |table| && table[i].key.signature == k.signature && table[i].key.txnIndex == k.txnIndex
  {
    if table != [] {
      var n := |table| - 1;
      GroupsHold(table[..n], k);
      forall i | 0 <= i < n ensures table[..n][i] == table[i] {
      }
      if GroupOf(table[n]) == k {
        assert table[n].key.signature == k.signature && table[n].key.txnIndex == k.txnIndex;
      }
    }
  }
}
