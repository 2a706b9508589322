/** One aggregation pass in the code's own form, over a store any call to which
    may fail, with or without having taken effect. */
module Aggregate {
  import opened Wrappers
  import opened Decode
  import opened Takes
  import opened Fold

  class Store {
    var table: seq<FillRow>
    var takes: map<TakeKey, Take>
    var rolled: map<string, map<TakeKey, Take>>
    var mark: EventKey

    constructor ()
      ensures At(Idle, {}) == Empty
    {
      table, takes, rolled, mark := [], map[], map[], START;
    }

    /** The state of the fold machine this store is in. */
    ghost function At(phase: Phase, missed: set<TakeKey>): State
      reads this
    {
      State(table, takes, rolled, mark, phase, missed)
    }

    method Cursor() returns (r: Result<EventKey>)
      ensures r.Ok? ==> r.value == mark
    {
      var ok: bool := *;
      r := if ok then Ok(mark) else Err;
    }

    method FillsAfter(mark: EventKey, limit: nat) returns (r: Result<seq<FillRow>>)
      ensures r.Ok? ==> r.value == FirstOf(Above(table, mark), limit)
    {
      var ok: bool := *;
      r := if ok then Ok(FirstOf(Above(table, mark), limit)) else Err;
    }

    method LegsOf(k: TakeKey) returns (r: Result<seq<FillRow>>)
      ensures r.Ok? ==> r.value == LegsFor(table, k)
    {
      var ok: bool := *;
      r := if ok then Ok(LegsFor(table, k)) else Err;
    }

    method Upsert(t: Take) returns (ok: bool)
      modifies this`takes
      ensures takes == UpsertTake(old(takes), t) || (!ok && takes == old(takes))
    {
      ok := *;
      var takesEffect: bool := *;
      if ok || takesEffect {
        takes := UpsertTake(takes, t);
      }
    }

    method Recompute(market: string) returns (ok: bool)
      modifies this`rolled
      ensures rolled == old(rolled)[market := MarketTakes(takes, market)] || (!ok && rolled == old(rolled))
    {
      ok := *;
      var takesEffect: bool := *;
      if ok || takesEffect {
        rolled := rolled[market := MarketTakes(takes, market)];
      }
    }

    method SetMark(mark: EventKey) returns (ok: bool)
      modifies this`mark
      ensures this.mark == mark || (!ok && this.mark == old(this.mark))
    {
      ok := *;
      var takesEffect: bool := *;
      if ok || takesEffect {
        this.mark := mark;
      }
    }
  }

  lemma {:induction false} LegsOfLegs(table: seq<FillRow>, k: TakeKey)
    ensures LegsFor(LegsFor(table, k), k) == LegsFor(table, k)
  {
    if table != [] {
      var before, last := LegsFor(table[..|table| - 1], k), table[|table| - 1];
      LegsOfLegs(table[..|table| - 1], k);
      LegsStep(table, k);
      if GroupOf(last) == k {
        assert (before + [last])[..|before|] == before;
      }
    }
  }

  /** Grouping one take's own legs gives that take and nothing else. */
  lemma OneTakePerGroup(table: seq<FillRow>, k: TakeKey)
    requires k in Groups(table)
    ensures AllTakes(LegsFor(table, k)) == map[k := LegsTake(table, k)]
  {
    hide Groups, LegsFor, TakeOf;
    var legs := LegsFor(table, k);
    LegsOfLegs(table, k);
    LegsPresent(table, k);
    LegsPresent(legs, k);
    forall j | j in Groups(legs) ensures j == k {
      GroupsAre(legs, j);
    }
  }

  /** Fold one take from its full leg set. */
  method FoldOne(store: Store, k: TakeKey) returns (r: Result<set<string>>)
    requires k in Groups(store.table)
    modifies store`takes
    ensures r.Ok? ==>
      && store.takes == UpsertTake(old(store.takes), LegsTake(store.table, k))
      && r.value == {LegsTake(store.table, k).market}
    ensures r.Err? ==> store.takes == old(store.takes) || store.takes == UpsertTake(old(store.takes), LegsTake(store.table, k))
  {
    var legs := store.LegsOf(k);
    if legs.Err? {
      return Err;
    }
    var folded := GroupTakes(legs.value);
    OneTakePerGroup(store.table, k);
    var markets: set<string> := {};
    var left := folded.Keys;
    while left != {}
      invariant left <= folded.Keys
      invariant k in left ==> store.takes == old(store.takes) && markets == {}
      invariant k !in left ==>
        && store.takes == UpsertTake(old(store.takes), LegsTake(store.table, k))
        && markets == {LegsTake(store.table, k).market}
    {
      var j :| j in left;
      markets := markets + {folded[j].market};
      var ok := store.Upsert(folded[j]);
      if !ok {
        return Err;
      }
      left := left - {j};
    }
    r := Ok(markets);
  }

  /** What one pass leaves, when it returns normally. */
  ghost predicate Passed(before: State, after: State, fills: seq<FillRow>)
    requires fills != []
  {
    && after.mark == fills[|fills| - 1].key
    && (forall k :: k in Groups(fills) ==>
          && k in Groups(before.table) && k in after.takes && after.takes[k] == LegsTake(before.table, k)
          && Fresh(after, after.takes[k].market))
    && Untouched(before.takes, after.takes, fills)
    && RolledElsewhere(before.rolled, after.rolled, MarketsOf(after.takes, Groups(fills)))
  }

  ghost predicate RolledElsewhere(before: map<string, map<TakeKey, Take>>, after: map<string, map<TakeKey, Take>>, markets: set<string>) {
    && (forall m :: m !in markets ==> (m in after <==> m in before))
    && (forall m :: m !in markets && m in after ==> after[m] == before[m])
  }

  ghost predicate Untouched(before: map<TakeKey, Take>, takes: map<TakeKey, Take>, fills: seq<FillRow>) {
    && (forall k :: k !in Groups(fills) ==> (k in takes <==> k in before))
    && (forall k :: k !in Groups(fills) && k in takes ==> takes[k] == before[k])
  }

  /** Fold every take a pass's rows touch, and collect their markets. */
  method FoldTouched(store: Store, fills: seq<FillRow>, ghost missed: set<TakeKey>) returns (r: Result<set<string>>)
    requires Inv(store.At(Folding(fills, Groups(fills)), missed))
    modifies store`takes
    ensures r.Err? ==> Inv(store.At(Idle, missed))
    ensures r.Ok? ==> Inv(store.At(Rolling(fills, r.value), missed))
    ensures r.Ok? ==> r.value == MarketsOf(store.takes, Groups(fills))
    ensures r.Ok? ==> Untouched(old(store.takes), store.takes, fills)
  {
    hide Inv, Groups, Above, LegsTake, UpsertTake, MarketTakes, MarketsOf;
    var todo := Groups(fills);
    var markets: set<string> := {};
    NoMarkets(store.takes);
    assert Groups(fills) - todo == {};
    while todo != {}
      invariant Inv(store.At(Folding(fills, todo), missed))
      invariant todo <= Groups(fills)
      invariant Untouched(old(store.takes), store.takes, fills)
      invariant markets == MarketsOf(store.takes, Groups(fills) - todo)
    {
      var k :| k in todo;
      ghost var s := store.At(Folding(fills, todo), missed);
      NextGroup(s, k);
      var folded := FoldOne(store, k);
      StepKeeps(s, Crash);
      StepKeeps(s, Fold.Upsert(k));
      if folded.Err? {
        StepKeeps(Do(s, Fold.Upsert(k)), Crash);
        return Err;
      }
      AddsItsMarket(s, k, Groups(fills) - todo);
      markets := markets + folded.value;
      todo := todo - {k};
      assert Groups(fills) - todo == Groups(fills) - s.phase.todo + {k};
    }
    assert Groups(fills) - todo == Groups(fills);
    StepKeeps(store.At(Folding(fills, {}), missed), EndUpserts);
    r := Ok(markets);
  }

  /** Refresh the rollups of the touched markets. */
  method RollUp(store: Store, fills: seq<FillRow>, touched: set<string>, ghost missed: set<TakeKey>) returns (ok: bool)
    requires Inv(store.At(Rolling(fills, touched), missed))
    modifies store`rolled
    ensures !ok ==> Inv(store.At(Idle, missed))
    ensures ok ==> Inv(store.At(Rolling(fills, {}), missed))
    ensures RolledElsewhere(old(store.rolled), store.rolled, touched)
  {
    hide Inv, Groups, Above, LegsTake, MarketTakes;
    var markets := touched;
    while markets != {}
      invariant markets <= touched
      invariant Inv(store.At(Rolling(fills, markets), missed))
      invariant RolledElsewhere(old(store.rolled), store.rolled, touched)
    {
      var m :| m in markets;
      ghost var s := store.At(Rolling(fills, markets), missed);
      ok := store.Recompute(m);
      StepKeeps(s, Crash);
      StepKeeps(s, Fold.Recompute(m));
      if !ok {
        StepKeeps(Do(s, Fold.Recompute(m)), Crash);
        return;
      }
      markets := markets - {m};
    }
    ok := true;
  }

  /** One aggregation pass. Whatever fails, and wherever, what is left is a state
      the next pass can start from; only a pass that ran to its end, or whose last
      reply was lost, moves the watermark. */
  method RunOnce(store: Store, limit: nat, ghost missed: set<TakeKey>) returns (r: Result<nat>)
    requires Inv(store.At(Idle, missed))
    modifies store`takes, store`rolled, store`mark
    ensures Inv(store.At(Idle, missed))
    ensures r.Err? ==>
      var fills := FirstOf(Above(store.table, old(store.mark)), limit);
      store.mark == old(store.mark) || (fills != [] && store.mark == fills[|fills| - 1].key)
    ensures r.Ok? ==>
      var fills := FirstOf(Above(store.table, old(store.mark)), limit);
      && r.value == |fills|
      && (if fills == [] then store.At(Idle, missed) == old(store.At(Idle, missed))
          else Passed(old(store.At(Idle, missed)), store.At(Idle, missed), fills))
  {
    hide Inv, Groups, Above, LegsTake, MarketTakes, MarketsOf, Untouched, RolledElsewhere;
    var cursor := store.Cursor();
    if cursor.Err? {
      return Err;
    }
    var polled := store.FillsAfter(cursor.value, limit);
    if polled.Err? {
      return Err;
    }
    var fills := polled.value;
    if fills == [] {
      return Ok(0);
    }
    StepKeeps(store.At(Idle, missed), Begin(limit));
    var markets := FoldTouched(store, fills, missed);
    if markets.Err? {
      return Err;
    }
    var ok := RollUp(store, fills, markets.value, missed);
    if !ok {
      return Err;
    }
    ghost var rolledUp := store.At(Rolling(fills, {}), missed);
    ok := store.SetMark(fills[|fills| - 1].key);
    StepKeeps(rolledUp, Crash);
    StepKeeps(rolledUp, Fold.SetCursor);
    if !ok {
      return Err;
    }
    RolledUp(rolledUp);
    r := Ok(|fills|);
  }

  lemma NoMarkets(takes: map<TakeKey, Take>)
    ensures MarketsOf(takes, {}) == {}
  {
  }

  /** A group still to do is a group of the table. */
  lemma NextGroup(s: State, k: TakeKey)
    requires Inv(s) && s.phase.Folding? && k in s.phase.todo
    ensures k in Groups(s.table) && Enabled(s, Fold.Upsert(k))
    ensures TakesFolded(s) && UpsertTake(s.takes, LegsTake(s.table, k)) == s.takes[k := LegsTake(s.table, k)]
  {
    hide Groups, LegsTake, HasAbove, Above, MarketTakes, UpsertTake;
    NextRowsAreAhead(s, s.phase.fills, k);
    UpsertIsReplace(s, k);
  }

  lemma AddsItsMarket(s: State, k: TakeKey, keys: set<TakeKey>)
    requires TakesFolded(s) && k in Groups(s.table)
    ensures MarketsOf(UpsertTake(s.takes, LegsTake(s.table, k)), keys + {k}) ==
            MarketsOf(s.takes, keys) + {LegsTake(s.table, k).market}
  {
    hide Groups, LegsTake;
    UpsertIsReplace(s, k);
    var next := s.takes[k := LegsTake(s.table, k)];
    assert k in next && next[k].market in MarketsOf(next, keys + {k});
    forall m | m in MarketsOf(s.takes, keys) ensures m in MarketsOf(next, keys + {k}) {
      var j :| j in keys && j in s.takes && s.takes[j].market == m;
      assert j in next && next[j].market == m;
    }
  }

  lemma RolledUp(s: State)
    requires Inv(s) && s.phase.Rolling? && s.phase.left == {}
    ensures forall k :: k in Groups(s.phase.fills) ==>
      && k in Groups(s.table) && k in s.takes && s.takes[k] == LegsTake(s.table, k)
      && Fresh(s, s.takes[k].market)
  {
  }
}
