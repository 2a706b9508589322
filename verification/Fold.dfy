/** Runs of the fold: per-transaction inserts, bounded passes over what lies
    above the watermark, and a crash allowed between any two of a pass's steps. */
module Fold {
  import opened Wrappers
  import opened Decode
  import opened Takes

  // ---------------------------------------------------------- rows and marks

  ghost predicate HasAbove(table: seq<FillRow>, k: TakeKey, mark: EventKey) {
    exists r :: r in table && GroupOf(r) == k && Less(mark, r.key)
  }

  ghost predicate AboveExactly(table: seq<FillRow>, mark: EventKey, out: seq<FillRow>) {
    forall r :: r in out <==> r in table && Less(mark, r.key)
  }

  lemma {:induction false} AboveIsExact(table: seq<FillRow>, mark: EventKey)
    requires Sorted(table)
    ensures Sorted(Above(table, mark)) && AboveExactly(table, mark, Above(table, mark))
  {
    if table != [] {
      var n := |table| - 1;
      AboveIsExact(table[..n], mark);
      assert table == table[..n] + [table[n]];
    }
  }

  /** Taking the first `n` of them leaves exactly the rest above the last taken. */
  lemma AboveMovesOn(table: seq<FillRow>, mark: EventKey, n: nat, r: FillRow)
    requires Sorted(table)
    requires 0 < n <= |Above(table, mark)|
    ensures var took := Above(table, mark)[..n];
            r in table && Less(mark, r.key) ==> r in took || Less(took[n - 1].key, r.key)
    ensures var took := Above(table, mark)[..n];
            Less(mark, took[n - 1].key) && (Less(took[n - 1].key, r.key) ==> Less(mark, r.key))
    ensures forall q :: q in Above(table, mark)[..n] ==> q in table && Less(mark, q.key)
  {
    hide Less, Above;
    AboveIsExact(table, mark);
    var above := Above(table, mark);
    assert above[n - 1] in above;
    if r in above {
      var i :| 0 <= i < |above| && above[i] == r;
      assert i < n ==> above[..n][i] == r;
    }
    if Less(above[n - 1].key, r.key) {
      LessTransitive(mark, above[n - 1].key, r.key);
    }
  }

  lemma EmptyTogether(a: seq<FillRow>, b: seq<FillRow>)
    requires forall q :: q in a <==> q in b
    ensures a == [] <==> b == []
  {
    if a != [] {
      assert a[0] in b;
    }
    if b != [] {
      assert b[0] in a;
    }
  }

  /** A sorted table is told by its rows. */
  lemma {:induction false} SortedEqual(a: seq<FillRow>, b: seq<FillRow>)
    requires Sorted(a) && Sorted(b) && forall q :: q in a <==> q in b
    ensures a == b
  {
    hide Less;
    EmptyTogether(a, b);
    if a != [] {
      var m, n := |a| - 1, |b| - 1;
      LastIsHighest(a);
      LastIsHighest(b);
      assert a[m] in b && b[n] in a;
      if a[m] != b[n] {
        LessTransitive(a[m].key, b[n].key, a[m].key);
        LessIrreflexive(a[m].key);
      }
      var last := a[m];
      assert last == b[n];
      forall q ensures q in a[..m] <==> q in b[..n] {
        assert q in a[..m] <==> q in a && q != last;
        assert q in b[..n] <==> q in b && q != last;
      }
      SortedEqual(a[..m], b[..n]);
    }
  }

  lemma LastIsHighest(a: seq<FillRow>)
    requires Sorted(a) && a != []
    ensures var last := a[|a| - 1];
            && (forall q :: q in a ==> q == last || Less(q.key, last.key))
            && (forall q :: q in a[..|a| - 1] <==> q in a && q != last)
  {
    hide Less;
    var last := a[|a| - 1];
    assert a == a[..|a| - 1] + [last];
    LessIrreflexive(last.key);
  }

  /** What lies above the last row taken is what was not taken. */
  lemma AboveTheTaken(table: seq<FillRow>, mark: EventKey, n: nat)
    requires Sorted(table) && 0 < n <= |Above(table, mark)|
    ensures Above(table, Above(table, mark)[n - 1].key) == Above(table, mark)[n..]
  {
    hide Less, Above;
    AboveIsExact(table, mark);
    var above := Above(table, mark);
    var next := above[n - 1].key;
    AboveIsExact(table, next);
    assert Sorted(above[n..]);
    forall q ensures q in above[n..] <==> q in Above(table, next) {
      AboveMovesOn(table, mark, n, q);
      if q in above[n..] {
        var i :| 0 <= i < |above| - n && above[n..][i] == q;
        assert q == above[n + i] && q in above;
      }
      if q in Above(table, next) {
        assert q in above;
        var i :| 0 <= i < |above| && above[i] == q;
        if i < n {
          LessIrreflexive(next);
          if i < n - 1 {
            LessTransitive(next, q.key, next);
          }
        }
        assert above[n..][i - n] == q;
      }
    }
    SortedEqual(above[n..], Above(table, next));
  }

  // ---------------------------------------------------------------- inserts

  ghost predicate InsertedOne(table: seq<FillRow>, r: FillRow, next: seq<FillRow>) {
    && Sorted(next)
    && (forall q :: q in next <==> q in table || q == r)
  }

  ghost predicate NewKey(table: seq<FillRow>, r: FillRow) {
    forall q :: q in table ==> q.key != r.key
  }

  lemma {:induction false} InsertNewRow(table: seq<FillRow>, r: FillRow)
    requires Sorted(table) && NewKey(table, r)
    ensures InsertedOne(table, r, InsertRow(table, r))
  {
    hide Less;
    if table != [] {
      var n := |table| - 1;
      var last := table[n];
      assert table == table[..n] + [last];
      assert last in table;
      if !Less(last.key, r.key) {
        InsertNewRow(table[..n], r);
        LessTotal(last.key, r.key);
        var next := InsertRow(table[..n], r);
        forall i | 0 <= i < |next| ensures Less(next[i].key, last.key) {
          assert next[i] in next;
          if next[i] != r {
            var j :| 0 <= j < n && table[j] == next[i];
          }
        }
      } else {
        forall i | 0 <= i < n ensures Less(table[i].key, r.key) {
          LessTransitive(table[i].key, last.key, r.key);
        }
      }
    }
  }

  /** A key already there keeps its row. */
  lemma {:induction false} InsertOldKey(table: seq<FillRow>, q: FillRow, r: FillRow)
    requires Sorted(table) && q in table && q.key == r.key
    ensures InsertRow(table, r) == table
  {
    var n := |table| - 1;
    var last := table[n];
    assert table == table[..n] + [last];
    if last.key != r.key {
      var i :| 0 <= i < n && table[i] == q;
      assert Less(r.key, last.key);
      if Less(last.key, r.key) {
        LessTransitive(r.key, last.key, r.key);
        LessIrreflexive(r.key);
      }
      InsertOldKey(table[..n], q, r);
    }
  }

  /** Other groups' legs, and their order, do not change. */
  lemma {:induction false} InsertKeepsOtherLegs(table: seq<FillRow>, r: FillRow, k: TakeKey)
    requires GroupOf(r) != k
    ensures LegsFor(InsertRow(table, r), k) == LegsFor(table, k)
  {
    hide Less;
    if table != [] {
      var n := |table| - 1;
      InsertKeepsOtherLegs(table[..n], r, k);
      assert InsertRow(table[..n], r) + [table[n]] != [];
      assert (InsertRow(table[..n], r) + [table[n]])[..|InsertRow(table[..n], r)|] == InsertRow(table[..n], r);
      assert (table + [r])[..n + 1] == table;
    } else {
      assert [r][..0] == [];
    }
  }

  /** The legs of one transaction: one group, distinct keys. */
  ghost predicate OneTransaction(legs: seq<FillRow>) {
    && legs != []
    && (forall r :: r in legs ==> GroupOf(r) == GroupOf(legs[0]))
    && (forall i, j :: 0 <= i < j < |legs| ==> legs[i].key != legs[j].key)
  }

  ghost predicate InsertedAll(table: seq<FillRow>, legs: seq<FillRow>, next: seq<FillRow>) {
    && Sorted(next)
    && (forall q :: q in next <==> q in table || q in legs)
  }

  lemma {:induction false} InsertFresh(table: seq<FillRow>, legs: seq<FillRow>, n: nat, k: TakeKey)
    requires Sorted(table) && OneTransaction(legs) && n <= |legs|
    requires k == GroupOf(legs[0]) && k !in Groups(table)
    ensures InsertedAll(table, legs[..n], InsertRows(table, legs[..n]))
    decreases n
  {
    hide InsertRow, Less, Groups;
    if n > 0 {
      InsertFresh(table, legs, n - 1, k);
      var before := InsertRows(table, legs[..n - 1]);
      assert legs[..n][..n - 1] == legs[..n - 1];
      assert legs[n - 1] in legs;
      forall q | q in before ensures q.key != legs[n - 1].key {
        if q in table {
          LegsPresent(table, GroupOf(q));
          assert q in LegsFor(table, GroupOf(q));
        } else {
          var j :| 0 <= j < n - 1 && legs[j] == q;
        }
      }
      InsertNewRow(before, legs[n - 1]);
    }
  }

  lemma {:induction false} InsertAgain(table: seq<FillRow>, legs: seq<FillRow>)
    requires Sorted(table) && forall r :: r in legs ==> r in table
    ensures InsertRows(table, legs) == table
  {
    if legs != [] {
      InsertAgain(table, legs[..|legs| - 1]);
      InsertOldKey(table, legs[|legs| - 1], legs[|legs| - 1]);
    }
  }

  lemma {:induction false} InsertsKeepOtherLegs(table: seq<FillRow>, legs: seq<FillRow>, k: TakeKey)
    requires forall r :: r in legs ==> GroupOf(r) != k
    ensures LegsFor(InsertRows(table, legs), k) == LegsFor(table, k)
  {
    if legs != [] {
      InsertsKeepOtherLegs(table, legs[..|legs| - 1], k);
      InsertKeepsOtherLegs(InsertRows(table, legs[..|legs| - 1]), legs[|legs| - 1], k);
    }
  }

  lemma GroupsAre(table: seq<FillRow>, k: TakeKey)
    ensures k in Groups(table) <==> exists r :: r in table && GroupOf(r) == k
  {
  }

  // ---------------------------------------------------------------- machine

  datatype Phase =
    | Idle
    | Folding(fills: seq<FillRow>, todo: set<TakeKey>)
    | Rolling(fills: seq<FillRow>, left: set<string>)

  /** `rolled` is, for each market, the takes its rollup was last computed over.
      `missed` is history: the takes that arrived wholly at or below the mark. */
  datatype State = State(
    table: seq<FillRow>,
    takes: map<TakeKey, Take>,
    rolled: map<string, map<TakeKey, Take>>,
    mark: EventKey,
    phase: Phase,
    missed: set<TakeKey>)

  const START: EventKey := EventKey(0, 0, "", 0)

  const Empty: State := State([], map[], map[], START, Idle, {})

  datatype Action =
    | Insert(legs: seq<FillRow>)
    | Begin(limit: nat)
    | Upsert(key: TakeKey)
    | EndUpserts
    | Recompute(market: string)
    | SetCursor
    | Crash

  /** `ON CONFLICT DO UPDATE`, which leaves the market, taker and side of a take
      already there. */
  function UpsertTake(takes: map<TakeKey, Take>, t: Take): map<TakeKey, Take> {
    takes[t.key := if t.key in takes
                   then t.(market := takes[t.key].market, taker := takes[t.key].taker, side := takes[t.key].side)
                   else t]
  }

  function MarketTakes(takes: map<TakeKey, Take>, market: string): map<TakeKey, Take> {
    map k | k in takes && takes[k].market == market :: takes[k]
  }

  function MarketsOf(takes: map<TakeKey, Take>, keys: set<TakeKey>): set<string> {
    set k | k in keys && k in takes :: takes[k].market
  }

  ghost predicate Enabled(s: State, a: Action) {
    match a
    case Insert(legs) =>
      && s.phase.Idle? && OneTransaction(legs)
      && (GroupOf(legs[0]) !in Groups(s.table) || forall r :: r in legs ==> r in s.table)
    case Begin(limit) => s.phase.Idle? && limit > 0 && Above(s.table, s.mark) != []
    case Upsert(k) => s.phase.Folding? && k in s.phase.todo && k in Groups(s.table)
    case EndUpserts => s.phase.Folding? && s.phase.todo == {}
    case Recompute(m) => s.phase.Rolling? && m in s.phase.left
    case SetCursor => s.phase.Rolling? && s.phase.left == {} && s.phase.fills != []
    case Crash => true
  }

  function FirstOf(fills: seq<FillRow>, limit: nat): seq<FillRow> {
    if |fills| <= limit then fills else fills[..limit]
  }

  ghost function Do(s: State, a: Action): State
    requires Enabled(s, a)
  {
    match a
    case Insert(legs) =>
      var k := GroupOf(legs[0]);
      s.(table := InsertRows(s.table, legs),
         missed := if k in Groups(s.table) || HasAbove(legs, k, s.mark) then s.missed else s.missed + {k})
    case Begin(limit) =>
      var fills := FirstOf(Above(s.table, s.mark), limit);
      s.(phase := Folding(fills, Groups(fills)))
    case Upsert(k) =>
      s.(takes := UpsertTake(s.takes, LegsTake(s.table, k)), phase := s.phase.(todo := s.phase.todo - {k}))
    case EndUpserts =>
      s.(phase := Rolling(s.phase.fills, MarketsOf(s.takes, Groups(s.phase.fills))))
    case Recompute(m) =>
      s.(rolled := s.rolled[m := MarketTakes(s.takes, m)], phase := s.phase.(left := s.phase.left - {m}))
    case SetCursor =>
      s.(mark := s.phase.fills[|s.phase.fills| - 1].key, phase := Idle)
    case Crash => s.(phase := Idle)
  }

  ghost function Exec(s: State, acts: seq<Action>): Option<State> {
    if acts == [] then Some(s)
    else
      match Exec(s, acts[..|acts| - 1])
      case None => None
      case Some(t) => if Enabled(t, acts[|acts| - 1]) then Some(Do(t, acts[|acts| - 1])) else None
  }

  // -------------------------------------------------------------- invariant

  /** A take in the table is its whole leg set folded. */
  ghost predicate TakesFolded(s: State) {
    forall k :: k in s.takes ==> k in Groups(s.table) && k !in s.missed && s.takes[k] == LegsTake(s.table, k)
  }

  /** A group is folded, missed, or still ahead of the mark. */
  ghost predicate NothingForgotten(s: State) {
    forall k :: k in Groups(s.table) ==> k in s.takes || k in s.missed || HasAbove(s.table, k, s.mark)
  }

  ghost predicate MissedBehind(s: State) {
    forall k :: k in s.missed ==> k in Groups(s.table) && !HasAbove(s.table, k, s.mark)
  }

  predicate Fresh(s: State, market: string) {
    market in s.rolled && s.rolled[market] == MarketTakes(s.takes, market)
  }

  ghost predicate Pending(s: State, market: string) {
    exists k :: k in s.takes && s.takes[k].market == market && HasAbove(s.table, k, s.mark)
  }

  /** A rollup is current, or one of its market's takes will be folded again. */
  ghost predicate RollupsFollow(s: State) {
    forall k :: k in s.takes ==> Fresh(s, s.takes[k].market) || Pending(s, s.takes[k].market)
  }

  ghost predicate FillsAreNext(s: State, fills: seq<FillRow>) {
    && 0 < |fills| <= |Above(s.table, s.mark)|
    && fills == Above(s.table, s.mark)[..|fills|]
  }

  ghost predicate PhaseInv(s: State) {
    match s.phase
    case Idle => true
    case Folding(fills, todo) =>
      && FillsAreNext(s, fills)
      && todo <= Groups(fills)
      && (forall k :: k in Groups(fills) && k !in todo ==> k in s.takes)
    case Rolling(fills, left) =>
      && FillsAreNext(s, fills)
      && (forall k :: k in Groups(fills) ==> k in s.takes && (s.takes[k].market in left || Fresh(s, s.takes[k].market)))
  }

  ghost predicate Inv(s: State) {
    && Sorted(s.table)
    && TakesFolded(s)
    && NothingForgotten(s)
    && MissedBehind(s)
    && RollupsFollow(s)
    && PhaseInv(s)
  }

  // ------------------------------------------------------------------ steps

  /** What an insert of one new transaction does to each group. */
  lemma InsertEffect(table: seq<FillRow>, legs: seq<FillRow>, mark: EventKey, k: TakeKey)
    requires Sorted(table) && OneTransaction(legs) && GroupOf(legs[0]) !in Groups(table)
    ensures var next := InsertRows(table, legs);
      && Sorted(next)
      && (k in Groups(next) <==> k in Groups(table) || k == GroupOf(legs[0]))
      && (k != GroupOf(legs[0]) ==> LegsFor(next, k) == LegsFor(table, k))
      && (k != GroupOf(legs[0]) ==> (HasAbove(next, k, mark) <==> HasAbove(table, k, mark)))
      && (k == GroupOf(legs[0]) ==> (HasAbove(next, k, mark) <==> HasAbove(legs, k, mark)))
  {
    hide InsertRows, Less, Groups, LegsFor;
    var next := InsertRows(table, legs);
    InsertFresh(table, legs, |legs|, GroupOf(legs[0]));
    assert legs[..|legs|] == legs;
    GroupsAre(table, k);
    GroupsAre(next, k);
    if k != GroupOf(legs[0]) {
      InsertsKeepOtherLegs(table, legs, k);
    } else {
      assert legs[0] in legs;
    }
  }

  lemma InsertKeeps(s: State, legs: seq<FillRow>)
    requires Inv(s) && Enabled(s, Insert(legs))
    ensures Inv(Do(s, Insert(legs)))
  {
    hide InsertRows, Less, Groups, LegsFor, Sorted, MarketTakes, HasAbove, TakeOf, Above;
    var t := Do(s, Insert(legs));
    var g := GroupOf(legs[0]);
    if g in Groups(s.table) {
      InsertAgain(s.table, legs);
      assert t.table == s.table && t == s;
    } else {
      InsertEffect(s.table, legs, s.mark, g);
      forall k ensures
        && (k in Groups(t.table) <==> k in Groups(s.table) || k == g)
        && (k != g ==> LegsFor(t.table, k) == LegsFor(s.table, k))
        && (k != g ==> (HasAbove(t.table, k, s.mark) <==> HasAbove(s.table, k, s.mark)))
      {
        InsertEffect(s.table, legs, s.mark, k);
      }
      assert TakesFolded(t);
      assert NothingForgotten(t);
      assert MissedBehind(t);
      forall k | k in t.takes ensures Fresh(t, t.takes[k].market) || Pending(t, t.takes[k].market) {
        if !Fresh(s, s.takes[k].market) {
          var w :| w in s.takes && s.takes[w].market == s.takes[k].market && HasAbove(s.table, w, s.mark);
          assert HasAbove(t.table, w, t.mark);
        }
      }
    }
  }

  lemma BeginKeeps(s: State, limit: nat)
    requires Inv(s) && Enabled(s, Begin(limit))
    ensures Inv(Do(s, Begin(limit)))
  {
    hide Less, Groups, LegsFor, Sorted, MarketTakes, HasAbove, TakeOf, Above;
  }

  /** A group among the next rows has a leg above the mark. */
  lemma NextRowsAreAhead(s: State, fills: seq<FillRow>, k: TakeKey)
    requires Sorted(s.table) && FillsAreNext(s, fills) && k in Groups(fills)
    ensures k in Groups(s.table) && HasAbove(s.table, k, s.mark)
  {
    GroupsAre(fills, k);
    var r :| r in fills && GroupOf(r) == k;
    AboveMovesOn(s.table, s.mark, |fills|, r);
    GroupsAre(s.table, k);
  }

  /** Keeping the market, taker and side of the stored take loses nothing. */
  lemma UpsertIsReplace(s: State, k: TakeKey)
    requires TakesFolded(s) && k in Groups(s.table)
    ensures LegsTake(s.table, k).key == k
    ensures UpsertTake(s.takes, LegsTake(s.table, k)) == s.takes[k := LegsTake(s.table, k)]
  {
    hide Groups, LegsFor, SumBase, SumQuote, SumFee;
    LegsPresent(s.table, k);
    assert LegsFor(s.table, k)[0] in LegsFor(s.table, k);
  }

  lemma OtherMarketsStay(takes: map<TakeKey, Take>, k: TakeKey, take: Take, m: string)
    requires take.market != m
    requires k in takes ==> takes[k].market != m
    ensures MarketTakes(takes[k := take], m) == MarketTakes(takes, m)
  {
  }

  lemma UpsertKeeps(s: State, k: TakeKey)
    requires Inv(s) && Enabled(s, Upsert(k))
    ensures Inv(Do(s, Upsert(k)))
  {
    hide Less, Groups, LegsFor, LegsTake, Sorted, HasAbove, Above, MarketTakes, UpsertTake, RollupsFollow;
    var t := Do(s, Upsert(k));
    NextRowsAreAhead(s, s.phase.fills, k);
    UpsertIsReplace(s, k);
    var take := LegsTake(s.table, k);
    UpsertRollups(s, k, t, take);
  }

  lemma UpsertRollups(s: State, k: TakeKey, t: State, take: Take)
    requires RollupsFollow(s) && HasAbove(s.table, k, s.mark)
    requires k in s.takes ==> s.takes[k] == take
    requires t == s.(takes := s.takes[k := take], phase := t.phase)
    ensures RollupsFollow(t)
  {
    hide HasAbove, MarketTakes;
    forall j | j in t.takes ensures Fresh(t, t.takes[j].market) || Pending(t, t.takes[j].market) {
      if t.takes[j].market == take.market {
        assert t.takes[k].market == take.market && HasAbove(t.table, k, t.mark);
      } else {
        var m := t.takes[j].market;
        OtherMarketsStay(s.takes, k, take, m);
        if !Fresh(s, m) {
          var w :| w in s.takes && s.takes[w].market == m && HasAbove(s.table, w, s.mark);
          assert w in t.takes && t.takes[w].market == m && HasAbove(t.table, w, t.mark);
        }
      }
    }
  }

  lemma EndUpsertsKeeps(s: State)
    requires Inv(s) && Enabled(s, EndUpserts)
    ensures Inv(Do(s, EndUpserts))
  {
    hide Less, Groups, LegsFor, Sorted, HasAbove, Above, MarketTakes;
  }

  lemma RecomputeKeeps(s: State, m: string)
    requires Inv(s) && Enabled(s, Recompute(m))
    ensures Inv(Do(s, Recompute(m)))
  {
    hide Less, Groups, LegsFor, Sorted, HasAbove, Above, MarketTakes, RollupsFollow;
    RecomputeFreshens(s, m);
    RecomputeRollups(s, Do(s, Recompute(m)));
  }

  /** Recomputing one rollup makes it current and leaves the others as they were. */
  lemma RecomputeFreshens(s: State, m: string)
    requires Enabled(s, Recompute(m))
    ensures var t := Do(s, Recompute(m));
            Fresh(t, m) && forall other :: Fresh(s, other) ==> Fresh(t, other)
  {
    hide MarketTakes;
  }

  lemma RecomputeRollups(s: State, t: State)
    requires RollupsFollow(s) && t.table == s.table && t.takes == s.takes && t.mark == s.mark
    requires forall other :: Fresh(s, other) ==> Fresh(t, other)
    ensures RollupsFollow(t)
  {
    hide HasAbove, MarketTakes, Fresh;
    forall k | k in t.takes ensures Fresh(t, t.takes[k].market) || Pending(t, t.takes[k].market) {
      if Pending(s, s.takes[k].market) {
        assert Pending(t, t.takes[k].market);
      }
    }
  }

  lemma SetCursorKeeps(s: State)
    requires Inv(s) && Enabled(s, SetCursor)
    ensures Inv(Do(s, SetCursor))
  {
    hide Less, Groups, LegsFor, Sorted, Above, MarketTakes, HasAbove, RollupsFollow;
    var t := Do(s, SetCursor);
    var fills := s.phase.fills;
    forall k ensures
      && (HasAbove(t.table, k, t.mark) ==> HasAbove(s.table, k, s.mark))
      && (HasAbove(s.table, k, s.mark) ==> k in Groups(fills) || HasAbove(t.table, k, t.mark))
    {
      ShrinksAt(s, t, fills, k);
    }
    CursorRollups(s, t, fills);
  }

  lemma CursorRollups(s: State, t: State, fills: seq<FillRow>)
    requires RollupsFollow(s) && HasAboveShrinks(s, t, fills)
    requires t == s.(mark := t.mark, phase := t.phase)
    requires forall k :: k in Groups(fills) ==> k in s.takes && Fresh(s, s.takes[k].market)
    ensures RollupsFollow(t)
  {
    hide Groups, HasAbove, MarketTakes;
    forall j | j in t.takes ensures Fresh(t, t.takes[j].market) || Pending(t, t.takes[j].market) {
      if !Fresh(s, s.takes[j].market) {
        var w :| w in s.takes && s.takes[w].market == s.takes[j].market && HasAbove(s.table, w, s.mark);
        assert HasAbove(t.table, w, t.mark);
      }
    }
  }

  ghost predicate HasAboveShrinks(s: State, t: State, fills: seq<FillRow>) {
    forall k ::
      && (HasAbove(t.table, k, t.mark) ==> HasAbove(s.table, k, s.mark))
      && (HasAbove(s.table, k, s.mark) ==> k in Groups(fills) || HasAbove(t.table, k, t.mark))
  }

  lemma ShrinksAt(s: State, t: State, fills: seq<FillRow>, k: TakeKey)
    requires Sorted(s.table) && FillsAreNext(s, fills)
    requires t.table == s.table && t.mark == fills[|fills| - 1].key
    ensures HasAbove(t.table, k, t.mark) ==> HasAbove(s.table, k, s.mark)
    ensures HasAbove(s.table, k, s.mark) ==> k in Groups(fills) || HasAbove(t.table, k, t.mark)
  {
    hide Sorted, FillsAreNext, HasAbove, Groups;
    if HasAbove(t.table, k, t.mark) {
      StillAbove(s, fills, k);
    }
    if HasAbove(s.table, k, s.mark) {
      TakenOrAbove(s, fills, k);
    }
  }

  lemma StillAbove(s: State, fills: seq<FillRow>, k: TakeKey)
    requires Sorted(s.table) && FillsAreNext(s, fills) && HasAbove(s.table, k, fills[|fills| - 1].key)
    ensures HasAbove(s.table, k, s.mark)
  {
    hide Less, Above, Sorted;
    var r :| r in s.table && GroupOf(r) == k && Less(fills[|fills| - 1].key, r.key);
    AboveMovesOn(s.table, s.mark, |fills|, r);
  }

  lemma TakenOrAbove(s: State, fills: seq<FillRow>, k: TakeKey)
    requires Sorted(s.table) && FillsAreNext(s, fills) && HasAbove(s.table, k, s.mark)
    ensures k in Groups(fills) || HasAbove(s.table, k, fills[|fills| - 1].key)
  {
    hide Less, Above, Groups, Sorted;
    var r :| r in s.table && GroupOf(r) == k && Less(s.mark, r.key);
    AboveMovesOn(s.table, s.mark, |fills|, r);
    GroupsAre(fills, k);
  }

  lemma StepKeeps(s: State, a: Action)
    requires Inv(s) && Enabled(s, a)
    ensures Inv(Do(s, a))
  {
    match a
    case Insert(legs) => InsertKeeps(s, legs);
    case Begin(limit) => BeginKeeps(s, limit);
    case Upsert(k) => UpsertKeeps(s, k);
    case EndUpserts => EndUpsertsKeeps(s);
    case Recompute(m) => RecomputeKeeps(s, m);
    case SetCursor => SetCursorKeeps(s);
    case Crash => hide Groups, HasAbove, MarketTakes, LegsFor;
  }

  lemma {:induction false} RunKeeps(s: State, acts: seq<Action>)
    requires Inv(s) && Exec(s, acts).Some?
    ensures Inv(Exec(s, acts).value)
  {
    hide Inv, Do, Enabled;
    if acts != [] {
      RunKeeps(s, acts[..|acts| - 1]);
      StepKeeps(Exec(s, acts[..|acts| - 1]).value, acts[|acts| - 1]);
    }
  }

  /** A pass may be cut off at any point, and keeps all it has written. */
  lemma CrashAnywhere(s: State, acts: seq<Action>)
    requires Exec(s, acts).Some?
    ensures Exec(s, acts + [Crash]) == Some(Exec(s, acts).value.(phase := Idle))
  {
    hide Groups, HasAbove;
    assert (acts + [Crash])[..|acts|] == acts;
  }

  // --------------------------------------------------------------- theorems

  /** A pass would find nothing new. */
  ghost predicate Caught(s: State) {
    s.phase.Idle? && Above(s.table, s.mark) == []
  }

  lemma NothingAhead(s: State, k: TakeKey)
    requires Sorted(s.table) && Caught(s)
    ensures !HasAbove(s.table, k, s.mark)
  {
    hide Less;
    AboveIsExact(s.table, s.mark);
  }

  /** Once a pass finds nothing new, the takes table is the grouping of every
      fill but those of the missed transactions, and every rollup is current. */
  lemma QuietStateIsFolded(s: State)
    requires Inv(s) && Caught(s)
    ensures s.takes == map k | k in Groups(s.table) && k !in s.missed :: LegsTake(s.table, k)
    ensures forall k :: k in s.takes ==> Fresh(s, s.takes[k].market)
  {
    hide Less, LegsFor, MarketTakes, Groups, HasAbove, Above;
    forall k ensures !HasAbove(s.table, k, s.mark) {
      NothingAhead(s, k);
    }
  }

  /** A market's rollup is over that market's takes as they are, all and no other. */
  ghost predicate RollupTold(s: State, market: string) {
    && market in s.rolled
    && (forall k :: k in s.rolled[market] <==> k in s.takes && s.takes[k].market == market)
    && (forall k :: k in s.rolled[market] ==> s.rolled[market][k] == s.takes[k])
  }

  lemma FreshIs(s: State, market: string)
    ensures Fresh(s, market) <==> RollupTold(s, market)
  {
    if RollupTold(s, market) {
      assert s.rolled[market] == MarketTakes(s.takes, market);
    }
  }

  lemma TakesAndRollups(s: State)
    requires s.takes == map k | k in Groups(s.table) && k !in s.missed :: LegsTake(s.table, k)
    requires forall k :: k in s.takes ==> Fresh(s, s.takes[k].market)
    ensures forall k :: k in s.takes ==> TakeTold(s.table, s.takes[k]) && RollupTold(s, s.takes[k].market)
  {
    hide Groups, LegsTake, TakeTold, RollupTold, MarketTakes;
    forall k | k in s.takes ensures TakeTold(s.table, s.takes[k]) && RollupTold(s, s.takes[k].market) {
      TakeIsTold(s.table, k);
      FreshIs(s, s.takes[k].market);
    }
  }

  /** No transaction was inserted wholly at or below the watermark of its time. */
  ghost predicate EveryInsertAhead(s: State, acts: seq<Action>) {
    acts == [] ||
    (var before := acts[..|acts| - 1];
     && EveryInsertAhead(s, before)
     && (Exec(s, before).Some? && acts[|acts| - 1].Insert? && Enabled(Exec(s, before).value, acts[|acts| - 1]) ==>
           var t, legs := Exec(s, before).value, acts[|acts| - 1].legs;
           GroupOf(legs[0]) in Groups(t.table) || HasAbove(legs, GroupOf(legs[0]), t.mark)))
  }

  lemma {:induction false} MissedTells(s: State, acts: seq<Action>)
    requires Exec(s, acts).Some? && s.missed == {}
    ensures Exec(s, acts).value.missed == {} <==> EveryInsertAhead(s, acts)
  {
    hide Groups, HasAbove, MarketTakes, LegsTake, InsertRows;
    if acts != [] {
      MissedTells(s, acts[..|acts| - 1]);
    }
  }

  /** Fold convergence, with its exact condition: over any run, once a pass finds
      nothing new, the takes table equals the grouping of all fills if and only if
      every transaction had a leg above the watermark when it was inserted. Every
      take it holds is that of its legs, and every rollup is over its market's
      takes. */
  lemma FoldConverges(s: State, acts: seq<Action>)
    requires Inv(s) && s.missed == {}
    requires Exec(s, acts).Some? && Caught(Exec(s, acts).value)
    ensures var t := Exec(s, acts).value; t.takes == AllTakes(t.table) <==> EveryInsertAhead(s, acts)
    ensures var t := Exec(s, acts).value; forall k :: k in t.takes ==> TakeTold(t.table, t.takes[k]) && RollupTold(t, t.takes[k].market)
  {
    RunKeeps(s, acts);
    var t := Exec(s, acts).value;
    hide Exec, Inv, TakeTold, RollupTold, Fresh, LegsTake, Groups;
    QuietStateIsFolded(t);
    TakesAndRollups(t);
    MissedTells(s, acts);
    MissedAreGroups(t);
    hide *;
    if t.missed == {} {
      assert t.takes == AllTakes(t.table);
    } else {
      var k :| k in t.missed;
      assert k in AllTakes(t.table) && k !in t.takes;
    }
  }

  // --------------------------------------------------------------- progress

  /** A stretch of a pass: no insert, no crash. */
  predicate Working(acts: seq<Action>) {
    forall a :: a in acts ==> !a.Insert? && !a.Crash?
  }

  lemma {:induction false} ExecConcat(s: State, a: seq<Action>, b: seq<Action>)
    requires Exec(s, a).Some?
    ensures Exec(s, a + b) == Exec(Exec(s, a).value, b)
  {
    hide Enabled, Do;
    if b == [] {
      assert a + b == a;
    } else {
      assert (a + b)[..|a + b| - 1] == a + b[..|b| - 1];
      ExecConcat(s, a, b[..|b| - 1]);
    }
  }

  lemma ExecOne(s: State, a: Action)
    requires Enabled(s, a)
    ensures Exec(s, [a]) == Some(Do(s, a))
  {
    ExecNothing(s);
    ExecNext(s, [], a);
    assert [] + [a] == [a];
  }

  /** Nothing but the takes and the place in the pass differs. */
  predicate SamePass(s: State, t: State) {
    t.table == s.table && t.mark == s.mark && t.missed == s.missed
  }

  lemma {:induction false} UpsertAll(s: State) returns (acts: seq<Action>, t: State)
    requires Inv(s) && s.phase.Folding?
    ensures Working(acts) && Exec(s, acts) == Some(t)
    ensures Inv(t) && SamePass(s, t) && t.phase == Folding(s.phase.fills, {})
    decreases |s.phase.todo|
  {
    hide Exec, Groups, LegsTake, Above, Inv;
    if s.phase.todo == {} {
      ExecNothing(s);
      return [], s;
    }
    var k :| k in s.phase.todo;
    TodoIsThere(s, k);
    ExecOne(s, Upsert(k));
    StepKeeps(s, Upsert(k));
    var rest;
    rest, t := UpsertAll(Do(s, Upsert(k)));
    acts := [Upsert(k)] + rest;
    ExecConcat(s, [Upsert(k)], rest);
  }

  lemma TodoIsThere(s: State, k: TakeKey)
    requires Inv(s) && s.phase.Folding? && k in s.phase.todo
    ensures k in Groups(s.table)
  {
    hide Groups, Above;
    NextRowsAreAhead(s, s.phase.fills, k);
  }

  lemma {:induction false} RecomputeAll(s: State) returns (acts: seq<Action>, t: State)
    requires Inv(s) && s.phase.Rolling?
    ensures Working(acts) && Exec(s, acts) == Some(t)
    ensures Inv(t) && SamePass(s, t) && t.phase == Rolling(s.phase.fills, {})
    decreases |s.phase.left|
  {
    hide Exec, MarketTakes, Above, Inv;
    if s.phase.left == {} {
      ExecNothing(s);
      return [], s;
    }
    var m :| m in s.phase.left;
    ExecOne(s, Recompute(m));
    StepKeeps(s, Recompute(m));
    var rest;
    rest, t := RecomputeAll(Do(s, Recompute(m)));
    acts := [Recompute(m)] + rest;
    ExecConcat(s, [Recompute(m)], rest);
  }

  /** Wherever something lies ahead a whole pass can be made, and it leaves ahead
      exactly what it did not take. */
  lemma WholePass(s: State, limit: nat) returns (acts: seq<Action>, t: State)
    requires Inv(s) && s.phase.Idle? && limit > 0 && Above(s.table, s.mark) != []
    ensures acts != [] && acts[0] == Begin(limit) && Working(acts) && Exec(s, acts) == Some(t)
    ensures Inv(t) && t.phase.Idle? && t.table == s.table && t.missed == s.missed
    ensures var ahead := Above(s.table, s.mark);
            Above(t.table, t.mark) == if limit < |ahead| then ahead[limit..] else []
  {
    hide Exec, Above, Groups, LegsTake, MarketTakes, Inv;
    StepKeeps(s, Begin(limit));
    ExecOne(s, Begin(limit));
    var s1 := Do(s, Begin(limit));
    var up, s2 := UpsertAll(s1);
    StepKeeps(s2, EndUpserts);
    ExecOne(s2, EndUpserts);
    var s3 := Do(s2, EndUpserts);
    var roll, s4 := RecomputeAll(s3);
    StepKeeps(s4, SetCursor);
    ExecOne(s4, SetCursor);
    t := Do(s4, SetCursor);
    ExecConcat(s, [Begin(limit)], up);
    ExecConcat(s, [Begin(limit)] + up, [EndUpserts]);
    ExecConcat(s, [Begin(limit)] + up + [EndUpserts], roll);
    ExecConcat(s, [Begin(limit)] + up + [EndUpserts] + roll, [SetCursor]);
    acts := [Begin(limit)] + up + [EndUpserts] + roll + [SetCursor];
    TableIsSorted(s);
    var ahead := Above(s.table, s.mark);
    var n := if |ahead| <= limit then |ahead| else limit;
    assert s4.phase.fills == ahead[..n];
    AboveTheTaken(s.table, s.mark, n);
  }

  lemma TableIsSorted(s: State)
    requires Inv(s)
    ensures Sorted(s.table)
  {
  }

  /** Finitely many bounded passes from any idle store find nothing new: one for
      every `limit` rows ahead, rounded up. Then every take is in, if none was
      missed. */
  lemma {:induction false} PassesCatchUp(s: State, limit: nat) returns (passes: seq<seq<Action>>, t: State)
    requires Inv(s) && s.phase.Idle? && limit > 0
    ensures forall p :: p in passes ==> p != [] && p[0] == Begin(limit) && Working(p)
    ensures Exec(s, Joined(passes)) == Some(t) && Caught(t) && t.table == s.table && t.missed == s.missed
    ensures s.missed == {} ==> t.takes == AllTakes(s.table)
    ensures var ahead := |Above(s.table, s.mark)|; ahead <= |passes| * limit < ahead + limit
    decreases |Above(s.table, s.mark)|
  {
    hide Exec, Above, Inv;
    if Above(s.table, s.mark) == [] {
      ExecNothing(s);
      QuietStateIsFolded(s);
      return [], s;
    }
    var first, mid := WholePass(s, limit);
    var rest;
    rest, t := PassesCatchUp(mid, limit);
    passes := [first] + rest;
    ExecConcat(s, first, Joined(rest));
    assert Joined(passes) == first + Joined(rest);
    OneMorePass(|rest|, limit);
  }

  lemma OneMorePass(n: nat, limit: nat)
    ensures (n + 1) * limit == n * limit + limit
  {
  }

  function Joined(passes: seq<seq<Action>>): seq<Action> {
    if passes == [] then [] else passes[0] + Joined(passes[1..])
  }

  /** An empty warehouse is a place to start from. */
  lemma EmptyIsFolded()
    ensures Inv(Empty) && Empty.missed == {}
  {
  }

  lemma MissedAreGroups(s: State)
    requires Inv(s)
    ensures s.missed <= Groups(s.table)
  {
  }

  /** At that point the legs, base, quote and fees of the takes are those of the
      fills. */
  lemma QuietStateConserves(s: State, order: seq<TakeKey>)
    requires Inv(s) && Caught(s) && s.missed == {}
    requires Lists(order, s.takes.Keys)
    ensures TotalsOfTakes(s.takes, order) == TotalsOfFills(s.table)
  {
    hide Groups, TotalsOfTakes, TotalsOfFills, LegsTake, HasAbove;
    QuietStateIsFolded(s);
    assert s.takes == AllTakes(s.table);
    FoldConserves(s.table, order);
  }

  /** Moving the watermark back below every row is always safe, and it is the
      repair: from there nothing counts as missed. */
  lemma RewindRepairs(s: State, mark: EventKey)
    requires Inv(s) && s.phase.Idle?
    requires forall r :: r in s.table ==> Less(mark, r.key)
    ensures Inv(s.(mark := mark, missed := {}))
  {
    hide Less, Sorted, MarketTakes, Groups, LegsTake;
    var t := s.(mark := mark, missed := {});
    forall k | k in Groups(t.table) ensures HasAbove(t.table, k, mark) {
      GroupsAre(t.table, k);
      var r :| r in t.table && GroupOf(r) == k;
    }
  }

  /** Everything is folded, every rollup current. */
  ghost predicate Settled(s: State) {
    && s.takes == AllTakes(s.table)
    && (forall k :: k in s.takes ==> Fresh(s, s.takes[k].market))
  }

  /** Folding again from any watermark, by any pass or part of one, changes no
      take and no rollup. */
  lemma {:induction false} RefoldChangesNothing(s: State, mark: EventKey, acts: seq<Action>)
    requires Settled(s)
    requires forall a :: a in acts ==> !a.Insert?
    requires Exec(s.(mark := mark, phase := Idle), acts).Some?
    ensures var t := Exec(s.(mark := mark, phase := Idle), acts).value;
            t.table == s.table && t.takes == s.takes && RolledSame(s, t)
  {
    hide Enabled, Do, Groups, MarketTakes, AllTakes;
    var from := s.(mark := mark, phase := Idle);
    if acts != [] {
      RefoldChangesNothing(s, mark, acts[..|acts| - 1]);
      var t := Exec(from, acts[..|acts| - 1]).value;
      assert acts[|acts| - 1] in acts;
      StepOfRefold(s, t, acts[|acts| - 1], acts);
    }
  }

  /** The rollup of every market with a take stays as it was. */
  ghost predicate RolledSame(s: State, t: State) {
    forall k :: k in s.takes ==>
      s.takes[k].market in s.rolled && s.takes[k].market in t.rolled && t.rolled[s.takes[k].market] == s.rolled[s.takes[k].market]
  }

  lemma StepOfRefold(s: State, t: State, a: Action, acts: seq<Action>)
    requires Settled(s) && !a.Insert? && Enabled(t, a)
    requires t.table == s.table && t.takes == s.takes && RolledSame(s, t)
    ensures Do(t, a).table == s.table && Do(t, a).takes == s.takes && RolledSame(s, Do(t, a))
  {
    hide Groups, HasAbove, LegsFor, LegsTake, UpsertTake, Above, Less;
    if a.Upsert? {
      LegsPresent(t.table, a.key);
      UpsertChangesNothing(s, a.key);
    }
  }

  lemma UpsertChangesNothing(s: State, k: TakeKey)
    requires s.takes == AllTakes(s.table) && k in Groups(s.table)
    ensures UpsertTake(s.takes, LegsTake(s.table, k)) == s.takes
  {
    hide Groups, LegsFor, SumBase, SumQuote, SumFee;
    LegsPresent(s.table, k);
    assert LegsFor(s.table, k)[0] in LegsFor(s.table, k);
  }

  // ---------------------------------------------------------- counterexample

  function Leg(signature: string, ordinal: nat): FillRow {
    FillRow(EventKey(7, 0, signature, ordinal), None, Fill("M", "T", 0, 10, 20, 1))
  }

  /** Two transactions of one slot. The first is folded to its ordinal 1; the
      second, whose only leg has ordinal 0, then arrives below the watermark. */
  const OneSlot: seq<Action> := [
    Insert([Leg("a", 0), Leg("a", 1)]), Begin(10), Upsert(TakeKey("a", 0)), EndUpserts, Recompute("M"), SetCursor,
    Insert([Leg("b", 0)])]

  const FIRST: seq<FillRow> := [Leg("a", 0), Leg("a", 1)]

  const KEY_A: TakeKey := TakeKey("a", 0)

  lemma FirstIsOneGroup()
    ensures InsertRows([], FIRST) == FIRST
    ensures Above(FIRST, START) == FIRST && Groups(FIRST) == {KEY_A}
    ensures OneTransaction(FIRST)
  {
  }

  /** A table of one row. */
  lemma OneRow(r: FillRow, mark: EventKey)
    ensures InsertRows([], [r]) == [r] && Groups([r]) == {GroupOf(r)}
    ensures Above([r], mark) == if Less(mark, r.key) then [r] else []
  {
  }

  const BOTH: seq<FillRow> := [Leg("a", 0), Leg("b", 0), Leg("a", 1)]

  lemma SecondIsInserted()
    ensures InsertRows(FIRST, [Leg("b", 0)]) == BOTH
  {
    var b := Leg("b", 0);
    assert TextLess("a", "b") && !TextLess("b", "a");
    assert FIRST[..1] == [Leg("a", 0)];
    assert InsertRow(FIRST[..1], b) == [Leg("a", 0), b];
    assert [b][..0] == [];
  }

  /** Where the second transaction finds the watermark. */
  lemma SecondIsBehind()
    ensures Above(BOTH, EventKey(7, 0, "a", 1)) == []
    ensures OneTransaction([Leg("b", 0)])
    ensures TakeKey("b", 0) in Groups(BOTH) && TakeKey("b", 0) !in Groups(FIRST)
  {
    assert Above(BOTH, EventKey(7, 0, "a", 1)) == [] by { NoneAbove(); }
    hide Above, Less, Groups;
    FirstIsOneGroup();
    assert Leg("b", 0) in BOTH;
    GroupsAre(BOTH, TakeKey("b", 0));
  }

  lemma NoneAbove()
    ensures Above(BOTH, EventKey(7, 0, "a", 1)) == []
  {
    hide Less, Above;
    var mark := EventKey(7, 0, "a", 1);
    NoneIsLater(mark);
    OneRow(BOTH[0], mark);
    assert [BOTH[0]] + [BOTH[1]] == BOTH[..2] && BOTH[..2] + [BOTH[2]] == BOTH;
    AboveNext([BOTH[0]], BOTH[1], mark);
    AboveNext(BOTH[..2], BOTH[2], mark);
  }

  lemma NoneIsLater(mark: EventKey)
    requires mark == EventKey(7, 0, "a", 1)
    ensures !Less(mark, BOTH[0].key) && !Less(mark, BOTH[1].key) && !Less(mark, BOTH[2].key)
  {
    TextIrreflexive("a");
  }

  lemma AboveNext(rows: seq<FillRow>, r: FillRow, mark: EventKey)
    ensures Above(rows + [r], mark) == Above(rows, mark) + (if Less(mark, r.key) then [r] else [])
  {
    assert (rows + [r])[..|rows|] == rows;
  }

  lemma ExecNext(s: State, acts: seq<Action>, a: Action)
    requires Exec(s, acts).Some? && Enabled(Exec(s, acts).value, a)
    ensures Exec(s, acts + [a]) == Some(Do(Exec(s, acts).value, a))
  {
  }

  /** The first transaction, through one whole pass. */
  lemma FirstIsFolded()
    ensures var s := Exec(Empty, OneSlot[..6]);
      && s.Some? && s.value.table == FIRST && s.value.takes.Keys == {KEY_A}
      && s.value.mark == EventKey(7, 0, "a", 1) && s.value.phase.Idle?
  {
    hide Exec, InsertRows, Above, Groups, LegsFor, HasAbove, MarketTakes;
    FirstIsOneGroup();
    LegsPresent(FIRST, KEY_A);
    LegsPresent([], KEY_A);
    assert Groups([]) == {} by { GroupsAre([], KEY_A); EmptyHasNoGroups(); }
    assert Exec(Empty, []) == Some(Empty) by { ExecNothing(Empty); }
    ExecNext(Empty, [], Insert(FIRST));
    var a1 := [] + [Insert(FIRST)];
    ExecNext(Empty, a1, Begin(10));
    var a2 := a1 + [Begin(10)];
    ExecNext(Empty, a2, Upsert(KEY_A));
    var a3 := a2 + [Upsert(KEY_A)];
    LegA();
    ExecNext(Empty, a3, EndUpserts);
    var a4 := a3 + [EndUpserts];
    var s4 := Exec(Empty, a4).value;
    assert s4.phase.left == {"M"} by {
      assert s4.takes[KEY_A].market == "M";
    }
    ExecNext(Empty, a4, Recompute("M"));
    var a5 := a4 + [Recompute("M")];
    ExecNext(Empty, a5, SetCursor);
    assert OneSlot[..6] == a5 + [SetCursor];
  }

  lemma EmptyHasNoGroups()
    ensures Groups([]) == {}
  {
  }

  lemma ExecNothing(s: State)
    ensures Exec(s, []) == Some(s)
  {
  }

  lemma LegA()
    ensures KEY_A in Groups(FIRST) && LegsTake(FIRST, KEY_A).key == KEY_A && LegsTake(FIRST, KEY_A).market == "M"
  {
    FirstIsOneGroup();
    LegsPresent(FIRST, KEY_A);
    assert LegsFor(FIRST, KEY_A)[0] in LegsFor(FIRST, KEY_A);
  }

  /** So a later transaction of a slot already folded past stays out of the takes
      table, though its fill is stored and no pass will look at it again. */
  lemma TakeNeverFolded()
    ensures var end := Exec(Empty, OneSlot);
      && end.Some? && Caught(end.value)
      && Leg("b", 0) in end.value.table
      && TakeKey("b", 0) in AllTakes(end.value.table)
      && TakeKey("b", 0) !in end.value.takes
  {
    hide Exec, InsertRows, Above, Groups, LegsFor, HasAbove, MarketTakes;
    FirstIsFolded();
    SecondIsInserted();
    SecondIsBehind();
    ExecNext(Empty, OneSlot[..6], Insert([Leg("b", 0)]));
    assert OneSlot == OneSlot[..6] + [Insert([Leg("b", 0)])];
  }
}
