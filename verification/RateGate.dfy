/** The request gate clones of one client share. */
module RateGate {
  import opened Wrappers
  import opened CivilText

  const NANOS: nat := 1_000_000_000
  const DEFAULT_RATE_LIMIT_COOLDOWN: nat := 60 * NANOS
  const MAX_RATE_LIMIT_COOLDOWN: nat := 300 * NANOS
  const U64_MAX: int := 0xffff_ffff_ffff_ffff

  /** What a caller does to the gate, with its own clock reading. `interval` is
      that caller's, for it belongs to the clone and not to the gate. */
  datatype Op = Reserve(now: int, interval: nat) | CoolDown(now: int, wait: nat)

  function SlotFor(gate: Option<int>, now: int): int {
    if gate.Some? && gate.value > now then gate.value else now
  }

  /** The gate once an operation is through it. */
  function Next(gate: Option<int>, op: Op): Option<int> {
    match op
    case Reserve(now, interval) => Some(SlotFor(gate, now) + interval)
    case CoolDown(now, wait) => Some(SlotFor(gate, now + wait))
  }

  class Gate {
    var nextAllowed: Option<int>

    constructor ()
      ensures nextAllowed == None
    {
      nextAllowed := None;
    }
  }

  class HttpClient {
    const gate: Gate
    const minInterval: nat

    constructor (minInterval: nat)
      ensures fresh(gate) && gate.nextAllowed == None && this.minInterval == minInterval
    {
      gate := new Gate();
      this.minInterval := minInterval;
    }

    /** A clone draws on the same gate, at an interval of its own. */
    constructor CloneOf(other: HttpClient, minInterval: nat)
      ensures gate == other.gate && this.minInterval == minInterval
    {
      gate := other.gate;
      this.minInterval := minInterval;
    }

    /** Take the later of now and the gate, and leave the gate one interval on. */
    method Claim(now: int) returns (at: int)
      modifies gate
      ensures at == SlotFor(old(gate.nextAllowed), now)
      ensures gate.nextAllowed == Next(old(gate.nextAllowed), Reserve(now, minInterval))
    {
      at := now;
      if gate.nextAllowed.Some? && gate.nextAllowed.value > now {
        at := gate.nextAllowed.value;
      }
      gate.nextAllowed := Some(at + minInterval);
    }

    /** Move the gate out to the end of the wait, or leave it where it lies later. */
    method HoldOff(now: int, wait: nat)
      modifies gate
      ensures gate.nextAllowed == Next(old(gate.nextAllowed), CoolDown(now, wait))
    {
      var resume := now + wait;
      if !(gate.nextAllowed.Some? && gate.nextAllowed.value > resume) {
        gate.nextAllowed := Some(resume);
      }
    }
  }

  // ------------------------------------------------------------------- runs

  /** The gate after operations by any clones, in the order they took the lock.
      Their clock readings may come in any order. */
  function After(ops: seq<Op>): Option<int> {
    if ops == [] then None else Next(After(ops[..|ops| - 1]), ops[|ops| - 1])
  }

  /** The slot the `i`-th operation was given. */
  function SlotAt(ops: seq<Op>, i: nat): int
    requires i < |ops| && ops[i].Reserve?
  {
    SlotFor(After(ops[..i]), ops[i].now)
  }

  /** The earliest a later slot may be on account of the `j`-th operation. */
  function Bound(ops: seq<Op>, j: nat): int
    requires j < |ops|
  {
    if ops[j].Reserve? then SlotAt(ops, j) + ops[j].interval else ops[j].now + ops[j].wait
  }

  lemma SlotOfPrefix(ops: seq<Op>, n: nat, i: nat)
    requires i < n <= |ops|
    ensures ops[..n][i] == ops[i]
    ensures ops[i].Reserve? ==> SlotAt(ops[..n], i) == SlotAt(ops, i)
    ensures Bound(ops[..n], i) == Bound(ops, i)
  {
    assert ops[..n][..i] == ops[..i];
  }

  ghost predicate Reaches(ops: seq<Op>, at: int) {
    exists j :: 0 <= j < |ops| && Bound(ops, j) == at
  }

  ghost predicate NoEarlierThan(ops: seq<Op>, at: int) {
    forall j :: 0 <= j < |ops| ==> Bound(ops, j) <= at
  }

  /** The gate is the latest of every bound set before, and never anything later. */
  lemma {:induction false} GateIsLatestBound(ops: seq<Op>)
    ensures ops == [] <==> After(ops).None?
    ensures ops != [] ==> Reaches(ops, After(ops).value) && NoEarlierThan(ops, After(ops).value)
  {
    hide Bound;
    if ops != [] {
      var n := |ops| - 1;
      var before := ops[..n];
      GateIsLatestBound(before);
      LastBound(ops);
      forall j | 0 <= j < n ensures Bound(ops, j) == Bound(before, j) {
        SlotOfPrefix(ops, n, j);
      }
      if n > 0 && After(ops) == After(before) {
        var j :| 0 <= j < n && Bound(before, j) == After(before).value;
        assert Bound(ops, j) == After(ops).value;
      }
    }
  }

  lemma LastBound(ops: seq<Op>)
    requires ops != []
    ensures var n := |ops| - 1;
            var gate := After(ops[..n]);
      && After(ops).Some? && Bound(ops, n) <= After(ops).value
      && (gate.Some? ==> gate.value <= After(ops).value)
      && (After(ops) == gate || After(ops).value == Bound(ops, n))
  {
  }

  /** A slot is the least instant that is no earlier than its own clock reading,
      any cooldown recorded before it, or any earlier slot plus the interval of the
      caller it went to. */
  lemma SlotIsLeast(ops: seq<Op>, i: nat, at: int)
    requires i < |ops| && ops[i].Reserve?
    ensures SlotAt(ops, i) >= ops[i].now && NoEarlierThan(ops[..i], SlotAt(ops, i))
    ensures at >= ops[i].now && NoEarlierThan(ops[..i], at) ==> at >= SlotAt(ops, i)
  {
    GateIsLatestBound(ops[..i]);
  }

  /** Two slots are at least the earlier caller's interval apart. */
  lemma SlotsAreSpaced(ops: seq<Op>, i: nat, j: nat)
    requires i < j < |ops| && ops[i].Reserve? && ops[j].Reserve?
    ensures SlotAt(ops, j) >= SlotAt(ops, i) + ops[i].interval
  {
    SlotIsLeast(ops, j, 0);
    SlotOfPrefix(ops, j, i);
    assert Bound(ops[..j], i) <= SlotAt(ops, j);
  }

  /** How many slots were given in a window. */
  function SlotsIn(ops: seq<Op>, lo: int, hi: int): nat {
    if ops == [] then 0
    else
      var n := |ops| - 1;
      SlotsIn(ops[..n], lo, hi) + (if ops[n].Reserve? && lo <= SlotAt(ops, n) <= hi then 1 else 0)
  }

  ghost predicate PacedBy(ops: seq<Op>, d: nat) {
    forall i :: 0 <= i < |ops| && ops[i].Reserve? ==> ops[i].interval >= d
  }

  /** The most slots a window of length `w` has room for. */
  function Room(w: int, d: nat): int
    requires d > 0
  {
    if w < 0 then 0 else w / d + 1
  }

  /** With every interval at least `d`, a window of length `w` holds at most
      `w / d + 1` slots. */
  lemma {:induction false} WindowHolds(ops: seq<Op>, lo: int, hi: int, d: nat)
    requires d > 0 && PacedBy(ops, d)
    ensures SlotsIn(ops, lo, hi) <= if hi < lo then 0 else (hi - lo) / d + 1
    decreases |ops|
  {
    assert Room(hi - lo, d) == if hi < lo then 0 else (hi - lo) / d + 1;
    hide Room;
    if ops == [] {
      RoomFor(hi - lo, hi - lo, d);
    } else {
      var n := |ops| - 1;
      var before := ops[..n];
      WindowHolds(before, lo, hi, d);
      if ops[n].Reserve? && lo <= SlotAt(ops, n) <= hi {
        var s := SlotAt(ops, n);
        AllByThen(ops, lo, hi, s - d, d);
        WindowHolds(before, lo, s - d, d);
        assert Room(s - d - lo, d) == if s - d < lo then 0 else (s - d - lo) / d + 1 by { RoomIs(s - d - lo, d); }
        RoomFor(s - lo, hi - lo, d);
      }
    }
  }

  lemma RoomIs(w: int, d: nat)
    requires d > 0
    ensures Room(w, d) == if w < 0 then 0 else w / d + 1
  {
  }

  /** An interval more of window has room for one slot more. */
  lemma RoomFor(a: int, w: int, d: nat)
    requires d > 0 && a <= w
    ensures 0 <= Room(w, d) && (0 <= a ==> Room(a - d, d) + 1 <= Room(w, d))
  {
    if 0 <= w {
      Quotient(w, d);
    }
    if d <= a {
      Quotient(a - d, d);
      var p, q := (a - d) / d, w / d;
      assert d * (p + 1) == d * p + d && d * (q + 1) == d * q + d;
      FewerMultiples(d, p + 1, q + 1);
    }
  }

  lemma Quotient(w: int, d: nat)
    requires d > 0 && 0 <= w
    ensures 0 <= w / d && d * (w / d) <= w < d * (w / d) + d
  {
  }

  lemma FewerMultiples(d: nat, a: int, b: int)
    requires d * a < d * b
    ensures a < b
  {
  }

  /** Before the last slot, none is later than it less an interval. */
  lemma AllByThen(ops: seq<Op>, lo: int, hi: int, cap: int, d: nat)
    requires ops != [] && ops[|ops| - 1].Reserve? && PacedBy(ops, d) && cap == SlotAt(ops, |ops| - 1) - d && cap <= hi
    ensures SlotsIn(ops[..|ops| - 1], lo, hi) == SlotsIn(ops[..|ops| - 1], lo, cap)
  {
    var n := |ops| - 1;
    forall i | 0 <= i < n && ops[i].Reserve? ensures SlotAt(ops[..n], i) <= cap {
      SlotsAreSpaced(ops, i, n);
      SlotOfPrefix(ops, n, i);
    }
    SameCount(ops[..n], lo, hi, cap);
  }

  ghost predicate SlotsBy(ops: seq<Op>, cap: int) {
    forall i :: 0 <= i < |ops| && ops[i].Reserve? ==> SlotAt(ops, i) <= cap
  }

  lemma {:induction false} SameCount(ops: seq<Op>, lo: int, hi: int, cap: int)
    requires SlotsBy(ops, cap) && cap <= hi
    ensures SlotsIn(ops, lo, hi) == SlotsIn(ops, lo, cap)
  {
    if ops != [] {
      var n := |ops| - 1;
      forall i | 0 <= i < n && ops[i].Reserve? ensures SlotAt(ops[..n], i) <= cap {
        SlotOfPrefix(ops, n, i);
      }
      SameCount(ops[..n], lo, hi, cap);
    }
  }

  // ------------------------------------------------------------ Retry-After

  predicate Visible(c: char) {
    ' ' <= c <= '~' || c == '\t'
  }

  function TrimStart(s: string): string {
    if s != [] && s[0] in {' ', '\t'} then TrimStart(s[1..]) else s
  }

  function TrimEnd(s: string): string {
    if s != [] && s[|s| - 1] in {' ', '\t'} then TrimEnd(s[..|s| - 1]) else s
  }

  function ParseU64(s: string): Option<int> {
    var digits := if s != [] && s[0] == '+' then s[1..] else s;
    if digits == [] then None
    else
      match Decimal(digits)
      case None => None
      case Some(n) => if 0 <= n <= U64_MAX then Some(n) else None
  }

  /** Delta-seconds only, held to the ceiling. */
  function RetryAfter(header: Option<string>): (wait: Option<nat>)
    ensures wait.Some? ==> wait.value <= MAX_RATE_LIMIT_COOLDOWN
  {
    if header.None? || exists c :: c in header.value && !Visible(c) then None
    else
      match ParseU64(TrimEnd(TrimStart(header.value)))
      case None => None
      case Some(n) => Some(if n * NANOS <= MAX_RATE_LIMIT_COOLDOWN then n * NANOS else MAX_RATE_LIMIT_COOLDOWN)
  }

  /** How long a 429 holds the client off. */
  function Cooldown(header: Option<string>): (wait: nat)
    ensures wait <= MAX_RATE_LIMIT_COOLDOWN
  {
    RetryAfter(header).GetOr(DEFAULT_RATE_LIMIT_COOLDOWN)
  }

  predicate Blank(s: string) {
    forall i :: 0 <= i < |s| ==> s[i] in {' ', '\t'}
  }

  lemma {:induction false} TrimStartSkips(a: string, s: string)
    requires Blank(a) && s != [] && s[0] !in {' ', '\t'}
    ensures TrimStart(a + s) == s
  {
    if a == [] {
      assert a + s == s;
    } else {
      assert (a + s)[1..] == a[1..] + s;
      TrimStartSkips(a[1..], s);
    }
  }

  lemma {:induction false} TrimEndSkips(s: string, b: string)
    requires Blank(b) && s != [] && s[|s| - 1] !in {' ', '\t'}
    ensures TrimEnd(s + b) == s
  {
    if b == [] {
      assert s + b == s;
    } else {
      assert (s + b)[..|s| + |b| - 1] == s + b[..|b| - 1];
      TrimEndSkips(s, b[..|b| - 1]);
    }
  }

  /** Delta-seconds: one or more digits, leading zeros and one plus sign allowed. */
  function Seconds(plus: bool, zeros: nat, n: nat): string {
    (if plus then "+" else "") + (Zeros(zeros) + Digits(n))
  }

  lemma SecondsParse(plus: bool, zeros: nat, n: nat)
    ensures var s := Seconds(plus, zeros, n);
            && s != [] && (IsDigit(s[0]) || s[0] == '+') && IsDigit(s[|s| - 1])
            && (forall c :: c in s ==> Visible(c))
            && ParseU64(s) == if n > U64_MAX then None else Some(n)
  {
    hide Digits, Decimal, Zeros;
    var digits := Zeros(zeros) + Digits(n);
    DigitsAreDigits(n);
    ZerosAreDigits(zeros);
    DigitsRead(n);
    LeadingZeros(zeros, Digits(n));
    assert AllDigits(digits) && digits != [] && IsDigit(digits[0]);
    if plus {
      assert Seconds(plus, zeros, n)[1..] == digits;
    } else {
      assert Seconds(plus, zeros, n) == digits;
    }
  }

  /** They are read, blanks around them allowed, as the delay they state, held to
      five minutes; a number past 64 bits is not read at all. */
  lemma RetryAfterReads(before: string, plus: bool, zeros: nat, n: nat, after: string)
    requires Blank(before) && Blank(after)
    ensures RetryAfter(Some(before + Seconds(plus, zeros, n) + after)) ==
            if n > U64_MAX then None else Some(if n <= 300 then n * NANOS else MAX_RATE_LIMIT_COOLDOWN)
  {
    hide Seconds, ParseU64;
    var s := Seconds(plus, zeros, n);
    SecondsParse(plus, zeros, n);
    assert before + s + after == before + (s + after);
    TrimStartSkips(before, s + after);
    TrimEndSkips(s, after);
    forall c | c in before + s + after ensures Visible(c) {
      assert c in before || c in s || c in after;
    }
  }

  lemma {:induction false} TrimStartLeaves(s: string)
    ensures exists a :: Blank(a) && s == a + TrimStart(s)
  {
    if s != [] && s[0] in {' ', '\t'} {
      TrimStartLeaves(s[1..]);
      var a :| Blank(a) && s[1..] == a + TrimStart(s[1..]);
      assert Blank([s[0]] + a) && s == [s[0]] + a + TrimStart(s);
    } else {
      assert Blank("") && s == "" + TrimStart(s);
    }
  }

  lemma {:induction false} TrimEndLeaves(s: string)
    ensures exists b :: Blank(b) && s == TrimEnd(s) + b
  {
    if s != [] && s[|s| - 1] in {' ', '\t'} {
      var n := |s| - 1;
      TrimEndLeaves(s[..n]);
      var b :| Blank(b) && s[..n] == TrimEnd(s[..n]) + b;
      assert Blank(b + [s[n]]) && s == TrimEnd(s) + (b + [s[n]]);
    } else {
      assert Blank("") && s == TrimEnd(s) + "";
    }
  }

  /** And nothing else is: a header that is read holds delta-seconds and blanks. */
  lemma OnlySecondsAreRead(header: string)
    requires RetryAfter(Some(header)).Some?
    ensures exists before, plus, zeros: nat, n: nat, after ::
      Blank(before) && Blank(after) && n <= U64_MAX && header == before + Seconds(plus, zeros, n) + after
  {
    hide Decimal, Digits, Zeros, TrimStart, TrimEnd;
    var inner := TrimStart(header);
    TrimStartLeaves(header);
    TrimEndLeaves(inner);
    var before :| Blank(before) && header == before + inner;
    var after :| Blank(after) && inner == TrimEnd(inner) + after;
    var s := TrimEnd(inner);
    var plus := s != [] && s[0] == '+';
    var digits := if plus then s[1..] else s;
    DecimalIsDigits(digits);
    var zeros: nat, n: nat :| digits == Zeros(zeros) + Digits(n) && Decimal(digits) == Some(n);
    assert s == Seconds(plus, zeros, n);
    assert header == before + Seconds(plus, zeros, n) + after;
  }

  /** What a 429 holds the client off for, in full: a minute with no header, or one
      that cannot be read; else the seconds stated, up to five minutes. */
  lemma CooldownIs(header: Option<string>)
    ensures header.None? ==> Cooldown(header) == 60_000_000_000
    ensures header.Some? && !(exists before, plus, zeros: nat, n: nat, after :: Stated(header.value, before, plus, zeros, n, after)) ==>
              Cooldown(header) == 60_000_000_000
    ensures forall before, plus, zeros: nat, n: nat, after ::
              header.Some? && Stated(header.value, before, plus, zeros, n, after) ==>
                Cooldown(header) == if n <= 300 then n * 1_000_000_000 else 300_000_000_000
  {
    hide RetryAfter;
    if header.Some? {
      if RetryAfter(header).Some? {
        OnlySecondsAreRead(header.value);
        var before, plus, zeros: nat, n: nat, after :|
          Blank(before) && Blank(after) && n <= U64_MAX && header.value == before + Seconds(plus, zeros, n) + after;
        assert Stated(header.value, before, plus, zeros, n, after);
      }
      forall before, plus, zeros: nat, n: nat, after | Stated(header.value, before, plus, zeros, n, after)
        ensures Cooldown(header) == if n <= 300 then n * 1_000_000_000 else 300_000_000_000
      {
        RetryAfterReads(before, plus, zeros, n, after);
      }
    } else {
      NoHeader();
    }
  }

  lemma NoHeader()
    ensures RetryAfter(None) == None
  {
  }

  ghost predicate Stated(header: string, before: string, plus: bool, zeros: nat, n: nat, after: string) {
    Blank(before) && Blank(after) && n <= U64_MAX && header == before + Seconds(plus, zeros, n) + after
  }
}
