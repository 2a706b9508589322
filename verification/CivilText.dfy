/** Printing and parsing civil timestamps. */
module CivilText {
  import opened Wrappers
  import opened Calendar

  const I64_MIN: int := -0x8000_0000_0000_0000
  const I64_MAX: int := 0x7fff_ffff_ffff_ffff

  predicate FitsI64(n: int) {
    I64_MIN <= n <= I64_MAX
  }

  /** The six fields of a civil timestamp. */
  datatype Stamp = Stamp(date: Date, hour: int, minute: int, second: int)

  function ToEpoch(t: Stamp): int {
    DaysFromCivil(t.date) * 86400 + t.hour * 3600 + t.minute * 60 + t.second
  }

  /** `div_euclid` and `rem_euclid`, so the time of day is never negative. */
  function StampOf(epoch: int): Stamp {
    var secs := epoch % 86400;
    Stamp(CivilFromDays(epoch / 86400), secs / 3600, secs % 3600 / 60, secs % 60)
  }

  // ---------------------------------------------------------------- printing

  predicate IsDigit(c: char) {
    '0' <= c <= '9'
  }

  function Digits(n: nat): string {
    if n < 10 then ['0' + n as char] else Digits(n / 10) + ['0' + (n % 10) as char]
  }

  function Zeros(n: int): string {
    if n <= 0 then "" else "0" + Zeros(n - 1)
  }

  /** Zero-padded to a width that counts the sign, which comes first. */
  function Padded(n: int, width: int): string {
    if n < 0 then "-" + Zeros(width - 1 - |Digits(-n)|) + Digits(-n)
    else Zeros(width - |Digits(n)|) + Digits(n)
  }

  function Render(t: Stamp): string {
    RenderDate(t.date) + " " + RenderTime(t)
  }

  function RenderDate(c: Date): string {
    Padded(c.year, 4) + "-" + (Padded(c.month, 2) + "-" + Padded(c.day, 2))
  }

  function RenderTime(t: Stamp): string {
    Padded(t.hour, 2) + ":" + (Padded(t.minute, 2) + ":" + Padded(t.second, 2))
  }

  function FormatCivil(epoch: int): string {
    Render(StampOf(epoch))
  }

  // ----------------------------------------------------------------- parsing

  function SplitOnce(s: string, c: char): Option<(string, string)> {
    if s == [] then None
    else if s[0] == c then Some(([], s[1..]))
    else
      match SplitOnce(s[1..], c)
      case None => None
      case Some((a, b)) => Some(([s[0]] + a, b))
  }

  function Split(s: string, c: char): (parts: seq<string>)
    ensures parts != []
  {
    if s == [] then [[]]
    else
      var rest := Split(s[1..], c);
      if s[0] == c then [[]] + rest else [[s[0]] + rest[0]] + rest[1..]
  }

  function Decimal(s: string): Option<int> {
    if s == [] then Some(0)
    else
      var n := |s| - 1;
      match Decimal(s[..n])
      case None => None
      case Some(high) => if IsDigit(s[n]) then Some(10 * high + (s[n] - '0') as int) else None
  }

  /** One optional sign, then at least one digit, and in range. */
  function ParseI64(s: string): (r: Option<int>)
    ensures r.Some? ==> FitsI64(r.value)
  {
    var signed := s != [] && s[0] in {'+', '-'};
    var digits := if signed then s[1..] else s;
    if digits == [] then None
    else
      match Decimal(digits)
      case None => None
      case Some(n) =>
        var value := if signed && s[0] == '-' then -n else n;
        if FitsI64(value) then Some(value) else None
  }

  /** A missing or empty field is an error. */
  function Field(parts: seq<string>, i: nat): Option<int> {
    if i < |parts| && parts[i] != [] then ParseI64(parts[i]) else None
  }

  /** The seconds alone may be absent. */
  function SecondField(parts: seq<string>): Option<int> {
    if |parts| > 2 then ParseI64(parts[2]) else Some(0)
  }

  /** The fields, before any range check. Whatever follows the third of either
      half is ignored. */
  function Fields(datetime: string): Option<Stamp> {
    var (date, time) := SplitOnce(datetime, ' ').GetOr((datetime, "00:00:00"));
    var d, t := Split(date, '-'), Split(time, ':');
    match (Field(d, 0), Field(d, 1), Field(d, 2), Field(t, 0), Field(t, 1), SecondField(t))
    case (Some(year), Some(month), Some(day), Some(hour), Some(minute), Some(second)) =>
      Some(Stamp(Date(year, month, day), hour, minute, second))
    case _ => None
  }

  predicate InRange(t: Stamp) {
    && 1 <= t.date.year <= 9999 && 1 <= t.date.month <= 12 && 1 <= t.date.day <= 31
    && 0 <= t.hour <= 23 && 0 <= t.minute <= 59 && 0 <= t.second <= 60
  }

  function ParseCivil(datetime: string): Result<int> {
    match Fields(datetime)
    case None => Err
    case Some(t) => if InRange(t) then Ok(ToEpoch(t)) else Err
  }

  // ------------------------------------------------------------ instants

  predicate TimeOfDay(t: Stamp) {
    0 <= t.hour <= 23 && 0 <= t.minute <= 59 && 0 <= t.second <= 59
  }

  /** Every instant has one real stamp, and that stamp is the instant. */
  lemma InstantOfItsStamp(epoch: int)
    ensures Real(StampOf(epoch).date) && TimeOfDay(StampOf(epoch))
    ensures ToEpoch(StampOf(epoch)) == epoch
  {
    hide DaysFromCivil, CivilFromDays, Real;
    DayOfItsDate(epoch / 86400);
  }

  /** A stamp in the parser's range comes back as it went in exactly when it is a
      day of the calendar and a time of that day: a leap second, or the 30th of
      February, comes back as another stamp. */
  lemma StampReturnsIffReal(t: Stamp)
    requires InRange(t)
    ensures StampOf(ToEpoch(t)) == t <==> Real(t.date) && TimeOfDay(t)
  {
    hide DaysFromCivil, CivilFromDays, Real;
    InstantOfItsStamp(ToEpoch(t));
    if TimeOfDay(t) {
      SplitsBack(DaysFromCivil(t.date), t.hour, t.minute, t.second);
      OnlyRealDatesReturn(t.date);
    }
  }

  lemma SplitsBack(days: int, hour: int, minute: int, second: int)
    requires 0 <= hour <= 23 && 0 <= minute <= 59 && 0 <= second <= 59
    ensures var e := days * 86400 + hour * 3600 + minute * 60 + second;
            e / 86400 == days && e % 86400 / 3600 == hour && e % 86400 % 3600 / 60 == minute && e % 86400 % 60 == second
  {
    var secs := hour * 3600 + minute * 60 + second;
    FloorUnique(days * 86400 + secs, 86400, days, secs);
    FloorUnique(secs, 3600, hour, minute * 60 + second);
    FloorUnique(minute * 60 + second, 60, minute, second);
    FloorUnique(secs, 60, hour * 60 + minute, second);
  }

  // ------------------------------------------------- numbers, there and back

  predicate AllDigits(s: string) {
    forall i :: 0 <= i < |s| ==> IsDigit(s[i])
  }

  lemma {:induction false} DigitsAreDigits(n: nat)
    ensures Digits(n) != [] && AllDigits(Digits(n))
  {
    if n >= 10 {
      DigitsAreDigits(n / 10);
    }
  }

  lemma {:induction false} DigitsRead(n: nat)
    ensures Decimal(Digits(n)) == Some(n)
  {
    if n >= 10 {
      DigitsRead(n / 10);
      assert Digits(n)[..|Digits(n)| - 1] == Digits(n / 10);
    } else {
      assert Digits(n)[..0] == [];
    }
  }

  lemma {:induction false} LeadingZero(s: string)
    ensures Decimal("0" + s) == Decimal(s)
  {
    if s == [] {
      assert ("0" + s)[..0] == [];
    } else {
      var n := |s| - 1;
      assert ("0" + s)[..n + 1] == "0" + s[..n];
      LeadingZero(s[..n]);
    }
  }

  lemma {:induction false} LeadingZeros(k: int, s: string)
    ensures Decimal(Zeros(k) + s) == Decimal(s)
    decreases k
  {
    if k <= 0 {
      assert Zeros(k) + s == s;
    } else {
      assert Zeros(k) + s == "0" + (Zeros(k - 1) + s);
      LeadingZeros(k - 1, s);
      LeadingZero(Zeros(k - 1) + s);
    }
  }

  lemma {:induction false} ZerosAreDigits(k: int)
    ensures AllDigits(Zeros(k))
    decreases k
  {
    if k > 0 {
      ZerosAreDigits(k - 1);
    }
  }

  /** What is printed for a number is digits alone, and reads back. */
  lemma PaddedReads(n: int, width: int)
    requires 0 <= n
    ensures AllDigits(Padded(n, width)) && Padded(n, width) != []
    ensures ParseI64(Padded(n, width)) == if FitsI64(n) then Some(n) else None
  {
    hide Zeros, Digits, Decimal;
    DigitsAreDigits(n);
    ZerosAreDigits(width - |Digits(n)|);
    DigitsRead(n);
    LeadingZeros(width - |Digits(n)|, Digits(n));
    var s := Padded(n, width);
    assert IsDigit(s[0]);
  }

  /** A number read from text is a run of digits, that number behind some zeros. */
  lemma {:induction false} DecimalIsDigits(s: string)
    requires Decimal(s).Some? && s != []
    ensures exists zeros: nat, n: nat :: s == Zeros(zeros) + Digits(n) && Decimal(s) == Some(n)
  {
    hide Decimal, Digits, Zeros;
    var last := |s| - 1;
    var d := LastDigit(s);
    if last == 0 {
      FirstDigit(d);
      assert s == Zeros(0) + Digits(d);
    } else {
      DecimalIsDigits(s[..last]);
      var zeros: nat, n: nat :| s[..last] == Zeros(zeros) + Digits(n) && Decimal(s[..last]) == Some(n);
      NextDigit(zeros, n, d);
      if n == 0 {
        assert s == Zeros(zeros + 1) + Digits(d);
      } else {
        assert s == Zeros(zeros) + Digits(10 * n + d);
      }
    }
  }

  lemma LastDigit(s: string) returns (d: nat)
    requires Decimal(s).Some? && s != []
    ensures d < 10 && s == s[..|s| - 1] + ['0' + d as char]
    ensures Decimal(s[..|s| - 1]).Some? && Decimal(s) == Some(10 * Decimal(s[..|s| - 1]).value + d)
    ensures |s| == 1 ==> Decimal(s) == Some(d)
  {
    d := (s[|s| - 1] - '0') as nat;
  }

  lemma FirstDigit(d: nat)
    requires d < 10
    ensures Zeros(0) + Digits(d) == ['0' + d as char]
  {
  }

  lemma NextDigit(zeros: nat, n: nat, d: nat)
    requires d < 10
    ensures Zeros(zeros) + Digits(n) + ['0' + d as char] ==
            if n == 0 then Zeros(zeros + 1) + Digits(d) else Zeros(zeros) + Digits(10 * n + d)
  {
    if n == 0 {
      ZeroMore(zeros);
      assert Digits(0) == "0" && Digits(d) == ['0' + d as char];
    } else {
      assert (10 * n + d) / 10 == n && (10 * n + d) % 10 == d;
      assert Digits(10 * n + d) == Digits(n) + ['0' + d as char];
    }
  }

  lemma {:induction false} ZeroMore(k: nat)
    ensures Zeros(k) + "0" == Zeros(k + 1)
  {
    if k > 0 {
      ZeroMore(k - 1);
    }
  }

  /** What is read as a number, in full: one optional sign and a run of digits,
      within 64 bits. */
  lemma NumberIs(s: string)
    ensures ParseI64(s).Some? ==> exists sign, zeros: nat, n: nat ::
      IsSigned(s, sign, zeros, n) && ParseI64(s) == Some(Signed(sign, n))
  {
    hide Decimal, Digits, Zeros;
    if ParseI64(s).Some? {
      var signed := s != [] && s[0] in {'+', '-'};
      var sign, digits := if signed then s[..1] else "", if signed then s[1..] else s;
      DecimalIsDigits(digits);
      var zeros: nat, n: nat :| digits == Zeros(zeros) + Digits(n) && Decimal(digits) == Some(n);
      assert s == sign + digits;
      assert signed ==> sign == [s[0]];
      assert sign in {"", "+", "-"};
      assert IsSigned(s, sign, zeros, n);
    }
  }

  function Signed(sign: string, n: int): int {
    if sign == "-" then -n else n
  }

  ghost predicate IsSigned(s: string, sign: string, zeros: nat, n: nat) {
    sign in {"", "+", "-"} && s == sign + (Zeros(zeros) + Digits(n))
  }

  lemma SignedReads(s: string, sign: string, zeros: nat, n: nat)
    requires IsSigned(s, sign, zeros, n)
    ensures ParseI64(s) ==
            if -9_223_372_036_854_775_808 <= Signed(sign, n) <= 9_223_372_036_854_775_807 then Some(Signed(sign, n)) else None
  {
    hide Decimal, Digits, Zeros;
    var digits := Zeros(zeros) + Digits(n);
    DigitsAreDigits(n);
    ZerosAreDigits(zeros);
    DigitsRead(n);
    LeadingZeros(zeros, Digits(n));
    assert AllDigits(digits) && digits != [] && IsDigit(digits[0]);
    if sign == "" {
      assert s == digits;
    } else {
      assert s[..1] == sign && s[1..] == digits;
    }
  }

  /** A printed number is as wide as asked for or as wide as it is, sign and digits,
      the zeros between them. */
  lemma PaddedIs(n: nat, width: nat)
    ensures exists zeros: nat :: Padded(n, width) == Zeros(zeros) + Digits(n) && |Zeros(zeros)| == zeros
                                 && zeros == if width > |Digits(n)| then width - |Digits(n)| else 0
    ensures n > 0 ==> exists zeros: nat :: Padded(Signed("-", n), width) == "-" + (Zeros(zeros) + Digits(n)) && |Zeros(zeros)| == zeros
                                           && zeros == if width > |Digits(n)| + 1 then width - |Digits(n)| - 1 else 0
  {
    hide Digits;
    ZerosLength(if width > |Digits(n)| then width - |Digits(n)| else 0);
    var more: nat := if width > |Digits(n)| + 1 then width - |Digits(n)| - 1 else 0;
    ZerosLength(more);
    if n > 0 {
      assert Padded(Signed("-", n), width) == "-" + (Zeros(more) + Digits(n));
    }
  }

  lemma {:induction false} ZerosLength(k: nat)
    ensures |Zeros(k)| == k
  {
    if k > 0 {
      ZerosLength(k - 1);
    }
  }

  // ------------------------------------------------------------- separators

  lemma {:induction false} SplitAtFirst(a: string, c: char, b: string)
    requires c !in a
    ensures Split(a + [c] + b, c) == [a] + Split(b, c)
  {
    if a == [] {
      assert a + [c] + b == [c] + b && ([c] + b)[1..] == b;
    } else {
      assert (a + [c] + b)[1..] == a[1..] + [c] + b;
      SplitAtFirst(a[1..], c, b);
      assert [a[0]] + a[1..] == a;
    }
  }

  lemma {:induction false} SplitNowhere(a: string, c: char)
    requires c !in a
    ensures Split(a, c) == [a]
  {
    if a != [] {
      SplitNowhere(a[1..], c);
      assert [a[0]] + a[1..] == a;
    }
  }

  lemma {:induction false} SplitOnceAtFirst(a: string, c: char, b: string)
    requires c !in a
    ensures SplitOnce(a + [c] + b, c) == Some((a, b))
  {
    if a == [] {
      assert a + [c] + b == [c] + b && ([c] + b)[1..] == b;
    } else {
      assert (a + [c] + b)[1..] == a[1..] + [c] + b;
      SplitOnceAtFirst(a[1..], c, b);
      assert [a[0]] + a[1..] == a;
    }
  }

  lemma SplitThree(a: string, b: string, d: string, c: char)
    requires c !in a && c !in b && c !in d
    ensures Split(a + [c] + (b + [c] + d), c) == [a, b, d]
  {
    SplitAtFirst(a, c, b + [c] + d);
    SplitAtFirst(b, c, d);
    SplitNowhere(d, c);
  }

  // -------------------------------------------------------------- round trip

  predicate Unsigned(t: Stamp) {
    && 0 <= t.date.year <= I64_MAX && 0 <= t.date.month <= 99 && 0 <= t.date.day <= 99
    && 0 <= t.hour <= 99 && 0 <= t.minute <= 99 && 0 <= t.second <= 99
  }

  lemma DateReads(c: Date)
    requires 0 <= c.year <= I64_MAX && 0 <= c.month <= 99 && 0 <= c.day <= 99
    ensures ' ' !in RenderDate(c)
    ensures var d := Split(RenderDate(c), '-');
            Field(d, 0) == Some(c.year) && Field(d, 1) == Some(c.month) && Field(d, 2) == Some(c.day)
  {
    hide Padded, ParseI64, Split;
    PaddedReads(c.year, 4);
    PaddedReads(c.month, 2);
    PaddedReads(c.day, 2);
    SplitThree(Padded(c.year, 4), Padded(c.month, 2), Padded(c.day, 2), '-');
  }

  lemma TimeReads(t: Stamp)
    requires 0 <= t.hour <= 99 && 0 <= t.minute <= 99 && 0 <= t.second <= 99
    ensures var s := Split(RenderTime(t), ':');
            Field(s, 0) == Some(t.hour) && Field(s, 1) == Some(t.minute) && SecondField(s) == Some(t.second)
  {
    hide Padded, ParseI64, Split;
    PaddedReads(t.hour, 2);
    PaddedReads(t.minute, 2);
    PaddedReads(t.second, 2);
    SplitThree(Padded(t.hour, 2), Padded(t.minute, 2), Padded(t.second, 2), ':');
  }

  /** What is printed reads back field by field. */
  lemma RenderReads(t: Stamp)
    requires Unsigned(t)
    ensures Fields(Render(t)) == Some(t)
  {
    hide Field, SecondField, Split, SplitOnce, RenderDate, RenderTime;
    DateReads(t.date);
    TimeReads(t);
    SplitOnceAtFirst(RenderDate(t.date), ' ', RenderTime(t));
  }

  /** A minus sign up front leaves the year field empty. */
  lemma NegativeYearDoesNotRead(t: Stamp)
    requires t.date.year < 0
    ensures Fields(Render(t)) == None
  {
  }

  /** The parser undoes the printer for every instant of the years 1 to 9999, and
      for no other: outside them it refuses what was printed. */
  lemma ParseUndoesFormat(epoch: int)
    ensures 1 <= StampOf(epoch).date.year <= 9999 ==> ParseCivil(FormatCivil(epoch)) == Ok(epoch)
    ensures !(1 <= StampOf(epoch).date.year <= 9999) ==> ParseCivil(FormatCivil(epoch)) == Err
  {
    hide ToEpoch, StampOf, Fields, Render;
    var t := StampOf(epoch);
    InstantOfItsStamp(epoch);
    if t.date.year < 0 {
      NegativeYearDoesNotRead(t);
    } else if t.date.year <= I64_MAX {
      RenderReads(t);
    } else {
      HugeYearDoesNotRead(t);
    }
  }

  lemma HugeYearDoesNotRead(t: Stamp)
    requires t.date.year > I64_MAX && 1 <= t.date.month <= 12 && 1 <= t.date.day <= 31
    ensures Fields(Render(t)) == None
  {
    hide Padded, ParseI64, Split, SplitOnce, SecondField, RenderTime;
    var c := t.date;
    PaddedReads(c.year, 4);
    PaddedReads(c.month, 2);
    PaddedReads(c.day, 2);
    SplitThree(Padded(c.year, 4), Padded(c.month, 2), Padded(c.day, 2), '-');
    SplitOnceAtFirst(RenderDate(c), ' ', RenderTime(t));
  }

  /** A text is accepted with the instant of its fields, and printing that instant
      gives the same fields back exactly when they are a real date and time. */
  lemma AcceptedReadsBack(s: string)
    requires ParseCivil(s).Ok?
    ensures var t := Fields(s).value;
            (FormatCivil(ParseCivil(s).value) == Render(t)) <==> Real(t.date) && TimeOfDay(t)
  {
    hide ToEpoch, Real, Fields, Render, StampOf;
    var t := Fields(s).value;
    StampReturnsIffReal(t);
    InstantOfItsStamp(ToEpoch(t));
    if FormatCivil(ToEpoch(t)) == Render(t) {
      OneRendering(t, StampOf(ToEpoch(t)));
    }
  }

  lemma OneRendering(t: Stamp, u: Stamp)
    requires Unsigned(t) && Real(u.date) && TimeOfDay(u) && Render(u) == Render(t)
    ensures u == t
  {
    hide Fields, Render;
    RenderReads(t);
    if u.date.year < 0 {
      NegativeYearDoesNotRead(u);
    } else if u.date.year <= I64_MAX {
      RenderReads(u);
    } else {
      HugeYearDoesNotRead(u);
    }
  }

  // -------------------------------------------------------- texts in the open

  /** A text is accepted exactly when its fields read and lie in these ranges, and
      its instant is then their days and seconds. */
  lemma AcceptedIff(s: string)
    ensures ParseCivil(s).Ok? <==>
      && Fields(s).Some?
      && var Stamp(Date(year, month, day), hour, minute, second) := Fields(s).value;
         && 1 <= year <= 9999 && 1 <= month <= 12 && 1 <= day <= 31
         && 0 <= hour <= 23 && 0 <= minute <= 59 && 0 <= second <= 60
    ensures ParseCivil(s).Ok? ==>
      var t := Fields(s).value;
      ParseCivil(s).value == DaysFromCivil(t.date) * 86400 + t.hour * 3600 + t.minute * 60 + t.second
  {
    hide Fields, DaysFromCivil;
  }

  /** The six fields of a full text, each read as a number or the text refused. */
  lemma FullTextReads(y: string, m: string, d: string, h: string, i: string, s: string)
    requires forall c :: c in y + m + d ==> c != '-' && c != ' '
    requires forall c :: c in h + i + s ==> c != ':'
    ensures Fields(y + "-" + (m + "-" + d) + " " + (h + ":" + (i + ":" + s))) ==
              if ParseI64(y).Some? && ParseI64(m).Some? && ParseI64(d).Some? && ParseI64(h).Some? && ParseI64(i).Some? && ParseI64(s).Some? then
                Some(Stamp(Date(ParseI64(y).value, ParseI64(m).value, ParseI64(d).value), ParseI64(h).value, ParseI64(i).value, ParseI64(s).value))
              else None
  {
    hide ParseI64, Split, SplitOnce;
    var date, time := y + "-" + (m + "-" + d), h + ":" + (i + ":" + s);
    NoneIn(y, m, d, '-');
    NoneIn(y, m, d, ' ');
    NoneIn(h, i, s, ':');
    SplitThree(y, m, d, '-');
    SplitThree(h, i, s, ':');
    assert ' ' !in date;
    SplitOnceAtFirst(date, ' ', time);
    EmptyIsNoNumber();
  }

  lemma NoneIn(a: string, b: string, d: string, c: char)
    requires forall x :: x in a + b + d ==> x != c
    ensures c !in a && c !in b && c !in d
  {
    assert c in a + b + d <==> c in a || c in b || c in d;
  }

  lemma EmptyIsNoNumber()
    ensures ParseI64("") == None
  {
  }

  /** A bare date is its midnight. */
  lemma BareDateIsMidnight(c: Date)
    requires 1 <= c.year <= 9999 && 1 <= c.month <= 12 && 1 <= c.day <= 31
    ensures ParseCivil(RenderDate(c)) == Ok(DaysFromCivil(c) * 86400)
  {
    hide Padded, ParseI64, Split, DaysFromCivil;
    DateReads(c);
    NoSpace(RenderDate(c));
    MidnightReads();
    assert Fields(RenderDate(c)) == Some(Stamp(c, 0, 0, 0));
  }

  lemma {:induction false} NoSpace(s: string)
    requires ' ' !in s
    ensures SplitOnce(s, ' ') == None
  {
    if s != [] {
      NoSpace(s[1..]);
    }
  }

  lemma MidnightReads()
    ensures var t := Split("00:00:00", ':'); Field(t, 0) == Some(0) && Field(t, 1) == Some(0) && SecondField(t) == Some(0)
  {
    hide Split, ParseI64;
    SplitThree("00", "00", "00", ':');
    assert "00" + [':'] + ("00" + [':'] + "00") == "00:00:00";
    TwoZeros();
  }

  lemma TwoZeros()
    ensures ParseI64("00") == Some(0)
  {
    assert "00" == Zeros(1) + Digits(0) by { assert Zeros(1) == "0" + Zeros(0); }
    hide Zeros, Digits;
    SignedReads("00", "", 1, 0);
  }

  /** A time without seconds is at second zero. */
  lemma NoSecondsIsZero(c: Date, hour: int, minute: int)
    requires 1 <= c.year <= 9999 && 1 <= c.month <= 12 && 1 <= c.day <= 31 && 0 <= hour <= 23 && 0 <= minute <= 59
    ensures ParseCivil(RenderDate(c) + " " + (Padded(hour, 2) + ":" + Padded(minute, 2))) ==
            Ok(DaysFromCivil(c) * 86400 + hour * 3600 + minute * 60)
  {
    hide Padded, ParseI64, Split, SplitOnce, DaysFromCivil, RenderDate;
    var time := Padded(hour, 2) + ":" + Padded(minute, 2);
    DateReads(c);
    SplitOnceAtFirst(RenderDate(c), ' ', time);
    PaddedReads(hour, 2);
    PaddedReads(minute, 2);
    SplitAtFirst(Padded(hour, 2), ':', Padded(minute, 2));
    SplitNowhere(Padded(minute, 2), ':');
    assert Split(time, ':') == [Padded(hour, 2), Padded(minute, 2)];
    assert Fields(RenderDate(c) + " " + time) == Some(Stamp(c, hour, minute, 0));
  }

  // -------------------------------------- accepted and not on the calendar

  /** Every stamp in range is accepted in its printed form, real or not. */
  lemma EveryStampInRangeReads(t: Stamp)
    requires InRange(t)
    ensures ParseCivil(Render(t)) == Ok(ToEpoch(t))
  {
    hide Render, Fields, ToEpoch;
    RenderReads(t);
  }

  lemma {:induction false} TwoDigits(n: nat)
    requires n < 100
    ensures Padded(n, 2) == ['0' + (n / 10) as char, '0' + (n % 10) as char]
  {
    if n < 10 {
      assert Digits(n) == ['0' + n as char];
      assert Zeros(1) == "0" + Zeros(0) && Zeros(0) == "";
      assert n / 10 == 0 && n % 10 == n;
    } else {
      assert Digits(n / 10) == ['0' + (n / 10) as char];
      assert Digits(n) == Digits(n / 10) + ['0' + (n % 10) as char];
      assert |Digits(n)| == 2 && Zeros(0) == "";
    }
  }

  lemma Year2023()
    ensures Padded(2023, 4) == "2023"
  {
    assert Digits(2023) == Digits(202) + "3" && Digits(202) == Digits(20) + "2" && Digits(20) == Digits(2) + "0";
    assert Digits(2) == "2";
    assert Zeros(0) == "";
  }

  /** The 30th of February is accepted as the 2nd of March. */
  lemma ThirtiethOfFebruaryIsAccepted()
    ensures !Real(Date(2023, 2, 30))
    ensures ParseCivil("2023-02-30 00:00:00") == ParseCivil("2023-03-02 00:00:00") == Ok(1677715200)
    ensures FormatCivil(1677715200) == "2023-03-02 00:00:00"
  {
    hide Render, DaysFromCivil, CivilFromDays, Fields, StampOf;
    var t, u := Stamp(Date(2023, 2, 30), 0, 0, 0), Stamp(Date(2023, 3, 2), 0, 0, 0);
    EveryStampInRangeReads(t);
    EveryStampInRangeReads(u);
    StampReturnsIffReal(u);
    DayNumbers();
    assert Render(t) == "2023-02-30 00:00:00" by { PrintedFebruary(); }
    assert Render(u) == "2023-03-02 00:00:00" by { PrintedMarch(); }
  }

  lemma PrintedFebruary()
    ensures Render(Stamp(Date(2023, 2, 30), 0, 0, 0)) == "2023-02-30 00:00:00"
  {
    hide Padded;
    Year2023();
    TwoDigits(2);
    TwoDigits(30);
    TwoDigits(0);
  }

  lemma PrintedMarch()
    ensures Render(Stamp(Date(2023, 3, 2), 0, 0, 0)) == "2023-03-02 00:00:00"
  {
    hide Padded;
    Year2023();
    TwoDigits(3);
    TwoDigits(2);
    TwoDigits(0);
  }

  /** Second 60 is accepted at any minute, as the second after it. */
  lemma SecondSixtyIsAccepted()
    ensures !TimeOfDay(Stamp(Date(2023, 2, 28), 11, 59, 60))
    ensures ParseCivil("2023-02-28 11:59:60") == ParseCivil("2023-02-28 12:00:00") == Ok(1677585600)
    ensures FormatCivil(1677585600) == "2023-02-28 12:00:00"
  {
    hide Render, DaysFromCivil, CivilFromDays, Fields, StampOf;
    var t, u := Stamp(Date(2023, 2, 28), 11, 59, 60), Stamp(Date(2023, 2, 28), 12, 0, 0);
    EveryStampInRangeReads(t);
    EveryStampInRangeReads(u);
    StampReturnsIffReal(u);
    DayNumbers();
    assert Render(t) == "2023-02-28 11:59:60" by { PrintedSixty(); }
    assert Render(u) == "2023-02-28 12:00:00" by { PrintedNoon(); }
  }

  lemma PrintedSixty()
    ensures Render(Stamp(Date(2023, 2, 28), 11, 59, 60)) == "2023-02-28 11:59:60"
  {
    hide Padded;
    Year2023();
    TwoDigits(2);
    TwoDigits(28);
    TwoDigits(11);
    TwoDigits(59);
    TwoDigits(60);
  }

  lemma PrintedNoon()
    ensures Render(Stamp(Date(2023, 2, 28), 12, 0, 0)) == "2023-02-28 12:00:00"
  {
    hide Padded;
    Year2023();
    TwoDigits(2);
    TwoDigits(28);
    TwoDigits(12);
    TwoDigits(0);
  }

  lemma DayNumbers()
    ensures DaysFromCivil(Date(2023, 2, 28)) == 19416
    ensures DaysFromCivil(Date(2023, 2, 30)) == DaysFromCivil(Date(2023, 3, 2)) == 19418
  {
  }

  // ---------------------------------------------------------------- overflow

  /** Every value the day count passes through, in order. */
  function DaySteps(c: Date): seq<int> {
    var y := if c.month <= 2 then c.year - 1 else c.year;
    var era := Quot(if y >= 0 then y else y - 399, 400);
    var yoe := y - era * 400;
    var m := if c.month > 2 then c.month - 3 else c.month + 9;
    var month := Quot(153 * m + 2, 5);
    var doe := yoe * 365 + Quot(yoe, 4) - Quot(yoe, 100) + (month + c.day - 1);
    [y, y - 399, era, era * 400, yoe, m, 153 * m, 153 * m + 2, month, month + c.day, month + c.day - 1,
     yoe * 365, Quot(yoe, 4), yoe * 365 + Quot(yoe, 4), Quot(yoe, 100), yoe * 365 + Quot(yoe, 4) - Quot(yoe, 100), doe,
     era * 146097, era * 146097 + doe, era * 146097 + doe - 719468]
  }

  /** Every value the rest of the instant passes through. */
  function TimeSteps(t: Stamp): seq<int> {
    var days := DaysFromCivil(t.date) * 86400;
    [days, t.hour * 3600, days + t.hour * 3600, t.minute * 60, days + t.hour * 3600 + t.minute * 60,
     days + t.hour * 3600 + t.minute * 60 + t.second]
  }

  /** The days the accepted dates lie between: 0001-01-01 and 9999-12-31. */
  lemma AcceptedDays(c: Date)
    requires 1 <= c.year <= 9999 && 1 <= c.month <= 12 && 1 <= c.day <= 31
    ensures -719162 <= DaysFromCivil(c) <= 2932896
  {
    hide DaysFromCivil, MarchFirst;
    DaysFromCivilIs(c);
    var y := MarchYear(c);
    assert MarchFirst(0) == 0 && MarchFirst(9999) == 3652059 by { Ends(); }
    if y > 0 {
      MarchFirstRises(0, y);
    }
    if y < 9999 {
      MarchFirstRises(y, 9999);
    }
  }

  lemma Ends()
    ensures MarchFirst(0) == 0 && MarchFirst(9999) == 3652059
  {
  }

  /** No accepted text overflows 64 bits on the way to its instant. */
  lemma AcceptedFits(s: string)
    requires ParseCivil(s).Ok?
    ensures -62135596800 <= ParseCivil(s).value <= 253402300800
    ensures forall n :: n in DaySteps(Fields(s).value.date) + TimeSteps(Fields(s).value) ==> FitsI64(n)
  {
    hide Fields, DaysFromCivil, DaySteps;
    var t := Fields(s).value;
    AcceptedDays(t.date);
    DayStepsFit(t.date);
  }

  lemma DayStepsFit(c: Date)
    requires 1 <= c.year <= 9999 && 1 <= c.month <= 12 && 1 <= c.day <= 31
    ensures forall n :: n in DaySteps(c) ==> -1_000_000_000 <= n <= 1_000_000_000
  {
    var y := if c.month <= 2 then c.year - 1 else c.year;
    assert Quot(y, 400) == y / 400 && 0 <= y / 400 <= 24 && 0 <= y - y / 400 * 400 <= 399;
  }
}
