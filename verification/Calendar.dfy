/** Civil dates: two closed-form era algorithms against the calendar itself. */
module Calendar {

  datatype Date = Date(year: int, month: int, day: int)

  // ----------------------------------------------------------- the calendar

  /** The proleptic Gregorian leap rule. */
  predicate Leap(year: int) {
    year % 4 == 0 && (year % 100 != 0 || year % 400 == 0)
  }

  function DaysIn(year: int, month: int): int {
    if month == 2 then (if Leap(year) then 29 else 28)
    else if month in {4, 6, 9, 11} then 30
    else 31
  }

  predicate Real(c: Date) {
    1 <= c.month <= 12 && 1 <= c.day <= DaysIn(c.year, c.month)
  }

  function NextDay(c: Date): (n: Date)
    requires Real(c)
    ensures Real(n)
  {
    if c.day < DaysIn(c.year, c.month) then c.(day := c.day + 1)
    else if c.month < 12 then Date(c.year, c.month + 1, 1)
    else Date(c.year + 1, 1, 1)
  }

  function PrevDay(c: Date): (p: Date)
    requires Real(c)
    ensures Real(p) && NextDay(p) == c
  {
    if c.day > 1 then c.(day := c.day - 1)
    else if c.month > 1 then Date(c.year, c.month - 1, DaysIn(c.year, c.month - 1))
    else Date(c.year - 1, 12, 31)
  }

  const EPOCH: Date := Date(1970, 1, 1)

  /** The date `n` days after the epoch, counted one day at a time. */
  function DateAfter(n: int): (c: Date)
    ensures Real(c)
    decreases if n < 0 then -n else n
  {
    if n == 0 then EPOCH
    else if n > 0 then NextDay(DateAfter(n - 1))
    else PrevDay(DateAfter(n + 1))
  }

  // --------------------------------------------------------- the algorithms

  /** Division that truncates toward zero. */
  function Quot(a: int, b: int): int
    requires b > 0
  {
    if a >= 0 then a / b else -(-a / b)
  }

  function DaysFromCivil(c: Date): int {
    var y := if c.month <= 2 then c.year - 1 else c.year;
    var era := Quot(if y >= 0 then y else y - 399, 400);
    var yearOfEra := y - era * 400;
    var shiftedMonth := if c.month > 2 then c.month - 3 else c.month + 9;
    var dayOfYear := Quot(153 * shiftedMonth + 2, 5) + c.day - 1;
    var dayOfEra := yearOfEra * 365 + Quot(yearOfEra, 4) - Quot(yearOfEra, 100) + dayOfYear;
    era * 146097 + dayOfEra - 719468
  }

  /** The year of the era a day of the era falls in. */
  function YearOfEra(dayOfEra: int): int {
    Quot(dayOfEra - Quot(dayOfEra, 1460) + Quot(dayOfEra, 36524) - Quot(dayOfEra, 146096), 365)
  }

  function CivilFromDays(days: int): Date {
    var z := days + 719468;
    var era := Quot(if z >= 0 then z else z - 146096, 146097);
    var dayOfEra := z - era * 146097;
    var yearOfEra := YearOfEra(dayOfEra);
    var year := yearOfEra + era * 400;
    var dayOfYear := dayOfEra - (365 * yearOfEra + Quot(yearOfEra, 4) - Quot(yearOfEra, 100));
    MarchDate(year, dayOfYear)
  }

  /** The date of a day of the year that begins in March. */
  function MarchDate(year: int, dayOfYear: int): Date {
    var shiftedMonth := Quot(5 * dayOfYear + 2, 153);
    var day := dayOfYear - Quot(153 * shiftedMonth + 2, 5) + 1;
    var month := if shiftedMonth < 10 then shiftedMonth + 3 else shiftedMonth - 9;
    Date(if month <= 2 then year + 1 else year, month, day)
  }

  // ----------------------------------------------------- eras and March years

  /** The correction before a truncating division makes it a floor: the quotient
      leaves a remainder in `[0, b)`, on negative years too. */
  lemma EraIsFloor(a: int, b: int)
    requires b > 1
    ensures Quot(if a >= 0 then a else a - (b - 1), b) == a / b
  {
    if a < 0 {
      var q, n := a / b, b - 1 - a;
      assert a == b * q + a % b;
      assert n == b * (-q) + (b - 1 - a % b);
      FloorUnique(n, b, -q, b - 1 - a % b);
    }
  }

  lemma FloorUnique(n: int, b: int, q: int, r: int)
    requires b > 0 && n == b * q + r && 0 <= r < b
    ensures n / b == q
  {
    var p, s := n / b, n % b;
    assert n == b * p + s;
    assert b * (p - q) == r - s;
    if p > q {
      AtLeastOne(b, p - q);
    } else if p < q {
      AtLeastOne(b, q - p);
    }
  }

  lemma AtLeastOne(b: int, k: int)
    requires b > 0 && k >= 1
    ensures b * k >= b
  {
  }

  /** Days from 0000-03-01 to the first of March of a year. */
  function MarchFirst(y: int): int {
    365 * y + y / 4 - y / 100 + y / 400
  }

  /** Days from the first of March to the first of a month, March being 0. */
  function MonthStart(m: int): int {
    (153 * m + 2) / 5
  }

  lemma MarchFirstByEra(y: int)
    ensures var era, r := y / 400, y % 400;
            MarchFirst(y) == era * 146097 + r * 365 + r / 4 - r / 100
  {
    var era, r := y / 400, y % 400;
    WholeQuotients(4, 100 * era, r);
    WholeQuotients(100, 4 * era, r);
  }

  lemma WholeQuotients(b: int, q: int, r: int)
    requires b > 0
    ensures (b * q + r) / b == q + r / b
  {
    FloorUnique(b * q + r, b, q + r / b, r % b);
  }

  lemma MarchYearLength(y: int)
    ensures MarchFirst(y) - MarchFirst(y - 1) == if Leap(y) then 366 else 365
  {
    Carry(y, 4);
    Carry(y, 100);
    Carry(y, 400);
  }

  lemma Carry(y: int, b: int)
    requires b > 1
    ensures y / b - (y - 1) / b == if y % b == 0 then 1 else 0
  {
    var q, r := y / b, y % b;
    assert y == b * q + r;
    if r == 0 {
      assert y - 1 == b * (q - 1) + (b - 1);
      FloorUnique(y - 1, b, q - 1, b - 1);
    } else {
      FloorUnique(y - 1, b, q, r - 1);
    }
  }

  lemma {:induction false} MarchFirstRises(y: int, z: int)
    requires y < z
    ensures MarchFirst(y) + 364 < MarchFirst(z)
    decreases z - y
  {
    hide MarchFirst;
    MarchYearLength(z);
    if y < z - 1 {
      MarchFirstRises(y, z - 1);
    }
  }

  /** The year that begins in March, and the day within it. */
  function MarchYear(c: Date): int {
    if c.month <= 2 then c.year - 1 else c.year
  }

  function DayOfMarchYear(c: Date): int {
    MonthStart(if c.month > 2 then c.month - 3 else c.month + 9) + c.day - 1
  }

  /** The era form is the plain sum of whole March years and days. */
  lemma DaysFromCivilIs(c: Date)
    requires 1 <= c.month <= 12
    ensures DaysFromCivil(c) == MarchFirst(MarchYear(c)) + DayOfMarchYear(c) - 719468
  {
    var y := MarchYear(c);
    EraIsFloor(y, 400);
    MarchFirstByEra(y);
    assert y - (y / 400) * 400 == y % 400;
  }

  lemma DayWithinMarchYear(c: Date)
    requires Real(c)
    ensures 0 <= DayOfMarchYear(c) < if Leap(MarchYear(c) + 1) then 366 else 365
  {
  }

  // -------------------------------------------------- counting day by day

  /** The day after a date is one more, over every month and year end. */
  lemma CountsUp(c: Date)
    requires Real(c)
    ensures DaysFromCivil(NextDay(c)) == DaysFromCivil(c) + 1
  {
    hide DaysFromCivil, MarchFirst;
    if c.day < DaysIn(c.year, c.month) {
      LinearInTheDay(c, c.day + 1);
    } else {
      DaysFromCivilIs(c);
      DaysFromCivilIs(NextDay(c));
      if c.month == 2 {
        MarchYearLength(c.year);
      }
    }
  }

  lemma EpochIsZero()
    ensures DaysFromCivil(EPOCH) == 0
  {
  }

  /** `days_from_civil` is the day-by-day count from the epoch, either way. */
  lemma {:induction false} CountOfDateAfter(n: int)
    ensures DaysFromCivil(DateAfter(n)) == n
    decreases if n < 0 then -n else n
  {
    hide DaysFromCivil, NextDay, PrevDay;
    if n == 0 {
      EpochIsZero();
    } else if n > 0 {
      CountOfDateAfter(n - 1);
      CountsUp(DateAfter(n - 1));
    } else {
      CountOfDateAfter(n + 1);
      CountsUp(PrevDay(DateAfter(n + 1)));
    }
  }

  // ------------------------------------------------------- the inverse

  /** Days of an era before its year `k`. */
  function EraYearStart(k: int): int {
    365 * k + k / 4 - k / 100
  }

  /** The one line no table backs: the year it picks is the year the day is in. */
  lemma YearOfEraIsRight(doe: int)
    requires 0 <= doe <= 146096
    ensures var k := YearOfEra(doe);
            0 <= k <= 399 && EraYearStart(k) <= doe && (if k == 399 then doe <= 146096 else doe < EraYearStart(k + 1))
  {
    if doe == 146096 {
      assert YearOfEra(doe) == 399;
    } else {
      var c := doe / 36524;
      var r := doe % 36524;
      var q, s := r / 1461, r % 1461;
      YearInCentury(c, q, s);
    }
  }

  function YearOfCycle(s: int): int {
    if s < 365 then 0 else if s < 730 then 1 else if s < 1095 then 2 else 3
  }

  lemma YearInCentury(c: int, q: int, s: int)
    requires 0 <= c <= 3 && 0 <= q <= 24 && 0 <= s <= 1460 && 1461 * q + s <= 36523
    ensures var doe := 36524 * c + 1461 * q + s;
            var k := YearOfEra(doe);
            && k == 100 * c + 4 * q + YearOfCycle(s)
            && EraYearStart(k) <= doe < (if k == 399 then 146097 else EraYearStart(k + 1))
  {
    hide YearOfEra, EraYearStart;
    YearIs(c, q, s);
    var t := YearOfCycle(s);
    YearStart(c, q, t);
    if t < 3 {
      YearStart(c, q, t + 1);
    } else if q < 24 {
      YearStart(c, q + 1, 0);
    } else if c < 3 {
      YearStart(c + 1, 0, 0);
    }
  }

  lemma YearIs(c: int, q: int, s: int)
    requires 0 <= c <= 3 && 0 <= q <= 24 && 0 <= s <= 1460 && 1461 * q + s <= 36523
    ensures YearOfEra(36524 * c + 1461 * q + s) == 100 * c + 4 * q + YearOfCycle(s)
  {
    var doe := 36524 * c + 1461 * q + s;
    var e := (q + 24 * c + s) / 1460;
    var t := YearOfCycle(s);
    FloorUnique(doe, 36524, c, 1461 * q + s);
    FloorUnique(doe, 1460, 25 * c + q + e, (q + 24 * c + s) % 1460);
    FloorUnique(36500 * c + 1460 * q + s - e, 365, 100 * c + 4 * q + t, s - e - 365 * t);
  }

  lemma YearStart(c: int, q: int, t: int)
    requires 0 <= c && 0 <= q <= 24 && 0 <= t <= 3
    ensures EraYearStart(100 * c + 4 * q + t) == 36524 * c + 1461 * q + 365 * t
  {
  }

  lemma EraOfYear(era: int, k: int)
    requires 0 <= k <= 399
    ensures MarchFirst(400 * era + k) == era * 146097 + EraYearStart(k)
  {
    FloorUnique(400 * era + k, 400, era, k);
    MarchFirstByEra(400 * era + k);
  }

  /** The March year a day number falls in, and the day within it. */
  lemma YearAndDay(z: int)
    ensures var era := Quot(if z >= 0 then z else z - 146096, 146097);
            var k := YearOfEra(z - era * 146097);
            var doy := z - era * 146097 - EraYearStart(k);
            && 0 <= k <= 399
            && z == MarchFirst(400 * era + k) + doy
            && 0 <= doy < if Leap(400 * era + k + 1) then 366 else 365
  {
    hide YearOfEra, MarchFirst;
    EraIsFloor(z, 146097);
    var era, doe := z / 146097, z % 146097;
    assert doe == z - era * 146097;
    YearOfEraIsRight(doe);
    var k := YearOfEra(doe);
    EraOfYear(era, k);
    MarchYearLength(400 * era + k + 1);
    if k == 399 {
      EraOfYear(era + 1, 0);
      assert 400 * era + k + 1 == 400 * (era + 1) + 0;
    } else {
      EraOfYear(era, k + 1);
    }
  }

  /** The date of a day of a March year is real, and is that day of that year. */
  lemma DateInMarchYear(y: int, doy: int)
    requires 0 <= doy < if Leap(y + 1) then 366 else 365
    ensures var c := MarchDate(y, doy); Real(c) && MarchYear(c) == y && DayOfMarchYear(c) == doy
  {
  }

  /** `civil_from_days` names a date of the calendar for every day number, and
      that date's day number is the one it was given. */
  lemma DayOfItsDate(n: int)
    ensures Real(CivilFromDays(n)) && DaysFromCivil(CivilFromDays(n)) == n
  {
    hide DaysFromCivil, YearOfEra, MarchFirst, Leap, MarchDate, DayOfMarchYear, Real, MarchYear, CivilFromDays, Quot, EraYearStart;
    var z := n + 719468;
    YearAndDay(z);
    var era := Quot(if z >= 0 then z else z - 146096, 146097);
    var k := YearOfEra(z - era * 146097);
    var doy := z - era * 146097 - EraYearStart(k);
    DateInMarchYear(400 * era + k, doy);
    CivilIsMarchDate(n, era, k);
    assert 1 <= CivilFromDays(n).month <= 12 by { MonthsRange(CivilFromDays(n)); }
    DaysFromCivilIs(CivilFromDays(n));
  }

  lemma CivilIsMarchDate(n: int, era: int, k: int)
    requires var z := n + 719468;
             era == Quot(if z >= 0 then z else z - 146096, 146097) && k == YearOfEra(z - era * 146097) && 0 <= k
    ensures CivilFromDays(n) == MarchDate(400 * era + k, n + 719468 - era * 146097 - EraYearStart(k))
  {
    hide Quot, YearOfEra, MarchDate;
    QuotOfNat(k, 4);
    QuotOfNat(k, 100);
  }

  lemma QuotOfNat(a: int, b: int)
    requires 0 <= a && b > 0
    ensures Quot(a, b) == a / b
  {
  }

  lemma MonthsRange(c: Date)
    requires Real(c)
    ensures 1 <= c.month <= 12
  {
  }

  /** No two real dates share a day number. */
  lemma OneDateADay(a: Date, b: Date)
    requires Real(a) && Real(b) && DaysFromCivil(a) == DaysFromCivil(b)
    ensures a == b
  {
    hide DaysFromCivil, MarchFirst, Leap, DayOfMarchYear;
    DaysFromCivilIs(a);
    DaysFromCivilIs(b);
    DayWithinMarchYear(a);
    DayWithinMarchYear(b);
    var y, z := MarchYear(a), MarchYear(b);
    if y < z {
      NextMarchIsAfter(y, z, DayOfMarchYear(a));
    } else if z < y {
      NextMarchIsAfter(z, y, DayOfMarchYear(b));
    }
    DateOfMarchDay(a);
    DateOfMarchDay(b);
  }

  lemma NextMarchIsAfter(y: int, z: int, doy: int)
    requires y < z && 0 <= doy < if Leap(y + 1) then 366 else 365
    ensures MarchFirst(y) + doy < MarchFirst(z)
  {
    MarchYearLength(y + 1);
    if y + 1 < z {
      MarchFirstRises(y + 1, z);
    }
  }

  lemma DateOfMarchDay(c: Date)
    requires Real(c)
    ensures MarchDate(MarchYear(c), DayOfMarchYear(c)) == c
  {
  }

  /** The two algorithms are inverse on every real date. */
  lemma DateOfItsDay(c: Date)
    requires Real(c)
    ensures CivilFromDays(DaysFromCivil(c)) == c
  {
    hide DaysFromCivil, CivilFromDays;
    DayOfItsDate(DaysFromCivil(c));
    OneDateADay(c, CivilFromDays(DaysFromCivil(c)));
  }

  /** `civil_from_days` is the day-by-day walk of the calendar. */
  lemma WalksTheCalendar(n: int)
    ensures CivilFromDays(n) == DateAfter(n)
  {
    hide DaysFromCivil, CivilFromDays, DateAfter;
    CountOfDateAfter(n);
    DateOfItsDay(DateAfter(n));
  }

  /** On dates that are not real the day number rolls on into the next month, so
      a month and day in range come back as they went in exactly when they are
      real. */
  lemma OnlyRealDatesReturn(c: Date)
    requires 1 <= c.month <= 12 && 1 <= c.day <= 31
    ensures CivilFromDays(DaysFromCivil(c)) == c <==> Real(c)
    ensures !Real(c) ==>
      CivilFromDays(DaysFromCivil(c)) == Date(c.year, c.month + 1, c.day - DaysIn(c.year, c.month))
  {
    hide DaysFromCivil, CivilFromDays;
    if Real(c) {
      DateOfItsDay(c);
    } else {
      var last := Date(c.year, c.month, DaysIn(c.year, c.month));
      var next := Date(c.year, c.month + 1, 1);
      CountsUp(last);
      LinearInTheDay(last, c.day);
      LinearInTheDay(next, c.day - last.day);
      DateOfItsDay(next.(day := c.day - last.day));
    }
  }

  lemma LinearInTheDay(c: Date, day: int)
    ensures DaysFromCivil(c.(day := day)) == DaysFromCivil(c) + day - c.day
  {
  }
}
