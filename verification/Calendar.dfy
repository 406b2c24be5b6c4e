/**
 The proleptic Gregorian calendar in UTC, as the cron search uses it through Go's `time` package.

 Days are numbered from 1 January of year 1 (day 0), which was a Monday.  Instants are integers:
 nanoseconds since the start of day 0.  No bound is placed on years, in either direction.
 */
module Calendar {
  import opened Arithmetic

  const NANOS := 1_000_000_000
  const DAY_SECONDS := 86_400

  predicate IsLeap(y: int) {
    y % 4 == 0 && (y % 100 != 0 || y % 400 == 0)
  }

  function DaysInYear(y: int): int {
    if IsLeap(y) then 366 else 365
  }

  function DaysInMonth(y: int, m: int): int {
    if m == 2 then (if IsLeap(y) then 29 else 28)
    else if m == 4 || m == 6 || m == 9 || m == 11 then 30
    else 31
  }

  /** Days from the start of year 1 to the start of year `y`. */
  function DaysBeforeYear(y: int): int {
    365 * (y - 1) + (y - 1) / 4 - (y - 1) / 100 + (y - 1) / 400
  }

  /** Days from the start of the year to the start of month `m`; month 13 is the end of the year. */
  function DaysBeforeMonth(y: int, m: int): int
    requires 1 <= m <= 13
  {
    if m == 1 then 0 else DaysBeforeMonth(y, m - 1) + DaysInMonth(y, m - 1)
  }

  function DayNumber(y: int, m: int, d: int): int
    requires 1 <= m <= 12
  {
    DaysBeforeYear(y) + DaysBeforeMonth(y, m) + d - 1
  }

  /** Sunday is 0. */
  function Weekday(y: int, m: int, d: int): (w: int)
    requires 1 <= m <= 12
    ensures 0 <= w <= 6
  {
    (DayNumber(y, m, d) + 1) % 7
  }

  /** A date and time of day, to the second. */
  datatype Civil = Civil(year: int, month: int, day: int, hour: int, minute: int, second: int)

  predicate ValidDate(y: int, m: int, d: int) {
    1 <= m <= 12 && 1 <= d <= DaysInMonth(y, m)
  }

  predicate Valid(c: Civil) {
    && ValidDate(c.year, c.month, c.day)
    && 0 <= c.hour <= 23 && 0 <= c.minute <= 59 && 0 <= c.second <= 59
  }

  /** Field-by-field order, largest unit first. */
  predicate Before(a: Civil, b: Civil) {
    if a.year != b.year then a.year < b.year
    else if a.month != b.month then a.month < b.month
    else if a.day != b.day then a.day < b.day
    else if a.hour != b.hour then a.hour < b.hour
    else if a.minute != b.minute then a.minute < b.minute
    else a.second < b.second
  }

  function TimeOfDay(c: Civil): int {
    3600 * c.hour + 60 * c.minute + c.second
  }

  /** Seconds since the start of year 1 (what `time.Date` computes, for valid fields). */
  function ToSeconds(c: Civil): int
    requires Valid(c)
  {
    DAY_SECONDS * DayNumber(c.year, c.month, c.day) + TimeOfDay(c)
  }

  // ----- order -----

  lemma YearLength(y: int)
    ensures DaysBeforeYear(y + 1) == DaysBeforeYear(y) + DaysInYear(y)
  {
    FloorStep(y, 4);
    FloorStep(y, 100);
    FloorStep(y, 400);
    Centuries(y);
  }

  lemma Centuries(y: int)
    ensures y % 400 == 0 ==> y % 100 == 0
    ensures y % 100 == 0 ==> y % 4 == 0
  {
    if y % 400 == 0 { DivUnique(y, 100, 4 * (y / 400), 0); }
    if y % 100 == 0 { DivUnique(y, 4, 25 * (y / 100), 0); }
  }

  lemma {:induction false} YearsAscend(y: int, z: int)
    requires y <= z
    ensures DaysBeforeYear(y) + (z - y) * 365 <= DaysBeforeYear(z)
    decreases z - y
  {
    if y < z {
      YearsAscend(y, z - 1);
      YearLength(z - 1);
    }
  }

  lemma MonthTotal(y: int)
    ensures DaysBeforeMonth(y, 13) == DaysInYear(y)
  {
    assert DaysBeforeMonth(y, 2) == 31;
    assert DaysBeforeMonth(y, 3) == 31 + DaysInMonth(y, 2);
    assert DaysBeforeMonth(y, 5) == DaysBeforeMonth(y, 3) + 61;
    assert DaysBeforeMonth(y, 7) == DaysBeforeMonth(y, 5) + 61;
    assert DaysBeforeMonth(y, 9) == DaysBeforeMonth(y, 7) + 62;
    assert DaysBeforeMonth(y, 11) == DaysBeforeMonth(y, 9) + 61;
  }

  lemma {:induction false} MonthsAscend(y: int, m: int, n: int)
    requires 1 <= m < n <= 13
    ensures DaysBeforeMonth(y, m) + DaysInMonth(y, m) <= DaysBeforeMonth(y, n)
    decreases n - m
  {
    if m + 1 < n {
      MonthsAscend(y, m, n - 1);
    }
  }

  /** A date lies within its year. */
  lemma WithinYear(y: int, m: int, d: int)
    requires ValidDate(y, m, d)
    ensures DaysBeforeYear(y) <= DayNumber(y, m, d) < DaysBeforeYear(y + 1)
  {
    if m > 1 { MonthsAscend(y, 1, m); }
    MonthsAscend(y, m, 13);
    MonthTotal(y);
    YearLength(y);
  }

  lemma DatesAscend(y: int, m: int, d: int, y': int, m': int, d': int)
    requires ValidDate(y, m, d) && ValidDate(y', m', d')
    requires y < y' || (y == y' && (m < m' || (m == m' && d < d')))
    ensures DayNumber(y, m, d) < DayNumber(y', m', d')
  {
    if y < y' {
      WithinYear(y, m, d);
      WithinYear(y', m', d');
      YearsAscend(y + 1, y');
    } else if m < m' {
      MonthsAscend(y, m, m');
    }
  }

  /** The field-by-field order of real dates and times is the order of instants. */
  lemma OrderIsChronological(a: Civil, b: Civil)
    requires Valid(a) && Valid(b)
    ensures Before(a, b) <==> ToSeconds(a) < ToSeconds(b)
  {
    if Before(a, b) {
      Earlier(a, b);
    } else if a != b {
      Earlier(b, a);
    }
  }

  lemma Earlier(a: Civil, b: Civil)
    requires Valid(a) && Valid(b) && Before(a, b)
    ensures ToSeconds(a) < ToSeconds(b)
  {
    if (a.year, a.month, a.day) != (b.year, b.month, b.day) {
      DatesAscend(a.year, a.month, a.day, b.year, b.month, b.day);
    }
  }

  /** The lengths of the months, and the leap years. */
  lemma MonthLengths(y: int)
    ensures forall m :: m in [1, 3, 5, 7, 8, 10, 12] ==> DaysInMonth(y, m) == 31
    ensures forall m :: m in [4, 6, 9, 11] ==> DaysInMonth(y, m) == 30
    ensures DaysInMonth(y, 2) == if y % 4 == 0 && (y % 100 != 0 || y % 400 == 0) then 29 else 28
  {
  }

  lemma {:induction false} MonthOffset(y: int, m: int)
    requires 1 <= m <= 12
    ensures DaysBeforeMonth(y, m) == if m <= 2 then 31 * (m - 1) else 59 + DaysInYear(y) - 365 + (153 * (m - 3) + 2) / 5
  {
    if m > 1 { MonthOffset(y, m - 1); }
  }

  /**
   Day numbers against a count that knows neither leap years nor month lengths: years that begin in
   March, with the leap day last, and months of 153 days in five.
   */
  lemma DayCount(y: int, m: int, d: int)
    requires 1 <= m <= 12
    ensures var z := if m <= 2 then y - 1 else y;
            DayNumber(y, m, d) == 365 * z + z / 4 - z / 100 + z / 400 + (153 * ((m + 9) % 12) + 2) / 5 + d - 1 - 306
  {
    var z := if m <= 2 then y - 1 else y;
    assert DaysBeforeYear(z + 1) == 365 * z + z / 4 - z / 100 + z / 400;
    hide DaysBeforeMonth, DaysInYear, DaysBeforeYear;
    MonthOffset(y, m);
    MarchMonth(m);
    YearLength(y);
  }

  lemma MarchMonth(m: int)
    requires 1 <= m <= 12
    ensures (m + 9) % 12 == if m <= 2 then m + 9 else m - 3
    ensures m <= 2 ==> (153 * ((m + 9) % 12) + 2) / 5 == 306 + 31 * (m - 1)
  {
    assert m <= 2 ==> m == 1 || m == 2;
  }

  // ----- from instants to fields -----

  /** The year containing day `n`, found by scanning up from a year that starts no later. */
  function YearFrom(y: int, n: int): (r: int)
    requires DaysBeforeYear(y) <= n
    ensures DaysBeforeYear(r) <= n < DaysBeforeYear(r + 1)
    decreases n - DaysBeforeYear(y)
  {
    YearLength(y);
    if n < DaysBeforeYear(y + 1) then y else YearFrom(y + 1, n)
  }

  function YearOfDay(n: int): (r: int)
    ensures DaysBeforeYear(r) <= n < DaysBeforeYear(r + 1)
  {
    var low := if n >= 0 then 1 else n;
    assert DaysBeforeYear(low) <= n;
    YearFrom(low, n)
  }

  function MonthFrom(y: int, m: int, k: int): (r: int)
    requires 1 <= m <= 12 && DaysBeforeMonth(y, m) <= k < DaysInYear(y)
    ensures 1 <= r <= 12 && DaysBeforeMonth(y, r) <= k < DaysBeforeMonth(y, r + 1)
    decreases 12 - m
  {
    MonthTotal(y);
    if k < DaysBeforeMonth(y, m + 1) then m else MonthFrom(y, m + 1, k)
  }

  /** The time of day of a number of seconds within a day. */
  lemma ClockParts(t: int)
    requires 0 <= t < DAY_SECONDS
    ensures 0 <= t / 3600 <= 23 && 0 <= t % 3600 / 60 <= 59 && 0 <= t % 60 <= 59
    ensures 3600 * (t / 3600) + 60 * (t % 3600 / 60) + t % 60 == t
  {
    var h, r := t / 3600, t % 3600;
    assert t == 60 * (60 * h + r / 60) + r % 60;
    DivUnique(t, 60, 60 * h + r / 60, r % 60);
  }

  /** The date and time of a second count (what `Year()`, `Month()`, ... report). */
  function FromSeconds(s: int): (c: Civil)
    ensures Valid(c) && ToSeconds(c) == s
  {
    var n := s / DAY_SECONDS;
    var t := s % DAY_SECONDS;
    var y := YearOfDay(n);
    YearLength(y);
    var k := n - DaysBeforeYear(y);
    var m := MonthFrom(y, 1, k);
    ClockParts(t);
    Civil(y, m, k - DaysBeforeMonth(y, m) + 1, t / 3600, t % 3600 / 60, t % 60)
  }

  /** Reading the fields of a second count undoes building it from fields. */
  lemma RoundTrip(c: Civil)
    requires Valid(c)
    ensures FromSeconds(ToSeconds(c)) == c
  {
    var d := FromSeconds(ToSeconds(c));
    OrderIsChronological(c, d);
    OrderIsChronological(d, c);
    assert c == d || Before(c, d) || Before(d, c);
  }

  /**
   `time.Date(year, month+1, 0, ...).Day()`: day 0 of the following month, with month 13
   carried into the next year, is the last day of the month.
   */
  method LastDay(y: int, m: int) returns (d: int)
    requires 1 <= m <= 12
    ensures d == DaysInMonth(y, m)
  {
    var n := if m == 12 then DayNumber(y + 1, 1, 0) else DayNumber(y, m + 1, 0);
    LastDayIs(y, m);
    d := FromSeconds(DAY_SECONDS * n).day;
  }

  lemma DayZero(y: int, m: int)
    requires 1 <= m <= 12
    ensures (if m == 12 then DayNumber(y + 1, 1, 0) else DayNumber(y, m + 1, 0)) == DayNumber(y, m, DaysInMonth(y, m))
  {
    hide DaysBeforeYear;
    YearLength(y);
    MonthTotal(y);
  }

  lemma LastDayIs(y: int, m: int)
    requires 1 <= m <= 12
    ensures FromSeconds(DAY_SECONDS * (if m == 12 then DayNumber(y + 1, 1, 0) else DayNumber(y, m + 1, 0)))
         == Civil(y, m, DaysInMonth(y, m), 0, 0, 0)
  {
    hide DayNumber, FromSeconds;
    DayZero(y, m);
    RoundTrip(Civil(y, m, DaysInMonth(y, m), 0, 0, 0));
  }

  /** Going on from weekday `v` for this many days comes to weekday `w`. */
  lemma Turn(v: int, w: int)
    requires 0 <= v <= 6 && 0 <= w <= 6
    ensures var k := (w - v) % 7; v + k == w + 7 * ((v + k - w) / 7)
  {
  }

  /** Any seven consecutive days of a month contain every weekday. */
  lemma WeekdayInFirstWeek(y: int, m: int, w: int) returns (d: int)
    requires 1 <= m <= 12 && 0 <= w <= 6
    ensures 1 <= d <= 7 && ValidDate(y, m, d) && Weekday(y, m, d) == w
  {
    hide DaysBeforeYear, DaysBeforeMonth;
    var first := DayNumber(y, m, 1) + 1;
    var k := (w - first % 7) % 7;
    d := 1 + k;
    assert DayNumber(y, m, d) + 1 == first + k;
    assert first + k == 7 * (first / 7 + (first % 7 + k - w) / 7) + w by { Turn(first % 7, w); }
    DivUnique(first + k, 7, first / 7 + (first % 7 + k - w) / 7, w);
  }
}
