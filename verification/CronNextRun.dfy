/**
 The next run of a parsed expression, stated on instants: the least matching instant strictly after
 a given one.  The field-level search meets it, and it guarantees progress for common expressions.
 */
module CronNextRun {
  import opened Arithmetic
  import opened Wrappers
  import opened Calendar
  import opened CronExpression
  import opened CronSearch

  /** An instant matches when it is a whole second whose date and time match. */
  predicate MatchesAt(e: Expression, i: int) {
    i % NANOS == 0 && Matches(e, FromSeconds(i / NANOS))
  }

  /** The instants that match are the whole seconds, of a thousand million units each, of matching times. */
  lemma MatchingInstants(e: Expression, c: Civil, n: int)
    requires Valid(c) && 0 <= n < 1_000_000_000
    ensures MatchesAt(e, 1_000_000_000 * ToSeconds(c) + n) <==> n == 0 && Matches(e, c)
  {
    hide FromSeconds, ToSeconds, Matches;
    RoundTrip(c);
    DivUnique(1_000_000_000 * ToSeconds(c) + n, 1_000_000_000, ToSeconds(c), n);
  }

  function YearAt(i: int): int {
    FromSeconds(i / NANOS).year
  }

  /** Where the search starts: `after` truncated to the expression's unit, plus one unit. */
  function Start(e: Expression, after: int): (i: int)
    ensures after < i && i % NANOS == 0
  {
    if e.second.Some? then (after / NANOS + 1) * NANOS
    else
      var minutes := after / (60 * NANOS) + 1;
      assert minutes * (60 * NANOS) == (60 * minutes) * NANOS;
      minutes * (60 * NANOS)
  }

  /** The last year the search visits. */
  function LastYear(e: Expression, after: int): int {
    YearAt(Start(e, after)) + SEARCH_YEARS
  }

  /**
   The one-line specification: the least matching instant strictly after `after`, or nothing
   exactly when no instant after `after` matches by the end of the last year searched.
   */
  ghost predicate IsNextRun(e: Expression, after: int, r: Option<int>) {
    match r
    case Some(i) =>
      && after < i && MatchesAt(e, i) && YearAt(i) <= LastYear(e, after)
      && forall j :: after < j < i ==> !MatchesAt(e, j)
    case None =>
      forall j :: after < j && MatchesAt(e, j) ==> YearAt(j) > LastYear(e, after)
  }

  // ----- the search meets the specification -----

  /** Nothing matches between `after` and the rounded-up start. */
  lemma NothingBeforeStart(e: Expression, after: int, j: int)
    requires after < j && MatchesAt(e, j)
    ensures Start(e, after) <= j
    ensures !Before(FromSeconds(j / NANOS), FromSeconds(Start(e, after) / NANOS))
  {
    var s := Start(e, after);
    if e.second.None? {
      var c := FromSeconds(j / NANOS);
      var minutes := 1440 * DayNumber(c.year, c.month, c.day) + 60 * c.hour + c.minute;
      assert ToSeconds(c) == 60 * minutes;
      assert j == minutes * (60 * NANOS);
      assert after / (60 * NANOS) < minutes;
      assert s <= j;
    }
    OrderIsChronological(FromSeconds(j / NANOS), FromSeconds(s / NANOS));
  }

  /** The start of a five-field search is a whole minute. */
  lemma StartSecond(e: Expression, after: int)
    requires e.second.None?
    ensures FromSeconds(Start(e, after) / NANOS).second == 0
  {
    var minutes := after / (60 * NANOS) + 1;
    assert Start(e, after) / NANOS == 60 * minutes;
    SecondOfMinute(minutes);
  }

  lemma SecondOfMinute(minutes: int)
    ensures FromSeconds(60 * minutes).second == 0
  {
    var c := FromSeconds(60 * minutes);
    var k := 1440 * DayNumber(c.year, c.month, c.day) + 60 * c.hour + c.minute;
    assert 60 * minutes == 60 * k + c.second;
    DivUnique(60 * minutes, 60, k, c.second);
    DivUnique(60 * minutes, 60, minutes, 0);
  }

  lemma LeastCandidateIsNextRun(e: Expression, after: int, c: Option<Civil>)
    requires LeastCandidate(e, FromSeconds(Start(e, after) / NANOS), c)
    ensures IsNextRun(e, after, if c.Some? then Some(ToSeconds(c.value) * NANOS) else None)
  {
    hide FromSeconds, ToSeconds, Start, Matches;
    if c.Some? { MatchesValid(e, c.value); }
    var t := FromSeconds(Start(e, after) / NANOS);
    forall j | after < j && MatchesAt(e, j)
      ensures Candidate(e, t, FromSeconds(j / NANOS))
    {
      NothingBeforeStart(e, after, j);
    }
    if c.Some? {
      var i := ToSeconds(c.value) * NANOS;
      RoundTrip(c.value);
      assert i / NANOS == ToSeconds(c.value);
      OrderIsChronological(c.value, t);
      assert Start(e, after) <= i;
      forall j | after < j < i
        ensures !MatchesAt(e, j)
      {
        OrderIsChronological(FromSeconds(j / NANOS), c.value);
        assert j % NANOS == 0 ==> j / NANOS < i / NANOS;
      }
    }
  }

  /** `calculateNextCronRun` after parsing. */
  method NextRun(e: Expression, after: int) returns (r: Option<int>)
    requires ExpressionOk(e)
    ensures IsNextRun(e, after, r)
  {
    var t := FromSeconds(Start(e, after) / NANOS);
    if e.second.None? { StartSecond(e, after); }
    var c := SearchYear(e, t);
    LeastCandidateIsNextRun(e, after, c);
    match c
    case None => return None;
    case Some(d) => return Some(ToSeconds(d) * NANOS);
  }

  /** The specification leaves no choice. */
  lemma NextRunIsUnique(e: Expression, after: int, r: Option<int>, q: Option<int>)
    requires IsNextRun(e, after, r) && IsNextRun(e, after, q)
    ensures r == q
  {
    hide MatchesAt, YearAt, LastYear;
  }

  // ----- guaranteed progress -----

  function First(f: Field): (v: int)
    requires f.values != []
    ensures v in f.values
  {
    f.values[0]
  }

  function Last(f: Field): (v: int)
    requires f.values != [] && Sorted(f.values)
    ensures v in f.values && forall w :: w in f.values ==> w <= v
  {
    f.values[|f.values| - 1]
  }

  /** Some instant of the given date matches, when the date does. */
  lemma DateHasMatch(e: Expression, y: int, m: int, d: int) returns (c: Civil)
    requires ExpressionOk(e) && DateMatches(e, y, m, d)
    ensures Matches(e, c) && c.year == y && c.month == m && c.day == d
  {
    var s := if e.second.Some? then First(e.second.value) else 0;
    c := Civil(y, m, d, First(e.hour), First(e.minute), s);
  }

  /** A matching date in the year after the start bounds the result by that year. */
  lemma ProgressFromDate(e: Expression, after: int, r: Option<int>, m: int, d: int)
    requires ExpressionOk(e) && IsNextRun(e, after, r)
    requires DateMatches(e, YearAt(Start(e, after)) + 1, m, d)
    ensures r.Some? && YearAt(r.value) <= YearAt(Start(e, after)) + 1
  {
    hide FromSeconds, ToSeconds, ExpressionOk, DateMatches, Start;
    var s := Start(e, after);
    var y := YearAt(s);
    var c := DateHasMatch(e, y + 1, m, d);
    hide Matches;
    var j := ToSeconds(c) * NANOS;
    RoundTrip(c);
    assert j / NANOS == ToSeconds(c) && MatchesAt(e, j) && YearAt(j) == y + 1;
    OrderIsChronological(FromSeconds(s / NANOS), c);
    assert after < j;
    if r.Some? && r.value <= j {
      OrderIsChronological(c, FromSeconds(r.value / NANOS));
    }
  }

  /** With the day of month unrestricted, any months and weekdays run by the end of next year. */
  lemma ProgressByWeekday(e: Expression, after: int, r: Option<int>)
    requires ExpressionOk(e) && IsNextRun(e, after, r)
    requires forall d :: 1 <= d <= 31 ==> d in e.day.values
    ensures r.Some? && YearAt(r.value) <= YearAt(Start(e, after)) + 1
  {
    var m, w := First(e.month), First(e.weekday);
    var d := WeekdayInFirstWeek(YearAt(Start(e, after)) + 1, m, w);
    ProgressFromDate(e, after, r, m, d);
  }

  /** With the weekday unrestricted, a listed date that exists in every year runs by the end of next year. */
  lemma ProgressByDate(e: Expression, after: int, r: Option<int>, m: int, d: int)
    requires ExpressionOk(e) && IsNextRun(e, after, r)
    requires forall w :: 0 <= w <= 6 ==> w in e.weekday.values
    requires m in e.month.values && d in e.day.values
    requires d <= DaysInMonth(1, m)
    ensures r.Some? && YearAt(r.value) <= YearAt(Start(e, after)) + 1
  {
    ProgressFromDate(e, after, r, m, d);
  }

  // ----- the search window: exactly when a next run is found -----

  /** The last matching time of a date. */
  function LastOn(e: Expression, y: int, m: int, d: int): (c: Civil)
    requires ExpressionOk(e)
    ensures DateMatches(e, y, m, d) ==> Matches(e, c)
  {
    Civil(y, m, d, Last(e.hour), Last(e.minute), if e.second.Some? then Last(e.second.value) else 0)
  }

  /** A date in the window that starts at `t` matches, with a matching time still to come. */
  predicate DateLeft(e: Expression, t: Civil)
    requires ExpressionOk(e)
  {
    exists y, m, d :: t.year <= y <= t.year + SEARCH_YEARS && 1 <= m <= 12 && 1 <= d <= 31
      && DateMatches(e, y, m, d) && !Before(LastOn(e, y, m, d), t)
  }

  lemma CandidateLeavesDate(e: Expression, t: Civil, c: Civil)
    requires ExpressionOk(e) && Candidate(e, t, c) && t.year <= c.year <= t.year + SEARCH_YEARS
    ensures DateLeft(e, t)
  {
    assert !Before(LastOn(e, c.year, c.month, c.day), c);
  }

  /** A matching time in the window means the search succeeds. */
  lemma InWindow(e: Expression, after: int, r: Option<int>, c: Civil)
    requires IsNextRun(e, after, r)
    requires Candidate(e, FromSeconds(Start(e, after) / NANOS), c)
    requires c.year <= LastYear(e, after)
    ensures r.Some?
  {
    hide FromSeconds, ToSeconds, Matches, Start;
    MatchesValid(e, c);
    var s := Start(e, after);
    var j := ToSeconds(c) * NANOS;
    RoundTrip(c);
    assert j / NANOS == ToSeconds(c) && MatchesAt(e, j);
    OrderIsChronological(c, FromSeconds(s / NANOS));
    assert after < s <= j;
  }

  lemma MatchesValid(e: Expression, c: Civil)
    requires Matches(e, c)
    ensures Valid(c)
  {
  }

  /**
   For every expression: a next run is found if and only if some date from the start through the
   end of the fourth year after it matches, with a matching time left.
   */
  lemma FoundIff(e: Expression, after: int, r: Option<int>)
    requires ExpressionOk(e) && IsNextRun(e, after, r)
    ensures r.Some? <==> DateLeft(e, FromSeconds(Start(e, after) / NANOS))
  {
    hide FromSeconds, ToSeconds, ExpressionOk, DateMatches, Start;
    var t := FromSeconds(Start(e, after) / NANOS);
    if r.Some? {
      NothingBeforeStart(e, after, r.value);
      CandidateLeavesDate(e, t, FromSeconds(r.value / NANOS));
    }
    if DateLeft(e, t) {
      var y, m, d :| t.year <= y <= t.year + SEARCH_YEARS && 1 <= m <= 12 && 1 <= d <= 31
                     && DateMatches(e, y, m, d) && !Before(LastOn(e, y, m, d), t);
      InWindow(e, after, r, LastOn(e, y, m, d));
    }
  }

  // ----- schedules the window is too short for -----

  /** Every listed month and day that ever exists is February 29th, on any weekday. */
  predicate OnlyLeapDays(e: Expression) {
    && 2 in e.month.values && 29 in e.day.values
    && (forall m, d :: m in e.month.values && d in e.day.values && d <= DaysInMonth(4, m) ==> m == 2 && d == 29)
    && (forall w :: 0 <= w <= 6 ==> w in e.weekday.values)
  }

  lemma LeapDayMatches(e: Expression, y: int, m: int, d: int)
    requires ExpressionOk(e) && OnlyLeapDays(e)
    ensures DateMatches(e, y, m, d) <==> IsLeap(y) && m == 2 && d == 29
  {
    if DateMatches(e, y, m, d) { assert d <= DaysInMonth(4, m); }
  }

  /** The first multiple of four strictly after `y`. */
  function NextFourth(y: int): (q: int)
    ensures y < q <= y + 4 && q % 4 == 0
    ensures forall z :: y < z <= y + 4 && z % 4 == 0 ==> z == q
  {
    y + 4 - y % 4
  }

  lemma NoLeapBetween(y: int, z: int)
    requires y < z <= y + 4 && IsLeap(z)
    ensures z == NextFourth(y)
  {
  }

  /** When a leap day is left in the search window that starts at `t`. */
  predicate LeapDayLeft(e: Expression, t: Civil)
    requires ExpressionOk(e)
  {
    (IsLeap(t.year) && !Before(LastOn(e, t.year, 2, 29), t)) || IsLeap(NextFourth(t.year))
  }

  lemma LeapDateLeft(e: Expression, t: Civil)
    requires ExpressionOk(e) && OnlyLeapDays(e)
    ensures DateLeft(e, t) <==> LeapDayLeft(e, t)
  {
    hide ExpressionOk, DateMatches, OnlyLeapDays;
    if DateLeft(e, t) {
      var y, m, d :| t.year <= y <= t.year + SEARCH_YEARS && 1 <= m <= 12 && 1 <= d <= 31
                     && DateMatches(e, y, m, d) && !Before(LastOn(e, y, m, d), t);
      LeapDayMatches(e, y, m, d);
      if y > t.year { NoLeapBetween(t.year, y); }
    }
    if LeapDayLeft(e, t) {
      var y := if IsLeap(NextFourth(t.year)) then NextFourth(t.year) else t.year;
      LeapDayMatches(e, y, 2, 29);
    }
  }

  /**
   A schedule of only leap days has a next run within the window exactly when the start year still
   has one left or the first multiple of four after it is a leap year.  Centuries such as 1900 and
   2100 are not: there the search reports failure although matching instants exist.
   */
  lemma LeapDayProgress(e: Expression, after: int, r: Option<int>)
    requires ExpressionOk(e) && OnlyLeapDays(e) && IsNextRun(e, after, r)
    ensures r.Some? <==> LeapDayLeft(e, FromSeconds(Start(e, after) / NANOS))
  {
    FoundIff(e, after, r);
    LeapDateLeft(e, FromSeconds(Start(e, after) / NANOS));
  }

  /** From March 1896 on, every such search of that year fails, although 1904 has a matching time. */
  lemma LeapDayMissed(e: Expression, after: int, r: Option<int>)
    requires ExpressionOk(e) && OnlyLeapDays(e) && IsNextRun(e, after, r)
    requires var t := FromSeconds(Start(e, after) / NANOS); t.year == 1896 && t.month >= 3
    ensures r.None? && Matches(e, LastOn(e, 1904, 2, 29))
  {
    var t := FromSeconds(Start(e, after) / NANOS);
    assert NextFourth(1896) == 1900 && !IsLeap(1900) && IsLeap(1904);
    assert !LeapDayLeft(e, t);
    LeapDayProgress(e, after, r);
    LeapDayMatches(e, 1904, 2, 29);
  }

  /** Midnight on a January 1st that is a Monday, as in `0 0 1 1 1`. */
  const NEW_YEAR_MONDAY := Expression(None, Field(0, 59, [0]), Field(0, 23, [0]),
                                      Field(1, 31, [1]), Field(1, 12, [1]), Field(0, 6, [1]))

  lemma NewYearWeekdays()
    ensures Weekday(2008, 1, 1) == 2 && Weekday(2009, 1, 1) == 4 && Weekday(2010, 1, 1) == 5 && Weekday(2011, 1, 1) == 6
    ensures Weekday(2018, 1, 1) == 1
  {
  }

  lemma NewYearMondays(y: int, m: int, d: int)
    requires 2007 <= y <= 2011 && DateMatches(NEW_YEAR_MONDAY, y, m, d)
    ensures y == 2007 && m == 1 && d == 1
  {
    NewYearWeekdays();
    hide Weekday;
    assert m == 1 && d == 1;
  }

  lemma NewYearMondayOk()
    ensures ExpressionOk(NEW_YEAR_MONDAY) && LastOn(NEW_YEAR_MONDAY, 2007, 1, 1) == Civil(2007, 1, 1, 0, 0, 0)
    ensures Matches(NEW_YEAR_MONDAY, Civil(2018, 1, 1, 0, 0, 0))
  {
    NewYearWeekdays();
    hide Weekday;
  }

  /** Searched for during 2007, once its first midnight is past, it is not found, although 2018 has a match. */
  lemma NewYearMondayMissed(after: int, r: Option<int>)
    requires IsNextRun(NEW_YEAR_MONDAY, after, r)
    requires var t := FromSeconds(Start(NEW_YEAR_MONDAY, after) / NANOS);
             t.year == 2007 && Before(Civil(2007, 1, 1, 0, 0, 0), t)
    ensures r.None? && Matches(NEW_YEAR_MONDAY, Civil(2018, 1, 1, 0, 0, 0))
  {
    hide FromSeconds, ToSeconds, Start, NEW_YEAR_MONDAY, ExpressionOk, Matches, DateMatches, LastOn;
    NewYearMondayOk();
    var e, t := NEW_YEAR_MONDAY, FromSeconds(Start(NEW_YEAR_MONDAY, after) / NANOS);
    FoundIff(e, after, r);
    if DateLeft(e, t) {
      var y, m, d :| t.year <= y <= t.year + SEARCH_YEARS && 1 <= m <= 12 && 1 <= d <= 31
                     && DateMatches(e, y, m, d) && !Before(LastOn(e, y, m, d), t);
      NewYearMondays(y, m, d);
    }
  }
}
