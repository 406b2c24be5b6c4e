/**
 The search of `calculateNextCronRun`: nested loops over year, month, day, hour, minute and second.

 Each loop is a method of its own, named after the unit it advances; the `break` of an inner loop
 is that method returning `None`.  All six methods meet the same specification, `LeastWithin`, on
 a larger and larger part of the calendar.
 */
module CronSearch {
  import opened Wrappers
  import opened Calendar
  import opened CronExpression

  /** A time the search may return: it matches and is not before the start `t`. */
  predicate Candidate(e: Expression, t: Civil, c: Civil) {
    Matches(e, c) && !Before(c, t)
  }

  /** `c` and `p` agree on the `n` largest units. */
  predicate Agree(n: nat, c: Civil, p: Civil) {
    && (n >= 1 ==> c.year == p.year)
    && (n >= 2 ==> c.month == p.month)
    && (n >= 3 ==> c.day == p.day)
    && (n >= 4 ==> c.hour == p.hour)
    && (n >= 5 ==> c.minute == p.minute)
  }

  /** `r` is the least candidate that agrees with `p` on the `n` largest units, `None` if there is none. */
  ghost predicate LeastWithin(e: Expression, t: Civil, n: nat, p: Civil, r: Option<Civil>) {
    match r
    case Some(c) =>
      && Candidate(e, t, c) && Agree(n, c, p)
      && forall d :: Candidate(e, t, d) && Agree(n, d, p) ==> !Before(d, c)
    case None =>
      forall d :: Candidate(e, t, d) ==> !Agree(n, d, p)
  }

  method SearchSecond(e: Expression, t: Civil, p: Civil) returns (r: Option<Civil>)
    requires ExpressionOk(e) && Valid(t) && e.second.Some?
    requires DateMatches(e, p.year, p.month, p.day)
    requires p.hour in e.hour.values && p.minute in e.minute.values
    requires !Before(p.(second := 59), t)
    ensures LeastWithin(e, t, 5, p, r)
  {
    var f := e.second.value;
    var startSecond := 0;
    if Agree(5, p, t) {
      startSecond := t.second;
    } else {
      startSecond := FindFirstValidValue(f);
    }
    var nextSecond, foundSecond := FindNextValidValue(f, startSecond);
    if !foundSecond {
      return None;
    }
    var second := nextSecond;
    while second <= 59
      invariant 0 <= second && startSecond <= second
      invariant forall d :: Candidate(e, t, d) && Agree(5, d, p) ==> second <= d.second
      decreases 59 - second
    {
      var ok := FieldMatches(f, second);
      if !ok {
        var nextValid, found := FindNextValidValue(f, second + 1);
        if !found {
          break;
        }
        second := nextValid;
        continue;
      }
      return Some(p.(second := second));
    }
    return None;
  }

  method SearchMinute(e: Expression, t: Civil, p: Civil) returns (r: Option<Civil>)
    requires ExpressionOk(e) && Valid(t) && (e.second.None? ==> t.second == 0)
    requires DateMatches(e, p.year, p.month, p.day) && p.hour in e.hour.values
    requires !Before(p.(minute := 59, second := 59), t)
    ensures LeastWithin(e, t, 4, p, r)
  {
    var f := e.minute;
    var startMinute := 0;
    if Agree(4, p, t) {
      startMinute := t.minute;
    } else {
      startMinute := FindFirstValidValue(f);
    }
    var nextMinute, foundMinute := FindNextValidValue(f, startMinute);
    if !foundMinute {
      return None;
    }
    var minute := nextMinute;
    while minute <= 59
      invariant 0 <= minute && startMinute <= minute
      invariant forall d :: Candidate(e, t, d) && Agree(4, d, p) ==> minute <= d.minute
      decreases 59 - minute
    {
      var ok := FieldMatches(f, minute);
      if !ok {
        var nextValid, found := FindNextValidValue(f, minute + 1);
        if !found {
          break;
        }
        minute := nextValid;
        continue;
      }
      if e.second.Some? {
        r := SearchSecond(e, t, p.(minute := minute));
        if r.Some? {
          return r;
        }
      } else {
        return Some(p.(minute := minute, second := 0));
      }
      var nextValid, found := FindNextValidValue(f, minute + 1);
      if !found {
        break;
      }
      minute := nextValid;
    }
    return None;
  }

  method SearchHour(e: Expression, t: Civil, p: Civil) returns (r: Option<Civil>)
    requires ExpressionOk(e) && Valid(t) && (e.second.None? ==> t.second == 0)
    requires DateMatches(e, p.year, p.month, p.day)
    requires !Before(p.(hour := 23, minute := 59, second := 59), t)
    ensures LeastWithin(e, t, 3, p, r)
  {
    var f := e.hour;
    var startHour := 0;
    if Agree(3, p, t) {
      startHour := t.hour;
    }
    if !Agree(3, p, t) {
      startHour := FindFirstValidValue(f);
    }
    var nextHour, foundHour := FindNextValidValue(f, startHour);
    if !foundHour {
      return None;
    }
    var hour := nextHour;
    while hour <= 23
      invariant 0 <= hour && startHour <= hour
      invariant forall d :: Candidate(e, t, d) && Agree(3, d, p) ==> hour <= d.hour
      decreases 23 - hour
    {
      var ok := FieldMatches(f, hour);
      if !ok {
        var nextValid, found := FindNextValidValue(f, hour + 1);
        if !found {
          break;
        }
        hour := nextValid;
        continue;
      }
      r := SearchMinute(e, t, p.(hour := hour));
      if r.Some? {
        return r;
      }
      var nextValid, found := FindNextValidValue(f, hour + 1);
      if !found {
        break;
      }
      hour := nextValid;
    }
    return None;
  }

  method SearchDay(e: Expression, t: Civil, p: Civil) returns (r: Option<Civil>)
    requires ExpressionOk(e) && Valid(t) && (e.second.None? ==> t.second == 0)
    requires p.month in e.month.values
    requires !Before(p.(day := 31, hour := 23, minute := 59, second := 59), t)
    ensures LeastWithin(e, t, 2, p, r)
  {
    hide Weekday, IsLeap;
    var f := e.day;
    var startDay := 1;
    if Agree(2, p, t) {
      startDay := t.day;
    }
    if !Agree(2, p, t) {
      startDay := FindFirstValidValue(f);
    }
    var daysInMonth := LastDay(p.year, p.month);
    var nextDay, foundDay := FindNextValidValue(f, startDay);
    if !foundDay || nextDay > daysInMonth {
      return None;
    }
    var day := nextDay;
    while day <= daysInMonth
      invariant 1 <= day && startDay <= day
      invariant forall d :: Candidate(e, t, d) && Agree(2, d, p) ==> day <= d.day
      decreases daysInMonth - day
    {
      var ok := FieldMatches(f, day);
      if !ok {
        var nextValid, found := FindNextValidValue(f, day + 1);
        if !found || nextValid > daysInMonth {
          break;
        }
        day := nextValid;
        continue;
      }
      ok := FieldMatches(e.weekday, Weekday(p.year, p.month, day));
      if !ok {
        day := day + 1;
        continue;
      }
      r := SearchHour(e, t, p.(day := day));
      if r.Some? {
        return r;
      }
      var nextValid, found := FindNextValidValue(f, day + 1);
      if !found || nextValid > daysInMonth {
        break;
      }
      day := nextValid;
    }
    return None;
  }

  method SearchMonth(e: Expression, t: Civil, p: Civil) returns (r: Option<Civil>)
    requires ExpressionOk(e) && Valid(t) && (e.second.None? ==> t.second == 0)
    requires p.year >= t.year
    ensures LeastWithin(e, t, 1, p, r)
  {
    hide Weekday, IsLeap;
    var f := e.month;
    var startMonth := 1;
    if p.year == t.year {
      startMonth := t.month;
    }
    if p.year != t.year {
      startMonth := FindFirstValidValue(f);
    }
    var nextMonth, foundMonth := FindNextValidValue(f, startMonth);
    if !foundMonth {
      return None;
    }
    var month := nextMonth;
    while month <= 12
      invariant 1 <= month && startMonth <= month
      invariant forall d :: Candidate(e, t, d) && Agree(1, d, p) ==> month <= d.month
      decreases 12 - month
    {
      var ok := FieldMatches(f, month);
      if !ok {
        var nextValid, found := FindNextValidValue(f, month + 1);
        if !found {
          break;
        }
        month := nextValid;
        continue;
      }
      r := SearchDay(e, t, p.(month := month));
      if r.Some? {
        return r;
      }
      var nextValid, found := FindNextValidValue(f, month + 1);
      if !found {
        break;
      }
      month := nextValid;
    }
    return None;
  }

  const SEARCH_YEARS := 4

  /** The whole search: the least candidate whose year is at most four after the start year. */
  ghost predicate LeastCandidate(e: Expression, t: Civil, r: Option<Civil>) {
    match r
    case Some(c) =>
      && Candidate(e, t, c) && c.year <= t.year + SEARCH_YEARS
      && forall d :: Candidate(e, t, d) ==> !Before(d, c)
    case None =>
      forall d :: Candidate(e, t, d) ==> d.year > t.year + SEARCH_YEARS
  }

  method SearchYear(e: Expression, t: Civil) returns (r: Option<Civil>)
    requires ExpressionOk(e) && Valid(t) && (e.second.None? ==> t.second == 0)
    ensures LeastCandidate(e, t, r)
  {
    var maxYear := t.year + SEARCH_YEARS;
    var year := t.year;
    while year <= maxYear
      invariant t.year <= year <= maxYear + 1
      invariant forall d :: Candidate(e, t, d) ==> year <= d.year
      decreases maxYear + 1 - year
    {
      r := SearchMonth(e, t, Civil(year, 1, 1, 0, 0, 0));
      if r.Some? {
        return r;
      }
      year := year + 1;
    }
    return None;
  }
}
