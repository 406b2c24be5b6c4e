/** Parsed cron expressions, the times they match, and the scans over a field's sorted values. */
module CronExpression {
  import opened Wrappers
  import opened Calendar

  datatype Field = Field(min: int, max: int, values: seq<int>)

  datatype Expression = Expression(
    second: Option<Field>, minute: Field, hour: Field, day: Field, month: Field, weekday: Field)

  predicate Sorted(s: seq<int>) {
    forall i, j :: 0 <= i < j < |s| ==> s[i] <= s[j]
  }

  /** What parsing promises of one field: some values, sorted, all within the field's bounds. */
  predicate FieldOk(f: Field, low: int, high: int) {
    && f.min == low && f.max == high
    && f.values != [] && Sorted(f.values)
    && forall v :: v in f.values ==> low <= v <= high
  }

  predicate ExpressionOk(e: Expression) {
    && (e.second.Some? ==> FieldOk(e.second.value, 0, 59))
    && FieldOk(e.minute, 0, 59) && FieldOk(e.hour, 0, 23)
    && FieldOk(e.day, 1, 31) && FieldOk(e.month, 1, 12) && FieldOk(e.weekday, 0, 6)
  }

  /** The seconds an expression allows: without a seconds field, only 0. */
  predicate SecondMatches(e: Expression, s: int) {
    match e.second
    case None => s == 0
    case Some(f) => s in f.values
  }

  /** Day of month and day of week must both be listed. */
  predicate DateMatches(e: Expression, y: int, m: int, d: int) {
    && m in e.month.values && d in e.day.values
    && ValidDate(y, m, d) && Weekday(y, m, d) in e.weekday.values
  }

  predicate Matches(e: Expression, c: Civil) {
    && Valid(c)
    && DateMatches(e, c.year, c.month, c.day)
    && c.hour in e.hour.values && c.minute in e.minute.values && SecondMatches(e, c.second)
  }

  // ----- scans over one field -----

  method FieldMatches(f: Field, value: int) returns (found: bool)
    ensures found <==> value in f.values
  {
    for i := 0 to |f.values|
      invariant value !in f.values[..i]
    {
      if f.values[i] == value {
        return true;
      }
    }
    assert f.values[..|f.values|] == f.values;
    return false;
  }

  /** `v` is the least listed value that is at least `value`. */
  predicate IsNextValue(f: Field, value: int, v: int) {
    v in f.values && value <= v && forall w :: w in f.values && value <= w ==> v <= w
  }

  predicate NoNextValue(f: Field, value: int) {
    forall w :: w in f.values ==> w < value
  }

  method FindNextValidValue(f: Field, value: int) returns (v: int, found: bool)
    requires Sorted(f.values)
    ensures found ==> IsNextValue(f, value, v)
    ensures !found ==> v == 0 && NoNextValue(f, value)
  {
    for i := 0 to |f.values|
      invariant forall k :: 0 <= k < i ==> f.values[k] < value
    {
      if f.values[i] >= value {
        return f.values[i], true;
      }
    }
    return 0, false;
  }

  method FindFirstValidValue(f: Field) returns (v: int)
    requires Sorted(f.values)
    ensures f.values == [] ==> v == f.min
    ensures f.values != [] ==> v in f.values && forall w :: w in f.values ==> v <= w
  {
    if |f.values| == 0 {
      return f.min;
    }
    return f.values[0];
  }
}
