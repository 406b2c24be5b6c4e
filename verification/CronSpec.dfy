/** Whole cron specifications: `ParseCronSpec` and `calculateNextCronRun` on text. */
module CronSpec {
  import opened Wrappers
  import opened Text
  import opened CronExpression
  import opened CronField
  import opened CronNames
  import Calendar
  import CronNextRun

  const PRESETS: map<string, string> := map[
    "@yearly" := "0 0 0 1 1 *",
    "@annually" := "0 0 0 1 1 *",
    "@monthly" := "0 0 0 1 * *",
    "@weekly" := "0 0 0 * * 0",
    "@daily" := "0 0 0 * * *",
    "@midnight" := "0 0 0 * * *",
    "@hourly" := "0 0 * * * *"]

  lemma PresetsAreSpecs(spec: string)
    requires spec in PRESETS
    ensures PRESETS[spec] !in PRESETS
  {
    assert forall k :: k in PRESETS ==> k[0] == '@';
    assert PRESETS[spec][0] == '0';
  }

  // ----- sorting -----

  function Insert(v: int, s: seq<int>): (r: seq<int>)
    ensures multiset(r) == multiset{v} + multiset(s)
  {
    if s == [] || v <= s[0] then [v] + s
    else
      assert s == [s[0]] + s[1..];
      [s[0]] + Insert(v, s[1..])
  }

  lemma {:induction false} InsertSorted(v: int, s: seq<int>)
    requires Sorted(s)
    ensures Sorted(Insert(v, s))
  {
    if s != [] && v > s[0] {
      InsertSorted(v, s[1..]);
      var t := Insert(v, s[1..]);
      forall i | 0 <= i < |t| ensures s[0] <= t[i] {
        assert t[i] in multiset(t);
        assert t[i] == v || t[i] in s[1..];
      }
    }
  }

  /** `sort.Ints`. */
  function SortInts(s: seq<int>): (r: seq<int>)
    ensures Sorted(r) && multiset(r) == multiset(s)
  {
    if s == [] then []
    else
      assert s == [s[0]] + s[1..];
      InsertSorted(s[0], SortInts(s[1..]));
      Insert(s[0], SortInts(s[1..]))
  }

  lemma SameElements(s: seq<int>, t: seq<int>)
    requires multiset(s) == multiset(t)
    ensures s == [] <==> t == []
    ensures forall v :: v in s <==> v in t
  {
    assert forall v :: v in s <==> v in multiset(s);
    assert forall v :: v in t <==> v in multiset(t);
    if s != [] { assert s[0] in t; }
    if t != [] { assert t[0] in s; }
  }

  function SortField(f: Field): Field {
    f.(values := SortInts(f.values))
  }

  // ----- a specification as a function -----

  /** The expression of five or six field texts, before sorting. */
  function FieldsExpression(fields: seq<string>): Option<Expression>
    requires |fields| == 5 || |fields| == 6
  {
    var k := |fields| - 5;
    var second := ToField(0, 59, FieldText(fields[0], 0, 59));
    var minute := ToField(0, 59, FieldText(fields[k], 0, 59));
    var hour := ToField(0, 23, FieldText(fields[k + 1], 0, 23));
    var day := ToField(1, 31, NamedText(fields[k + 2], 1, 31, map[]));
    var month := ToField(1, 12, NamedText(fields[k + 3], 1, 12, MONTHS));
    var weekday := ToField(0, 6, NamedText(fields[k + 4], 0, 6, DAYS));
    if (k == 1 && second.None?) || minute.None? || hour.None? || day.None? || month.None? || weekday.None? then None
    else Some(Expression(if k == 1 then second else None,
                         minute.value, hour.value, day.value, month.value, weekday.value))
  }

  function SortExpression(e: Expression): Expression {
    Expression(if e.second.Some? then Some(SortField(e.second.value)) else None,
               SortField(e.minute), SortField(e.hour), SortField(e.day), SortField(e.month), SortField(e.weekday))
  }

  /** The fields of a specification, once a preset is looked up. */
  function SpecTexts(spec: string): seq<string> {
    Fields(if spec in PRESETS then PRESETS[spec] else spec)
  }

  function SpecExpression(spec: string): Option<Expression> {
    var fields := SpecTexts(spec);
    if |fields| != 5 && |fields| != 6 then None
    else match FieldsExpression(fields)
      case None => None
      case Some(e) => Some(SortExpression(e))
  }

  method ParseCronSpec(spec: string) returns (r: Option<Expression>)
    ensures r == SpecExpression(spec)
    decreases spec in PRESETS
  {
    hide FieldsExpression;
    if spec in PRESETS {
      PresetsAreSpecs(spec);
      r := ParseCronSpec(PRESETS[spec]);
      return;
    }
    var fields := Fields(spec);
    if |fields| != 5 && |fields| != 6 {
      return None;
    }
    var e := ParseFields(fields);
    if e.None? {
      return None;
    }
    return Some(SortExpression(e.value));
  }

  method ParseMonth(text: string) returns (r: Option<Field>)
    ensures r == ToField(1, 12, NamedText(text, 1, 12, MONTHS))
  {
    MonthsOk();
    r := ParseCronFieldWithNames(text, 1, 12, MONTHS);
  }

  method ParseWeekday(text: string) returns (r: Option<Field>)
    ensures r == ToField(0, 6, NamedText(text, 0, 6, DAYS))
  {
    DaysOk();
    r := ParseCronFieldWithNames(text, 0, 6, DAYS);
  }

  method ParseFields(fields: seq<string>) returns (r: Option<Expression>)
    requires |fields| == 5 || |fields| == 6
    ensures r == FieldsExpression(fields)
  {
    hide FieldText, NamedText, Means, NamedMeans;
    var second := None;
    var offset := 0;
    if |fields| == 6 {
      second := ParseCronField(fields[0], 0, 59);
      if second.None? { return None; }
      offset := 1;
    }
    var minute := ParseCronField(fields[offset], 0, 59);
    if minute.None? { return None; }
    var hour := ParseCronField(fields[offset + 1], 0, 23);
    if hour.None? { return None; }
    var day := ParseCronFieldWithNames(fields[offset + 2], 1, 31, map[]);
    if day.None? { return None; }
    var month := ParseMonth(fields[offset + 3]);
    if month.None? { return None; }
    var weekday := ParseWeekday(fields[offset + 4]);
    if weekday.None? { return None; }
    return Some(Expression(second, minute.value, hour.value, day.value, month.value, weekday.value));
  }

  // ----- what parsing guarantees -----

  /** No way of writing the field has a step whose first addition overflows. */
  ghost predicate FieldFits(text: string, low: int, high: int) {
    forall x :: Spells(text, x) && InBounds(x, low, high) ==> Fits(x, low)
  }

  ghost predicate NamedFits(text: string, low: int, high: int, m: Names) {
    text == "?" || text == "*" || (Reading(text, m).Some? ==> FieldFits(Reading(text, m).value, low, high))
  }

  ghost predicate StepsFit(spec: string) {
    var fields := SpecTexts(spec);
    |fields| == 5 || |fields| == 6 ==>
      var k := |fields| - 5;
      && (k == 1 ==> FieldFits(fields[0], 0, 59))
      && FieldFits(fields[k], 0, 59) && FieldFits(fields[k + 1], 0, 23)
      && NamedFits(fields[k + 2], 1, 31, map[])
      && NamedFits(fields[k + 3], 1, 12, MONTHS)
      && NamedFits(fields[k + 4], 0, 6, DAYS)
  }

  predicate ValuesOk(values: seq<int>, low: int, high: int) {
    values != [] && forall v :: v in values ==> low <= v <= high
  }

  lemma FieldTextOk(text: string, low: int, high: int)
    requires Bounds(low, high) && FieldText(text, low, high).Some?
    ensures ValuesOk(FieldText(text, low, high).value, low, high) <==> FieldFits(text, low, high)
  {
    var x := Accepted(text, low, high);
    Accepts(text, low, high, x);
    forall y | Spells(text, y) && InBounds(y, low, high) ensures Fits(y, low) <==> Fits(x, low) {
      Accepts(text, low, high, y);
    }
  }

  lemma NamedTextOk(text: string, low: int, high: int, m: Names)
    requires Bounds(low, high) && NamedText(text, low, high, m).Some?
    ensures ValuesOk(NamedText(text, low, high, m).value, low, high) <==> NamedFits(text, low, high, m)
  {
    if text != "?" && text != "*" {
      var u := Reading(text, m).value;
      assert u != "*" by { StarIsNoForm(low, high); }
      FieldTextOk(u, low, high);
    }
  }

  lemma StarIsNoForm(low: int, high: int)
    requires Bounds(low, high)
    ensures FormText("*", low, high).None?
  {
  }

  lemma SortKeepsOk(f: Field, low: int, high: int)
    requires f.min == low && f.max == high
    ensures FieldOk(SortField(f), low, high) <==> ValuesOk(f.values, low, high)
  {
    SameElements(f.values, SortInts(f.values));
  }

  /**
   Every accepted specification has non-empty, sorted values within bounds in all its fields,
   if and only if no step of it overflows.
   */
  lemma ParsedOk(spec: string)
    requires SpecExpression(spec).Some?
    ensures ExpressionOk(SpecExpression(spec).value) <==> StepsFit(spec)
  {
    var fields := SpecTexts(spec);
    var k := |fields| - 5;
    var e := FieldsExpression(fields).value;
    if k == 1 {
      FieldTextOk(fields[0], 0, 59);
      SortKeepsOk(e.second.value, 0, 59);
    }
    FieldTextOk(fields[k], 0, 59);
    SortKeepsOk(e.minute, 0, 59);
    FieldTextOk(fields[k + 1], 0, 23);
    SortKeepsOk(e.hour, 0, 23);
    NamedTextOk(fields[k + 2], 1, 31, map[]);
    SortKeepsOk(e.day, 1, 31);
    NamedTextOk(fields[k + 3], 1, 12, MONTHS);
    SortKeepsOk(e.month, 1, 12);
    NamedTextOk(fields[k + 4], 0, 6, DAYS);
    SortKeepsOk(e.weekday, 0, 6);
  }

  // ----- what a specification means -----

  /** A field's text allows the value `v`. */
  ghost predicate Allows(text: string, low: int, high: int, v: int) {
    exists x :: Spells(text, x) && InBounds(x, low, high) && Denotes(x, low, high, v)
  }

  /** The same for a field with names, where `?` also stands for every value. */
  ghost predicate AllowsNamed(text: string, low: int, high: int, m: Names, v: int) {
    if text == "?" || text == "*" then low <= v <= high
    else Reading(text, m).Some? && Allows(Reading(text, m).value, low, high, v)
  }

  /** The dates and times a specification names, read off its text. */
  ghost predicate TextMatches(spec: string, c: Calendar.Civil) {
    var fields := SpecTexts(spec);
    && (|fields| == 5 || |fields| == 6) && Calendar.Valid(c)
    && var k := |fields| - 5;
       && (if k == 1 then Allows(fields[0], 0, 59, c.second) else c.second == 0)
       && Allows(fields[k], 0, 59, c.minute) && Allows(fields[k + 1], 0, 23, c.hour)
       && AllowsNamed(fields[k + 2], 1, 31, map[], c.day)
       && AllowsNamed(fields[k + 3], 1, 12, MONTHS, c.month)
       && AllowsNamed(fields[k + 4], 0, 6, DAYS, Calendar.Weekday(c.year, c.month, c.day))
  }

  lemma FieldTextMeans(text: string, low: int, high: int, v: int)
    requires Bounds(low, high) && FieldText(text, low, high).Some? && FieldFits(text, low, high)
    ensures v in FieldText(text, low, high).value <==> Allows(text, low, high, v)
  {
    hide FieldText, Spells;
    var x := Accepted(text, low, high);
    Accepts(text, low, high, x);
    if y :| Spells(text, y) && InBounds(y, low, high) && Denotes(y, low, high, v) {
      Accepts(text, low, high, y);
    }
  }

  lemma NamedTextMeans(text: string, low: int, high: int, m: Names, v: int)
    requires Bounds(low, high) && NamedText(text, low, high, m).Some? && NamedFits(text, low, high, m)
    ensures v in NamedText(text, low, high, m).value <==> AllowsNamed(text, low, high, m, v)
  {
    if text != "?" && text != "*" {
      hide FormText, Reading, FieldFits, Allows;
      var u := Reading(text, m).value;
      assert u != "*" by { StarIsNoForm(low, high); }
      FieldTextMeans(u, low, high, v);
    }
  }

  lemma SortMeans(f: Field, v: int)
    ensures v in SortField(f).values <==> v in f.values
  {
    SameElements(f.values, SortInts(f.values));
  }

  /** The parsed expression matches exactly the times that the text names. */
  lemma ParsedMeans(spec: string, c: Calendar.Civil)
    requires SpecExpression(spec).Some? && StepsFit(spec)
    ensures Matches(SpecExpression(spec).value, c) <==> TextMatches(spec, c)
  {
    hide FieldText, NamedText, SortInts, Allows, AllowsNamed, FieldFits, NamedFits,
        Calendar.Weekday, SpecTexts, Calendar.DaysInMonth;
    var fields := SpecTexts(spec);
    var k := |fields| - 5;
    var e := FieldsExpression(fields).value;
    if 1 <= c.month <= 12 {
      var w := Calendar.Weekday(c.year, c.month, c.day);
      if k == 1 {
        FieldTextMeans(fields[0], 0, 59, c.second);
        SortMeans(e.second.value, c.second);
      }
      FieldTextMeans(fields[k], 0, 59, c.minute);
      SortMeans(e.minute, c.minute);
      FieldTextMeans(fields[k + 1], 0, 23, c.hour);
      SortMeans(e.hour, c.hour);
      NamedTextMeans(fields[k + 2], 1, 31, map[], c.day);
      SortMeans(e.day, c.day);
      NamedTextMeans(fields[k + 3], 1, 12, MONTHS, c.month);
      SortMeans(e.month, c.month);
      NamedTextMeans(fields[k + 4], 0, 6, DAYS, w);
      SortMeans(e.weekday, w);
    }
  }

  // ----- what the names mean -----

  const MONTH_NAMES := ["JAN", "FEB", "MAR", "APR", "MAY", "JUN", "JUL", "AUG", "SEP", "OCT", "NOV", "DEC"]
  const DAY_NAMES := ["SUN", "MON", "TUE", "WED", "THU", "FRI", "SAT"]

  /** A text whose parsed values are known allows exactly those. */
  lemma KnownValues(text: string, low: int, high: int, v: int)
    requires Bounds(low, high)
    requires FieldText(text, low, high).Some? ==> ValuesOk(FieldText(text, low, high).value, low, high)
    ensures Allows(text, low, high, v) <==>
              FieldText(text, low, high).Some? && v in FieldText(text, low, high).value
  {
    hide FieldText, Spells;
    if FieldText(text, low, high).Some? {
      FieldTextOk(text, low, high);
      FieldTextMeans(text, low, high, v);
    } else if Allows(text, low, high, v) {
      var x :| Spells(text, x) && InBounds(x, low, high) && Denotes(x, low, high, v);
      Accepts(text, low, high, x);
      assert false;
    }
  }

  lemma DigitsOnly(n: nat)
    ensures var s := Itoa(n); s != "*" && '/' !in s && '-' !in s && ',' !in s
  {
    var s := Itoa(n);
    assert IsDigit(s[0]) && forall c :: c in s ==> IsDigit(c);
  }

  lemma NumberMeans(n: nat, low: int, high: int, v: int)
    requires Bounds(low, high) && low <= n <= high
    ensures Allows(Itoa(n), low, high, v) <==> v == n
  {
    DigitsOnly(n);
    AtoiOfItoa(n);
    hide Atoi, Split, Itoa;
    assert FieldText(Itoa(n), low, high) == Some([n]);
    KnownValues(Itoa(n), low, high, v);
  }

  lemma SpanText(a: nat, b: nat, low: int, high: int)
    requires Bounds(low, high) && low <= a <= high && low <= b <= high
    ensures FieldText(Itoa(a) + "-" + Itoa(b), low, high) == if a <= b then Some(Ints(a, b)) else None
  {
    hide Atoi, Split, Itoa, Ints;
    var p, q := Itoa(a), Itoa(b);
    var text := p + "-" + q;
    DigitsOnly(a);
    DigitsOnly(b);
    AtoiOfItoa(a);
    AtoiOfItoa(b);
    SplitInTwo(text, '-', p, q);
    assert text[|p|] == '-' && '/' !in text;
  }

  lemma NumberSpanMeans(a: nat, b: nat, low: int, high: int, v: int)
    requires Bounds(low, high) && low <= a <= high && low <= b <= high
    ensures Allows(Itoa(a) + "-" + Itoa(b), low, high, v) <==> a <= v <= b
  {
    hide FieldText, Itoa, Allows;
    SpanText(a, b, low, high);
    KnownValues(Itoa(a) + "-" + Itoa(b), low, high, v);
  }

  lemma NameMeans(name: string, m: Names, low: int, high: int, v: int)
    requires Bounds(low, high) && IsName(name) && name in m && low <= m[name] <= high
    ensures AllowsNamed(name, low, high, m, v) <==> v == m[name]
  {
    hide Allows;
    ReadingOfName(name, m);
    NumberMeans(m[name], low, high, v);
  }

  lemma NameSpanMeans(a: string, b: string, m: Names, low: int, high: int, v: int)
    requires Bounds(low, high) && IsName(a) && a in m && low <= m[a] <= high
    requires IsName(b) && b in m && low <= m[b] <= high
    ensures AllowsNamed(a + "-" + b, low, high, m, v) <==> m[a] <= v <= m[b]
  {
    hide Allows;
    var text := a + "-" + b;
    assert text[0] == a[0];
    ReadingOfName(a, m);
    ReadingOfName(b, m);
    ReadingOfConcat(a, "-" + b, m);
    assert ("-" + b)[1..] == b;
    assert text == a + ("-" + b);
    assert Itoa(m[a]) + ("-" + Itoa(m[b])) == Itoa(m[a]) + "-" + Itoa(m[b]);
    NumberSpanMeans(m[a], m[b], low, high, v);
  }

  lemma MonthNumbers(k: nat)
    requires k < 12
    ensures IsName(MONTH_NAMES[k]) && MONTH_NAMES[k] in MONTHS && MONTHS[MONTH_NAMES[k]] == k + 1
  {
  }

  lemma DayNumbers(k: nat)
    requires k < 7
    ensures IsName(DAY_NAMES[k]) && DAY_NAMES[k] in DAYS && DAYS[DAY_NAMES[k]] == k
  {
  }

  /** Month names are the months 1 to 12 in order, also as the ends of a range. */
  lemma MonthNamesMean(k: nat, l: nat, v: int)
    requires k < 12 && l < 12
    ensures AllowsNamed(MONTH_NAMES[k], 1, 12, MONTHS, v) <==> v == k + 1
    ensures AllowsNamed(MONTH_NAMES[k] + "-" + MONTH_NAMES[l], 1, 12, MONTHS, v) <==> k + 1 <= v <= l + 1
  {
    hide MONTHS, AllowsNamed;
    MonthNumbers(k);
    MonthNumbers(l);
    NameMeans(MONTH_NAMES[k], MONTHS, 1, 12, v);
    NameSpanMeans(MONTH_NAMES[k], MONTH_NAMES[l], MONTHS, 1, 12, v);
  }

  /** Weekday names are the days 0 to 6, from Sunday, also as the ends of a range. */
  lemma DayNamesMean(k: nat, l: nat, v: int)
    requires k < 7 && l < 7
    ensures AllowsNamed(DAY_NAMES[k], 0, 6, DAYS, v) <==> v == k
    ensures AllowsNamed(DAY_NAMES[k] + "-" + DAY_NAMES[l], 0, 6, DAYS, v) <==> k <= v <= l
  {
    hide DAYS, AllowsNamed;
    DayNumbers(k);
    DayNumbers(l);
    NameMeans(DAY_NAMES[k], DAYS, 0, 6, v);
    NameSpanMeans(DAY_NAMES[k], DAY_NAMES[l], DAYS, 0, 6, v);
  }

  /** A time a specification names lies in the month and on the weekday that its fields name. */
  lemma NamedTimes(spec: string, c: Calendar.Civil)
    requires TextMatches(spec, c)
    ensures var fields := SpecTexts(spec); var n := |fields|;
            && (forall k :: 0 <= k < 12 && fields[n - 2] == MONTH_NAMES[k] ==> c.month == k + 1)
            && (forall k :: 0 <= k < 7 && fields[n - 1] == DAY_NAMES[k] ==>
                  Calendar.Weekday(c.year, c.month, c.day) == k)
  {
    hide SpecTexts, Allows, AllowsNamed, MONTHS, DAYS, Calendar.Weekday;
    var fields := SpecTexts(spec);
    forall k | 0 <= k < 12 && fields[|fields| - 2] == MONTH_NAMES[k] ensures c.month == k + 1 {
      MonthNamesMean(k, k, c.month);
    }
    forall k | 0 <= k < 7 && fields[|fields| - 1] == DAY_NAMES[k]
      ensures Calendar.Weekday(c.year, c.month, c.day) == k
    {
      DayNamesMean(k, k, Calendar.Weekday(c.year, c.month, c.day));
    }
  }

  // ----- the next run of a specification -----

  datatype NextRunResult = BadSpec | NotFound | At(instant: int)

  ghost predicate TextMatchesAt(spec: string, i: int) {
    i % Calendar.NANOS == 0 && TextMatches(spec, Calendar.FromSeconds(i / Calendar.NANOS))
  }

  lemma NamedInstants(spec: string, i: int)
    requires TextMatchesAt(spec, i)
    ensures var fields := SpecTexts(spec);
            && |fields| >= 5
            && (forall k :: 0 <= k < 12 && fields[|fields| - 2] == MONTH_NAMES[k] ==>
                  Calendar.FromSeconds(i / Calendar.NANOS).month == k + 1)
  {
    hide SpecTexts, Allows, AllowsNamed, Calendar.FromSeconds, Calendar.Weekday;
    NamedTimes(spec, Calendar.FromSeconds(i / Calendar.NANOS));
  }

  lemma ParsedMeansAt(spec: string, i: int)
    requires SpecExpression(spec).Some? && StepsFit(spec)
    ensures CronNextRun.MatchesAt(SpecExpression(spec).value, i) <==> TextMatchesAt(spec, i)
  {
    hide SpecExpression, StepsFit, TextMatches, Matches, Calendar.FromSeconds;
    ParsedMeans(spec, Calendar.FromSeconds(i / Calendar.NANOS));
  }

  /**
   From text to instant: the least instant strictly after `after`
   that the text names, or the reason there is none.
   */
  method CalculateNextCronRun(spec: string, after: int) returns (r: NextRunResult)
    requires StepsFit(spec)
    ensures r.BadSpec? <==> SpecExpression(spec).None?
    ensures !r.BadSpec? ==>
              CronNextRun.IsNextRun(SpecExpression(spec).value, after, if r.At? then Some(r.instant) else None)
    ensures r.At? ==> after < r.instant && TextMatchesAt(spec, r.instant)
    ensures r.At? ==> forall j :: after < j < r.instant ==> !TextMatchesAt(spec, j)
    ensures r.At? ==>
              var fields := SpecTexts(spec);
              && |fields| >= 5
              && (forall k :: 0 <= k < 12 && fields[|fields| - 2] == MONTH_NAMES[k] ==>
                    Calendar.FromSeconds(r.instant / Calendar.NANOS).month == k + 1)
    ensures r.NotFound? ==> forall j :: after < j && TextMatchesAt(spec, j) ==>
                              CronNextRun.YearAt(j) > CronNextRun.LastYear(SpecExpression(spec).value, after)
  {
    hide SpecExpression, StepsFit, TextMatchesAt, CronNextRun.MatchesAt, CronNextRun.LastYear, CronNextRun.YearAt;
    var e := ParseCronSpec(spec);
    if e.None? {
      return BadSpec;
    }
    ParsedOk(spec);
    forall i ensures CronNextRun.MatchesAt(e.value, i) <==> TextMatchesAt(spec, i) {
      ParsedMeansAt(spec, i);
    }
    var next := CronNextRun.NextRun(e.value, after);
    match next
    case None => return NotFound;
    case Some(i) =>
      NamedInstants(spec, i);
      return At(i);
  }
}
