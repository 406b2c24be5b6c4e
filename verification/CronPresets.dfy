/** The predefined specifications mean what their documentation says. */
module CronPresets {
  import opened Wrappers
  import opened Text
  import opened Calendar
  import opened CronExpression
  import opened CronField
  import opened CronNames
  import opened CronSpec

  lemma {:induction false} WordThenSpace(w: string, rest: string)
    requires forall i :: 0 <= i < |w| ==> !IsSpace(w[i])
    ensures Word(w + rest) == w + Word(rest)
  {
    if w != "" {
      assert (w + rest)[1..] == w[1..] + rest;
      WordThenSpace(w[1..], rest);
    } else {
      assert w + rest == rest;
    }
  }

  /** Words joined by single spaces are split back into those words. */
  lemma {:induction false} FieldsOfJoin(words: seq<string>)
    requires words != []
    requires forall j :: 0 <= j < |words| ==>
               words[j] != "" && forall i :: 0 <= i < |words[j]| ==> !IsSpace(words[j][i])
    ensures Fields(Join(words, ' ')) == words
    decreases |words|
  {
    var w, s := words[0], Join(words, ' ');
    if |words| == 1 {
      WordThenSpace(w, "");
      assert w + "" == w && s[|w|..] == "";
    } else {
      var rest := Join(words[1..], ' ');
      FieldsOfJoin(words[1..]);
      assert s == w + ([' '] + rest);
      WordThenSpace(w, [' '] + rest);
      assert Word(s) == w && s[0] == w[0];
      assert s[|w|..] == [' '] + rest && ([' '] + rest)[1..] == rest;
    }
  }

  lemma {:induction false} SpacesSkipped(gap: string, s: string)
    requires forall i :: 0 <= i < |gap| ==> IsSpace(gap[i])
    ensures Fields(gap + s) == Fields(s)
  {
    if gap == "" {
      assert gap + s == s;
    } else {
      assert (gap + s)[1..] == gap[1..] + s;
      SpacesSkipped(gap[1..], s);
    }
  }

  /** Words with a gap before each and one at the end. */
  function Spread(words: seq<string>, gaps: seq<string>): string
    requires |gaps| == |words| + 1
  {
    if words == [] then gaps[0] else gaps[0] + (words[0] + Spread(words[1..], gaps[1..]))
  }

  /** Words in any white space, some between any two, are split into those words. */
  lemma {:induction false} FieldsOfSpread(words: seq<string>, gaps: seq<string>)
    requires |gaps| == |words| + 1
    requires forall j, i :: 0 <= j < |gaps| && 0 <= i < |gaps[j]| ==> IsSpace(gaps[j][i])
    requires forall j :: 0 < j < |words| ==> gaps[j] != ""
    requires forall j :: 0 <= j < |words| ==> words[j] != ""
    requires forall j, i :: 0 <= j < |words| && 0 <= i < |words[j]| ==> !IsSpace(words[j][i])
    ensures Fields(Spread(words, gaps)) == words
    decreases |words|
  {
    hide IsSpace;
    if words == [] {
      SpacesSkipped(gaps[0], "");
      assert gaps[0] + "" == gaps[0];
    } else {
      var w, rest := words[0], Spread(words[1..], gaps[1..]);
      SpacesSkipped(gaps[0], w + rest);
      FieldsOfSpread(words[1..], gaps[1..]);
      assert rest != "" ==> IsSpace(rest[0]) by {
        if gaps[1] != "" { assert rest[0] == gaps[1][0]; }
      }
      WordThenSpace(w, rest);
      assert Word(rest) == "" && w + "" == w;
      assert (w + rest)[|w|..] == rest && (w + rest)[0] == w[0];
      assert words == [w] + words[1..];
    }
  }

  /** Trimming removes white space at both ends and nothing else. */
  lemma {:induction false} TrimSpaceIs(a: string, s: string, b: string)
    requires forall i :: 0 <= i < |a| ==> IsSpace(a[i])
    requires forall i :: 0 <= i < |b| ==> IsSpace(b[i])
    requires s != "" ==> !IsSpace(s[0]) && !IsSpace(s[|s| - 1])
    ensures TrimSpace(a + s + b) == s
    decreases |a| + |b|
  {
    hide IsSpace;
    var t := a + s + b;
    if a != "" {
      assert t[1..] == a[1..] + s + b;
      TrimSpaceIs(a[1..], s, b);
    } else if s == "" {
      if b != "" {
        assert t[1..] == "" + s + b[1..];
        TrimSpaceIs("", s, b[1..]);
      }
    } else if b != "" {
      assert t[..|t| - 1] == a + s + b[..|b| - 1];
      TrimSpaceIs(a, s, b[..|b| - 1]);
    } else {
      assert t == s;
    }
  }

  /** Among ASCII characters, white space is the blank and the five control characters from tab on. */
  lemma AsciiSpaces(c: char)
    requires c as int < 0x80
    ensures IsSpace(c) <==> c == ' ' || 9 <= c as int <= 13
  {
  }

  /** Six one-character fields. */
  function Spaced(a: char, b: char, c: char, d: char, e: char, f: char): string {
    [a, ' ', b, ' ', c, ' ', d, ' ', e, ' ', f]
  }

  lemma SpacedFields(a: char, b: char, c: char, d: char, e: char, f: char)
    requires !IsSpace(a) && !IsSpace(b) && !IsSpace(c) && !IsSpace(d) && !IsSpace(e) && !IsSpace(f)
    ensures Fields(Spaced(a, b, c, d, e, f)) == [[a], [b], [c], [d], [e], [f]]
  {
    hide Fields, Word;
    var words := [[a], [b], [c], [d], [e], [f]];
    FieldsOfJoin(words);
    assert Join([[f]], ' ') == [f];
    assert [[e], [f]][1..] == [[f]];
    assert Join([[e], [f]], ' ') == [e, ' ', f];
    assert [[d], [e], [f]][1..] == [[e], [f]];
    assert Join([[d], [e], [f]], ' ') == [d, ' ', e, ' ', f];
    assert [[c], [d], [e], [f]][1..] == [[d], [e], [f]];
    assert Join([[c], [d], [e], [f]], ' ') == [c, ' ', d, ' ', e, ' ', f];
    assert [[b], [c], [d], [e], [f]][1..] == [[c], [d], [e], [f]];
    assert Join([[b], [c], [d], [e], [f]], ' ') == [b, ' ', c, ' ', d, ' ', e, ' ', f];
    assert words[1..] == [[b], [c], [d], [e], [f]];
    assert Join(words, ' ') == Spaced(a, b, c, d, e, f);
  }

  predicate Simple(c: char) {
    c == '*' || c == '0' || c == '1'
  }

  /** The value a one-character field allows. */
  predicate Takes(c: char, v: int)
    requires Simple(c)
  {
    c == '*' || v == (if c == '0' then 0 else 1)
  }

  lemma SimpleText(c: char, low: int, high: int, m: Names)
    requires Bounds(low, high) && Simple(c) && (c == '0' ==> low == 0) && high >= 1 && low <= 1
    ensures FieldText([c], low, high).Some? && NamedText([c], low, high, m) == FieldText([c], low, high)
    ensures forall v :: v in FieldText([c], low, high).value <==> low <= v <= high && Takes(c, v)
  {
    if c != '*' {
      assert [c][1..] == "";
      assert AllDigits([c]) && [c][..0] == "";
      assert DigitsValue([c]) == c as int - '0' as int;
      assert Atoi([c]) == Some(c as int - '0' as int);
      assert Reading("", m) == Some("") && [c] + "" == [c];
      assert Reading([c], m) == Some([c]);
    }
  }

  predicate SimpleMatch(a: char, b: char, c: char, d: char, e: char, f: char, t: Civil)
    requires Simple(a) && Simple(b) && Simple(c) && Simple(d) && Simple(e) && Simple(f)
  {
    && Valid(t) && Takes(a, t.second) && Takes(b, t.minute) && Takes(c, t.hour)
    && Takes(d, t.day) && Takes(e, t.month) && Takes(f, Weekday(t.year, t.month, t.day))
  }

  lemma SimpleFields(fields: seq<string>, a: char, b: char, c: char, d: char, e: char, f: char, t: Civil)
    requires fields == [[a], [b], [c], [d], [e], [f]]
    requires Simple(a) && Simple(b) && Simple(c) && Simple(d) && Simple(e) && Simple(f) && d != '0' && e != '0'
    ensures FieldsExpression(fields).Some?
    ensures Matches(SortExpression(FieldsExpression(fields).value), t) <==> SimpleMatch(a, b, c, d, e, f, t)
  {
    hide FieldText, NamedText, SortInts, Takes, Weekday, DaysInMonth;
    SimpleText(a, 0, 59, map[]);
    SimpleText(b, 0, 59, map[]);
    SimpleText(c, 0, 23, map[]);
    SimpleText(d, 1, 31, map[]);
    SimpleText(e, 1, 12, MONTHS);
    SimpleText(f, 0, 6, DAYS);
    var x := FieldsExpression(fields).value;
    if 1 <= t.month <= 12 {
      SortMeans(x.second.value, t.second);
      SortMeans(x.minute, t.minute);
      SortMeans(x.hour, t.hour);
      SortMeans(x.day, t.day);
      SortMeans(x.month, t.month);
      SortMeans(x.weekday, Weekday(t.year, t.month, t.day));
    }
    DayBound(t);
  }

  lemma DayBound(t: Civil)
    ensures Valid(t) ==> t.day <= 31
  {
  }

  lemma NoSpaces(a: char, b: char, c: char)
    requires Simple(a) && Simple(b) && Simple(c)
    ensures !IsSpace(a) && !IsSpace(b) && !IsSpace(c)
  {
  }

  /** A specification of six simple fields. */
  lemma SimpleSpec(spec: string, a: char, b: char, c: char, d: char, e: char, f: char, t: Civil)
    requires SpecTexts(spec) == Fields(Spaced(a, b, c, d, e, f))
    requires Simple(a) && Simple(b) && Simple(c) && Simple(d) && Simple(e) && Simple(f) && d != '0' && e != '0'
    ensures SpecExpression(spec).Some?
    ensures Matches(SpecExpression(spec).value, t) <==> SimpleMatch(a, b, c, d, e, f, t)
  {
    hide Fields, Spaced, FieldsExpression, SortExpression, SimpleMatch, Matches, SpecTexts, IsSpace;
    NoSpaces(a, b, c);
    NoSpaces(d, e, f);
    SpacedFields(a, b, c, d, e, f);
    SimpleFields(SpecTexts(spec), a, b, c, d, e, f, t);
  }

  /** A specification of five fields means the same with a sixth in front that allows second 0 only. */
  lemma FiveFieldsMean(five: seq<string>, t: Civil)
    requires |five| == 5
    ensures FieldsExpression(five).Some? <==> FieldsExpression(["0"] + five).Some?
    ensures FieldsExpression(five).Some? ==>
              (Matches(SortExpression(FieldsExpression(five).value), t) <==>
               Matches(SortExpression(FieldsExpression(["0"] + five).value), t))
  {
    hide FieldText, NamedText, SortInts, Weekday, DaysInMonth;
    SimpleText('0', 0, 59, map[]);
    var six := ["0"] + five;
    if FieldsExpression(five).Some? {
      SortMeans(FieldsExpression(six).value.second.value, t.second);
    }
  }

  predicate Midnight(t: Civil) {
    t.hour == 0 && t.minute == 0 && t.second == 0
  }

  /** Yearly on 1 January, monthly on the 1st, weekly on Sunday, daily, all at midnight; hourly on the hour. */
  lemma PresetsMean(spec: string, t: Civil)
    requires spec in PRESETS
    ensures SpecExpression(spec).Some?
    ensures Matches(SpecExpression(spec).value, t) <==>
              && Valid(t)
              && (spec == "@yearly" || spec == "@annually" ==> Midnight(t) && t.month == 1 && t.day == 1)
              && (spec == "@monthly" ==> Midnight(t) && t.day == 1)
              && (spec == "@weekly" ==> Midnight(t) && Weekday(t.year, t.month, t.day) == 0)
              && (spec == "@daily" || spec == "@midnight" ==> Midnight(t))
              && (spec == "@hourly" ==> t.minute == 0 && t.second == 0)
  {
    hide SpecExpression, Matches, Weekday, Fields, Valid;
    if spec == "@yearly" || spec == "@annually" {
      SimpleSpec(spec, '0', '0', '0', '1', '1', '*', t);
    } else if spec == "@monthly" {
      SimpleSpec(spec, '0', '0', '0', '1', '*', '*', t);
    } else if spec == "@weekly" {
      SimpleSpec(spec, '0', '0', '0', '*', '*', '0', t);
    } else if spec == "@hourly" {
      SimpleSpec(spec, '0', '0', '*', '*', '*', '*', t);
    } else {
      SimpleSpec(spec, '0', '0', '0', '*', '*', '*', t);
    }
  }
}
