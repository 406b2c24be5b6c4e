/**
 Month and weekday names.  The code replaces names by numbers one name at a time, in the random
 order of a Go map, and the rewritten texts can differ: "JANOV" becomes "1OV" or "JA11".

 `Reading` gives the order-free meaning: one left-to-right pass that reads each name as its number
 and refuses any other capital letter.  Each single replacement preserves it, so every order leads
 to the same verdict and the same values.
 */
module CronNames {
  import opened Wrappers
  import opened Text
  import opened CronExpression
  import opened CronField

  type Names = map<string, nat>

  const MONTHS: Names := map[
    "JAN" := 1, "FEB" := 2, "MAR" := 3, "APR" := 4, "MAY" := 5, "JUN" := 6,
    "JUL" := 7, "AUG" := 8, "SEP" := 9, "OCT" := 10, "NOV" := 11, "DEC" := 12]

  const DAYS: Names := map[
    "SUN" := 0, "MON" := 1, "TUE" := 2, "WED" := 3, "THU" := 4, "FRI" := 5, "SAT" := 6]

  predicate IsCapital(c: char) {
    'A' <= c <= 'Z'
  }

  predicate IsName(n: string) {
    |n| == 3 && IsCapital(n[0]) && IsCapital(n[1]) && IsCapital(n[2])
  }

  /** Three-letter names, where no name ends in the two letters another begins with. */
  predicate NamesOk(m: Names) {
    && (forall n :: n in m ==> IsName(n))
    && (forall n, k :: n in m && k in m ==> !(n[1] == k[0] && n[2] == k[1]))
  }

  lemma MonthLetters(n: string)
    requires n in MONTHS
    ensures IsName(n)
    ensures n[1] == 'A' ==> n[2] == 'N' || n[2] == 'R' || n[2] == 'Y'
    ensures n[1] == 'O' ==> n[2] == 'V'
    ensures n[1] == 'A' || n[1] == 'E' || n[1] == 'P' || n[1] == 'U' || n[1] == 'C' || n[1] == 'O'
    ensures n[0] == 'A' ==> n[1] == 'P' || n[1] == 'U'
    ensures n[0] == 'O' ==> n[1] == 'C'
    ensures n[0] != 'E' && n[0] != 'P' && n[0] != 'U' && n[0] != 'C'
  {
  }

  lemma MonthsOk()
    ensures NamesOk(MONTHS)
  {
    forall n | n in MONTHS ensures IsName(n) { MonthLetters(n); }
    forall n, k | n in MONTHS && k in MONTHS ensures !(n[1] == k[0] && n[2] == k[1]) {
      MonthLetters(n);
      MonthLetters(k);
    }
  }

  lemma DayLetters(n: string)
    requires n in DAYS
    ensures IsName(n)
    ensures n[0] == 'S' || n[0] == 'M' || n[0] == 'T' || n[0] == 'W' || n[0] == 'F'
    ensures n[1] != 'S' && n[1] != 'M' && n[1] != 'T' && n[1] != 'W' && n[1] != 'F'
  {
  }

  lemma DaysOk()
    ensures NamesOk(DAYS)
  {
    forall n | n in DAYS ensures IsName(n) { DayLetters(n); }
    forall n, k | n in DAYS && k in DAYS ensures n[1] != k[0] {
      DayLetters(n);
      DayLetters(k);
    }
  }

  // ----- the order-free meaning -----

  function Prepend(p: string, r: Option<string>): Option<string> {
    match r
    case None => None
    case Some(s) => Some(p + s)
  }

  function Reading(s: string, m: Names): Option<string> {
    if s == "" then Some("")
    else if !IsCapital(s[0]) then Prepend([s[0]], Reading(s[1..], m))
    else if |s| >= 3 && s[..3] in m then Prepend(Itoa(m[s[..3]]), Reading(s[3..], m))
    else None
  }

  lemma {:induction false} ReadingOfDigits(d: string, s: string, m: Names)
    requires AllDigits(d)
    ensures Reading(d + s, m) == Prepend(d, Reading(s, m))
  {
    if d == "" {
      assert d + s == s;
      if Reading(s, m).Some? { assert "" + Reading(s, m).value == Reading(s, m).value; }
    } else {
      assert (d + s)[1..] == d[1..] + s;
      assert IsDigit(d[0]);
      ReadingOfDigits(d[1..], s, m);
      if Reading(s, m).Some? {
        assert [d[0]] + (d[1..] + Reading(s, m).value) == d + Reading(s, m).value;
      }
    }
  }

  /** A name reads as its number. */
  lemma ReadingOfName(name: string, m: Names)
    requires IsName(name) && name in m
    ensures Reading(name, m) == Some(Itoa(m[name]))
  {
    assert name[..3] == name && name[3..] == "";
    assert Itoa(m[name]) + "" == Itoa(m[name]);
  }

  /** A text without capitals reads as itself. */
  lemma {:induction false} ReadingOfPlain(s: string, m: Names)
    requires forall i :: 0 <= i < |s| ==> !IsCapital(s[i])
    ensures Reading(s, m) == Some(s)
  {
    if s != "" {
      ReadingOfPlain(s[1..], m);
      assert [s[0]] + s[1..] == s;
    }
  }

  /** A text that is two texts one after the other reads as their readings do, if the first has one. */
  lemma {:induction false} ReadingOfConcat(p: string, q: string, m: Names)
    requires Reading(p, m).Some?
    ensures Reading(p + q, m) == Prepend(Reading(p, m).value, Reading(q, m))
    decreases |p|
  {
    if p == "" {
      assert p + q == q;
      if Reading(q, m).Some? { assert "" + Reading(q, m).value == Reading(q, m).value; }
    } else if !IsCapital(p[0]) {
      assert (p + q)[1..] == p[1..] + q;
      ReadingOfConcat(p[1..], q, m);
      PrependTwice([p[0]], Reading(p[1..], m).value, Reading(q, m));
    } else {
      assert (p + q)[..3] == p[..3] && (p + q)[3..] == p[3..] + q;
      ReadingOfConcat(p[3..], q, m);
      PrependTwice(Itoa(m[p[..3]]), Reading(p[3..], m).value, Reading(q, m));
    }
  }

  lemma PrependTwice(p: string, q: string, r: Option<string>)
    ensures Prepend(p, Prepend(q, r)) == Prepend(p + q, r)
  {
    if r.Some? { assert p + (q + r.value) == (p + q) + r.value; }
  }

  /** Replacing one name everywhere leaves the meaning unchanged, under the table without that name. */
  lemma {:induction false} ReplaceKeepsReading(s: string, m: Names, z: string)
    requires NamesOk(m) && z in m
    ensures Reading(ReplaceAll(s, z, Itoa(m[z])), m - {z}) == Reading(s, m)
    decreases |s|
  {
    var d := Itoa(m[z]);
    if s == "" {
    } else if z <= s {
      ReplaceKeepsReading(s[3..], m, z);
      ReadingOfDigits(d, ReplaceAll(s[3..], z, d), m - {z});
      assert s[..3] == z;
    } else if !IsCapital(s[0]) {
      ReplaceKeepsReading(s[1..], m, z);
    } else if |s| >= 3 && s[..3] in m {
      ReplaceAfterName(s, m, z);
    } else {
      ReplaceMakesNoName(s, m, z);
    }
  }

  /** The case of another name in front: an occurrence of `z` overlapping it spoils both readings. */
  lemma {:induction false} ReplaceAfterName(s: string, m: Names, z: string)
    requires NamesOk(m) && z in m && |s| >= 3 && s[..3] in m && s[..3] != z
    ensures Reading(ReplaceAll(s, z, Itoa(m[z])), m - {z}) == Reading(s, m)
    decreases |s|, 0
  {
    var n, d := s[..3], Itoa(m[z]);
    var r := ReplaceAll(s, z, d);
    assert !(z <= s);
    assert s[1..][0] == n[1] && s[1..][1] == n[2] && !(n[1] == z[0] && n[2] == z[1]);
    assert !(z <= s[1..]);
    assert s[1..][1..] == s[2..];
    assert ReplaceAll(s[1..], z, d) == [n[1]] + ReplaceAll(s[2..], z, d);
    assert r == [n[0]] + ([n[1]] + ReplaceAll(s[2..], z, d));
    if z <= s[2..] {
      assert s[3] == z[1] && s[4] == z[2];
      assert Reading(s[3..], m).None? by {
        assert |s[3..]| >= 3 ==> s[3..][..3][0] == z[1] && s[3..][..3][1] == z[2];
      }
      assert IsDigit(d[0]) && r[2] == d[0] && r[..3][2] == d[0];
    } else {
      assert s[2..][1..] == s[3..];
      assert r == n + ReplaceAll(s[3..], z, d);
      assert r[..3] == n && r[3..] == ReplaceAll(s[3..], z, d);
      ReplaceKeepsReading(s[3..], m, z);
    }
  }

  /** Replacing digits for `z` cannot complete a name that was not there. */
  lemma ReplaceMakesNoName(s: string, m: Names, z: string)
    requires NamesOk(m) && z in m && s != "" && IsCapital(s[0]) && !(|s| >= 3 && s[..3] in m)
    ensures Reading(ReplaceAll(s, z, Itoa(m[z])), m - {z}).None?
  {
    var d := Itoa(m[z]);
    var r := ReplaceAll(s, z, d);
    if |s| >= 3 { assert s[..3] != z; }
    assert !(z <= s);
    if |r| >= 3 && r[..3] in m {
      NameKept(s, z, d);
    }
  }

  /** A name at the front of the result was at the front of the text. */
  lemma NameKept(s: string, z: string, d: string)
    requires z != "" && d != "" && AllDigits(d)
    requires var r := ReplaceAll(s, z, d); |r| >= 3 && IsName(r[..3])
    ensures |s| >= 3 && s[..3] == ReplaceAll(s, z, d)[..3]
  {
    var r := ReplaceAll(s, z, d);
    var n := r[..3];
    assert n[0] == r[0] && n[1] == r[1] && n[2] == r[2];
    CapitalKept(s, z, d);
    var r1 := ReplaceAll(s[1..], z, d);
    assert r1 == r[1..];
    CapitalKept(s[1..], z, d);
    assert s[1..][1..] == s[2..];
    var r2 := ReplaceAll(s[2..], z, d);
    assert r2 == r1[1..] && r2[0] == r[2];
    CapitalKept(s[2..], z, d);
    assert s[..3] == [s[0], s[1], s[2]];
  }

  /** A capital at the front of the result was at the front of the text. */
  lemma CapitalKept(s: string, z: string, d: string)
    requires z != "" && d != "" && AllDigits(d)
    requires var r := ReplaceAll(s, z, d); r != "" && IsCapital(r[0])
    ensures s != "" && ReplaceAll(s, z, d) == [s[0]] + ReplaceAll(s[1..], z, d)
  {
    assert IsDigit(d[0]);
  }

  // ----- any order of replacement -----

  /** `order` lists the table's entries, each exactly once. */
  ghost predicate Enumerates(order: seq<(string, nat)>, m: Names)
    decreases |order|
  {
    if order == [] then m == map[]
    else order[0].0 in m && m[order[0].0] == order[0].1 && Enumerates(order[1..], m - {order[0].0})
  }

  /** `normalizeFieldNames` with a given iteration order of the table. */
  function Normalize(s: string, order: seq<(string, nat)>): string
    requires forall i :: 0 <= i < |order| ==> order[i].0 != ""
    decreases |order|
  {
    if order == [] then s
    else Normalize(ReplaceAll(s, order[0].0, Itoa(order[0].1)), order[1..])
  }

  lemma {:induction false} EnumeratesNames(order: seq<(string, nat)>, m: Names)
    requires NamesOk(m) && Enumerates(order, m)
    ensures forall i :: 0 <= i < |order| ==> order[i].0 != ""
  {
    if order != [] {
      EnumeratesNames(order[1..], m - {order[0].0});
      assert forall i :: 1 <= i < |order| ==> order[i] == order[1..][i - 1];
    }
  }

  /** After all names are replaced, what is left reads as the original text did. */
  lemma {:induction false} NormalizeKeepsReading(s: string, order: seq<(string, nat)>, m: Names)
    requires NamesOk(m) && Enumerates(order, m)
    requires forall i :: 0 <= i < |order| ==> order[i].0 != ""
    ensures Reading(Normalize(s, order), map[]) == Reading(s, m)
    decreases |order|
  {
    if order != [] {
      var z := order[0].0;
      ReplaceKeepsReading(s, m, z);
      NormalizeKeepsReading(ReplaceAll(s, z, Itoa(m[z])), order[1..], m - {z});
    }
  }

  /** With no names left, only text without capitals has a reading, namely itself. */
  lemma {:induction false} ReadingWithoutNames(s: string)
    ensures Reading(s, map[]) == if exists i :: 0 <= i < |s| && IsCapital(s[i]) then None else Some(s)
  {
    if s != "" && !IsCapital(s[0]) {
      ReadingWithoutNames(s[1..]);
      if i :| 0 <= i < |s| && IsCapital(s[i]) {
        assert IsCapital(s[1..][i - 1]);
      } else {
        assert [s[0]] + s[1..] == s;
      }
    }
  }

  // ----- accepted texts contain no capitals -----

  lemma NumberChar(s: string, n: int, c: char)
    requires Writes(s, n) && c in s
    ensures !IsCapital(c)
  {
    AtoiChars(s);
  }

  lemma SpelledChars(text: string, x: Syntax, c: char)
    requires Spells(text, x) && c in text
    ensures !IsCapital(c)
  {
    match x
    case All =>
    case One(n) => NumberChar(text, n, c);
    case Span(a, b) => SpanChars(text, a, b, c);
    case Items(ns) => ItemsChars(text, ns, c);
    case Every(s) =>
      var q :| text == "*" + ['/'] + q && Writes(q, s);
      if c in q { NumberChar(q, s, c); }
    case From(a, s) =>
      var p, q :| text == p + ['/'] + q && Writes(p, a) && Writes(q, s);
      if c in p { NumberChar(p, a, c); } else if c in q { NumberChar(q, s, c); }
    case SpanStep(a, b, s) =>
      var p, q :| text == p + ['/'] + q && SpellsSpan(p, a, b) && Writes(q, s);
      if c in p { SpanChars(p, a, b, c); } else if c in q { NumberChar(q, s, c); }
  }

  lemma ItemsChars(text: string, ns: seq<int>, c: char)
    requires Spells(text, Items(ns)) && c in text
    ensures !IsCapital(c)
  {
    var parts :| SpellsItems(text, ns, parts);
    if c != ',' {
      InJoin(parts, ',', c);
      var i :| 0 <= i < |parts| && c in parts[i];
      PartChars(parts[i], ns[i], c);
    }
  }

  lemma PartChars(part: string, n: int, c: char)
    requires Writes(TrimSpace(part), n) && c in part
    ensures !IsCapital(c)
  {
    hide TrimSpace, Atoi;
    AtoiChars(TrimSpace(part));
    if !IsSpace(c) { TrimKeeps(part, c); }
  }

  lemma SpanChars(text: string, a: int, b: int, c: char)
    requires SpellsSpan(text, a, b) && c in text
    ensures !IsCapital(c)
  {
    var p, q :| text == p + ['-'] + q && Writes(p, a) && Writes(q, b);
    if c in p { NumberChar(p, a, c); } else if c in q { NumberChar(q, b, c); }
  }

  lemma CapitalsRejected(text: string, low: int, high: int)
    requires Bounds(low, high) && Reading(text, map[]).None?
    ensures FormText(text, low, high).None?
  {
    ReadingWithoutNames(text);
    var i :| 0 <= i < |text| && IsCapital(text[i]);
    if FormText(text, low, high).Some? {
      var x := Accepted(text, low, high);
      SpelledChars(text, x, text[i]);
    }
  }

  // ----- fields with names -----

  /** The values of a field that allows names: order-free. */
  function NamedText(text: string, low: int, high: int, m: Names): Option<seq<int>>
    requires Bounds(low, high)
  {
    if text == "?" || text == "*" then Some(Ints(low, high))
    else match Reading(text, m)
      case None => None
      case Some(u) => FormText(u, low, high)
  }

  /** Whatever the order of replacement, verdict and values are those of the order-free reading. */
  lemma OrderIrrelevant(text: string, low: int, high: int, m: Names, order: seq<(string, nat)>)
    requires Bounds(low, high) && NamesOk(m) && Enumerates(order, m)
    requires forall i :: 0 <= i < |order| ==> order[i].0 != ""
    requires text != "?" && text != "*"
    ensures FormText(Normalize(text, order), low, high) == NamedText(text, low, high, m)
  {
    NormalizeKeepsReading(text, order, m);
    var u := Normalize(text, order);
    ReadingWithoutNames(u);
    if Reading(text, m).None? { CapitalsRejected(u, low, high); }
  }

  /** The loop over the map, in an order of the runtime's choosing. */
  method NormalizeFieldNames(text: string, m: Names) returns (result: string)
    requires NamesOk(m)
    ensures Reading(result, map[]) == Reading(text, m)
  {
    result := text;
    var rest := m;
    while rest != map[]
      invariant NamesOk(rest) && Reading(result, rest) == Reading(text, m)
      decreases |rest|
    {
      var name :| name in rest;
      ReplaceKeepsReading(result, rest, name);
      result := ReplaceAll(result, name, Itoa(rest[name]));
      rest := rest - {name};
    }
  }

  lemma ReadingOfNothing(s: string, m: Names)
    requires Reading(s, m) == Some("")
    ensures s == ""
  {
  }

  lemma FirstRead(s: string, m: Names)
    requires s != "" && Reading(s, m).Some?
    ensures Reading(s, m).value != "" && (IsCapital(s[0]) ==> IsDigit(Reading(s, m).value[0]))
  {
  }

  /** No other text reads as a star. */
  lemma ReadingOfStar(s: string, m: Names)
    requires Reading(s, m) == Some("*")
    ensures s == "*"
  {
    FirstRead(s, m);
    var rest := Reading(s[1..], m).value;
    assert ([s[0]] + rest)[0] == s[0] && |rest| == 0;
    ReadingOfNothing(s[1..], m);
  }

  /** The result on a text that may hold names: that of its reading, or failure if it has none. */
  ghost predicate NamedMeans(text: string, low: int, high: int, m: Names, r: Option<Field>) {
    if text == "?" || text == "*" then
      r.Some? && r.value.min == low && r.value.max == high && forall v :: v in r.value.values <==> low <= v <= high
    else match Reading(text, m)
      case None => r.None?
      case Some(u) => Means(u, low, high, r)
  }

  method ParseCronFieldWithNames(text: string, low: int, high: int, m: Names) returns (r: Option<Field>)
    requires Bounds(low, high) && NamesOk(m)
    ensures r == ToField(low, high, NamedText(text, low, high, m))
    ensures NamedMeans(text, low, high, m, r)
  {
    hide Means, FormText, Reading;
    var field := text;
    if field == "?" {
      field := "*";
    }
    if field == "*" {
      var values := CollectInts(low, high);
      return Some(Field(low, high, values));
    }
    var normalized := NormalizeFieldNames(field, m);
    ReadingWithoutNames(normalized);
    if Reading(normalized, map[]).None? {
      CapitalsRejected(normalized, low, high);
    } else if normalized == "*" {
      ReadingOfStar(text, m);
    }
    r := ParseForm(normalized, low, high);
  }

  /** A text shorter than the name, or of its length and different, is left as it is. */
  lemma {:induction false} TooShort(s: string, z: string, d: string)
    requires z != "" && (|s| < |z| || (|s| == |z| && s != z))
    ensures ReplaceAll(s, z, d) == s
  {
    if s != "" { TooShort(s[1..], z, d); }
  }

  lemma ReplaceInOrder()
    ensures ReplaceAll("JANOV", "JAN", "1") == "1OV" && ReplaceAll("1OV", "NOV", "11") == "1OV"
  {
    TooShort("OV", "JAN", "1");
    TooShort("1OV", "NOV", "11");
    assert "JANOV"[3..] == "OV" && "JANOV"[..3] == "JAN";
  }

  lemma ReplaceInOtherOrder()
    ensures ReplaceAll("JANOV", "NOV", "11") == "JA11" && ReplaceAll("JA11", "JAN", "1") == "JA11"
  {
    TooShort("A11", "JAN", "1");
    assert "JA11"[1..] == "A11" && "JA11"[2] == '1' && "JAN"[2] == 'N';
    TooShort("", "NOV", "11");
    assert "JANOV"[1..] == "ANOV" && "ANOV"[1..] == "NOV" && "NOV"[3..] == "";
    assert ReplaceAll("NOV", "NOV", "11") == "11";
    assert ReplaceAll("ANOV", "NOV", "11") == "A11";
  }

  /** The rewritten texts really do depend on the order. */
  lemma OverlappingNames()
    ensures ReplaceAll(ReplaceAll("JANOV", "JAN", "1"), "NOV", "11") == "1OV"
    ensures ReplaceAll(ReplaceAll("JANOV", "NOV", "11"), "JAN", "1") == "JA11"
    ensures Reading("JANOV", MONTHS) == None
  {
    ReplaceInOrder();
    ReplaceInOtherOrder();
    assert "JANOV"[3..] == "OV";
    hide ReplaceAll;
  }
}
