/**
 One field of a cron expression: the parsers of `queue/cron.go`, and the grammar they accept.

 `Spells`, `InBounds` and `Denotes` describe the accepted texts and their meaning without
 mentioning the parsers; `Accepts` and `Accepted` connect the two in both directions.
 */
module CronField {
  import opened Wrappers
  import opened Text
  import opened CronSteps
  import opened CronExpression

  predicate Bounds(low: int, high: int) {
    0 <= low <= high <= TOP
  }

  // ----- the values of a field, as functions -----

  /** A number within the field's bounds. */
  function Bounded(s: string, low: int, high: int): (r: Option<int>)
    ensures r.Some? ==> low <= r.value <= high
  {
    match Atoi(s)
    case None => None
    case Some(v) => if low <= v <= high then Some(v) else None
  }

  /** `a`, `a + 1`, ..., `b`. */
  function Ints(a: int, b: int): (s: seq<int>)
    requires a <= b + 1
    ensures forall v :: v in s <==> a <= v <= b
    ensures |s| == b + 1 - a
    decreases b - a + 1
  {
    if a > b then [] else Ints(a, b - 1) + [b]
  }

  /** The two bounded numbers of a range. */
  function RangeEnds(text: string, low: int, high: int): (r: Option<(int, int)>)
    ensures r.Some? ==> low <= r.value.0 <= r.value.1 <= high
  {
    var parts := Split(text, '-');
    if |parts| != 2 then None
    else match (Bounded(parts[0], low, high), Bounded(parts[1], low, high))
      case (Some(a), Some(b)) => if b < a then None else Some((a, b))
      case _ => None
  }

  function StepText(text: string, low: int, high: int): Option<seq<int>>
    requires Bounds(low, high)
  {
    var parts := Split(text, '/');
    if |parts| != 2 then None
    else match Atoi(parts[1])
      case None => None
      case Some(step) =>
        if step <= 0 then None
        else if parts[0] == "*" then Some(StepValues(low, high, step))
        else if '-' in parts[0] then
          (match RangeEnds(parts[0], low, high)
           case None => None
           case Some(ends) => Some(StepValues(ends.0, ends.1, step)))
        else
          match Bounded(parts[0], low, high)
          case None => None
          case Some(start) => Some(StepValues(start, high, step))
  }

  function RangeText(text: string, low: int, high: int): Option<seq<int>> {
    match RangeEnds(text, low, high)
    case None => None
    case Some(ends) => Some(Ints(ends.0, ends.1))
  }

  function ListValues(parts: seq<string>, low: int, high: int): (r: Option<seq<int>>)
    ensures r.Some? ==> |r.value| == |parts|
  {
    if parts == [] then Some([])
    else match (ListValues(parts[..|parts| - 1], low, high), Bounded(TrimSpace(parts[|parts| - 1]), low, high))
      case (Some(vs), Some(v)) => Some(vs + [v])
      case _ => None
  }

  function SingleText(text: string, low: int, high: int): Option<seq<int>> {
    match Bounded(text, low, high)
    case None => None
    case Some(v) => Some([v])
  }

  /** The choice of form by the separators present. */
  function FormText(text: string, low: int, high: int): Option<seq<int>>
    requires Bounds(low, high)
  {
    if '/' in text then StepText(text, low, high)
    else if '-' in text then RangeText(text, low, high)
    else if ',' in text then ListValues(Split(text, ','), low, high)
    else SingleText(text, low, high)
  }

  function FieldText(text: string, low: int, high: int): Option<seq<int>>
    requires Bounds(low, high)
  {
    if text == "*" then Some(Ints(low, high)) else FormText(text, low, high)
  }

  function ToField(low: int, high: int, values: Option<seq<int>>): Option<Field> {
    match values
    case None => None
    case Some(vs) => Some(Field(low, high, vs))
  }

  // ----- the parsers -----

  method CollectInts(start: int, end: int) returns (values: seq<int>)
    requires start <= end
    ensures values == Ints(start, end)
  {
    values := [];
    var i := start;
    while i <= end
      invariant start <= i <= end + 1 && values == Ints(start, i - 1)
    {
      values := values + [i];
      i := i + 1;
    }
  }

  method ParseStepField(text: string, low: int, high: int) returns (r: Option<Field>)
    requires Bounds(low, high)
    ensures r == ToField(low, high, StepText(text, low, high))
    ensures '/' in text ==> Means(text, low, high, r)
  {
    hide Means;
    FieldMeans(text, low, high);
    var parts := Split(text, '/');
    if |parts| != 2 {
      return None;
    }
    var step := Atoi(parts[1]);
    if step.None? || step.value <= 0 {
      return None;
    }
    if parts[0] == "*" {
      var values := CollectSteps(low, high, step.value);
      return Some(Field(low, high, values));
    }
    if '-' in parts[0] {
      var rangeParts := Split(parts[0], '-');
      if |rangeParts| != 2 {
        return None;
      }
      var start := Atoi(rangeParts[0]);
      if start.None? || start.value < low || start.value > high {
        return None;
      }
      var end := Atoi(rangeParts[1]);
      if end.None? || end.value < low || end.value > high || end.value < start.value {
        return None;
      }
      var values := CollectSteps(start.value, end.value, step.value);
      return Some(Field(low, high, values));
    }
    var start := Atoi(parts[0]);
    if start.None? || start.value < low || start.value > high {
      return None;
    }
    var values := CollectSteps(start.value, high, step.value);
    return Some(Field(low, high, values));
  }

  method ParseRangeField(text: string, low: int, high: int) returns (r: Option<Field>)
    requires Bounds(low, high)
    ensures r == ToField(low, high, RangeText(text, low, high))
    ensures '/' !in text && '-' in text ==> Means(text, low, high, r)
  {
    hide Means;
    FieldMeans(text, low, high);
    var parts := Split(text, '-');
    if |parts| != 2 {
      return None;
    }
    var start := Atoi(parts[0]);
    if start.None? || start.value < low || start.value > high {
      return None;
    }
    var end := Atoi(parts[1]);
    if end.None? || end.value < low || end.value > high || end.value < start.value {
      return None;
    }
    var values := CollectInts(start.value, end.value);
    return Some(Field(low, high, values));
  }

  /** A list fails at its first bad part, whatever follows. */
  lemma {:induction false} ListFails(parts: seq<string>, k: nat, low: int, high: int)
    requires k <= |parts| && ListValues(parts[..k], low, high).None?
    ensures ListValues(parts, low, high).None?
    decreases |parts|
  {
    if k < |parts| {
      var shorter := parts[..|parts| - 1];
      assert shorter[..k] == parts[..k];
      ListFails(shorter, k, low, high);
    } else {
      assert parts[..k] == parts;
    }
  }

  method ParseListField(text: string, low: int, high: int) returns (r: Option<Field>)
    requires Bounds(low, high)
    ensures r == ToField(low, high, ListValues(Split(text, ','), low, high))
    ensures '/' !in text && '-' !in text && ',' in text ==> Means(text, low, high, r)
  {
    hide Means, Split, TrimSpace, Atoi, StepText, RangeText, SingleText;
    FieldMeans(text, low, high);
    var parts := Split(text, ',');
    var values := [];
    for i := 0 to |parts|
      invariant ListValues(parts[..i], low, high) == Some(values)
    {
      assert parts[..i + 1][..i] == parts[..i];
      var value := Atoi(TrimSpace(parts[i]));
      if value.None? || value.value < low || value.value > high {
        ListFails(parts, i + 1, low, high);
        return None;
      }
      values := values + [value.value];
    }
    assert parts[..|parts|] == parts;
    return Some(Field(low, high, values));
  }

  method ParseSingleField(text: string, low: int, high: int) returns (r: Option<Field>)
    requires Bounds(low, high)
    ensures r == ToField(low, high, SingleText(text, low, high))
    ensures text != "*" && '/' !in text && '-' !in text && ',' !in text ==> Means(text, low, high, r)
  {
    hide Means;
    FieldMeans(text, low, high);
    var value := Atoi(text);
    if value.None? || value.value < low || value.value > high {
      return None;
    }
    return Some(Field(low, high, [value.value]));
  }

  method ParseForm(text: string, low: int, high: int) returns (r: Option<Field>)
    requires Bounds(low, high)
    ensures r == ToField(low, high, FormText(text, low, high))
    ensures text != "*" ==> Means(text, low, high, r)
  {
    hide Means;
    if '/' in text {
      r := ParseStepField(text, low, high);
    } else if '-' in text {
      r := ParseRangeField(text, low, high);
    } else if ',' in text {
      r := ParseListField(text, low, high);
    } else {
      r := ParseSingleField(text, low, high);
    }
  }

  method ParseCronField(text: string, low: int, high: int) returns (r: Option<Field>)
    requires Bounds(low, high)
    ensures r == ToField(low, high, FieldText(text, low, high))
    ensures Means(text, low, high, r)
  {
    hide Means;
    FieldMeans(text, low, high);
    if text == "*" {
      var values := CollectInts(low, high);
      return Some(Field(low, high, values));
    }
    r := ParseForm(text, low, high);
  }

  // ----- the grammar -----

  datatype Syntax =
    | All
    | One(n: int)
    | Span(a: int, b: int)
    | Items(ns: seq<int>)
    | Every(s: int)
    | From(a: int, s: int)
    | SpanStep(a: int, b: int, s: int)

  /** `s` writes the number `n` without a minus sign, which would read as a range. */
  predicate Writes(s: string, n: int) {
    '-' !in s && Atoi(s) == Some(n)
  }

  ghost predicate Spells(text: string, x: Syntax) {
    match x
    case All => text == "*"
    case One(n) => Writes(text, n)
    case Span(a, b) => SpellsSpan(text, a, b)
    case Items(ns) => exists parts :: SpellsItems(text, ns, parts)
    case Every(s) => exists q :: text == "*" + ['/'] + q && Writes(q, s)
    case From(a, s) => exists p, q :: text == p + ['/'] + q && Writes(p, a) && Writes(q, s)
    case SpanStep(a, b, s) => exists p, q :: text == p + ['/'] + q && SpellsSpan(p, a, b) && Writes(q, s)
  }

  ghost predicate SpellsSpan(text: string, a: int, b: int) {
    exists p, q :: text == p + ['-'] + q && Writes(p, a) && Writes(q, b)
  }

  ghost predicate SpellsItems(text: string, ns: seq<int>, parts: seq<string>) {
    && |parts| == |ns| >= 2 && text == Join(parts, ',')
    && forall i :: 0 <= i < |ns| ==> '-' !in parts[i] && ',' !in parts[i] && Writes(TrimSpace(parts[i]), ns[i])
  }

  predicate InBounds(x: Syntax, low: int, high: int) {
    match x
    case All => true
    case One(n) => low <= n <= high
    case Span(a, b) => low <= a <= b <= high
    case Items(ns) => forall i :: 0 <= i < |ns| ==> low <= ns[i] <= high
    case Every(s) => s > 0
    case From(a, s) => low <= a <= high && s > 0
    case SpanStep(a, b, s) => low <= a <= b <= high && s > 0
  }

  /** The set of values a field means. */
  predicate Denotes(x: Syntax, low: int, high: int, v: int)
    requires InBounds(x, low, high)
  {
    match x
    case All => low <= v <= high
    case One(n) => v == n
    case Span(a, b) => a <= v <= b
    case Items(ns) => v in ns
    case Every(s) => OnStep(low, high, s, v)
    case From(a, s) => OnStep(a, high, s, v)
    case SpanStep(a, b, s) => OnStep(a, b, s, v)
  }

  /** The first addition of a step does not overflow. */
  predicate Fits(x: Syntax, low: int) {
    match x
    case Every(s) => low + s <= MAX_INT
    case From(a, s) => a + s <= MAX_INT
    case SpanStep(a, _, s) => a + s <= MAX_INT
    case _ => true
  }

  /**
   A parser's result on a text: success exactly for the texts the grammar writes within bounds, and
   then, unless a step overflows, exactly the values they denote.
   */
  ghost predicate Means(text: string, low: int, high: int, r: Option<Field>) {
    && (r.Some? <==> exists x :: Spells(text, x) && InBounds(x, low, high))
    && (r.Some? ==> r.value.min == low && r.value.max == high && r.value.values != [])
    && (forall x, v :: r.Some? && Spells(text, x) && InBounds(x, low, high) && Fits(x, low) ==>
          (v in r.value.values <==> Denotes(x, low, high, v)))
  }

  lemma FieldMeans(text: string, low: int, high: int)
    requires Bounds(low, high)
    ensures Means(text, low, high, ToField(low, high, FieldText(text, low, high)))
  {
    hide FieldText, Spells, Denotes, Fits, InBounds;
    var f := FieldText(text, low, high);
    if f.Some? { var x := Accepted(text, low, high); Accepts(text, low, high, x); }
    forall x | Spells(text, x) && InBounds(x, low, high)
      ensures f.Some? && (Fits(x, low) ==> forall v :: v in f.value <==> Denotes(x, low, high, v))
    {
      Accepts(text, low, high, x);
    }
  }

  // ----- what numbers are made of -----

  predicate IsNumberChar(c: char) {
    IsDigit(c) || c == '+' || c == '-'
  }

  lemma AtoiChars(s: string)
    requires Atoi(s).Some?
    ensures s != "" && forall c :: c in s ==> IsNumberChar(c)
  {
    if s[0] == '+' || s[0] == '-' {
      assert s == [s[0]] + s[1..];
    }
  }

  lemma {:induction false} TrimKeeps(s: string, c: char)
    requires c in s && !IsSpace(c)
    ensures c in TrimSpace(s)
  {
    if IsSpace(s[0]) {
      assert s == [s[0]] + s[1..];
      TrimKeeps(s[1..], c);
    } else if IsSpace(s[|s| - 1]) {
      assert s == s[..|s| - 1] + [s[|s| - 1]];
      TrimKeeps(s[..|s| - 1], c);
    }
  }

  // ----- lists -----

  lemma {:induction false} ListValuesAt(parts: seq<string>, low: int, high: int, i: nat)
    requires ListValues(parts, low, high).Some? && i < |parts|
    ensures Bounded(TrimSpace(parts[i]), low, high) == Some(ListValues(parts, low, high).value[i])
  {
    if i < |parts| - 1 {
      ListValuesAt(parts[..|parts| - 1], low, high, i);
    }
  }

  lemma {:induction false} ListAccepts(parts: seq<string>, low: int, high: int)
    requires forall i :: 0 <= i < |parts| ==> Bounded(TrimSpace(parts[i]), low, high).Some?
    ensures ListValues(parts, low, high).Some?
  {
    if parts != [] {
      ListAccepts(parts[..|parts| - 1], low, high);
    }
  }

  lemma {:induction false} InJoin(parts: seq<string>, sep: char, c: char)
    requires parts != [] && c in Join(parts, sep) && c != sep
    ensures exists i :: 0 <= i < |parts| && c in parts[i]
  {
    if |parts| > 1 && c !in parts[0] {
      InJoin(parts[1..], sep, c);
      var i :| 0 <= i < |parts[1..]| && c in parts[1..][i];
      assert c in parts[i + 1];
    }
  }

  // ----- the parsers accept exactly the grammar -----

  /** Everything the grammar writes within bounds is accepted, and the values are what it denotes. */
  lemma Accepts(text: string, low: int, high: int, x: Syntax)
    requires Bounds(low, high) && Spells(text, x) && InBounds(x, low, high)
    ensures FieldText(text, low, high).Some?
    ensures FieldText(text, low, high).value != []
    ensures Fits(x, low) ==> forall v :: v in FieldText(text, low, high).value <==> Denotes(x, low, high, v)
    ensures (forall v :: v in FieldText(text, low, high).value ==> low <= v <= high) <==> Fits(x, low)
  {
    match x
    case All =>
    case One(n) => AtoiChars(text);
    case Span(a, b) => AcceptsSpan(text, low, high, a, b);
    case Items(ns) => AcceptsItems(text, low, high, ns);
    case Every(s) =>
      var q :| text == "*" + ['/'] + q && Writes(q, s);
      AcceptsStep(text, low, high, "*", q, low, high, s);
    case From(a, s) =>
      var p, q :| text == p + ['/'] + q && Writes(p, a) && Writes(q, s);
      AtoiChars(p);
      AcceptsStep(text, low, high, p, q, a, high, s);
    case SpanStep(a, b, s) =>
      var p, q :| text == p + ['/'] + q && SpellsSpan(p, a, b) && Writes(q, s);
      SpanReads(p, low, high, a, b);
      AcceptsStep(text, low, high, p, q, a, b, s);
  }

  lemma SpanReads(text: string, low: int, high: int, a: int, b: int)
    requires SpellsSpan(text, a, b) && low <= a <= b <= high
    ensures RangeEnds(text, low, high) == Some((a, b))
    ensures '-' in text && '/' !in text
  {
    hide Atoi, Split;
    var p, q :| text == p + ['-'] + q && Writes(p, a) && Writes(q, b);
    assert Split(text, '-') == [p, q] by { SplitInTwo(text, '-', p, q); }
    assert '/' !in p by { AtoiChars(p); }
    assert '/' !in q by { AtoiChars(q); }
    assert text[|p|] == '-';
  }

  lemma AcceptsSpan(text: string, low: int, high: int, a: int, b: int)
    requires Bounds(low, high) && SpellsSpan(text, a, b) && low <= a <= b <= high
    ensures FieldText(text, low, high) == Some(Ints(a, b))
  {
    SpanReads(text, low, high, a, b);
  }

  lemma StepsInBounds(low: int, high: int, start: int, end: int, s: int)
    requires Bounds(low, high) && low <= start <= end <= high && 1 <= s <= MAX_INT
    ensures StepValues(start, end, s) != []
    ensures start + s <= MAX_INT ==> forall v :: v in StepValues(start, end, s) <==> OnStep(start, end, s, v)
    ensures (forall v :: v in StepValues(start, end, s) ==> low <= v <= high) <==> start + s <= MAX_INT
  {
    StepExactIff(start, end, s);
    if start + s > MAX_INT {
      CounterStep(start, end, s);
      assert StepValues(start, end, s)[1] == AddStep(start, s) < 0;
      assert AddStep(start, s) in StepValues(start, end, s);
    }
  }

  lemma AcceptsStep(text: string, low: int, high: int, p: string, q: string, start: int, end: int, s: int)
    requires Bounds(low, high) && text == p + ['/'] + q && Writes(q, s) && s > 0 && '/' !in p
    requires low <= start <= end <= high
    requires if p == "*" then start == low && end == high
             else if '-' in p then RangeEnds(p, low, high) == Some((start, end))
             else Bounded(p, low, high) == Some(start) && end == high
    ensures FieldText(text, low, high) == Some(StepValues(start, end, s))
    ensures StepValues(start, end, s) != []
    ensures start + s <= MAX_INT ==> forall v :: v in StepValues(start, end, s) <==> OnStep(start, end, s, v)
    ensures (forall v :: v in StepValues(start, end, s) ==> low <= v <= high) <==> start + s <= MAX_INT
  {
    StepsInBounds(low, high, start, end, s);
    AtoiChars(q);
    SplitInTwo(text, '/', p, q);
    hide StepValues, Atoi, Split, Bounded, RangeEnds;
    assert text[|p|] == '/';
  }

  lemma AcceptsItems(text: string, low: int, high: int, ns: seq<int>)
    requires Bounds(low, high) && Spells(text, Items(ns)) && InBounds(Items(ns), low, high)
    ensures FieldText(text, low, high) == Some(ns)
  {
    var parts :| SpellsItems(text, ns, parts);
    SplitOfJoin(parts, ',');
    assert Split(text, ',') == parts;
    assert '/' !in text by {
      forall i | 0 <= i < |parts| ensures '/' !in parts[i] {
        NoSlash(parts[i], ns[i]);
      }
      NotInJoin(parts, '/');
    }
    assert '-' !in text by { NotInJoin(parts, '-'); }
    assert ',' in text by { JoinOfSplit(text, ','); }
    ListAccepts(parts, low, high);
    var vs := ListValues(parts, low, high).value;
    forall i | 0 <= i < |ns| ensures vs[i] == ns[i] {
      ListValuesAt(parts, low, high, i);
    }
    assert vs == ns;
  }

  lemma NoSlash(part: string, n: int)
    requires Writes(TrimSpace(part), n)
    ensures '/' !in part
  {
    hide TrimSpace, Atoi;
    AtoiChars(TrimSpace(part));
    if '/' in part { TrimKeeps(part, '/'); }
  }

  lemma NotInJoin(parts: seq<string>, c: char)
    requires parts != [] && c != ',' && Free(parts, c)
    ensures c !in Join(parts, ',')
  {
    if c in Join(parts, ',') { InJoin(parts, ',', c); }
  }

  /** Everything accepted is written by the grammar, within bounds. */
  lemma Accepted(text: string, low: int, high: int) returns (x: Syntax)
    requires Bounds(low, high) && FieldText(text, low, high).Some?
    ensures Spells(text, x) && InBounds(x, low, high)
  {
    if text == "*" {
      x := All;
    } else if '/' in text {
      x := AcceptedStep(text, low, high);
    } else if '-' in text {
      var ends := RangeEnds(text, low, high).value;
      x := Span(ends.0, ends.1);
      SpanSpelled(text, low, high);
    } else if ',' in text {
      x := AcceptedItems(text, low, high);
    } else {
      x := One(Atoi(text).value);
    }
  }

  lemma SpanSpelled(text: string, low: int, high: int)
    requires RangeEnds(text, low, high).Some?
    ensures SpellsSpan(text, RangeEnds(text, low, high).value.0, RangeEnds(text, low, high).value.1)
  {
    var parts := Split(text, '-');
    var p, q := parts[0], parts[1];
    assert parts == [p, q];
    SplitInTwo(text, '-', p, q);
    assert Writes(p, Atoi(p).value) && Writes(q, Atoi(q).value);
  }

  lemma PositiveWrites(q: string)
    requires Atoi(q).Some? && Atoi(q).value > 0
    ensures Writes(q, Atoi(q).value)
  {
  }

  lemma AcceptedStep(text: string, low: int, high: int) returns (x: Syntax)
    requires Bounds(low, high) && StepText(text, low, high).Some?
    ensures Spells(text, x) && InBounds(x, low, high)
  {
    hide Split, Atoi, StepValues, RangeEnds;
    var parts := Split(text, '/');
    var p, q := parts[0], parts[1];
    assert parts == [p, q];
    SplitInTwo(text, '/', p, q);
    var s := Atoi(q).value;
    PositiveWrites(q);
    if p == "*" {
      x := Every(s);
    } else if '-' in p {
      var ends := RangeEnds(p, low, high).value;
      SpanSpelled(p, low, high);
      x := SpanStep(ends.0, ends.1, s);
    } else {
      x := From(Atoi(p).value, s);
    }
  }

  lemma AcceptedItems(text: string, low: int, high: int) returns (x: Syntax)
    requires ',' in text && '-' !in text && ListValues(Split(text, ','), low, high).Some?
    ensures x.Items? && Spells(text, x) && InBounds(x, low, high)
  {
    var parts := Split(text, ',');
    var ns := ListValues(parts, low, high).value;
    JoinOfSplit(text, ',');
    forall i | 0 <= i < |parts|
      ensures '-' !in parts[i] && Writes(TrimSpace(parts[i]), ns[i]) && low <= ns[i] <= high
    {
      ListValuesAt(parts, low, high, i);
      PartWithout(parts, i, '-');
      TrimSubset(parts[i], '-');
    }
    assert SpellsItems(text, ns, parts);
    x := Items(ns);
  }

  lemma {:induction false} PartWithout(parts: seq<string>, i: nat, c: char)
    requires i < |parts| && c !in Join(parts, ',')
    ensures c !in parts[i]
  {
    if |parts| > 1 && i > 0 {
      PartWithout(parts[1..], i - 1, c);
    }
  }

  lemma {:induction false} TrimSubset(s: string, c: char)
    requires c !in s
    ensures c !in TrimSpace(s)
  {
    if s != "" {
      if IsSpace(s[0]) {
        TrimSubset(s[1..], c);
      } else if IsSpace(s[|s| - 1]) {
        TrimSubset(s[..|s| - 1], c);
      }
    }
  }

  /** However a text is read by the grammar, it means the same values. */
  lemma Unambiguous(text: string, low: int, high: int, x: Syntax, y: Syntax)
    requires Bounds(low, high) && Spells(text, x) && Spells(text, y) && InBounds(x, low, high) && InBounds(y, low, high)
    ensures forall v :: Fits(x, low) && Fits(y, low) ==> Denotes(x, low, high, v) == Denotes(y, low, high, v)
  {
    Accepts(text, low, high, x);
    Accepts(text, low, high, y);
  }
}
