/**
 Without eviction, the cache is observably a plain map of timestamped values: nothing a Get or an
 Exists returns depends on when, or whether, expired entries are cleaned up.
 */
module CacheRefinement {
  import opened Wrappers
  import opened CacheModel
  import opened CacheInvariant

  /** The specification state: the last value set for each key, with its expiry; nothing ever expires away. */
  type Table = map<string, Entry>

  /** What a Get or an Exists at `now` can see. */
  function Visible(m: Table, k: string, now: int): Option<Entry> {
    if k in m && !IsExpired(m[k], now) then Some(m[k]) else None
  }

  function TableDo(c: Config, m: Table, op: Op): Table {
    match op
    case SetOp(k, v, ttl, now) => m[k := Entry(k, v, Expiry(EffectiveTTL(c, ttl), now))]
    case DeleteOp(k) => m - {k}
    case ClearOp => map[]
    case SetTTLOp(k, ttl, now) => if k in m then m[k := m[k].(expiresAt := Expiry(ttl, now))] else m
    case _ => m
  }

  /** What the caller sees of an operation. */
  datatype Answer = Silent | Value(value: Option<string>) | Present(present: bool)

  function TableAnswer(m: Table, op: Op): Answer {
    match op
    case GetOp(k, now) => Value(if Visible(m, k, now).Some? then Some(Visible(m, k, now).value.value) else None)
    case ExistsOp(k, now) => Present(Visible(m, k, now).Some?)
    case SetTTLOp(k, _, _) => Present(k in m)
    case _ => Silent
  }

  function CacheAnswer(c: Config, s: Cache, op: Op): Answer {
    match op
    case GetOp(k, now) => Value(Get(c, s, k, now).1)
    case ExistsOp(k, now) => Present(Exists(c, s, k, now).1)
    case SetTTLOp(k, ttl, now) => Present(SetTTL(s, k, ttl, now).1)
    case _ => Silent
  }

  predicate NeverEvicts(c: Config) {
    c.maxSize <= 0 || !c.enableLRU || !c.enableStats
  }

  function LiveEntry(s: seq<Entry>, k: string, now: int): Option<Entry> {
    if Has(s, k) && !IsExpired(Lookup(s, k), now) then Some(Lookup(s, k)) else None
  }

  /** From `now` on, the cache and the table look the same. */
  ghost predicate Agrees(s: Cache, m: Table, now: int) {
    && (forall k :: LiveEntry(s.entries, k, now) == Visible(m, k, now))
    && (forall k :: Has(s.entries, k) ==> k in m)
  }

  // ----- lookups after each list operation -----

  lemma LookupIs(s: seq<Entry>, e: Entry)
    requires Distinct(s) && e in s
    ensures Has(s, e.key) && Lookup(s, e.key) == e
  {
    var i :| 0 <= i < |s| && s[i] == e;
  }

  lemma LookupAfterDrop(s: seq<Entry>, k: string, j: string, now: int)
    requires Distinct(s)
    ensures LiveEntry(Drop(s, k), j, now) == if j == k then None else LiveEntry(s, j, now)
  {
    DropIs(s, k);
    if j != k {
      if Has(s, j) { LookupIs(Drop(s, k), Lookup(s, j)); }
      if Has(Drop(s, k), j) { LookupIs(s, Lookup(Drop(s, k), j)); }
    }
  }

  lemma LookupAfterPrepend(e: Entry, s: seq<Entry>, j: string, now: int)
    ensures LiveEntry([e] + s, j, now)
        == if j == e.key then (if IsExpired(e, now) then None else Some(e)) else LiveEntry(s, j, now)
  {
    assert ([e] + s)[1..] == s;
    if j != e.key { TailHas([e] + s, j); } else { assert ([e] + s)[0].key == j; }
  }

  lemma {:induction false} LookupAfterReplace(s: seq<Entry>, e: Entry, j: string, now: int)
    requires Has(s, e.key)
    ensures LiveEntry(Replace(s, e), j, now)
        == if j == e.key then (if IsExpired(e, now) then None else Some(e)) else LiveEntry(s, j, now)
  {
    var r := Replace(s, e);
    if s[0].key == e.key {
      LookupAfterPrepend(e, s[1..], j, now);
      if j != e.key { TailHas(s, j); }
    } else {
      TailHas(s, e.key);
      LookupAfterReplace(s[1..], e, j, now);
      LookupAfterPrepend(s[0], Replace(s[1..], e), j, now);
      if j != s[0].key { TailHas(s, j); }
    }
  }

  lemma LookupAfterCleanup(s: seq<Entry>, j: string, at: int, now: int)
    requires Distinct(s) && at <= now
    ensures LiveEntry(DropExpired(s, at), j, now) == LiveEntry(s, j, now)
  {
    DropExpiredIs(s, at);
    var d := DropExpired(s, at);
    if Has(s, j) && !IsExpired(Lookup(s, j), now) { LookupIs(d, Lookup(s, j)); }
    if Has(d, j) { LookupIs(s, Lookup(d, j)); }
  }

  /** What is visible later is determined by what is visible now. */
  lemma AgreesLater(s: Cache, m: Table, now: int, later: int)
    requires Agrees(s, m, now) && now <= later
    ensures Agrees(s, m, later)
  {
    forall k ensures LiveEntry(s.entries, k, later) == Visible(m, k, later) {
      assert LiveEntry(s.entries, k, now) == Visible(m, k, now);
    }
  }

  // ----- one operation -----

  /** The clock after an operation; operations without a reading leave it. */
  function TimeOf(op: Op, now: int): int {
    match op
    case GetOp(_, at) => at
    case SetOp(_, _, _, at) => at
    case ExistsOp(_, at) => at
    case SetTTLOp(_, _, at) => at
    case CleanupOp(at) => at
    case _ => now
  }

  /** SetTTL on a key that has expired but is still stored, which brings it back. */
  predicate Revives(m: Table, op: Op) {
    op.SetTTLOp? && op.key in m && IsExpired(m[op.key], op.now)
  }

  lemma StoredAfterDrop(s: seq<Entry>, k: string, j: string)
    requires Distinct(s) && Has(Drop(s, k), j)
    ensures Has(s, j) && j != k
  {
    DropIs(s, k);
    LookupIs(s, Lookup(Drop(s, k), j));
  }

  lemma DropAgrees(s: Cache, m: Table, k: string, t: Cache, now: int)
    requires Agrees(s, m, now) && Distinct(s.entries) && t.entries == Drop(s.entries, k)
    ensures Agrees(t, m - {k}, now)
    ensures Visible(m, k, now).None? ==> Agrees(t, m, now)
  {
    hide Drop, Has, Lookup, Distinct, LiveEntry;
    forall j ensures LiveEntry(t.entries, j, now) == if j == k then None else LiveEntry(s.entries, j, now) {
      LookupAfterDrop(s.entries, k, j, now);
    }
    forall j | Has(t.entries, j) ensures j in m && j != k {
      StoredAfterDrop(s.entries, k, j);
    }
  }

  /** A Get changes neither what is visible nor which keys are stored, except to remove an expired one. */
  lemma GetLive(c: Config, s: Cache, k: string, now: int, j: string)
    requires Good(c, s)
    ensures LiveEntry(Get(c, s, k, now).0.entries, j, now) == LiveEntry(s.entries, j, now)
    ensures Has(Get(c, s, k, now).0.entries, j) ==> Has(s.entries, j)
  {
    if Has(s.entries, k) {
      var t := Get(c, s, k, now).0;
      var e := Lookup(s.entries, k);
      DropIs(s.entries, k);
      LookupAfterDrop(s.entries, k, j, now);
      LookupAfterPrepend(e, Drop(s.entries, k), j, now);
      if Has(t.entries, j) {
        assert Lookup(t.entries, j) == e || Lookup(t.entries, j) in s.entries;
        LookupIs(s.entries, Lookup(t.entries, j));
      }
    }
  }

  lemma GetAgrees(c: Config, s: Cache, m: Table, k: string, now: int)
    requires Agrees(s, m, now) && Good(c, s)
    ensures Agrees(Get(c, s, k, now).0, m, now)
  {
    forall j ensures LiveEntry(Get(c, s, k, now).0.entries, j, now) == Visible(m, j, now) {
      GetLive(c, s, k, now, j);
    }
    forall j | Has(Get(c, s, k, now).0.entries, j) ensures j in m { GetLive(c, s, k, now, j); }
  }

  /** With no eviction, a Set stores its entry and leaves every other key alone. */
  lemma SetEntries(c: Config, s: Cache, k: string, v: string, ttl: int, now: int, j: string, at: int)
    requires Good(c, s) && NeverEvicts(c)
    ensures var e := Entry(k, v, Expiry(EffectiveTTL(c, ttl), now));
            LiveEntry(Set(c, s, k, v, ttl, now).entries, j, at)
              == if j == k then (if IsExpired(e, at) then None else Some(e)) else LiveEntry(s.entries, j, at)
    ensures j != k && Has(Set(c, s, k, v, ttl, now).entries, j) ==> Has(s.entries, j)
  {
    var e := Entry(k, v, Expiry(EffectiveTTL(c, ttl), now));
    var t := Set(c, s, k, v, ttl, now);
    if !Has(s.entries, k) {
      InsertedIs(c, s, e);
      assert t.entries == [e] + s.entries;
      LookupAfterPrepend(e, s.entries, j, at);
      if j != k { TailHas(t.entries, j); }
    } else if c.enableLRU {
      DropIs(s.entries, k);
      LookupAfterPrepend(e, Drop(s.entries, k), j, at);
      LookupAfterDrop(s.entries, k, j, at);
      if j != k && Has(t.entries, j) {
        TailHas(t.entries, j);
        LookupIs(s.entries, Lookup(Drop(s.entries, k), j));
      }
    } else {
      LookupAfterReplace(s.entries, e, j, at);
      ReplaceIs(s.entries, e);
    }
  }

  lemma SetAgrees(c: Config, s: Cache, m: Table, op: Op)
    requires op.SetOp? && Agrees(s, m, op.now) && Good(c, s) && NeverEvicts(c)
    ensures Agrees(Do(c, s, op), TableDo(c, m, op), op.now)
  {
    forall j ensures LiveEntry(Do(c, s, op).entries, j, op.now) == Visible(TableDo(c, m, op), j, op.now) {
      SetEntries(c, s, op.key, op.value, op.ttl, op.now, j, op.now);
    }
    forall j | Has(Do(c, s, op).entries, j) ensures j in TableDo(c, m, op) {
      SetEntries(c, s, op.key, op.value, op.ttl, op.now, j, op.now);
    }
  }

  lemma SetTTLAgrees(c: Config, s: Cache, m: Table, op: Op)
    requires op.SetTTLOp? && Agrees(s, m, op.now) && Good(c, s) && !Revives(m, op)
    ensures Agrees(Do(c, s, op), TableDo(c, m, op), op.now)
    ensures Has(s.entries, op.key) <==> op.key in m
  {
    var k := op.key;
    assert LiveEntry(s.entries, k, op.now) == Visible(m, k, op.now);
    if k in m {
      var e := Lookup(s.entries, k).(expiresAt := Expiry(op.ttl, op.now));
      var t := Do(c, s, op);
      ReplaceIs(s.entries, e);
      forall j ensures LiveEntry(t.entries, j, op.now) == Visible(TableDo(c, m, op), j, op.now) {
        LookupAfterReplace(s.entries, e, j, op.now);
      }
    }
  }

  /** Each operation answers as the table does, and leaves the two in agreement. */
  lemma DoAgrees(c: Config, s: Cache, m: Table, op: Op, now: int)
    requires Agrees(s, m, now) && Good(c, s) && NeverEvicts(c) && now <= TimeOf(op, now) && !Revives(m, op)
    ensures Agrees(Do(c, s, op), TableDo(c, m, op), TimeOf(op, now))
    ensures CacheAnswer(c, s, op) == TableAnswer(m, op)
  {
    var at := TimeOf(op, now);
    AgreesLater(s, m, now, at);
    match op
    case GetOp(k, _) =>
      GetAgrees(c, s, m, k, at);
      assert LiveEntry(s.entries, k, at) == Visible(m, k, at);
    case SetOp(_, _, _, _) => SetAgrees(c, s, m, op);
    case DeleteOp(k) => DeleteAgrees(c, s, m, k, at);
    case ExistsOp(k, _) =>
      assert LiveEntry(s.entries, k, at) == Visible(m, k, at);
      if Has(s.entries, k) && IsExpired(Lookup(s.entries, k), at) { DropAgrees(s, m, k, Do(c, s, op), at); }
    case ClearOp =>
    case SetTTLOp(_, _, _) => SetTTLAgrees(c, s, m, op);
    case CleanupOp(_) => CleanupAgrees(c, s, m, at);
  }

  lemma DeleteAgrees(c: Config, s: Cache, m: Table, k: string, now: int)
    requires Agrees(s, m, now) && Good(c, s)
    ensures Agrees(Delete(c, s, k), m - {k}, now)
  {
    if Has(s.entries, k) {
      DropAgrees(s, m, k, Delete(c, s, k), now);
    } else {
      assert LiveEntry(s.entries, k, now) == None;
    }
  }

  lemma CleanupAgrees(c: Config, s: Cache, m: Table, now: int)
    requires Agrees(s, m, now) && Good(c, s)
    ensures Agrees(Cleanup(c, s, now), m, now)
  {
    var d := DropExpired(s.entries, now);
    forall j ensures LiveEntry(d, j, now) == LiveEntry(s.entries, j, now)
        { LookupAfterCleanup(s.entries, j, now, now); }
    DropExpiredIs(s.entries, now);
    forall j | Has(d, j) ensures j in m { LookupIs(s.entries, Lookup(d, j)); }
  }

  // ----- whole traces -----

  /** The answers of a trace, in order, clean-ups left out. */
  function Answers(c: Config, s: Cache, ops: seq<Op>): seq<Answer>
    decreases |ops|
  {
    if ops == [] then []
    else (if ops[0].CleanupOp? then [] else [CacheAnswer(c, s, ops[0])]) + Answers(c, Do(c, s, ops[0]), ops[1..])
  }

  function TableAnswers(c: Config, m: Table, ops: seq<Op>): seq<Answer>
    decreases |ops|
  {
    if ops == [] then []
    else (if ops[0].CleanupOp? then [] else [TableAnswer(m, ops[0])]) + TableAnswers(c, TableDo(c, m, ops[0]), ops[1..])
  }

  /** The clock never goes back, and no SetTTL revives an expired entry. */
  predicate Orderly(c: Config, m: Table, ops: seq<Op>, now: int)
    decreases |ops|
  {
    ops != [] ==>
      && now <= TimeOf(ops[0], now) && !Revives(m, ops[0])
      && Orderly(c, TableDo(c, m, ops[0]), ops[1..], TimeOf(ops[0], now))
  }

  /** The cache refines the table over every orderly trace. */
  lemma {:induction false} Refines(c: Config, s: Cache, m: Table, ops: seq<Op>, now: int)
    requires Agrees(s, m, now) && Good(c, s) && NeverEvicts(c) && Orderly(c, m, ops, now)
    ensures Answers(c, s, ops) == TableAnswers(c, m, ops)
    decreases |ops|
  {
    if ops != [] {
      DoAgrees(c, s, m, ops[0], now);
      DoIsGood(c, s, ops[0]);
      Refines(c, Do(c, s, ops[0]), TableDo(c, m, ops[0]), ops[1..], TimeOf(ops[0], now));
    }
  }

  function WithoutCleanups(ops: seq<Op>): seq<Op> {
    if ops == [] then []
    else if ops[0].CleanupOp? then WithoutCleanups(ops[1..])
    else [ops[0]] + WithoutCleanups(ops[1..])
  }

  lemma {:induction false} TableIgnoresCleanups(c: Config, m: Table, ops: seq<Op>, now: int, earlier: int)
    requires Orderly(c, m, ops, now) && earlier <= now
    ensures TableAnswers(c, m, WithoutCleanups(ops)) == TableAnswers(c, m, ops)
    ensures Orderly(c, m, WithoutCleanups(ops), earlier)
    decreases |ops|
  {
    if ops != [] {
      var at := TimeOf(ops[0], now);
      if ops[0].CleanupOp? {
        TableIgnoresCleanups(c, m, ops[1..], at, earlier);
      } else {
        var w := WithoutCleanups(ops);
        assert w[1..] == WithoutCleanups(ops[1..]);
        TableIgnoresCleanups(c, TableDo(c, m, ops[0]), ops[1..], at, TimeOf(ops[0], earlier));
      }
    }
  }

  /** Cleaning up expired entries at any points of any trace changes no answer. */
  lemma CleanupIsInvisible(c: Config, ops: seq<Op>, now: int)
    requires NeverEvicts(c) && Orderly(c, map[], ops, now)
    ensures Answers(c, EMPTY, ops) == Answers(c, EMPTY, WithoutCleanups(ops))
  {
    Refines(c, EMPTY, map[], ops, now);
    TableIgnoresCleanups(c, map[], ops, now, now);
    Refines(c, EMPTY, map[], WithoutCleanups(ops), now);
  }

  /**
   Why SetTTL must not meet an expired entry: it always succeeds on a stored one, but after a
   clean-up it succeeds exactly when the entry had not expired.
   */
  lemma RevivalIsVisible(c: Config, s: Cache, k: string, ttl: int, now: int)
    requires Good(c, s) && Has(s.entries, k)
    ensures SetTTL(s, k, ttl, now).1
    ensures SetTTL(Cleanup(c, s, now), k, ttl, now).1 <==> !IsExpired(Lookup(s.entries, k), now)
  {
    DropExpiredIs(s.entries, now);
    var e, d := Lookup(s.entries, k), DropExpired(s.entries, now);
    if !IsExpired(e, now) { LookupIs(d, e); }
    if Has(d, k) { LookupIs(s.entries, Lookup(d, k)); }
  }
}
