/** What every operation of the cache keeps: one entry per key, exact statistics, and the size limit. */
module CacheInvariant {
  import opened Wrappers
  import opened CacheModel

  // ----- what the list operations do -----

  predicate Distinct(s: seq<Entry>) {
    forall i, j :: 0 <= i < j < |s| ==> s[i].key != s[j].key
  }

  lemma {:induction false} DropMembers(s: seq<Entry>, k: string)
    requires Distinct(s)
    ensures Distinct(Drop(s, k)) && forall e :: e in Drop(s, k) <==> e in s && e.key != k
  {
    if s != [] {
      assert forall e :: e in s <==> e == s[0] || e in s[1..];
      if s[0].key == k {
        assert forall i :: 0 <= i < |s[1..]| ==> s[1..][i].key != k;
      } else {
        DropMembers(s[1..], k);
        var d := Drop(s[1..], k);
        forall i | 0 <= i < |d| ensures d[i].key != s[0].key { assert d[i] in s[1..]; }
      }
    }
  }

  lemma {:induction false} DropSizes(s: seq<Entry>, k: string)
    ensures |Drop(s, k)| == |s| - (if Has(s, k) then 1 else 0)
    ensures Bytes(Drop(s, k)) == Bytes(s) - (if Has(s, k) then |Lookup(s, k).value| else 0)
  {
    if s != [] {
      if s[0].key == k {
        assert Has(s, k);
      } else {
        DropSizes(s[1..], k);
        TailHas(s, k);
      }
    }
  }

  lemma DropIs(s: seq<Entry>, k: string)
    requires Distinct(s)
    ensures Distinct(Drop(s, k)) && !Has(Drop(s, k), k)
    ensures forall e :: e in Drop(s, k) <==> e in s && e.key != k
    ensures |Drop(s, k)| == |s| - (if Has(s, k) then 1 else 0)
    ensures Bytes(Drop(s, k)) == Bytes(s) - (if Has(s, k) then |Lookup(s, k).value| else 0)
  {
    DropMembers(s, k);
    DropSizes(s, k);
    hide Drop, Lookup, Bytes, Distinct;
  }

  lemma TailHas(s: seq<Entry>, k: string)
    requires s != [] && s[0].key != k
    ensures Has(s, k) <==> Has(s[1..], k)
  {
    if i :| 0 <= i < |s| && s[i].key == k { assert s[1..][i - 1].key == k; }
    if i :| 0 <= i < |s[1..]| && s[1..][i].key == k { assert s[i + 1].key == k; }
  }

  lemma {:induction false} ReplaceIs(s: seq<Entry>, e: Entry)
    requires Has(s, e.key)
    ensures |Replace(s, e)| == |s| && forall i :: 0 <= i < |s| ==> Replace(s, e)[i].key == s[i].key
    ensures Bytes(Replace(s, e)) == Bytes(s) - |Lookup(s, e.key).value| + |e.value|
    ensures Has(Replace(s, e), e.key) && Lookup(Replace(s, e), e.key) == e
  {
    if s[0].key != e.key {
      TailHas(s, e.key);
      ReplaceIs(s[1..], e);
      TailHas(Replace(s, e), e.key);
    } else {
      assert Replace(s, e)[0].key == e.key;
    }
  }

  lemma {:induction false} DropExpiredIs(s: seq<Entry>, now: int)
    requires Distinct(s)
    ensures Distinct(DropExpired(s, now)) && |DropExpired(s, now)| <= |s|
    ensures forall e :: e in DropExpired(s, now) <==> e in s && !IsExpired(e, now)
  {
    if s != [] {
      DropExpiredIs(s[1..], now);
      assert forall e :: e in s <==> e == s[0] || e in s[1..];
      var d := DropExpired(s[1..], now);
      forall i | 0 <= i < |d| ensures d[i].key != s[0].key { assert d[i] in s[1..]; }
    }
  }

  lemma {:induction false} BytesWithoutLast(s: seq<Entry>)
    requires s != []
    ensures Bytes(s[..|s| - 1]) == Bytes(s) - |s[|s| - 1].value|
  {
    if |s| > 1 {
      BytesWithoutLast(s[1..]);
      assert s[1..][..|s| - 2] == s[..|s| - 1][1..];
    }
  }

  /** Memory adds up over the entries, each counting its own bytes. */
  lemma {:induction false} BytesOfConcat(e: Entry, a: seq<Entry>, b: seq<Entry>)
    ensures Bytes([e]) == |e.value| && Bytes([]) == 0
    ensures Bytes(a + b) == Bytes(a) + Bytes(b)
  {
    assert [e][1..] == [];
    if a == [] {
      assert a + b == b;
    } else {
      BytesOfConcat(e, a[1..], b);
      assert (a + b)[1..] == a[1..] + b;
    }
  }

  lemma PrependDistinct(e: Entry, s: seq<Entry>)
    requires Distinct(s) && !Has(s, e.key)
    ensures Distinct([e] + s) && Bytes([e] + s) == |e.value| + Bytes(s)
  {
    assert ([e] + s)[1..] == s;
  }

  // ----- the invariant -----

  /** Size and Memory are the number of entries and the bytes they hold; with statistics off they stay zero. */
  predicate StatsExact(c: Config, s: Cache) {
    if c.enableStats then s.stats.size == |s.entries| && s.stats.memory == Bytes(s.entries)
    else s.stats.size == 0 && s.stats.memory == 0
  }

  /** With eviction and statistics on, the configured limit holds. */
  predicate WithinLimit(c: Config, s: Cache) {
    c.maxSize > 0 && c.enableLRU && c.enableStats ==> |s.entries| <= c.maxSize
  }

  predicate Good(c: Config, s: Cache) {
    Distinct(s.entries) && StatsExact(c, s) && WithinLimit(c, s)
  }

  lemma RemovedIsGood(c: Config, s: Cache, k: string)
    requires Good(c, s) && Has(s.entries, k)
    ensures Good(c, Removed(c, s, k))
  {
    DropIs(s.entries, k);
  }

  lemma GetIsGood(c: Config, s: Cache, k: string, now: int)
    requires Good(c, s)
    ensures Good(c, Get(c, s, k, now).0)
  {
    if Has(s.entries, k) {
      var e := Lookup(s.entries, k);
      RemovedIsGood(c, s, k);
      DropIs(s.entries, k);
      PrependDistinct(e, Drop(s.entries, k));
    }
  }

  lemma InsertedIs(c: Config, s: Cache, e: Entry)
    requires Good(c, s) && !Has(s.entries, e.key)
    ensures var i := Inserted(c, s, e);
            && Distinct(i.entries) && StatsExact(c, i)
            && (MustEvict(c, i) && c.enableLRU && c.enableStats ==> |i.entries| == c.maxSize + 1)
            && (!MustEvict(c, i) ==> WithinLimit(c, i))
  {
    PrependDistinct(e, s.entries);
  }

  lemma EvictedIs(c: Config, s: Cache)
    requires Distinct(s.entries) && StatsExact(c, s)
    ensures Distinct(Evicted(c, s).entries) && StatsExact(c, Evicted(c, s))
  {
    if s.entries != [] { BytesWithoutLast(s.entries); }
  }

  /** Set keeps the invariant, and the key just set survives with its value. */
  lemma SetIsGood(c: Config, s: Cache, k: string, value: string, ttl: int, now: int)
    requires Good(c, s)
    ensures var t := Set(c, s, k, value, ttl, now);
            && Good(c, t) && Has(t.entries, k)
            && Lookup(t.entries, k) == Entry(k, value, Expiry(EffectiveTTL(c, ttl), now))
  {
    var e := Entry(k, value, Expiry(EffectiveTTL(c, ttl), now));
    var t := Set(c, s, k, value, ttl, now);
    if Has(s.entries, k) {
      DropIs(s.entries, k);
      PrependDistinct(e, Drop(s.entries, k));
      ReplaceIs(s.entries, e);
      assert c.enableLRU ==> t.entries[0] == e;
    } else {
      InsertedIs(c, s, e);
      EvictedIs(c, Inserted(c, s, e));
      assert t.entries[0] == e;
    }
  }

  lemma OtherIsGood(c: Config, s: Cache, op: Op)
    requires Good(c, s) && !op.GetOp? && !op.SetOp?
    ensures Good(c, Do(c, s, op))
  {
    match op
    case DeleteOp(k) => if Has(s.entries, k) { RemovedIsGood(c, s, k); }
    case ExistsOp(k, _) => if Has(s.entries, k) { RemovedIsGood(c, s, k); }
    case ClearOp =>
    case SetTTLOp(k, ttl, now) =>
      if Has(s.entries, k) { ReplaceIs(s.entries, Lookup(s.entries, k).(expiresAt := Expiry(ttl, now))); }
    case CleanupOp(now) => DropExpiredIs(s.entries, now);
  }

  /** Every operation keeps the invariant. */
  lemma DoIsGood(c: Config, s: Cache, op: Op)
    requires Good(c, s)
    ensures Good(c, Do(c, s, op))
  {
    match op
    case GetOp(k, now) => GetIsGood(c, s, k, now);
    case SetOp(k, v, ttl, now) => SetIsGood(c, s, k, v, ttl, now);
    case _ => OtherIsGood(c, s, op);
  }

  /** After any sequence of operations: one entry per key, exact statistics, within the limit. */
  lemma {:induction false} RunIsGood(c: Config, ops: seq<Op>)
    ensures Good(c, Run(c, ops))
  {
    if ops != [] {
      RunIsGood(c, ops[..|ops| - 1]);
      DoIsGood(c, Run(c, ops[..|ops| - 1]), ops[|ops| - 1]);
    }
  }

  // ----- which entries an operation leaves -----

  lemma GetMembers(c: Config, s: Cache, k: string, now: int)
    requires Good(c, s)
    ensures forall e :: e in Get(c, s, k, now).0.entries ==> e in s.entries
    ensures Get(c, s, k, now).1.Some? ==>
              exists e :: e in s.entries && e.key == k && e.value == Get(c, s, k, now).1.value && !IsExpired(e, now)
  {
    DropIs(s.entries, k);
    if Get(c, s, k, now).1.Some? { assert Lookup(s.entries, k) in s.entries; }
  }

  /** Entries after a Set: the new one, and old ones of other keys. */
  lemma SetMembers(c: Config, s: Cache, k: string, value: string, ttl: int, now: int, e: Entry)
    requires Good(c, s) && e in Set(c, s, k, value, ttl, now).entries
    ensures e == Entry(k, value, Expiry(EffectiveTTL(c, ttl), now)) || (e in s.entries && e.key != k)
  {
    var n := Entry(k, value, Expiry(EffectiveTTL(c, ttl), now));
    if Has(s.entries, k) {
      DropIs(s.entries, k);
      ReplaceMembers(s.entries, n, e);
    } else {
      var i := Inserted(c, s, n);
      assert e in i.entries;
    }
  }

  lemma {:induction false} ReplaceMembers(s: seq<Entry>, n: Entry, e: Entry)
    requires Distinct(s)
    ensures e in Replace(s, n) ==> e == n || (e in s && e.key != n.key)
  {
    if s != [] { ReplaceMembers(s[1..], n, e); }
  }

  lemma DeleteMembers(c: Config, s: Cache, k: string)
    requires Good(c, s)
    ensures forall e :: e in Delete(c, s, k).entries ==> e in s.entries && e.key != k
  {
    DropIs(s.entries, k);
  }
}
