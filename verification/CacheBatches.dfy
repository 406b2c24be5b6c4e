/** What a cache holds after many keys are written in turn: all of them, or the last ones it has room for. */
module CacheBatches {
  import opened Wrappers
  import opened CacheModel
  import opened CacheInvariant
  import opened CacheKeys
  import CR = CacheRefinement

  function Written(c: Config, items: map<string, string>, key: string, ttl: int, now: int): Entry
    requires key in items
  {
    Entry(FormatKey(c, key), items[key], Expiry(EffectiveTTL(c, ttl), now))
  }

  lemma {:induction false} SetAllIsGood(c: Config, s: Cache, items: map<string, string>, order: seq<string>,
                                        ttl: int, now: int)
    requires Good(c, s)
    ensures Good(c, SetAll(c, s, items, order, ttl, now))
  {
    hide Good, Set;
    if order != [] {
      var front, key := order[..|order| - 1], order[|order| - 1];
      SetAllIsGood(c, s, items, front, ttl, now);
      if key in items {
        SetIsGood(c, SetAll(c, s, items, front, ttl, now), FormatKey(c, key), items[key], ttl, now);
      }
    }
  }

  // ----- without eviction -----

  lemma {:induction false} AllStay(c: Config, s: Cache, items: map<string, string>, order: seq<string>,
                                   ttl: int, now: int, key: string)
    requires Good(c, s) && CR.NeverEvicts(c) && key in items && key in order
    ensures CR.LiveEntry(SetAll(c, s, items, order, ttl, now).entries, FormatKey(c, key), now)
         == Some(Written(c, items, key, ttl, now))
  {
    hide Good, Set, CR.LiveEntry, FormatKey;
    var front, last := order[..|order| - 1], order[|order| - 1];
    var t := SetAll(c, s, items, front, ttl, now);
    SetAllIsGood(c, s, items, front, ttl, now);
    if key in front { AllStay(c, s, items, front, ttl, now, key); }
    if last in items {
      CR.SetEntries(c, t, FormatKey(c, last), items[last], ttl, now, FormatKey(c, key), now);
      if FormatKey(c, last) == FormatKey(c, key) { FormatKeyInjective(c, last, key); }
    }
  }

  // ----- with eviction -----

  predicate Evicting(c: Config) {
    c.maxSize > 0 && c.enableLRU && c.enableStats
  }

  function Least(a: int, b: int): int {
    if a < b then a else b
  }

  /** The front of the list: the entries of the last keys written, latest first. */
  ghost predicate Fronted(c: Config, s: Cache, items: map<string, string>, order: seq<string>, ttl: int, now: int) {
    && Least(|order|, c.maxSize) <= |s.entries|
    && forall j :: 0 <= j < Least(|order|, c.maxSize) ==>
         var key := order[|order| - 1 - j];
         key in items && s.entries[j] == Written(c, items, key, ttl, now)
  }

  lemma {:induction false} DropBehind(s: seq<Entry>, k: string, n: nat)
    requires n <= |s| && forall j :: 0 <= j < n ==> s[j].key != k
    ensures n <= |Drop(s, k)| && Drop(s, k)[..n] == s[..n]
  {
    if n > 0 {
      DropBehind(s[1..], k, n - 1);
      assert s[..n] == [s[0]] + s[1..][..n - 1];
      assert Drop(s, k)[..n] == [s[0]] + Drop(s[1..], k)[..n - 1];
    }
  }

  /** A Set puts its entry in front and moves the entries before its old place back by one, an evicted one excepted. */
  lemma SetInFront(c: Config, s: Cache, k: string, v: string, ttl: int, now: int, n: nat)
    requires Good(c, s) && Evicting(c) && n <= |s.entries| && forall j :: 0 <= j < n ==> s.entries[j].key != k
    ensures var t := Set(c, s, k, v, ttl, now).entries; var m := Least(n + 1, c.maxSize);
            && 0 < m <= |t| && t[0] == Entry(k, v, Expiry(EffectiveTTL(c, ttl), now))
            && forall j :: 1 <= j < m ==> t[j] == s.entries[j - 1]
  {
    var t := Set(c, s, k, v, ttl, now).entries;
    if Has(s.entries, k) {
      DropBehind(s.entries, k, n);
      var d := Drop(s.entries, k);
      hide Drop, Has;
      forall j | 1 <= j < n + 1 ensures t[j] == s.entries[j - 1] {
        assert t[j] == d[j - 1] == d[..n][j - 1] == s.entries[..n][j - 1];
      }
    }
  }

  lemma WrittenKeys(c: Config, s: Cache, items: map<string, string>, order: seq<string>, ttl: int, now: int,
                    key: string)
    requires Fronted(c, s, items, order, ttl, now) && key !in order
    ensures forall j :: 0 <= j < Least(|order|, c.maxSize) ==> s.entries[j].key != FormatKey(c, key)
  {
    hide FormatKey;
    forall j | 0 <= j < Least(|order|, c.maxSize) ensures s.entries[j].key != FormatKey(c, key) {
      var other := order[|order| - 1 - j];
      if FormatKey(c, other) == FormatKey(c, key) { FormatKeyInjective(c, other, key); }
    }
  }

  lemma {:induction false} LastInFront(c: Config, s: Cache, items: map<string, string>, order: seq<string>,
                                       ttl: int, now: int)
    requires Good(c, s) && Evicting(c)
    requires forall i :: 0 <= i < |order| ==> order[i] in items
    requires forall i, j :: 0 <= i < j < |order| ==> order[i] != order[j]
    ensures Fronted(c, SetAll(c, s, items, order, ttl, now), items, order, ttl, now)
  {
    hide Good, Set, FormatKey;
    if order != [] {
      var n := |order| - 1;
      var front, key := order[..n], order[n];
      var t := SetAll(c, s, items, front, ttl, now);
      LastInFront(c, s, items, front, ttl, now);
      SetAllIsGood(c, s, items, front, ttl, now);
      WrittenKeys(c, t, items, front, ttl, now, key);
      SetInFront(c, t, FormatKey(c, key), items[key], ttl, now, Least(n, c.maxSize));
      var u := SetAll(c, s, items, order, ttl, now);
      forall j | 0 <= j < Least(n + 1, c.maxSize)
        ensures u.entries[j] == Written(c, items, order[n - j], ttl, now)
      {
        if j > 0 { assert order[n - j] == front[n - 1 - (j - 1)]; }
      }
    }
  }

  lemma AtFront(c: Config, s: Cache, items: map<string, string>, order: seq<string>, ttl: int, now: int, p: nat)
    requires Good(c, s) && Evicting(c) && Fronted(c, s, items, order, ttl, now)
    requires p < |order| && order[p] in items && forall i, j :: 0 <= i < j < |order| ==> order[i] != order[j]
    ensures var k := FormatKey(c, order[p]);
            && (Has(s.entries, k) <==> |order| - p <= c.maxSize)
            && (Has(s.entries, k) ==> Lookup(s.entries, k) == Written(c, items, order[p], ttl, now))
  {
    hide FormatKey, Lookup;
    var n, k := |order|, FormatKey(c, order[p]);
    if n - p <= c.maxSize {
      assert s.entries[n - 1 - p] == Written(c, items, order[p], ttl, now);
      CR.LookupIs(s.entries, s.entries[n - 1 - p]);
    } else {
      assert |s.entries| == c.maxSize;
      forall j | 0 <= j < |s.entries| ensures s.entries[j].key != k {
        if FormatKey(c, order[n - 1 - j]) == k { FormatKeyInjective(c, order[n - 1 - j], order[p]); }
      }
    }
  }

  // ----- both -----

  /**
   After writing distinct keys in turn, a key can be read if and only if the cache had room for it and
   all keys written after it, and its time to live is not over.
   */
  lemma SetAllThenGet(c: Config, s: Cache, items: map<string, string>, order: seq<string>, ttl: int, now: int,
                      p: nat, at: int)
    requires Good(c, s) && Enumerates(order, items) && p < |order|
    ensures order[p] in items
    ensures var r := GetKey(c, SetAll(c, s, items, order, ttl, now), order[p], at).1;
            && (r == Some(items[order[p]]) || r == None)
            && (r.Some? <==>
                  && (c.maxSize <= 0 || !c.enableLRU || !c.enableStats || |order| - p <= c.maxSize)
                  && (|| ttl < 0
                      || (ttl > 0 && at <= now + ttl)
                      || (ttl == 0 && c.defaultTTL <= 0)
                      || (ttl == 0 && c.defaultTTL > 0 && at <= now + c.defaultTTL)))
  {
    var key, t := order[p], SetAll(c, s, items, order, ttl, now);
    assert forall i :: 0 <= i < |order| ==> order[i] in (set x | x in order);
    SetAllIsGood(c, s, items, order, ttl, now);
    hide Good, SetAll, FormatKey, Has, Lookup;
    if Evicting(c) {
      LastInFront(c, s, items, order, ttl, now);
      AtFront(c, t, items, order, ttl, now, p);
    } else {
      AllStay(c, s, items, order, ttl, now, key);
    }
  }
}
