/**
 When the tiered cache returns a value, on clock readings and durations alone: after a Set, a SetTTL,
 a backfill and the operations on many keys.  An hour is written out in nanoseconds.
 */
module TieredExpiry {
  import opened Wrappers
  import CM = CacheModel
  import CI = CacheInvariant
  import CE = CacheExpiry
  import CB = CacheBatches
  import opened CacheKeys
  import opened TieredModel

  ghost predicate Good(c: Config, t: Tiers) {
    CI.Good(c.c1, t.l1) && CI.Good(c.c2, t.l2)
  }

  /** What Get returns is what the first tier has, or else the second. */
  lemma GetIs(c: Config, t: Tiers, key: string, now: int, later: int)
    ensures Get(c, t, key, now, later).1
         == if GetKey(c.c1, t.l1, key, now).1.Some? then GetKey(c.c1, t.l1, key, now).1
            else GetKey(c.c2, t.l2, key, now).1
  {
    hide GetKey, SetKey;
  }

  /** At any time, Exists answers as Get would. */
  lemma ExistsIffGet(c: Config, t: Tiers, key: string, now: int, later: int)
    ensures Exists(c, t, key, now).1 <==> Get(c, t, key, now, later).1.Some?
  {
    hide CM.Exists, CM.Get, SetKey;
    CE.ExistsIffGet(c.c1, t.l1, CM.FormatKey(c.c1, key), now);
    CE.ExistsIffGet(c.c2, t.l2, CM.FormatKey(c.c2, key), now);
  }

  /**
   Right after a Set, a Get returns the value if and only if it lives in one of the tiers.  A zero time to
   live is the tiered default, and if that is zero too, each tier's own; the first tier keeps nothing
   longer than an hour unless it keeps it forever.
   */
  lemma SetThenGet(c: Config, t: Tiers, key: string, value: string, ttl: int, now: int, later: int, at: int, after: int)
    requires Good(c, t)
    ensures var r := Get(c, Set(c, t, key, value, ttl, now, later), key, at, after).1;
            var e := if ttl == 0 then c.defaultTTL else ttl;
            && (r == Some(value) || r == None)
            && (r == Some(value) <==>
                  || e < 0
                  || (e > 0 && at <= now + e)
                  || (e == 0 && (c.c2.defaultTTL <= 0 || at <= now + c.c2.defaultTTL))
                  || (0 < e <= 3_600_000_000_000 && at <= later + e)
                  || (e > 3_600_000_000_000 && at <= later + 3_600_000_000_000)
                  || (e == 0 && (c.c1.defaultTTL <= 0 || at <= later + c.c1.defaultTTL)))
  {
    var e := EffectiveTTL(c, ttl);
    var t1 := Set(c, t, key, value, ttl, now, later);
    CE.SetThenGet(c.c1, t.l1, CM.FormatKey(c.c1, key), value, CapHour(e), later, at);
    CE.SetThenGet(c.c2, t.l2, CM.FormatKey(c.c2, key), value, e, now, at);
    hide CM.Get, CM.Set, CM.FormatKey;
    GetIs(c, t1, key, at, after);
  }

  /** A value found only in the second tier is then in the first: for the tiered default, at most an hour. */
  lemma BackfillThenGet(c: Config, t: Tiers, key: string, now: int, later: int, at: int)
    requires Good(c, t) && GetKey(c.c1, t.l1, key, now).1.None? && GetKey(c.c2, t.l2, key, now).1.Some?
    ensures var r := GetKey(c.c1, Get(c, t, key, now, later).0.l1, key, at).1;
            && (r == Get(c, t, key, now, later).1 || r == None)
            && (r.Some? <==>
                  || c.defaultTTL < 0
                  || (0 < c.defaultTTL <= 3_600_000_000_000 && at <= later + c.defaultTTL)
                  || (c.defaultTTL > 3_600_000_000_000 && at <= later + 3_600_000_000_000)
                  || (c.defaultTTL == 0 && (c.c1.defaultTTL <= 0 || at <= later + c.c1.defaultTTL)))
  {
    var k := CM.FormatKey(c.c1, key);
    CI.GetIsGood(c.c1, t.l1, k, now);
    var l1, v := GetKey(c.c1, t.l1, key, now).0, GetKey(c.c2, t.l2, key, now).1.value;
    CE.SetThenGet(c.c1, l1, k, v, CapHour(c.defaultTTL), later, at);
    hide CM.Get, CM.Set, CM.FormatKey, CI.Good;
  }

  /** After a SetTTL a stored value can be read for the new time to live; in the first tier at most an hour. */
  lemma SetTTLThenGet(c: Config, t: Tiers, key: string, ttl: int, now: int, at: int)
    ensures var t1, k1, k2 := SetTTL(c, t, key, ttl, now), CM.FormatKey(c.c1, key), CM.FormatKey(c.c2, key);
            && (CM.Has(t.l1.entries, k1) ==>
                  GetKey(c.c1, t1.l1, key, at).1
                    == if ttl <= 0 || (at <= now + ttl && at <= now + 3_600_000_000_000)
                       then Some(CM.Lookup(t.l1.entries, k1).value) else None)
            && (CM.Has(t.l2.entries, k2) ==>
                  GetKey(c.c2, t1.l2, key, at).1
                    == if ttl <= 0 || at <= now + ttl then Some(CM.Lookup(t.l2.entries, k2).value) else None)
            && (!CM.Has(t.l1.entries, k1) ==> t1.l1 == t.l1) && (!CM.Has(t.l2.entries, k2) ==> t1.l2 == t.l2)
  {
    var k1, k2 := CM.FormatKey(c.c1, key), CM.FormatKey(c.c2, key);
    if CM.Has(t.l1.entries, k1) { CE.SetTTLThenGet(c.c1, t.l1, k1, CapHour(ttl), now, at); }
    if CM.Has(t.l2.entries, k2) { CE.SetTTLThenGet(c.c2, t.l2, k2, ttl, now, at); }
    hide CM.Get, CM.Has, CM.Lookup, CM.FormatKey, CM.Replace;
  }

  // ----- many keys -----

  /** The first tier has room for the `p`th key written and all that follow it. */
  predicate HasRoom(c: CM.Config, order: seq<string>, p: nat) {
    c.maxSize <= 0 || !c.enableLRU || !c.enableStats || |order| - p <= c.maxSize
  }

  /** What was written to the first tier with a tiered time to live of `e` can be read. */
  predicate Readable(c: Config, e: int, later: int, at: int) {
    || e < 0
    || (0 < e <= 3_600_000_000_000 && at <= later + e)
    || (e > 3_600_000_000_000 && at <= later + 3_600_000_000_000)
    || (e == 0 && (c.c1.defaultTTL <= 0 || at <= later + c.c1.defaultTTL))
  }

  /** After WarmupL1 the first tier returns each value found in the second, if it has room, while it lasts there. */
  lemma WarmupThenGet(c: Config, t: Tiers, keys: seq<string>, order: seq<string>, now: int, later: int, p: nat, at: int)
    requires Good(c, t) && Enumerates(order, Warmth(c, t, keys, now)) && p < |order|
    ensures order[p] in Warmth(c, t, keys, now)
    ensures GetKey(c.c1, WarmupL1(c, t, keys, order, now, later).l1, order[p], at).1
         == if HasRoom(c.c1, order, p) && Readable(c, c.defaultTTL, later, at)
            then Some(Warmth(c, t, keys, now)[order[p]]) else None
  {
    EnumeratesAt(order, Warmth(c, t, keys, now), p);
    hide CI.Good, SetAll, GetKey, Enumerates;
    CB.SetAllThenGet(c.c1, t.l1, Warmth(c, t, keys, now), order, CapHour(c.defaultTTL), later, p, at);
  }

  lemma EnumeratesAt(order: seq<string>, items: map<string, string>, p: nat)
    requires Enumerates(order, items) && p < |order|
    ensures order[p] in items
  {
    assert order[p] in (set x | x in order);
  }

  lemma {:induction false} GetAllIsGood(c: CM.Config, s: CM.Cache, keys: seq<string>, now: int)
    requires CI.Good(c, s)
    ensures CI.Good(c, GetAll(c, s, keys, now).0)
  {
    if keys != [] {
      var front, key := keys[..|keys| - 1], keys[|keys| - 1];
      GetAllIsGood(c, s, front, now);
      CI.GetIsGood(c, GetAll(c, s, front, now).0, CM.FormatKey(c, key), now);
    }
  }

  /** After GetMulti the first tier returns each value it fetched from the second, likewise. */
  lemma RefillThenGet(c: Config, t: Tiers, keys: seq<string>, order: seq<string>, now: int, later: int, p: nat, at: int)
    requires Good(c, t) && Enumerates(order, Refill(c, t, keys, now)) && p < |order|
    ensures order[p] in Refill(c, t, keys, now)
    ensures GetKey(c.c1, GetMulti(c, t, keys, order, now, later).0.l1, order[p], at).1
         == if HasRoom(c.c1, order, p) && Readable(c, c.defaultTTL, later, at)
            then Some(Refill(c, t, keys, now)[order[p]]) else None
  {
    EnumeratesAt(order, Refill(c, t, keys, now), p);
    GetAllIsGood(c.c1, t.l1, keys, now);
    hide CI.Good, SetAll, GetKey, Enumerates, Missing;
    var l1 := GetAll(c.c1, t.l1, keys, now).0;
    CB.SetAllThenGet(c.c1, l1, Refill(c, t, keys, now), order, CapHour(c.defaultTTL), later, p, at);
  }

  /** After SetMulti the first tier returns each item, likewise with its own time to live. */
  lemma SetMultiThenGet(c: Config, t: Tiers, items: map<string, string>, order1: seq<string>, order2: seq<string>,
                        ttl: int, now: int, later: int, p: nat, at: int)
    requires Good(c, t) && Enumerates(order1, items) && p < |order1|
    ensures order1[p] in items
    ensures GetKey(c.c1, SetMulti(c, t, items, order1, order2, ttl, now, later).l1, order1[p], at).1
         == if HasRoom(c.c1, order1, p) && Readable(c, if ttl == 0 then c.defaultTTL else ttl, later, at)
            then Some(items[order1[p]]) else None
  {
    EnumeratesAt(order1, items, p);
    hide CI.Good, SetAll, GetKey, Enumerates;
    CB.SetAllThenGet(c.c1, t.l1, items, order1, CapHour(EffectiveTTL(c, ttl)), later, p, at);
  }

  /** GetMulti asks the second tier for exactly the keys the first did not find, as often as they were asked for. */
  lemma {:induction false} MissingIs(keys: seq<string>, found: map<string, string>, key: string)
    ensures multiset(Missing(keys, found))[key] == if key in found then 0 else multiset(keys)[key]
  {
    if keys != [] {
      var front, last := keys[..|keys| - 1], keys[|keys| - 1];
      assert keys == front + [last];
      MissingIs(front, found, key);
    }
  }
}
