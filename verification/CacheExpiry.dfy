/** When a stored value can be read, on clock readings and durations alone, and when an entry is removed. */
module CacheExpiry {
  import opened Wrappers
  import opened CacheModel
  import opened CacheInvariant
  import opened CacheRefinement

  /**
   Right after a Set, a Get returns the value if and only if its time to live is not over: its own, or the
   cache's default where it is zero; negative ones, and a default that is not positive, never end.
   */
  lemma SetThenGet(c: Config, s: Cache, k: string, v: string, ttl: int, now: int, at: int)
    requires Good(c, s)
    ensures var r := Get(c, Set(c, s, k, v, ttl, now), k, at).1;
            && (r == Some(v) <==>
                  || ttl < 0
                  || (ttl > 0 && at <= now + ttl)
                  || (ttl == 0 && c.defaultTTL <= 0)
                  || (ttl == 0 && c.defaultTTL > 0 && at <= now + c.defaultTTL))
            && (r == Some(v) || r == None)
  {
    SetIsGood(c, s, k, v, ttl, now);
    hide Set, Good;
  }

  /** Right after a SetTTL that found the key, its value is returned if and only if the new time to live is not over. */
  lemma SetTTLThenGet(c: Config, s: Cache, k: string, ttl: int, now: int, at: int)
    requires Has(s.entries, k)
    ensures SetTTL(s, k, ttl, now).1
    ensures Get(c, SetTTL(s, k, ttl, now).0, k, at).1
         == if ttl <= 0 || at <= now + ttl then Some(Lookup(s.entries, k).value) else None
  {
    ReplaceIs(s.entries, Lookup(s.entries, k).(expiresAt := Expiry(ttl, now)));
    hide Replace;
  }

  /** Exists answers as Get does. */
  lemma ExistsIffGet(c: Config, s: Cache, k: string, now: int)
    ensures Exists(c, s, k, now).1 <==> Get(c, s, k, now).1.Some?
  {
  }

  lemma StoredAfterDropIff(s: seq<Entry>, k: string, j: string)
    requires Distinct(s)
    ensures Has(Drop(s, k), j) <==> Has(s, j) && j != k
  {
    DropMembers(s, k);
    hide Drop, Distinct;
    if Has(s, j) && j != k { assert Lookup(s, j) in Drop(s, k); }
    if Has(Drop(s, k), j) { assert Lookup(Drop(s, k), j) in s; }
  }

  /** Get and Exists leave the key stored if and only if they found it: an expired entry is removed. */
  lemma ExpiredIsRemoved(c: Config, s: Cache, k: string, now: int, j: string)
    requires Good(c, s)
    ensures Has(Get(c, s, k, now).0.entries, j) <==> Has(s.entries, j) && (j == k ==> Get(c, s, k, now).1.Some?)
    ensures Has(Exists(c, s, k, now).0.entries, j) <==> Has(s.entries, j) && (j == k ==> Get(c, s, k, now).1.Some?)
  {
    StoredAfterDropIff(s.entries, k, j);
    if Has(s.entries, k) {
      var e, d := Lookup(s.entries, k), Drop(s.entries, k);
      if j != k { TailHas([e] + d, j); assert ([e] + d)[1..] == d; } else { assert ([e] + d)[0].key == j; }
    }
  }

  /** A clean-up leaves a key stored if and only if a Get would find it. */
  lemma CleanupRemovesExpired(c: Config, s: Cache, now: int, j: string)
    requires Good(c, s)
    ensures Has(Cleanup(c, s, now).entries, j) <==> Get(c, s, j, now).1.Some?
  {
    DropExpiredIs(s.entries, now);
    var d := DropExpired(s.entries, now);
    if Has(s.entries, j) && !IsExpired(Lookup(s.entries, j), now) { LookupIs(d, Lookup(s.entries, j)); }
    if Has(d, j) { LookupIs(s.entries, Lookup(d, j)); }
  }
}
