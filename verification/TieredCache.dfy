/** The two-tier cache's code: each operation works on the first and the second tier in turn. */
module TieredCache {
  import opened Wrappers
  import CM = CacheModel
  import M = MemoryCache
  import opened CacheKeys
  import TM = TieredModel

  class TieredCache {
    const config: TM.Config
    const l1: M.MemoryCache
    const l2: M.MemoryCache

    predicate Valid()
      reads this, l1, l2
    {
      l1 != l2 && l1.Valid() && l2.Valid() && l1.config == config.c1 && l2.config == config.c2
    }

    function View(): TM.Tiers
      requires Valid()
      reads this, l1, l2
    {
      TM.Tiers(l1.View(), l2.View())
    }

    constructor (l1: M.MemoryCache, l2: M.MemoryCache, defaultTTL: int)
      requires l1 != l2 && l1.Valid() && l2.Valid()
      ensures Valid() && this.l1 == l1 && this.l2 == l2
      ensures config == TM.Config(l1.config, l2.config, defaultTTL)
      ensures View() == TM.Tiers(l1.View(), l2.View())
    {
      this.l1, this.l2 := l1, l2;
      config := TM.Config(l1.config, l2.config, defaultTTL);
    }

    method Get(key: string, now: int, later: int) returns (value: Option<string>)
      requires Valid()
      modifies l1, l2
      ensures Valid() && (View(), value) == TM.Get(config, old(View()), key, now, later)
    {
      hide M.Linked, M.EntriesOf, CM.Get, CM.Set;
      value := l1.Get(key, now);
      if value.Some? {
        return;
      }
      value := l2.Get(key, now);
      if value.Some? {
        var ttl := config.defaultTTL;
        if ttl > TM.HOUR {
          ttl := TM.HOUR;
        }
        l1.Set(key, value.value, ttl, later);
      }
    }

    method Set(key: string, value: string, ttl: int, now: int, later: int)
      requires Valid()
      modifies l1, l2
      ensures Valid() && View() == TM.Set(config, old(View()), key, value, ttl, now, later)
    {
      hide M.Linked, M.EntriesOf, CM.Set;
      var effective := TM.EffectiveTTL(config, ttl);
      l2.Set(key, value, effective, now);
      var l1TTL := effective;
      if l1TTL > TM.HOUR {
        l1TTL := TM.HOUR;
      }
      l1.Set(key, value, l1TTL, later);
    }

    method Delete(key: string)
      requires Valid()
      modifies l1, l2
      ensures Valid() && View() == TM.Delete(config, old(View()), key)
    {
      hide M.Linked, M.EntriesOf, CM.Delete;
      l1.Delete(key);
      l2.Delete(key);
    }

    method Clear()
      requires Valid()
      modifies l1, l2
      ensures Valid() && View() == TM.Clear(config, old(View()))
    {
      hide M.Linked, M.EntriesOf;
      l1.Clear();
      l2.Clear();
    }

    method Exists(key: string, now: int) returns (present: bool)
      requires Valid()
      modifies l1, l2
      ensures Valid() && (View(), present) == TM.Exists(config, old(View()), key, now)
    {
      hide M.Linked, M.EntriesOf, CM.Exists;
      present := l1.Exists(key, now);
      if present {
        return;
      }
      present := l2.Exists(key, now);
    }

    method GetMulti(keys: seq<string>, now: int, later: int)
      returns (result: map<string, string>, ghost order: seq<string>)
      requires Valid()
      modifies l1, l2
      ensures Valid() && (View(), result) == TM.GetMulti(config, old(View()), keys, order, now, later)
      ensures Enumerates(order, TM.Refill(config, old(View()), keys, now))
    {
      hide M.Linked, M.EntriesOf;
      order := [];
      result := l1.GetMulti(keys, now);
      var missing := MissingKeys(keys, result);
      if |missing| > 0 {
        var found := l2.GetMulti(missing, now);
        result := result + found;
        if found != map[] {
          var ttl := config.defaultTTL;
          if ttl > TM.HOUR {
            ttl := TM.HOUR;
          }
          order := l1.SetMulti(found, ttl, later);
        }
      }
    }

    method SetMulti(values: map<string, string>, ttl: int, now: int, later: int)
      returns (ghost order1: seq<string>, ghost order2: seq<string>)
      requires Valid()
      modifies l1, l2
      ensures Valid() && View() == TM.SetMulti(config, old(View()), values, order1, order2, ttl, now, later)
      ensures Enumerates(order1, values) && Enumerates(order2, values)
    {
      hide M.Linked, M.EntriesOf;
      var effective := TM.EffectiveTTL(config, ttl);
      order2 := l2.SetMulti(values, effective, now);
      var l1TTL := effective;
      if l1TTL > TM.HOUR {
        l1TTL := TM.HOUR;
      }
      order1 := l1.SetMulti(values, l1TTL, later);
    }

    method DeleteMulti(keys: seq<string>)
      requires Valid()
      modifies l1, l2
      ensures Valid() && View() == TM.DeleteMulti(config, old(View()), keys)
    {
      hide M.Linked, M.EntriesOf;
      l1.DeleteMulti(keys);
      l2.DeleteMulti(keys);
    }

    /** Fails only when neither tier holds the key. */
    method SetTTL(key: string, ttl: int, now: int) returns (ok: bool)
      requires Valid()
      modifies l1, l2
      ensures Valid() && View() == TM.SetTTL(config, old(View()), key, ttl, now)
      ensures ok <==> CM.Has(old(View()).l1.entries, CM.FormatKey(config.c1, key))
                      || CM.Has(old(View()).l2.entries, CM.FormatKey(config.c2, key))
    {
      hide M.Linked, M.EntriesOf, CM.Has, CM.Lookup, CM.Replace;
      var ok2 := l2.SetTTL(key, ttl, now);
      var l1TTL := ttl;
      if l1TTL > TM.HOUR {
        l1TTL := TM.HOUR;
      }
      var ok1 := l1.SetTTL(key, l1TTL, now);
      ok := ok1 || ok2;
    }

    method InvalidateL1(key: string)
      requires Valid()
      modifies l1
      ensures Valid() && View() == TM.InvalidateL1(config, old(View()), key)
    {
      hide M.Linked, M.EntriesOf, CM.Delete;
      l1.Delete(key);
    }

    method WarmupL1(keys: seq<string>, now: int, later: int) returns (ghost order: seq<string>)
      requires Valid()
      modifies l1, l2
      ensures Valid() && View() == TM.WarmupL1(config, old(View()), keys, order, now, later)
      ensures Enumerates(order, TM.Warmth(config, old(View()), keys, now))
    {
      hide M.Linked, M.EntriesOf;
      order := [];
      if |keys| == 0 {
        return;
      }
      var values := l2.GetMulti(keys, now);
      if values == map[] {
        return;
      }
      var ttl := config.defaultTTL;
      if ttl > TM.HOUR {
        ttl := TM.HOUR;
      }
      order := l1.SetMulti(values, ttl, later);
    }
  }

  method MissingKeys(keys: seq<string>, found: map<string, string>) returns (missing: seq<string>)
    ensures missing == TM.Missing(keys, found)
    ensures forall key :: key in missing <==> key in keys && key !in found
  {
    missing := [];
    for i := 0 to |keys|
      invariant missing == TM.Missing(keys[..i], found)
      invariant forall key :: key in missing <==> key in keys[..i] && key !in found
    {
      assert keys[..i + 1][..i] == keys[..i];
      if keys[i] !in found {
        missing := missing + [keys[i]];
      }
    }
    assert keys[..|keys|] == keys;
  }
}
