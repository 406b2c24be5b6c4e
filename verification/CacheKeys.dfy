/** The cache by caller's keys, one at a time and many at a time. */
module CacheKeys {
  import opened Wrappers
  import opened CacheModel

  function GetKey(c: Config, s: Cache, key: string, now: int): (Cache, Option<string>) {
    Get(c, s, FormatKey(c, key), now)
  }

  function SetKey(c: Config, s: Cache, key: string, value: string, ttl: int, now: int): Cache {
    Set(c, s, FormatKey(c, key), value, ttl, now)
  }

  function DeleteKey(c: Config, s: Cache, key: string): Cache {
    Delete(c, s, FormatKey(c, key))
  }

  /** `GetMulti` of one tier: one Get after another, the found values collected. */
  function GetAll(c: Config, s: Cache, keys: seq<string>, now: int): (Cache, map<string, string>) {
    if keys == [] then (s, map[])
    else
      var (t, found) := GetAll(c, s, keys[..|keys| - 1], now);
      var key := keys[|keys| - 1];
      var (u, v) := GetKey(c, t, key, now);
      (u, if v.Some? then found[key := v.value] else found)
  }

  /** `SetMulti` of one tier, in a given order of the map's keys. */
  function SetAll(c: Config, s: Cache, items: map<string, string>, order: seq<string>, ttl: int, now: int): Cache {
    if order == [] then s
    else
      var t := SetAll(c, s, items, order[..|order| - 1], ttl, now);
      var key := order[|order| - 1];
      if key in items then SetKey(c, t, key, items[key], ttl, now) else t
  }

  /** `order` lists the keys of the map, each exactly once. */
  predicate Enumerates(order: seq<string>, items: map<string, string>) {
    && (set key | key in order) == items.Keys
    && (forall i, j :: 0 <= i < j < |order| ==> order[i] != order[j])
  }

  lemma EnumeratesNone(items: map<string, string>)
    ensures Enumerates([], items - items.Keys)
  {
    assert items - items.Keys == map[];
  }

  lemma EnumeratesNext(order: seq<string>, items: map<string, string>, rest: set<string>, key: string)
    requires key in rest && rest <= items.Keys && Enumerates(order, items - rest)
    ensures Enumerates(order + [key], items - (rest - {key}))
  {
    assert (set k | k in order + [key]) == (set k | k in order) + {key};
    forall i | 0 <= i < |order| ensures order[i] != key { assert order[i] in (set k | k in order); }
  }

  lemma EnumeratesAll(order: seq<string>, items: map<string, string>)
    requires Enumerates(order, items)
    ensures forall key :: key in items ==> key in order
  {
  }

  function DeleteAll(c: Config, s: Cache, keys: seq<string>): Cache {
    if keys == [] then s else DeleteKey(c, DeleteAll(c, s, keys[..|keys| - 1]), keys[|keys| - 1])
  }
}
