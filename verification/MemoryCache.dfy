/**
 The in-memory cache's code: a map from keys to list elements, the recency list, and statistics,
 all updated in place.  Each method does to `View()` what the model says, and keeps the map and the
 list in one-to-one correspondence.

 List elements are handles into a store of entries, as pointers into a heap of elements are.
 */
module MemoryCache {
  import opened Wrappers
  import opened CacheModel
  import opened CacheInvariant
  import opened CacheKeys

  type Handle = nat
  type Nodes = map<Handle, Entry>

  /** Every element of the list exists. */
  predicate Allocated(list: seq<Handle>, nodes: Nodes) {
    forall i :: 0 <= i < |list| ==> list[i] in nodes
  }

  function EntriesOf(list: seq<Handle>, nodes: Nodes): (s: seq<Entry>)
    requires Allocated(list, nodes)
    ensures |s| == |list| && forall i :: 0 <= i < |list| ==> s[i] == nodes[list[i]]
  {
    seq(|list|, i requires 0 <= i < |list| => nodes[list[i]])
  }

  /** `list.Remove`. */
  function Without(list: seq<Handle>, h: Handle): seq<Handle> {
    if list == [] then [] else if list[0] == h then list[1..] else [list[0]] + Without(list[1..], h)
  }

  /** Items and list correspond one to one, with matching keys. */
  predicate Linked(items: map<string, Handle>, list: seq<Handle>, nodes: Nodes) {
    && Allocated(list, nodes)
    && (forall i, j :: 0 <= i < j < |list| ==> list[i] != list[j])
    && (forall h :: h in list ==> nodes[h].key in items && items[nodes[h].key] == h)
    && (forall k :: k in items ==> items[k] in list && nodes[items[k]].key == k)
  }

  // ----- the list operations keep the correspondence -----

  lemma {:induction false} WithoutIs(list: seq<Handle>, h: Handle)
    requires forall i, j :: 0 <= i < j < |list| ==> list[i] != list[j]
    ensures forall i, j :: 0 <= i < j < |Without(list, h)| ==> Without(list, h)[i] != Without(list, h)[j]
    ensures forall x :: x in Without(list, h) <==> x in list && x != h
  {
    if list != [] {
      WithoutIs(list[1..], h);
      assert forall x :: x in list <==> x == list[0] || x in list[1..];
      assert list[0] !in list[1..];
    }
  }

  lemma {:induction false} WithoutDrops(list: seq<Handle>, nodes: Nodes, h: Handle, k: string)
    requires Allocated(list, nodes) && forall i :: 0 <= i < |list| ==> (list[i] == h <==> nodes[list[i]].key == k)
    ensures Allocated(Without(list, h), nodes)
    ensures EntriesOf(Without(list, h), nodes) == Drop(EntriesOf(list, nodes), k)
  {
    if list != [] {
      var s := EntriesOf(list, nodes);
      assert s[1..] == EntriesOf(list[1..], nodes);
      WithoutDrops(list[1..], nodes, h, k);
      if list[0] != h {
        assert EntriesOf(Without(list, h), nodes) == [s[0]] + EntriesOf(Without(list[1..], h), nodes);
      }
    }
  }

  /** The map finds exactly what a search by key through the list would. */
  lemma ItemsAre(items: map<string, Handle>, list: seq<Handle>, nodes: Nodes, k: string)
    requires Linked(items, list, nodes)
    ensures Distinct(EntriesOf(list, nodes))
    ensures k in items <==> Has(EntriesOf(list, nodes), k)
    ensures k in items ==> items[k] in nodes && Lookup(EntriesOf(list, nodes), k) == nodes[items[k]]
  {
    var s := EntriesOf(list, nodes);
    forall i, j | 0 <= i < j < |s| ensures s[i].key != s[j].key { assert list[i] in list && list[j] in list; }
    if k in items {
      var i :| 0 <= i < |list| && list[i] == items[k];
      assert s[i].key == k;
      var j :| 0 <= j < |s| && s[j] == Lookup(s, k);
    }
    if i :| 0 <= i < |s| && s[i].key == k { assert list[i] in list; }
  }

  lemma RemoveLinks(items: map<string, Handle>, list: seq<Handle>, nodes: Nodes, k: string)
    requires Linked(items, list, nodes) && k in items
    ensures Linked(items - {k}, Without(list, items[k]), nodes)
    ensures EntriesOf(Without(list, items[k]), nodes) == Drop(EntriesOf(list, nodes), k)
  {
    var h := items[k];
    WithoutIs(list, h);
    forall i | 0 <= i < |list| ensures list[i] == h <==> nodes[list[i]].key == k { assert list[i] in list; }
    WithoutDrops(list, nodes, h, k);
  }

  lemma FrontIs(list: seq<Handle>, h: Handle)
    requires h in list && forall i, j :: 0 <= i < j < |list| ==> list[i] != list[j]
    ensures var front := [h] + Without(list, h);
            && (forall i, j :: 0 <= i < j < |front| ==> front[i] != front[j])
            && (forall x :: x in front <==> x in list)
  {
    WithoutIs(list, h);
    hide Without;
  }

  /** The correspondence does not depend on the order of the list. */
  lemma ReorderedLinked(items: map<string, Handle>, list: seq<Handle>, nodes: Nodes, front: seq<Handle>)
    requires Linked(items, list, nodes) && forall x :: x in front <==> x in list
    requires forall i, j :: 0 <= i < j < |front| ==> front[i] != front[j]
    ensures Linked(items, front, nodes)
  {
    forall i | 0 <= i < |front| ensures front[i] in nodes { assert front[i] in front; }
  }

  lemma EntriesInFront(list: seq<Handle>, nodes: Nodes, h: Handle)
    requires Allocated(list, nodes) && h in nodes
    ensures Allocated([h] + list, nodes) && EntriesOf([h] + list, nodes) == [nodes[h]] + EntriesOf(list, nodes)
  {
  }

  lemma FrontLinks(items: map<string, Handle>, list: seq<Handle>, nodes: Nodes, k: string)
    requires Linked(items, list, nodes) && k in items
    ensures items[k] in nodes && Linked(items, [items[k]] + Without(list, items[k]), nodes)
    ensures EntriesOf([items[k]] + Without(list, items[k]), nodes)
         == [nodes[items[k]]] + Drop(EntriesOf(list, nodes), k)
  {
    var h := items[k];
    RemoveLinks(items, list, nodes, k);
    FrontIs(list, h);
    hide Linked, Without, Drop, Allocated, EntriesOf;
    ItemsAre(items, list, nodes, k);
    ReorderedLinked(items, list, nodes, [h] + Without(list, h));
    LinkedAllocated(items - {k}, Without(list, h), nodes);
    EntriesInFront(Without(list, h), nodes, h);
  }

  lemma LinkedAllocated(items: map<string, Handle>, list: seq<Handle>, nodes: Nodes)
    requires Linked(items, list, nodes)
    ensures Allocated(list, nodes)
  {
  }

  lemma UpdateLinks(items: map<string, Handle>, list: seq<Handle>, nodes: Nodes, e: Entry)
    requires Linked(items, list, nodes) && e.key in items
    ensures Linked(items, list, nodes[items[e.key] := e])
    ensures EntriesOf(list, nodes[items[e.key] := e]) == Replace(EntriesOf(list, nodes), e)
  {
    var h := items[e.key];
    ItemsAre(items, list, nodes, e.key);
    UpdateLinked(items, list, nodes, e);
    var s, t := EntriesOf(list, nodes), EntriesOf(list, nodes[h := e]);
    forall i | 0 <= i < |s| ensures t[i] == if s[i].key == e.key then e else s[i] { assert list[i] in list; }
    hide Linked, EntriesOf;
    ReplacedAt(s, t, e);
  }

  lemma UpdateLinked(items: map<string, Handle>, list: seq<Handle>, nodes: Nodes, e: Entry)
    requires Linked(items, list, nodes) && e.key in items
    ensures Linked(items, list, nodes[items[e.key] := e])
  {
    var h, after := items[e.key], nodes[items[e.key] := e];
    forall x | x in list ensures x in after && after[x].key in items && items[after[x].key] == x {}
  }

  lemma InsertLinked(items: map<string, Handle>, list: seq<Handle>, nodes: Nodes, h: Handle, e: Entry)
    requires Linked(items, list, nodes) && e.key !in items && h !in nodes
    ensures Linked(items[e.key := h], [h] + list, nodes[h := e])
  {
    assert forall x :: x in [h] + list <==> x == h || x in list;
    assert forall x :: x in list ==> x in nodes;
  }

  lemma InsertLinks(items: map<string, Handle>, list: seq<Handle>, nodes: Nodes, h: Handle, e: Entry)
    requires Linked(items, list, nodes) && e.key !in items && h !in nodes
    ensures Linked(items[e.key := h], [h] + list, nodes[h := e])
    ensures EntriesOf([h] + list, nodes[h := e]) == [e] + EntriesOf(list, nodes)
  {
    InsertLinked(items, list, nodes, h, e);
    assert forall i :: 0 <= i < |list| ==> list[i] in nodes;
    hide Linked;
    var s := EntriesOf([h] + list, nodes[h := e]);
    assert s[0] == e && forall i :: 1 <= i < |s| ==> s[i] == nodes[list[i - 1]];
  }

  lemma {:induction false} ReplacedAt(s: seq<Entry>, t: seq<Entry>, e: Entry)
    requires Distinct(s) && Has(s, e.key) && |t| == |s|
    requires forall i :: 0 <= i < |s| ==> t[i] == if s[i].key == e.key then e else s[i]
    ensures t == Replace(s, e)
  {
    if s[0].key == e.key {
      assert t[1..] == s[1..];
    } else {
      TailHas(s, e.key);
      ReplacedAt(s[1..], t[1..], e);
    }
  }

  lemma {:induction false} DropAfterReplace(s: seq<Entry>, e: Entry)
    ensures Drop(Replace(s, e), e.key) == Drop(s, e.key)
  {
    if s != [] && s[0].key != e.key { DropAfterReplace(s[1..], e); }
  }

  lemma {:induction false} DropLast(s: seq<Entry>)
    requires Distinct(s) && s != []
    ensures var n := |s| - 1; Drop(s, s[n].key) == s[..n] && Has(s, s[n].key) && Lookup(s, s[n].key) == s[n]
  {
    var n := |s| - 1;
    if n > 0 {
      DropLast(s[1..]);
      TailHas(s, s[n].key);
      assert s[1..][..n - 1] == s[..n][1..];
    }
  }

  // ----- removing a set of keys -----

  function FilterOut(s: seq<Entry>, keys: set<string>): seq<Entry> {
    if s == [] then []
    else if s[0].key in keys then FilterOut(s[1..], keys)
    else [s[0]] + FilterOut(s[1..], keys)
  }

  lemma {:induction false} DropFiltered(s: seq<Entry>, keys: set<string>, k: string)
    requires Distinct(s) && k !in keys
    ensures Drop(FilterOut(s, keys), k) == FilterOut(s, keys + {k})
  {
    if s != [] {
      DropFiltered(s[1..], keys, k);
      if s[0].key == k { FilterAbsent(s[1..], keys, k); }
    }
  }

  lemma {:induction false} FilterAbsent(s: seq<Entry>, keys: set<string>, k: string)
    requires forall i :: 0 <= i < |s| ==> s[i].key != k
    ensures FilterOut(s, keys) == FilterOut(s, keys + {k})
  {
    if s != [] { FilterAbsent(s[1..], keys, k); }
  }

  lemma {:induction false} FilterExpired(s: seq<Entry>, keys: set<string>, now: int)
    requires forall i :: 0 <= i < |s| ==> (s[i].key in keys <==> IsExpired(s[i], now))
    ensures FilterOut(s, keys) == DropExpired(s, now)
  {
    if s != [] { FilterExpired(s[1..], keys, now); }
  }

  lemma {:induction false} FilterNone(s: seq<Entry>)
    ensures FilterOut(s, {}) == s
  {
    if s != [] { FilterNone(s[1..]); }
  }

  /** The cache after some removals that left `left`. */
  function Shrunk(c: Config, s: Cache, left: seq<Entry>): Cache {
    var st := s.stats;
    Cache(left, Updated(c, st, st.(size := st.size - (|s.entries| - |left|),
                                   memory := st.memory - (Bytes(s.entries) - Bytes(left)))))
  }

  /** One more removal. */
  lemma RemovedShrinks(c: Config, s: Cache, left: seq<Entry>, k: string)
    requires Distinct(left) && Has(left, k)
    ensures Removed(c, Shrunk(c, s, left), k) == Shrunk(c, s, Drop(left, k))
  {
    DropIs(left, k);
  }

  /** A key still present after other keys were filtered out. */
  lemma {:induction false} StillThere(s: seq<Entry>, keys: set<string>, k: string)
    requires k !in keys && Distinct(s)
    ensures Has(s, k) <==> Has(FilterOut(s, keys), k)
    ensures Distinct(FilterOut(s, keys)) && forall e :: e in FilterOut(s, keys) ==> e in s
  {
    if s != [] {
      StillThere(s[1..], keys, k);
      var f := FilterOut(s, keys);
      if s[0].key == k {
        assert f[0].key == k;
      } else {
        TailHas(s, k);
        if f != [] && s[0].key !in keys { TailHas(f, k); }
      }
      assert forall e :: e in s[1..] ==> e in s;
      var rest := FilterOut(s[1..], keys);
      forall i | 0 <= i < |rest| ensures rest[i].key != s[0].key { assert rest[i] in s[1..]; }
    }
  }

  function KeySet(keys: seq<string>): set<string> {
    set k | k in keys
  }

  /** Removing the next expired key. */
  lemma CleanupStep(c: Config, s: Cache, expired: seq<string>, i: nat)
    requires Distinct(s.entries) && i < |expired| && Has(s.entries, expired[i])
    requires forall n, m :: 0 <= n < m < |expired| ==> expired[n] != expired[m]
    ensures var left := FilterOut(s.entries, KeySet(expired[..i]));
            && Has(left, expired[i])
            && Removed(c, Shrunk(c, s, left), expired[i])
                == Shrunk(c, s, FilterOut(s.entries, KeySet(expired[..i + 1])))
  {
    var gone, k := KeySet(expired[..i]), expired[i];
    StillThere(s.entries, gone, k);
    RemovedShrinks(c, s, FilterOut(s.entries, gone), k);
    DropFiltered(s.entries, gone, k);
    assert expired[..i + 1] == expired[..i] + [k];
    assert KeySet(expired[..i + 1]) == gone + {k};
  }

  class MemoryCache {
    const config: Config
    var items: map<string, Handle>
    var list: seq<Handle>
    var nodes: Nodes
    var unused: Handle
    var stats: Stats

    predicate Valid()
      reads this
    {
      Linked(items, list, nodes) && forall h :: h in nodes ==> h < unused
    }

    function View(): Cache
      requires Valid()
      reads this
    {
      Cache(EntriesOf(list, nodes), stats)
    }

    constructor (config: Config)
      ensures Valid() && this.config == config && View() == EMPTY
    {
      this.config := config;
      items, list, nodes, unused, stats := map[], [], map[], 0, EMPTY.stats;
    }

    method RemoveElement(k: string)
      requires Valid() && Has(View().entries, k)
      modifies this
      ensures Valid() && View() == Removed(config, old(View()), k)
    {
      ItemsAre(items, list, nodes, k);
      RemoveLinks(items, list, nodes, k);
      hide Linked, EntriesOf;
      var h := items[k];
      items := items - {k};
      list := Without(list, h);
      if config.enableStats {
        stats := stats.(size := stats.size - 1, memory := stats.memory - |nodes[h].value|);
      }
    }

    method Get(key: string, now: int) returns (value: Option<string>)
      requires Valid()
      modifies this
      ensures Valid() && (View(), value) == CacheModel.Get(config, old(View()), FormatKey(config, key), now)
    {
      var k := FormatKey(config, key);
      hide Linked, EntriesOf, Has, Lookup, Drop, Without, Removed;
      ItemsAre(items, list, nodes, k);
      if k !in items {
        if config.enableStats { stats := stats.(misses := stats.misses + 1); }
        return None;
      }
      FrontLinks(items, list, nodes, k);
      var h := items[k];
      if IsExpired(nodes[h], now) {
        RemoveElement(k);
        if config.enableStats { stats := stats.(misses := stats.misses + 1); }
        return None;
      }
      if config.enableLRU {
        list := [h] + Without(list, h);
      }
      if config.enableStats { stats := stats.(hits := stats.hits + 1); }
      return Some(nodes[h].value);
    }

    method Delete(key: string)
      requires Valid()
      modifies this
      ensures Valid() && View() == CacheModel.Delete(config, old(View()), FormatKey(config, key))
    {
      var k := FormatKey(config, key);
      ItemsAre(items, list, nodes, k);
      hide Linked, EntriesOf;
      if k !in items {
        return;
      }
      RemoveElement(k);
      if config.enableStats { stats := stats.(deletes := stats.deletes + 1); }
    }

    method Exists(key: string, now: int) returns (present: bool)
      requires Valid()
      modifies this
      ensures Valid() && (View(), present) == CacheModel.Exists(config, old(View()), FormatKey(config, key), now)
    {
      var k := FormatKey(config, key);
      ItemsAre(items, list, nodes, k);
      hide Linked, EntriesOf;
      if k !in items {
        return false;
      }
      if IsExpired(nodes[items[k]], now) {
        RemoveElement(k);
        return false;
      }
      return true;
    }

    method Clear()
      requires Valid()
      modifies this
      ensures Valid() && View() == CacheModel.Clear(config, old(View()))
    {
      items, list := map[], [];
      if config.enableStats { stats := stats.(size := 0, memory := 0); }
    }

    method SetTTL(key: string, ttl: int, now: int) returns (ok: bool)
      requires Valid()
      modifies this`nodes
      ensures Valid() && (View(), ok) == CacheModel.SetTTL(old(View()), FormatKey(config, key), ttl, now)
    {
      var k := FormatKey(config, key);
      ItemsAre(items, list, nodes, k);
      if k !in items {
        return false;
      }
      var h := items[k];
      var e := nodes[h].(expiresAt := Expiry(ttl, now));
      UpdateLinks(items, list, nodes, e);
      hide Linked, EntriesOf;
      nodes := nodes[h := e];
      return true;
    }

    /** The entry at the back of the list goes, when eviction is on. */
    method EvictLRU()
      requires Valid()
      modifies this
      ensures Valid() && View() == Evicted(config, old(View()))
    {
      if !config.enableLRU || list == [] {
        return;
      }
      var k := nodes[list[|list| - 1]].key;
      assert k == EntriesOf(list, nodes)[|list| - 1].key;
      hide Linked, Has, Lookup, Drop;
      ItemsAre(items, list, nodes, k);
      DropLast(EntriesOf(list, nodes));
      hide EntriesOf;
      RemoveElement(k);
      if config.enableStats { stats := stats.(evictions := stats.evictions + 1); }
    }

    method Set(key: string, value: string, ttl: int, now: int)
      requires Valid()
      modifies this
      ensures Valid() && View() == CacheModel.Set(config, old(View()), FormatKey(config, key), value, ttl, now)
    {
      var k := FormatKey(config, key);
      var e := Entry(k, value, Expiry(EffectiveTTL(config, ttl), now));
      hide Linked, EntriesOf, Has, Lookup, Drop, Replace, Evicted, Inserted;
      ItemsAre(items, list, nodes, k);
      if k in items {
        Update(e);
      } else {
        Insert(e);
      }
      if config.enableStats { stats := stats.(sets := stats.sets + 1); }
    }

    /** The branch of Set for a key that is present. */
    method Update(e: Entry)
      requires Valid() && Has(View().entries, e.key)
      modifies this
      ensures Valid()
      ensures var s := old(View());
              View() == Cache(if config.enableLRU then [e] + Drop(s.entries, e.key) else Replace(s.entries, e),
                              Updated(config, s.stats,
                                  s.stats.(memory := s.stats.memory - |Lookup(s.entries, e.key).value| + |e.value|)))
    {
      hide Linked, EntriesOf, Drop, Replace, Lookup, Has, Without;
      ItemsAre(items, list, nodes, e.key);
      UpdateLinks(items, list, nodes, e);
      LinkedAllocated(items, list, nodes);
      DropAfterReplace(EntriesOf(list, nodes), e);
      var h := items[e.key];
      var size := |nodes[h].value|;
      nodes := nodes[h := e];
      FrontLinks(items, list, nodes, e.key);
      if config.enableLRU {
        list := [h] + Without(list, h);
      }
      if config.enableStats { stats := stats.(memory := stats.memory - size + |e.value|); }
    }

    /** The branch of Set for a new key, with the eviction it may need. */
    method Insert(e: Entry)
      requires Valid() && !Has(View().entries, e.key)
      modifies this
      ensures Valid()
      ensures View() == var i := Inserted(config, old(View()), e);
          if MustEvict(config, i) then Evicted(config, i) else i
    {
      hide Linked, EntriesOf, Has, Evicted;
      ItemsAre(items, list, nodes, e.key);
      InsertLinks(items, list, nodes, unused, e);
      nodes := nodes[unused := e];
      list := [unused] + list;
      items := items[e.key := unused];
      unused := unused + 1;
      if config.enableStats { stats := stats.(size := stats.size + 1, memory := stats.memory + |e.value|); }
      if config.maxSize > 0 && stats.size > config.maxSize {
        EvictLRU();
      }
    }

    /** The keys of expired entries, each once. */
    method ExpiredKeys(now: int) returns (expired: seq<string>)
      requires Valid()
      ensures forall i, j :: 0 <= i < j < |expired| ==> expired[i] != expired[j]
      ensures forall k :: k in expired <==> k in items && IsExpired(nodes[items[k]], now)
    {
      expired := [];
      var rest := items.Keys;
      while rest != {}
        invariant rest <= items.Keys
        invariant forall i, j :: 0 <= i < j < |expired| ==> expired[i] != expired[j]
        invariant forall k :: k in expired <==> k in items && k !in rest && IsExpired(nodes[items[k]], now)
        decreases rest
      {
        var k :| k in rest;
        rest := rest - {k};
        if IsExpired(nodes[items[k]], now) {
          expired := expired + [k];
        }
      }
    }

    /** Two passes: collect the expired keys, then remove them one by one. */
    method CleanupExpired(now: int)
      requires Valid()
      modifies this
      ensures Valid() && View() == Cleanup(config, old(View()), now)
    {
      hide Linked, EntriesOf, Has, Drop, Lookup, Removed, Distinct, FilterOut, IsExpired;
      var expired := ExpiredKeys(now);
      ghost var s := View();
      ExpiredAre(expired, now);
      FilterNone(s.entries);
      assert KeySet(expired[..0]) == {};
      for i := 0 to |expired|
        invariant Valid() && View() == Shrunk(config, s, FilterOut(s.entries, KeySet(expired[..i])))
      {
        var k := expired[i];
        CleanupStep(config, s, expired, i);
        RemoveElement(k);
      }
      assert expired[..|expired|] == expired;
    }

    lemma ExpiredAre(expired: seq<string>, now: int)
      requires Valid() && forall k :: k in expired <==> k in items && IsExpired(nodes[items[k]], now)
      ensures Distinct(View().entries) && forall k :: k in expired ==> Has(View().entries, k)
      ensures FilterOut(View().entries, KeySet(expired)) == DropExpired(View().entries, now)
    {
      var s := View().entries;
      forall k | k in expired ensures Has(s, k) { ItemsAre(items, list, nodes, k); }
      ItemsAre(items, list, nodes, "");
      forall i | 0 <= i < |s| ensures s[i].key in expired <==> IsExpired(s[i], now) { assert list[i] in list; }
      FilterExpired(s, KeySet(expired), now);
    }

    method GetMulti(keys: seq<string>, now: int) returns (result: map<string, string>)
      requires Valid()
      modifies this
      ensures Valid() && (View(), result) == GetAll(config, old(View()), keys, now)
    {
      hide Linked, EntriesOf, CacheModel.Get;
      result := map[];
      for i := 0 to |keys|
        invariant Valid() && (View(), result) == GetAll(config, old(View()), keys[..i], now)
      {
        assert keys[..i + 1][..i] == keys[..i];
        var value := Get(keys[i], now);
        if value.Some? {
          result := result[keys[i] := value.value];
        }
      }
      assert keys[..|keys|] == keys;
    }

    /** The order in which the map was traversed is returned for the record. */
    method SetMulti(values: map<string, string>, ttl: int, now: int) returns (ghost order: seq<string>)
      requires Valid()
      modifies this
      ensures Valid() && View() == SetAll(config, old(View()), values, order, ttl, now)
      ensures Enumerates(order, values)
    {
      hide Linked, EntriesOf, CacheModel.Set, Enumerates;
      order := [];
      var rest := values.Keys;
      assert Enumerates([], values - rest) by { EnumeratesNone(values); }
      while rest != {}
        invariant rest <= values.Keys && Enumerates(order, values - rest)
        invariant Valid() && View() == SetAll(config, old(View()), values, order, ttl, now)
        decreases rest
      {
        var key :| key in rest;
        EnumeratesNext(order, values, rest, key);
        rest := rest - {key};
        Set(key, values[key], ttl, now);
        assert (order + [key])[..|order|] == order;
        order := order + [key];
      }
      assert values - {} == values;
    }

    method DeleteMulti(keys: seq<string>)
      requires Valid()
      modifies this
      ensures Valid() && View() == DeleteAll(config, old(View()), keys)
    {
      hide Linked, EntriesOf, CacheModel.Delete;
      for i := 0 to |keys|
        invariant Valid() && View() == DeleteAll(config, old(View()), keys[..i])
      {
        assert keys[..i + 1][..i] == keys[..i];
        Delete(keys[i]);
      }
      assert keys[..|keys|] == keys;
    }
  }
}
