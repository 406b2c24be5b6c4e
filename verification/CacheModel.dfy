/**
 The in-memory cache on values: entries in recency order, most recent first, and statistics.

 Keys are formatted keys, values stand for their serialized form, and `now` is the clock reading of
 an operation.  `expiresAt` is `None` for the zero time, which means no expiry.
 */
module CacheModel {
  import opened Wrappers

  datatype Config = Config(maxSize: int, defaultTTL: int, enableLRU: bool, enableStats: bool, namespace: string)

  datatype Entry = Entry(key: string, value: string, expiresAt: Option<int>)

  datatype Stats = Stats(hits: int, misses: int, sets: int, deletes: int, evictions: int, size: int, memory: int)

  datatype Cache = Cache(entries: seq<Entry>, stats: Stats)

  const EMPTY := Cache([], Stats(0, 0, 0, 0, 0, 0, 0))

  // ----- the shared helpers of cache.go -----

  predicate IsExpired(e: Entry, now: int) {
    e.expiresAt.Some? && now > e.expiresAt.value
  }

  function FormatKey(c: Config, key: string): string {
    if c.namespace == "" then key else c.namespace + ":" + key
  }

  /** Distinct keys stay distinct under the namespace, which a colon follows. */
  lemma FormatKeyInjective(c: Config, k: string, j: string)
    requires FormatKey(c, k) == FormatKey(c, j)
    ensures k == j
    ensures c.namespace != "" ==> c.namespace <= FormatKey(c, k) && FormatKey(c, k)[|c.namespace|] == ':'
  {
    if c.namespace != "" {
      var n := |c.namespace| + 1;
      assert k == FormatKey(c, k)[n..] && j == FormatKey(c, j)[n..];
    }
  }

  function EffectiveTTL(c: Config, ttl: int): int {
    if ttl == 0 then c.defaultTTL else ttl
  }

  function Expiry(ttl: int, now: int): Option<int> {
    if ttl > 0 then Some(now + ttl) else None
  }

  /** `updateStats` does nothing when statistics are off. */
  function Updated(c: Config, before: Stats, after: Stats): Stats {
    if c.enableStats then after else before
  }

  // ----- entries by key -----

  predicate Has(s: seq<Entry>, k: string) {
    exists i :: 0 <= i < |s| && s[i].key == k
  }

  function Lookup(s: seq<Entry>, k: string): (e: Entry)
    requires Has(s, k)
    ensures e in s && e.key == k
  {
    if s[0].key == k then s[0]
    else
      assert Has(s[1..], k) by { var i :| 0 <= i < |s| && s[i].key == k; assert s[1..][i - 1].key == k; }
      Lookup(s[1..], k)
  }

  /** Without the entry for `k`. */
  function Drop(s: seq<Entry>, k: string): seq<Entry> {
    if s == [] then [] else if s[0].key == k then s[1..] else [s[0]] + Drop(s[1..], k)
  }

  /** With the entry for its key replaced where it stands. */
  function Replace(s: seq<Entry>, e: Entry): seq<Entry> {
    if s == [] then [] else if s[0].key == e.key then [e] + s[1..] else [s[0]] + Replace(s[1..], e)
  }

  function DropExpired(s: seq<Entry>, now: int): seq<Entry> {
    if s == [] then []
    else if IsExpired(s[0], now) then DropExpired(s[1..], now)
    else [s[0]] + DropExpired(s[1..], now)
  }

  /** The bytes held: the sum of the entries' sizes. */
  function Bytes(s: seq<Entry>): int {
    if s == [] then 0 else |s[0].value| + Bytes(s[1..])
  }

  // ----- operations -----

  /** `removeElement`. */
  function Removed(c: Config, s: Cache, k: string): Cache
    requires Has(s.entries, k)
  {
    var st := s.stats;
    Cache(Drop(s.entries, k),
          Updated(c, st, st.(size := st.size - 1, memory := st.memory - |Lookup(s.entries, k).value|)))
  }

  function Get(c: Config, s: Cache, k: string, now: int): (Cache, Option<string>) {
    var st := s.stats;
    if !Has(s.entries, k) then (s.(stats := Updated(c, st, st.(misses := st.misses + 1))), None)
    else
      var e := Lookup(s.entries, k);
      if IsExpired(e, now) then
        var t := Removed(c, s, k);
        (t.(stats := Updated(c, t.stats, t.stats.(misses := t.stats.misses + 1))), None)
      else
        (Cache(if c.enableLRU then [e] + Drop(s.entries, k) else s.entries,
               Updated(c, st, st.(hits := st.hits + 1))),
         Some(e.value))
  }

  /** `evictLRU`. */
  function Evicted(c: Config, s: Cache): Cache {
    if !c.enableLRU || s.entries == [] then s
    else
      var n := |s.entries| - 1;
      var st := s.stats;
      Cache(s.entries[..n],
            Updated(c, st, st.(size := st.size - 1, memory := st.memory - |s.entries[n].value|,
                               evictions := st.evictions + 1)))
  }

  /** The cache after inserting a new key, before any eviction. */
  function Inserted(c: Config, s: Cache, e: Entry): Cache {
    var st := s.stats;
    Cache([e] + s.entries, Updated(c, st, st.(size := st.size + 1, memory := st.memory + |e.value|)))
  }

  predicate MustEvict(c: Config, s: Cache) {
    c.maxSize > 0 && s.stats.size > c.maxSize
  }

  function Set(c: Config, s: Cache, k: string, value: string, ttl: int, now: int): Cache {
    var e := Entry(k, value, Expiry(EffectiveTTL(c, ttl), now));
    var st := s.stats;
    var t :=
      if Has(s.entries, k) then
        Cache(if c.enableLRU then [e] + Drop(s.entries, k) else Replace(s.entries, e),
              Updated(c, st, st.(memory := st.memory - |Lookup(s.entries, k).value| + |value|)))
      else
        var i := Inserted(c, s, e);
        if MustEvict(c, i) then Evicted(c, i) else i;
    t.(stats := Updated(c, t.stats, t.stats.(sets := t.stats.sets + 1)))
  }

  function Delete(c: Config, s: Cache, k: string): Cache {
    if !Has(s.entries, k) then s
    else
      var t := Removed(c, s, k);
      t.(stats := Updated(c, t.stats, t.stats.(deletes := t.stats.deletes + 1)))
  }

  function Exists(c: Config, s: Cache, k: string, now: int): (Cache, bool) {
    if !Has(s.entries, k) then (s, false)
    else if IsExpired(Lookup(s.entries, k), now) then (Removed(c, s, k), false)
    else (s, true)
  }

  function Clear(c: Config, s: Cache): Cache {
    Cache([], Updated(c, s.stats, s.stats.(size := 0, memory := 0)))
  }

  /** Succeeds on any entry still in the map, expired or not. */
  function SetTTL(s: Cache, k: string, ttl: int, now: int): (Cache, bool) {
    if !Has(s.entries, k) then (s, false)
    else (s.(entries := Replace(s.entries, Lookup(s.entries, k).(expiresAt := Expiry(ttl, now)))), true)
  }

  function Cleanup(c: Config, s: Cache, now: int): Cache {
    var left := DropExpired(s.entries, now);
    var st := s.stats;
    Cache(left, Updated(c, st, st.(size := st.size - (|s.entries| - |left|),
                                   memory := st.memory - (Bytes(s.entries) - Bytes(left)))))
  }

  datatype Op =
    | GetOp(key: string, now: int)
    | SetOp(key: string, value: string, ttl: int, now: int)
    | DeleteOp(key: string)
    | ExistsOp(key: string, now: int)
    | ClearOp
    | SetTTLOp(key: string, ttl: int, now: int)
    | CleanupOp(now: int)

  function Do(c: Config, s: Cache, op: Op): Cache {
    match op
    case GetOp(k, now) => Get(c, s, k, now).0
    case SetOp(k, v, ttl, now) => Set(c, s, k, v, ttl, now)
    case DeleteOp(k) => Delete(c, s, k)
    case ExistsOp(k, now) => Exists(c, s, k, now).0
    case ClearOp => Clear(c, s)
    case SetTTLOp(k, ttl, now) => SetTTL(s, k, ttl, now).0
    case CleanupOp(now) => Cleanup(c, s, now)
  }

  /** The cache after a sequence of operations on an empty one. */
  function Run(c: Config, ops: seq<Op>): Cache {
    if ops == [] then EMPTY else Do(c, Run(c, ops[..|ops| - 1]), ops[|ops| - 1])
  }
}
