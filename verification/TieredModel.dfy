/**
 The two-tier cache on values: a fast tier, a large tier, and what the tiered operations do to both.

 An operation reads the clock when it starts (`now`) and again when it writes the first tier
 (`later`).  Multi-key writes go through a Go map, so they carry the order they happened in.
 */
module TieredModel {
  import opened Wrappers
  import CM = CacheModel
  import opened CacheKeys

  datatype Config = Config(c1: CM.Config, c2: CM.Config, defaultTTL: int)

  datatype Tiers = Tiers(l1: CM.Cache, l2: CM.Cache)

  const HOUR := 3_600_000_000_000

  function CapHour(ttl: int): int {
    if ttl > HOUR then HOUR else ttl
  }

  function EffectiveTTL(c: Config, ttl: int): int {
    if ttl == 0 then c.defaultTTL else ttl
  }

  /** A Set's time to live in the second tier, where each default applies in turn to a zero. */
  function RecordTTL(c: Config, ttl: int): int {
    CM.EffectiveTTL(c.c2, EffectiveTTL(c, ttl))
  }

  /** What a backfill or a warm-up asks the first tier for amounts to: zero means that tier's own default. */
  function Backfill(c: Config): int {
    CM.EffectiveTTL(c.c1, CapHour(c.defaultTTL))
  }

  // ----- both tiers -----

  function Get(c: Config, t: Tiers, key: string, now: int, later: int): (Tiers, Option<string>) {
    var (l1, v) := GetKey(c.c1, t.l1, key, now);
    if v.Some? then (Tiers(l1, t.l2), v)
    else
      var (l2, w) := GetKey(c.c2, t.l2, key, now);
      if w.Some? then (Tiers(SetKey(c.c1, l1, key, w.value, CapHour(c.defaultTTL), later), l2), w)
      else (Tiers(l1, l2), None)
  }

  function Set(c: Config, t: Tiers, key: string, value: string, ttl: int, now: int, later: int): Tiers {
    var e := EffectiveTTL(c, ttl);
    Tiers(SetKey(c.c1, t.l1, key, value, CapHour(e), later), SetKey(c.c2, t.l2, key, value, e, now))
  }

  function Delete(c: Config, t: Tiers, key: string): Tiers {
    Tiers(DeleteKey(c.c1, t.l1, key), DeleteKey(c.c2, t.l2, key))
  }

  function Clear(c: Config, t: Tiers): Tiers {
    Tiers(CM.Clear(c.c1, t.l1), CM.Clear(c.c2, t.l2))
  }

  function Exists(c: Config, t: Tiers, key: string, now: int): (Tiers, bool) {
    var (l1, p) := CM.Exists(c.c1, t.l1, CM.FormatKey(c.c1, key), now);
    if p then (Tiers(l1, t.l2), true)
    else
      var (l2, q) := CM.Exists(c.c2, t.l2, CM.FormatKey(c.c2, key), now);
      (Tiers(l1, l2), q)
  }

  /** The keys the first tier did not find, in order, repeats kept. */
  function Missing(keys: seq<string>, found: map<string, string>): seq<string> {
    if keys == [] then []
    else
      var rest := Missing(keys[..|keys| - 1], found);
      if keys[|keys| - 1] in found then rest else rest + [keys[|keys| - 1]]
  }

  function GetMulti(c: Config, t: Tiers, keys: seq<string>, order: seq<string>, now: int, later: int)
    : (Tiers, map<string, string>)
  {
    var (l1, r1) := GetAll(c.c1, t.l1, keys, now);
    var missing := Missing(keys, r1);
    if missing == [] then (Tiers(l1, t.l2), r1)
    else
      var (l2, r2) := GetAll(c.c2, t.l2, missing, now);
      (Tiers(SetAll(c.c1, l1, r2, order, CapHour(c.defaultTTL), later), l2), r1 + r2)
  }

  function SetMulti(c: Config, t: Tiers, items: map<string, string>, order1: seq<string>, order2: seq<string>,
                    ttl: int, now: int, later: int): Tiers {
    var e := EffectiveTTL(c, ttl);
    Tiers(SetAll(c.c1, t.l1, items, order1, CapHour(e), later), SetAll(c.c2, t.l2, items, order2, e, now))
  }

  function InvalidateL1(c: Config, t: Tiers, key: string): Tiers {
    t.(l1 := DeleteKey(c.c1, t.l1, key))
  }

  function WarmupL1(c: Config, t: Tiers, keys: seq<string>, order: seq<string>, now: int, later: int): Tiers {
    if keys == [] then t
    else
      var (l2, found) := GetAll(c.c2, t.l2, keys, now);
      Tiers(SetAll(c.c1, t.l1, found, order, CapHour(c.defaultTTL), later), l2)
  }

  function DeleteMulti(c: Config, t: Tiers, keys: seq<string>): Tiers {
    Tiers(DeleteAll(c.c1, t.l1, keys), DeleteAll(c.c2, t.l2, keys))
  }

  function SetTTL(c: Config, t: Tiers, key: string, ttl: int, now: int): Tiers {
    Tiers(CM.SetTTL(t.l1, CM.FormatKey(c.c1, key), CapHour(ttl), now).0,
          CM.SetTTL(t.l2, CM.FormatKey(c.c2, key), ttl, now).0)
  }

  /** A background clean-up of either tier. */
  function CleanupTier(c: Config, t: Tiers, first: bool, now: int): Tiers {
    if first then t.(l1 := CM.Cleanup(c.c1, t.l1, now)) else t.(l2 := CM.Cleanup(c.c2, t.l2, now))
  }

  datatype Op =
    | GetOp(key: string)
    | SetOp(key: string, value: string, ttl: int)
    | DeleteOp(key: string)
    | ClearOp
    | ExistsOp(key: string)
    | GetMultiOp(keys: seq<string>, order: seq<string>)
    | SetMultiOp(items: map<string, string>, order1: seq<string>, order2: seq<string>, ttl: int)
    | DeleteMultiOp(keys: seq<string>)
    | InvalidateOp(key: string)
    | WarmupOp(keys: seq<string>, order: seq<string>)
    | SetTTLOp(key: string, ttl: int)
    | CleanupOp(first: bool)

  function Do(c: Config, t: Tiers, op: Op, now: int, later: int): Tiers {
    match op
    case GetOp(key) => Get(c, t, key, now, later).0
    case SetOp(key, value, ttl) => Set(c, t, key, value, ttl, now, later)
    case DeleteOp(key) => Delete(c, t, key)
    case ClearOp => Clear(c, t)
    case ExistsOp(key) => Exists(c, t, key, now).0
    case GetMultiOp(keys, order) => GetMulti(c, t, keys, order, now, later).0
    case SetMultiOp(items, order1, order2, ttl) => SetMulti(c, t, items, order1, order2, ttl, now, later)
    case DeleteMultiOp(keys) => DeleteMulti(c, t, keys)
    case InvalidateOp(key) => InvalidateL1(c, t, key)
    case WarmupOp(keys, order) => WarmupL1(c, t, keys, order, now, later)
    case SetTTLOp(key, ttl) => SetTTL(c, t, key, ttl, now)
    case CleanupOp(first) => CleanupTier(c, t, first, now)
  }

  /** The values an operation returns, by key. */
  function Returned(c: Config, t: Tiers, op: Op, now: int, later: int): map<string, string> {
    match op
    case GetOp(key) =>
      var v := Get(c, t, key, now, later).1;
      if v.Some? then map[key := v.value] else map[]
    case GetMultiOp(keys, order) => GetMulti(c, t, keys, order, now, later).1
    case _ => map[]
  }

  // ----- what was set -----

  /** The last Set of a key: its value, when, and the time to live that gives it in the second tier. */
  datatype Record = Record(value: string, setAt: int, ttl: int)

  type Truth = map<string, Record>

  function TruthDo(c: Config, truth: Truth, op: Op, now: int): Truth {
    match op
    case SetOp(key, value, ttl) => truth[key := Record(value, now, RecordTTL(c, ttl))]
    case SetMultiOp(items, _, _, ttl) =>
      truth + map key | key in items :: Record(items[key], now, RecordTTL(c, ttl))
    case DeleteOp(key) => truth - {key}
    case DeleteMultiOp(keys) => truth - set key | key in keys
    case ClearOp => map[]
    case _ => truth
  }

  // ----- runs -----

  /** One operation with its clock readings. */
  datatype Timed = Timed(op: Op, now: int, later: int)

  datatype World = World(tiers: Tiers, truth: Truth)

  const START := World(Tiers(CM.EMPTY, CM.EMPTY), map[])

  function Run(c: Config, ops: seq<Timed>): World {
    if ops == [] then START
    else
      var w := Run(c, ops[..|ops| - 1]);
      var o := ops[|ops| - 1];
      World(Do(c, w.tiers, o.op, o.now, o.later), TruthDo(c, w.truth, o.op, o.now))
  }

  /** SetMulti writes every item to both tiers, each once; other operations carry any order. */
  predicate WellOrdered(op: Op) {
    op.SetMultiOp? ==> Enumerates(op.order1, op.items) && Enumerates(op.order2, op.items)
  }

  /** What GetMulti writes back to the first tier. */
  function Refill(c: Config, t: Tiers, keys: seq<string>, now: int): map<string, string> {
    GetAll(c.c2, t.l2, Missing(keys, GetAll(c.c1, t.l1, keys, now).1), now).1
  }

  /** What WarmupL1 writes to the first tier. */
  function Warmth(c: Config, t: Tiers, keys: seq<string>, now: int): map<string, string> {
    GetAll(c.c2, t.l2, keys, now).1
  }
}
