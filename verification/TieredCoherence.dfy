/**
 What the tiered cache returns, over every sequential run: only the value last set for the key, and,
 where times to live are in force, never later than a fixed bound after it should have expired.
 */
module TieredCoherence {
  import opened Wrappers
  import CM = CacheModel
  import CI = CacheInvariant
  import opened CacheKeys
  import opened TieredModel

  // ----- one tier -----

  /**
   A stored entry is for a key that was set and not deleted, holds the value last set, and, when a
   bound is claimed, expires at most `extra` after that Set's time to live ends.
   */
  predicate EntryOk(e: CM.Entry, key: string, truth: Truth, extra: Option<int>) {
    && key in truth && e.value == truth[key].value
    && (extra.Some? && truth[key].ttl > 0 ==>
          e.expiresAt.Some? && e.expiresAt.value <= truth[key].setAt + truth[key].ttl + extra.value)
  }

  ghost predicate TierOk(c: CM.Config, s: CM.Cache, truth: Truth, extra: Option<int>) {
    && CI.Good(c, s)
    && forall e, key :: e in s.entries && e.key == CM.FormatKey(c, key) ==> EntryOk(e, key, truth, extra)
  }

  /** A value found at `now` is the one last set, and is not too old. */
  predicate FoundOk(v: string, key: string, truth: Truth, extra: Option<int>, now: int) {
    && key in truth && v == truth[key].value
    && (extra.Some? && truth[key].ttl > 0 ==> now <= truth[key].setAt + truth[key].ttl + extra.value)
  }

  lemma GetTier(c: CM.Config, s: CM.Cache, truth: Truth, extra: Option<int>, key: string, now: int)
    requires TierOk(c, s, truth, extra)
    ensures TierOk(c, GetKey(c, s, key, now).0, truth, extra)
    ensures GetKey(c, s, key, now).1.Some? ==> FoundOk(GetKey(c, s, key, now).1.value, key, truth, extra, now)
  {
    var k := CM.FormatKey(c, key);
    CI.GetIsGood(c, s, k, now);
    CI.GetMembers(c, s, k, now);
    hide CM.Get, CI.Good, CM.FormatKey;
    if GetKey(c, s, key, now).1.Some? {
      var e :| e in s.entries && e.key == k && e.value == CM.Get(c, s, k, now).1.value && !CM.IsExpired(e, now);
      assert EntryOk(e, key, truth, extra);
    }
    ShrinkTier(c, s, GetKey(c, s, key, now).0, truth, extra);
  }

  lemma SetTier(c: CM.Config, s: CM.Cache, truth: Truth, extra: Option<int>, key: string, r: Record, ttl: int, now: int)
    requires TierOk(c, s, truth, extra)
    requires extra.Some? && r.ttl > 0 ==>
               CM.EffectiveTTL(c, ttl) > 0 && now + CM.EffectiveTTL(c, ttl) <= r.setAt + r.ttl + extra.value
    ensures TierOk(c, SetKey(c, s, key, r.value, ttl, now), truth[key := r], extra)
  {
    var k := CM.FormatKey(c, key);
    var t := SetKey(c, s, key, r.value, ttl, now);
    CI.SetIsGood(c, s, k, r.value, ttl, now);
    forall e, j | e in t.entries && e.key == CM.FormatKey(c, j) ensures EntryOk(e, j, truth[key := r], extra) {
      CI.SetMembers(c, s, k, r.value, ttl, now, e);
      if j != key && e.key == k { CM.FormatKeyInjective(c, j, key); }
    }
  }

  lemma DeleteTier(c: CM.Config, s: CM.Cache, truth: Truth, extra: Option<int>, key: string)
    requires TierOk(c, s, truth, extra)
    ensures TierOk(c, DeleteKey(c, s, key), truth - {key}, extra)
    ensures TierOk(c, DeleteKey(c, s, key), truth, extra)
  {
    var k := CM.FormatKey(c, key);
    CI.DoIsGood(c, s, CM.DeleteOp(k));
    CI.DeleteMembers(c, s, k);
    hide CM.Delete, CI.Good, CM.FormatKey;
  }

  lemma ShrinkTier(c: CM.Config, s: CM.Cache, t: CM.Cache, truth: Truth, extra: Option<int>)
    requires TierOk(c, s, truth, extra) && CI.Good(c, t) && forall e :: e in t.entries ==> e in s.entries
    ensures TierOk(c, t, truth, extra)
  {
  }

  lemma CleanTier(c: CM.Config, s: CM.Cache, truth: Truth, extra: Option<int>, key: string, now: int)
    requires TierOk(c, s, truth, extra)
    ensures TierOk(c, CM.Exists(c, s, CM.FormatKey(c, key), now).0, truth, extra)
    ensures TierOk(c, CM.Cleanup(c, s, now), truth, extra)
  {
    var k := CM.FormatKey(c, key);
    CI.DoIsGood(c, s, CM.ExistsOp(k, now));
    CI.DoIsGood(c, s, CM.CleanupOp(now));
    CI.DropIs(s.entries, k);
    CI.DropExpiredIs(s.entries, now);
    hide CI.Good, EntryOk, CM.FormatKey;
    ShrinkTier(c, s, CM.Exists(c, s, k, now).0, truth, extra);
    ShrinkTier(c, s, CM.Cleanup(c, s, now), truth, extra);
  }

  /** Changing a time to live keeps values; no bound survives it. */
  lemma TTLTier(c: CM.Config, s: CM.Cache, truth: Truth, key: string, ttl: int, now: int)
    requires TierOk(c, s, truth, None)
    ensures TierOk(c, CM.SetTTL(s, CM.FormatKey(c, key), ttl, now).0, truth, None)
  {
    var k := CM.FormatKey(c, key);
    var t := CM.SetTTL(s, k, ttl, now).0;
    CI.DoIsGood(c, s, CM.SetTTLOp(k, ttl, now));
    if CM.Has(s.entries, k) {
      var old_ := CM.Lookup(s.entries, k);
      var n := old_.(expiresAt := CM.Expiry(ttl, now));
      forall e, j | e in t.entries && e.key == CM.FormatKey(c, j) ensures EntryOk(e, j, truth, None) {
        CI.ReplaceMembers(s.entries, n, e);
        if e == n { assert EntryOk(old_, j, truth, None); }
      }
    }
  }

  // ----- many keys in one tier -----

  lemma {:induction false} GetAllTier(c: CM.Config, s: CM.Cache, truth: Truth,
                                      extra: Option<int>, keys: seq<string>, now: int)
    requires TierOk(c, s, truth, extra)
    ensures TierOk(c, GetAll(c, s, keys, now).0, truth, extra)
    ensures forall key :: key in GetAll(c, s, keys, now).1 ==>
        FoundOk(GetAll(c, s, keys, now).1[key], key, truth, extra, now)
  {
    if keys != [] {
      var front, key := keys[..|keys| - 1], keys[|keys| - 1];
      GetAllTier(c, s, truth, extra, front, now);
      GetTier(c, GetAll(c, s, front, now).0, truth, extra, key, now);
    }
  }

  /** What SetMulti makes the last Set of the keys it has written. */
  function Overlay(truth: Truth, records: Truth, order: seq<string>): Truth {
    truth + map key | key in records && key in order :: records[key]
  }

  lemma {:induction false} SetAllTier(c: CM.Config, s: CM.Cache, truth: Truth, extra: Option<int>, records: Truth,
                                      items: map<string, string>, order: seq<string>, ttl: int, now: int)
    requires TierOk(c, s, truth, extra) && items.Keys == records.Keys
    requires forall key :: key in items ==> items[key] == records[key].value
    requires forall key :: key in items && extra.Some? && records[key].ttl > 0 ==>
               CM.EffectiveTTL(c, ttl) > 0
               && now + CM.EffectiveTTL(c, ttl) <= records[key].setAt + records[key].ttl + extra.value
    ensures TierOk(c, SetAll(c, s, items, order, ttl, now), Overlay(truth, records, order), extra)
  {
    hide TierOk, SetKey;
    if order == [] {
      assert Overlay(truth, records, []) == truth;
    } else {
      var front, key := order[..|order| - 1], order[|order| - 1];
      SetAllTier(c, s, truth, extra, records, items, front, ttl, now);
      OverlayNext(truth, records, order);
      hide Overlay;
      if key in items {
        SetTier(c, SetAll(c, s, items, front, ttl, now), Overlay(truth, records, front),
            extra, key, records[key], ttl, now);
      }
    }
  }

  lemma OverlayNext(truth: Truth, records: Truth, order: seq<string>)
    requires order != []
    ensures var before, key := Overlay(truth, records, order[..|order| - 1]), order[|order| - 1];
            Overlay(truth, records, order) == if key in records then before[key := records[key]] else before
  {
    var front, key := order[..|order| - 1], order[|order| - 1];
    assert order == front + [key];
    var written := map k | k in records && k in front :: records[k];
    assert (map k | k in records && k in order :: records[k])
        == if key in records then written[key := records[key]] else written;
  }

  /** Writing back values that were just found changes nothing about what was last set. */
  lemma BackfillTier(c: CM.Config, s: CM.Cache, truth: Truth, extra: Option<int>, found: map<string, string>,
                     order: seq<string>, ttl: int, now: int, later: int)
    requires TierOk(c, s, truth, extra)
    requires forall key :: key in found ==> FoundOk(found[key], key, truth, if extra.Some? then Some(0) else None, now)
    requires extra.Some? ==> CM.EffectiveTTL(c, ttl) > 0 && later + CM.EffectiveTTL(c, ttl) <= now + extra.value
    ensures TierOk(c, SetAll(c, s, found, order, ttl, later), truth, extra)
  {
    var records := map key | key in found && key in truth :: truth[key];
    SetAllTier(c, s, truth, extra, records, found, order, ttl, later);
    assert Overlay(truth, records, order) == truth;
  }

  lemma {:induction false} DeleteAllTier(c: CM.Config, s: CM.Cache, truth: Truth, extra: Option<int>, keys: seq<string>)
    requires TierOk(c, s, truth, extra)
    ensures TierOk(c, DeleteAll(c, s, keys), truth - (set key | key in keys), extra)
  {
    if keys == [] {
      assert truth - (set key | key in keys) == truth;
    } else {
      var front, last := keys[..|keys| - 1], keys[|keys| - 1];
      DeleteAllTier(c, s, truth, extra, front);
      DeleteTier(c, DeleteAll(c, s, front), truth - (set key | key in front), extra, last);
      assert keys == front + [last];
      assert truth - (set key | key in front) - {last} == truth - (set key | key in keys);
    }
  }

  // ----- both tiers, one operation -----

  ghost predicate WorldOk(c: Config, w: World, x1: Option<int>, x2: Option<int>) {
    TierOk(c.c1, w.tiers.l1, w.truth, x1) && TierOk(c.c2, w.tiers.l2, w.truth, x2)
  }

  /**
   Either no bound is claimed, or: backfills expire, times to live are not changed afterwards, and an
   operation writes the first tier at most `lag` after it started.
   */
  predicate Claims(c: Config, o: Timed, lag: int, x1: Option<int>, x2: Option<int>) {
    || (x1.None? && x2.None?)
    || (&& Backfill(c) > 0 && !o.op.SetTTLOp? && o.now <= o.later <= o.now + lag
        && x1 == Some(lag + Backfill(c)) && x2 == Some(0))
  }

  lemma GetKeeps(c: Config, w: World, o: Timed, lag: int, x1: Option<int>, x2: Option<int>)
    requires WorldOk(c, w, x1, x2) && Claims(c, o, lag, x1, x2) && o.op.GetOp?
    ensures WorldOk(c, World(Do(c, w.tiers, o.op, o.now, o.later), w.truth), x1, x2)
    ensures var v := Get(c, w.tiers, o.op.key, o.now, o.later).1;
        v.Some? ==> FoundOk(v.value, o.op.key, w.truth, x1, o.now)
  {
    hide TierOk, GetKey, SetKey;
    var key := o.op.key;
    GetTier(c.c1, w.tiers.l1, w.truth, x1, key, o.now);
    GetTier(c.c2, w.tiers.l2, w.truth, x2, key, o.now);
    var (l1, v) := GetKey(c.c1, w.tiers.l1, key, o.now);
    var (l2, u) := GetKey(c.c2, w.tiers.l2, key, o.now);
    if v.None? && u.Some? {
      var r := w.truth[key];
      SetTier(c.c1, l1, w.truth, x1, key, r, CapHour(c.defaultTTL), o.later);
      assert w.truth[key := r] == w.truth;
    }
  }

  lemma SetKeeps(c: Config, w: World, o: Timed, lag: int, x1: Option<int>, x2: Option<int>)
    requires WorldOk(c, w, x1, x2) && Claims(c, o, lag, x1, x2) && o.op.SetOp?
    ensures WorldOk(c, World(Do(c, w.tiers, o.op, o.now, o.later), TruthDo(c, w.truth, o.op, o.now)), x1, x2)
  {
    hide TierOk, SetKey;
    var e := EffectiveTTL(c, o.op.ttl);
    var r := Record(o.op.value, o.now, RecordTTL(c, o.op.ttl));
    SetTier(c.c2, w.tiers.l2, w.truth, x2, o.op.key, r, e, o.now);
    SetTier(c.c1, w.tiers.l1, w.truth, x1, o.op.key, r, CapHour(e), o.later);
  }

  lemma GetMultiKeeps(c: Config, w: World, o: Timed, lag: int, x1: Option<int>, x2: Option<int>)
    requires WorldOk(c, w, x1, x2) && Claims(c, o, lag, x1, x2) && o.op.GetMultiOp?
    ensures WorldOk(c, World(Do(c, w.tiers, o.op, o.now, o.later), w.truth), x1, x2)
    ensures var found := GetMulti(c, w.tiers, o.op.keys, o.op.order, o.now, o.later).1;
            forall key :: key in found ==> FoundOk(found[key], key, w.truth, x1, o.now)
  {
    hide TierOk, GetAll, SetAll, Missing;
    GetAllTier(c.c1, w.tiers.l1, w.truth, x1, o.op.keys, o.now);
    var (l1, r1) := GetAll(c.c1, w.tiers.l1, o.op.keys, o.now);
    var missing := Missing(o.op.keys, r1);
    GetAllTier(c.c2, w.tiers.l2, w.truth, x2, missing, o.now);
    var (l2, r2) := GetAll(c.c2, w.tiers.l2, missing, o.now);
    BackfillTier(c.c1, l1, w.truth, x1, r2, o.op.order, CapHour(c.defaultTTL), o.now, o.later);
  }

  lemma WarmupKeeps(c: Config, w: World, o: Timed, lag: int, x1: Option<int>, x2: Option<int>)
    requires WorldOk(c, w, x1, x2) && Claims(c, o, lag, x1, x2) && o.op.WarmupOp?
    ensures WorldOk(c, World(Do(c, w.tiers, o.op, o.now, o.later), w.truth), x1, x2)
  {
    hide TierOk, GetAll, SetAll;
    GetAllTier(c.c2, w.tiers.l2, w.truth, x2, o.op.keys, o.now);
    var (_, found) := GetAll(c.c2, w.tiers.l2, o.op.keys, o.now);
    BackfillTier(c.c1, w.tiers.l1, w.truth, x1, found, o.op.order, CapHour(c.defaultTTL), o.now, o.later);
  }

  /** SetMulti on one tier, in any order that writes every item. */
  lemma SetMultiTier(c: CM.Config, s: CM.Cache, truth: Truth, extra: Option<int>, items: map<string, string>,
                     order: seq<string>, r: Record, ttl: int, now: int)
    requires TierOk(c, s, truth, extra) && Enumerates(order, items)
    requires extra.Some? && r.ttl > 0 ==>
               CM.EffectiveTTL(c, ttl) > 0 && now + CM.EffectiveTTL(c, ttl) <= r.setAt + r.ttl + extra.value
    ensures var records := map key | key in items :: r.(value := items[key]);
            TierOk(c, SetAll(c, s, items, order, ttl, now), truth + records, extra)
  {
    hide TierOk, SetAll, CM.EffectiveTTL;
    var records := map key | key in items :: r.(value := items[key]);
    EnumeratesAll(order, items);
    hide Enumerates;
    OverlayAll(truth, records, order);
    hide Overlay;
    SetAllTier(c, s, truth, extra, records, items, order, ttl, now);
  }

  lemma SetMultiKeeps(c: Config, w: World, o: Timed, lag: int, x1: Option<int>, x2: Option<int>)
    requires WorldOk(c, w, x1, x2) && Claims(c, o, lag, x1, x2) && o.op.SetMultiOp? && WellOrdered(o.op)
    ensures WorldOk(c, World(Do(c, w.tiers, o.op, o.now, o.later), TruthDo(c, w.truth, o.op, o.now)), x1, x2)
  {
    hide TierOk, SetAll, Enumerates;
    var e := EffectiveTTL(c, o.op.ttl);
    var r := Record("", o.now, RecordTTL(c, o.op.ttl));
    var records := map key | key in o.op.items :: r.(value := o.op.items[key]);
    assert w.truth + records == TruthDo(c, w.truth, o.op, o.now);
    SetMultiTier(c.c2, w.tiers.l2, w.truth, x2, o.op.items, o.op.order2, r, e, o.now);
    SetMultiTier(c.c1, w.tiers.l1, w.truth, x1, o.op.items, o.op.order1, r, CapHour(e), o.later);
  }

  lemma OverlayAll(truth: Truth, records: Truth, order: seq<string>)
    requires forall key :: key in records ==> key in order
    ensures Overlay(truth, records, order) == truth + records
  {
  }

  lemma RemovalKeeps(c: Config, w: World, o: Timed, lag: int, x1: Option<int>, x2: Option<int>)
    requires WorldOk(c, w, x1, x2) && Claims(c, o, lag, x1, x2)
    requires o.op.DeleteOp? || o.op.ClearOp? || o.op.DeleteMultiOp? || o.op.InvalidateOp?
    ensures WorldOk(c, World(Do(c, w.tiers, o.op, o.now, o.later), TruthDo(c, w.truth, o.op, o.now)), x1, x2)
  {
    match o.op
    case DeleteOp(key) =>
      hide TierOk, DeleteKey;
      DeleteTier(c.c1, w.tiers.l1, w.truth, x1, key);
      DeleteTier(c.c2, w.tiers.l2, w.truth, x2, key);
    case DeleteMultiOp(keys) =>
      hide TierOk, DeleteAll;
      DeleteAllTier(c.c1, w.tiers.l1, w.truth, x1, keys);
      DeleteAllTier(c.c2, w.tiers.l2, w.truth, x2, keys);
    case InvalidateOp(key) =>
      hide TierOk, DeleteKey;
      DeleteTier(c.c1, w.tiers.l1, w.truth, x1, key);
    case ClearOp =>
      CI.DoIsGood(c.c1, w.tiers.l1, CM.ClearOp);
      CI.DoIsGood(c.c2, w.tiers.l2, CM.ClearOp);
  }

  lemma QuietKeeps(c: Config, w: World, o: Timed, lag: int, x1: Option<int>, x2: Option<int>)
    requires WorldOk(c, w, x1, x2) && Claims(c, o, lag, x1, x2)
    requires o.op.ExistsOp? || o.op.CleanupOp? || o.op.SetTTLOp?
    ensures WorldOk(c, World(Do(c, w.tiers, o.op, o.now, o.later), w.truth), x1, x2)
  {
    hide TierOk;
    var key := if o.op.ExistsOp? || o.op.SetTTLOp? then o.op.key else "";
    CleanTier(c.c1, w.tiers.l1, w.truth, x1, key, o.now);
    CleanTier(c.c2, w.tiers.l2, w.truth, x2, key, o.now);
    if o.op.SetTTLOp? {
      TTLTier(c.c1, w.tiers.l1, w.truth, key, CapHour(o.op.ttl), o.now);
      TTLTier(c.c2, w.tiers.l2, w.truth, key, o.op.ttl, o.now);
    }
  }

  /** Every operation keeps both tiers in line with what was last set. */
  lemma DoKeeps(c: Config, w: World, o: Timed, lag: int, x1: Option<int>, x2: Option<int>)
    requires WorldOk(c, w, x1, x2) && Claims(c, o, lag, x1, x2) && WellOrdered(o.op)
    ensures WorldOk(c, World(Do(c, w.tiers, o.op, o.now, o.later), TruthDo(c, w.truth, o.op, o.now)), x1, x2)
  {
    hide WorldOk, Claims, Do;
    match o.op
    case GetOp(_) => GetKeeps(c, w, o, lag, x1, x2);
    case SetOp(_, _, _) => SetKeeps(c, w, o, lag, x1, x2);
    case GetMultiOp(_, _) => GetMultiKeeps(c, w, o, lag, x1, x2);
    case WarmupOp(_, _) => WarmupKeeps(c, w, o, lag, x1, x2);
    case SetMultiOp(_, _, _, _) => SetMultiKeeps(c, w, o, lag, x1, x2);
    case ExistsOp(_) => QuietKeeps(c, w, o, lag, x1, x2);
    case CleanupOp(_) => QuietKeeps(c, w, o, lag, x1, x2);
    case SetTTLOp(_, _) => QuietKeeps(c, w, o, lag, x1, x2);
    case _ => RemovalKeeps(c, w, o, lag, x1, x2);
  }

  lemma ReturnedOk(c: Config, w: World, o: Timed, lag: int, x1: Option<int>, x2: Option<int>, key: string)
    requires WorldOk(c, w, x1, x2) && Claims(c, o, lag, x1, x2)
    requires key in Returned(c, w.tiers, o.op, o.now, o.later)
    ensures FoundOk(Returned(c, w.tiers, o.op, o.now, o.later)[key], key, w.truth, x1, o.now)
  {
    hide WorldOk, Claims, Get, GetMulti, Do;
    if o.op.GetOp? { GetKeeps(c, w, o, lag, x1, x2); } else { GetMultiKeeps(c, w, o, lag, x1, x2); }
  }

  lemma ReadsReturn(c: Config, t: Tiers, o: Timed, key: string)
    requires key in Returned(c, t, o.op, o.now, o.later)
    ensures o.op.GetOp? || o.op.GetMultiOp?
  {
    hide Get, GetMulti;
  }

  // ----- whole runs -----

  lemma {:induction false} RunKeeps(c: Config, ops: seq<Timed>, lag: int, x1: Option<int>, x2: Option<int>)
    requires forall i :: 0 <= i < |ops| ==> WellOrdered(ops[i].op) && Claims(c, ops[i], lag, x1, x2)
    ensures WorldOk(c, Run(c, ops), x1, x2)
  {
    if ops != [] {
      hide Do, TruthDo, WellOrdered, Claims, TierOk;
      RunKeeps(c, ops[..|ops| - 1], lag, x1, x2);
      DoKeeps(c, Run(c, ops[..|ops| - 1]), ops[|ops| - 1], lag, x1, x2);
    }
  }

  /**
   Coherence: whatever evictions, expiries, invalidations, warm-ups and backfills went before, every
   value a Get or GetMulti returns is the one last set for its key, with no later Delete or Clear.
   */
  lemma ReturnsLastSet(c: Config, ops: seq<Timed>, o: Timed, key: string)
    requires forall i :: 0 <= i < |ops| ==> WellOrdered(ops[i].op)
    requires key in Returned(c, Run(c, ops).tiers, o.op, o.now, o.later)
    ensures key in Run(c, ops).truth
    ensures Returned(c, Run(c, ops).tiers, o.op, o.now, o.later)[key] == Run(c, ops).truth[key].value
  {
    hide Run, WorldOk, Returned, WellOrdered, Do;
    RunKeeps(c, ops, 0, None, None);
    ReturnedOk(c, Run(c, ops), o, 0, None, None, key);
  }

  /**
   Staleness: where backfills expire and without SetTTL, a value set at `s` with time to live
   `T > 0` is never returned after `s + T` plus the time to live of a backfill, plus the time an
   operation may take between starting and writing the first tier.
   */
  lemma NeverTooStale(c: Config, ops: seq<Timed>, o: Timed, key: string, lag: int)
    requires Backfill(c) > 0
    requires forall i :: 0 <= i < |ops| ==> WellOrdered(ops[i].op) && !ops[i].op.SetTTLOp?
    requires forall i :: 0 <= i < |ops| ==> ops[i].now <= ops[i].later <= ops[i].now + lag
    requires o.now <= o.later <= o.now + lag
    requires key in Returned(c, Run(c, ops).tiers, o.op, o.now, o.later)
    ensures key in Run(c, ops).truth
    ensures var r := Run(c, ops).truth[key];
            r.ttl > 0 ==> o.now <= r.setAt + r.ttl + Backfill(c) + lag
  {
    hide Run, WorldOk, Returned, WellOrdered, Do, Backfill;
    var x1 := Some(lag + Backfill(c));
    ReadsReturn(c, Run(c, ops).tiers, o, key);
    RunKeeps(c, ops, lag, x1, Some(0));
    ReturnedOk(c, Run(c, ops), o, lag, x1, Some(0), key);
  }
}
