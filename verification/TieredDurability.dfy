/**
 What the tiered cache does not lose: while a value's time to live lasts, every Get finds it, no
 matter what happened in the first tier.  Together with coherence this says exactly what a Get
 returns until then; the second tier never evicts and times to live are not changed afterwards.
 */
module TieredDurability {
  import opened Wrappers
  import CM = CacheModel
  import CI = CacheInvariant
  import opened CacheKeys
  import CR = CacheRefinement
  import TE = TieredExpiry
  import opened TieredModel
  import opened TieredCoherence

  predicate Lasts(r: Record, now: int) {
    r.ttl <= 0 || now <= r.setAt + r.ttl
  }

  function RecordEntry(c: Config, key: string, r: Record): CM.Entry {
    CM.Entry(CM.FormatKey(c.c2, key), r.value, CM.Expiry(r.ttl, r.setAt))
  }

  function Expected(c: Config, truth: Truth, key: string, now: int): Option<CM.Entry> {
    if key in truth && Lasts(truth[key], now) then Some(RecordEntry(c, key, truth[key])) else None
  }

  function Live(c: Config, s: CM.Cache, key: string, now: int): Option<CM.Entry> {
    CR.LiveEntry(s.entries, CM.FormatKey(c.c2, key), now)
  }

  /** The second tier shows, at `now`, exactly the records that last. */
  ghost predicate Durable(c: Config, l2: CM.Cache, truth: Truth, now: int) {
    CI.Good(c.c2, l2) && forall key :: Live(c, l2, key, now) == Expected(c, truth, key, now)
  }

  lemma DurableLater(c: Config, l2: CM.Cache, truth: Truth, now: int, later: int)
    requires Durable(c, l2, truth, now) && now <= later
    ensures Durable(c, l2, truth, later)
  {
    forall key ensures Live(c, l2, key, later) == Expected(c, truth, key, later) {
      assert Live(c, l2, key, now) == Expected(c, truth, key, now);
    }
  }

  // ----- operations on the second tier -----

  lemma GetDurable(c: Config, l2: CM.Cache, truth: Truth, key: string, now: int)
    requires Durable(c, l2, truth, now)
    ensures Durable(c, GetKey(c.c2, l2, key, now).0, truth, now)
    ensures GetKey(c.c2, l2, key, now).1
         == if key in truth && Lasts(truth[key], now) then Some(truth[key].value) else None
  {
    var k := CM.FormatKey(c.c2, key);
    CI.GetIsGood(c.c2, l2, k, now);
    assert Live(c, l2, key, now) == Expected(c, truth, key, now);
    assert GetKey(c.c2, l2, key, now).1
        == if Live(c, l2, key, now).Some? then Some(Live(c, l2, key, now).value.value) else None;
    forall j ensures Live(c, GetKey(c.c2, l2, key, now).0, j, now) == Expected(c, truth, j, now) {
      CR.GetLive(c.c2, l2, k, now, CM.FormatKey(c.c2, j));
    }
  }

  lemma {:induction false} GetAllDurable(c: Config, l2: CM.Cache, truth: Truth, keys: seq<string>, now: int)
    requires Durable(c, l2, truth, now)
    ensures Durable(c, GetAll(c.c2, l2, keys, now).0, truth, now)
    ensures forall key :: key in keys && key in truth && Lasts(truth[key], now) ==> key in GetAll(c.c2, l2, keys, now).1
  {
    hide Durable, GetKey;
    if keys != [] {
      var front, key := keys[..|keys| - 1], keys[|keys| - 1];
      GetAllDurable(c, l2, truth, front, now);
      GetDurable(c, GetAll(c.c2, l2, front, now).0, truth, key, now);
      assert forall j :: j in keys <==> j in front || j == key;
    }
  }

  lemma SetDurable(c: Config, l2: CM.Cache, truth: Truth, key: string, r: Record, ttl: int, now: int)
    requires Durable(c, l2, truth, now) && CR.NeverEvicts(c.c2)
    requires r.setAt == now && r.ttl == CM.EffectiveTTL(c.c2, ttl)
    ensures Durable(c, SetKey(c.c2, l2, key, r.value, ttl, now), truth[key := r], now)
  {
    var k := CM.FormatKey(c.c2, key);
    var t := SetKey(c.c2, l2, key, r.value, ttl, now);
    CI.SetIsGood(c.c2, l2, k, r.value, ttl, now);
    forall j ensures Live(c, t, j, now) == Expected(c, truth[key := r], j, now) {
      CR.SetEntries(c.c2, l2, k, r.value, ttl, now, CM.FormatKey(c.c2, j), now);
      if j != key && CM.FormatKey(c.c2, j) == k { CM.FormatKeyInjective(c.c2, j, key); }
      assert Live(c, l2, j, now) == Expected(c, truth, j, now);
    }
  }

  lemma {:induction false} SetAllDurable(c: Config, l2: CM.Cache, truth: Truth, records: Truth,
                                         items: map<string, string>, order: seq<string>, ttl: int, now: int)
    requires Durable(c, l2, truth, now) && CR.NeverEvicts(c.c2) && items.Keys == records.Keys
    requires forall key :: key in items ==> records[key] == Record(items[key], now, CM.EffectiveTTL(c.c2, ttl))
    ensures Durable(c, SetAll(c.c2, l2, items, order, ttl, now), Overlay(truth, records, order), now)
  {
    hide Durable, SetKey;
    if order == [] {
      assert Overlay(truth, records, []) == truth;
    } else {
      var front, key := order[..|order| - 1], order[|order| - 1];
      SetAllDurable(c, l2, truth, records, items, front, ttl, now);
      OverlayNext(truth, records, order);
      hide Overlay;
      if key in items {
        SetDurable(c, SetAll(c.c2, l2, items, front, ttl, now), Overlay(truth, records, front),
            key, records[key], ttl, now);
      }
    }
  }

  lemma DeleteDurable(c: Config, l2: CM.Cache, truth: Truth, key: string, now: int)
    requires Durable(c, l2, truth, now)
    ensures Durable(c, DeleteKey(c.c2, l2, key), truth - {key}, now)
  {
    var k := CM.FormatKey(c.c2, key);
    CI.DoIsGood(c.c2, l2, CM.DeleteOp(k));
    forall j ensures Live(c, DeleteKey(c.c2, l2, key), j, now) == Expected(c, truth - {key}, j, now) {
      CR.LookupAfterDrop(l2.entries, k, CM.FormatKey(c.c2, j), now);
      if j != key && CM.FormatKey(c.c2, j) == k { CM.FormatKeyInjective(c.c2, j, key); }
      assert Live(c, l2, j, now) == Expected(c, truth, j, now);
    }
  }

  lemma {:induction false} DeleteAllDurable(c: Config, l2: CM.Cache, truth: Truth, keys: seq<string>, now: int)
    requires Durable(c, l2, truth, now)
    ensures Durable(c, DeleteAll(c.c2, l2, keys), truth - (set key | key in keys), now)
  {
    hide Durable, DeleteKey;
    if keys == [] {
      assert truth - (set key | key in keys) == truth;
    } else {
      var front, last := keys[..|keys| - 1], keys[|keys| - 1];
      DeleteAllDurable(c, l2, truth, front, now);
      DeleteDurable(c, DeleteAll(c.c2, l2, front), truth - (set key | key in front), last, now);
      assert keys == front + [last];
      assert truth - (set key | key in front) - {last} == truth - (set key | key in keys);
    }
  }

  lemma CleanDurable(c: Config, l2: CM.Cache, truth: Truth, key: string, now: int)
    requires Durable(c, l2, truth, now)
    ensures Durable(c, CM.Exists(c.c2, l2, CM.FormatKey(c.c2, key), now).0, truth, now)
    ensures Durable(c, CM.Cleanup(c.c2, l2, now), truth, now)
  {
    var k := CM.FormatKey(c.c2, key);
    CI.DoIsGood(c.c2, l2, CM.ExistsOp(k, now));
    CI.DoIsGood(c.c2, l2, CM.CleanupOp(now));
    forall j
      ensures Live(c, CM.Exists(c.c2, l2, k, now).0, j, now) == Live(c, l2, j, now)
      ensures Live(c, CM.Cleanup(c.c2, l2, now), j, now) == Live(c, l2, j, now)
    {
      CR.LookupAfterDrop(l2.entries, k, CM.FormatKey(c.c2, j), now);
      CR.LookupAfterCleanup(l2.entries, CM.FormatKey(c.c2, j), now, now);
    }
  }

  // ----- whole operations and runs -----

  /** Every operation but SetTTL keeps the second tier durable. */
  lemma DoDurable(c: Config, w: World, o: Timed)
    requires Durable(c, w.tiers.l2, w.truth, o.now) && CR.NeverEvicts(c.c2) && WellOrdered(o.op) && !o.op.SetTTLOp?
    ensures Durable(c, Do(c, w.tiers, o.op, o.now, o.later).l2, TruthDo(c, w.truth, o.op, o.now), o.now)
  {
    hide Durable, GetKey, SetKey, DeleteKey, GetAll, SetAll, DeleteAll;
    match o.op
    case GetOp(key) => GetDurable(c, w.tiers.l2, w.truth, key, o.now);
    case GetMultiOp(keys, _) =>
      GetAllDurable(c, w.tiers.l2, w.truth, Missing(keys, GetAll(c.c1, w.tiers.l1, keys, o.now).1), o.now);
    case WarmupOp(keys, _) => GetAllDurable(c, w.tiers.l2, w.truth, keys, o.now);
    case SetOp(key, value, ttl) =>
      SetDurable(c, w.tiers.l2, w.truth, key, Record(value, o.now, RecordTTL(c, ttl)), EffectiveTTL(c, ttl), o.now);
    case SetMultiOp(items, _, order2, ttl) => SetMultiDurable(c, w, o);
    case DeleteOp(key) => DeleteDurable(c, w.tiers.l2, w.truth, key, o.now);
    case DeleteMultiOp(keys) => DeleteAllDurable(c, w.tiers.l2, w.truth, keys, o.now);
    case ClearOp => ClearDurable(c, w.tiers.l2, w.truth, o.now);
    case ExistsOp(key) => CleanDurable(c, w.tiers.l2, w.truth, key, o.now);
    case CleanupOp(_) => CleanDurable(c, w.tiers.l2, w.truth, "", o.now);
    case InvalidateOp(_) =>
  }

  lemma SetMultiDurable(c: Config, w: World, o: Timed)
    requires Durable(c, w.tiers.l2, w.truth, o.now) && CR.NeverEvicts(c.c2) && WellOrdered(o.op) && o.op.SetMultiOp?
    ensures Durable(c, Do(c, w.tiers, o.op, o.now, o.later).l2, TruthDo(c, w.truth, o.op, o.now), o.now)
  {
    var e := EffectiveTTL(c, o.op.ttl);
    var records := map key | key in o.op.items :: Record(o.op.items[key], o.now, RecordTTL(c, o.op.ttl));
    assert records.Keys == o.op.items.Keys;
    EnumeratesAll(o.op.order2, o.op.items);
    OverlayAll(w.truth, records, o.op.order2);
    hide Durable, SetAll, Overlay;
    SetAllDurable(c, w.tiers.l2, w.truth, records, o.op.items, o.op.order2, e, o.now);
  }

  lemma ClearDurable(c: Config, l2: CM.Cache, truth: Truth, now: int)
    requires Durable(c, l2, truth, now)
    ensures Durable(c, CM.Clear(c.c2, l2), map[], now)
  {
    CI.DoIsGood(c.c2, l2, CM.ClearOp);
  }

  /** Clock readings never go back. */
  predicate InOrder(ops: seq<Timed>) {
    forall i, j :: 0 <= i < j < |ops| ==> ops[i].now <= ops[j].now
  }

  predicate Plain(o: Timed) {
    WellOrdered(o.op) && !o.op.SetTTLOp?
  }

  lemma {:induction false} RunDurable(c: Config, ops: seq<Timed>, now: int)
    requires CR.NeverEvicts(c.c2) && InOrder(ops) && forall i :: 0 <= i < |ops| ==> Plain(ops[i]) && ops[i].now <= now
    ensures Durable(c, Run(c, ops).tiers.l2, Run(c, ops).truth, now)
  {
    if ops != [] {
      var front, o := ops[..|ops| - 1], ops[|ops| - 1];
      RunDurable(c, front, o.now);
      DoDurable(c, Run(c, front), o);
      DurableLater(c, Run(c, ops).tiers.l2, Run(c, ops).truth, o.now, now);
    }
  }

  /** While a record lasts, Get returns its value, after any run. */
  lemma GetFindsWhatLasts(c: Config, ops: seq<Timed>, key: string, now: int, later: int)
    requires CR.NeverEvicts(c.c2) && InOrder(ops) && forall i :: 0 <= i < |ops| ==> Plain(ops[i]) && ops[i].now <= now
    requires key in Run(c, ops).truth && Lasts(Run(c, ops).truth[key], now)
    ensures Get(c, Run(c, ops).tiers, key, now, later).1 == Some(Run(c, ops).truth[key].value)
  {
    var w, o := Run(c, ops), Timed(GetOp(key), now, later);
    RunDurable(c, ops, now);
    GetDurable(c, w.tiers.l2, w.truth, key, now);
    if key in Returned(c, w.tiers, o.op, now, later) { ReturnsLastSet(c, ops, o, key); }
  }

  lemma {:induction false} InMissing(keys: seq<string>, found: map<string, string>, key: string)
    requires key in keys && key !in found
    ensures key in Missing(keys, found)
  {
    if key != keys[|keys| - 1] {
      assert keys == keys[..|keys| - 1] + [keys[|keys| - 1]];
      InMissing(keys[..|keys| - 1], found, key);
    }
  }

  /** So does GetMulti, for every key it is asked for. */
  lemma GetMultiFindsWhatLasts(c: Config, ops: seq<Timed>, keys: seq<string>, order: seq<string>, now: int, later: int,
                               key: string)
    requires CR.NeverEvicts(c.c2) && InOrder(ops) && forall i :: 0 <= i < |ops| ==> Plain(ops[i]) && ops[i].now <= now
    requires key in keys && key in Run(c, ops).truth && Lasts(Run(c, ops).truth[key], now)
    ensures var found := GetMulti(c, Run(c, ops).tiers, keys, order, now, later).1;
            key in found && found[key] == Run(c, ops).truth[key].value
  {
    hide Run, Durable, GetAll, SetAll, Missing, Lasts, InOrder;
    var w, o := Run(c, ops), Timed(GetMultiOp(keys, order), now, later);
    RunDurable(c, ops, now);
    var r1 := GetAll(c.c1, w.tiers.l1, keys, now).1;
    GetAllDurable(c, w.tiers.l2, w.truth, Missing(keys, r1), now);
    if key !in r1 { InMissing(keys, r1, key); }
    assert key in Returned(c, w.tiers, o.op, now, later);
    ReturnsLastSet(c, ops, o, key);
  }

  /** After any run, Exists is true while a record lasts. */
  lemma ExistsWhatLasts(c: Config, ops: seq<Timed>, key: string, now: int)
    requires CR.NeverEvicts(c.c2) && InOrder(ops) && forall i :: 0 <= i < |ops| ==> Plain(ops[i]) && ops[i].now <= now
    ensures key in Run(c, ops).truth && Lasts(Run(c, ops).truth[key], now) ==> Exists(c, Run(c, ops).tiers, key, now).1
  {
    hide Run, Exists, Get;
    TE.ExistsIffGet(c, Run(c, ops).tiers, key, now, now);
    if key in Run(c, ops).truth && Lasts(Run(c, ops).truth[key], now) { GetFindsWhatLasts(c, ops, key, now, now); }
  }

  /** And it is true only for a key that was set and not deleted since. */
  lemma ExistsOnlyWhatWasSet(c: Config, ops: seq<Timed>, key: string, now: int)
    requires forall i :: 0 <= i < |ops| ==> WellOrdered(ops[i].op)
    ensures Exists(c, Run(c, ops).tiers, key, now).1 ==> key in Run(c, ops).truth
  {
    hide Run, Exists, Get;
    TE.ExistsIffGet(c, Run(c, ops).tiers, key, now, now);
    if Exists(c, Run(c, ops).tiers, key, now).1 { ReturnsLastSet(c, ops, Timed(GetOp(key), now, now), key); }
  }
}
