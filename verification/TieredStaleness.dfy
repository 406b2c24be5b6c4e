/**
 How long after its time to live the tiered cache can return a value: exactly.  A backfill gives a
 value that is about to expire a new time to live in the first tier; if backfills do not expire, it
 can be returned forever.
 */
module TieredStaleness {
  import opened Wrappers
  import CM = CacheModel
  import CI = CacheInvariant
  import opened CacheKeys
  import opened TieredModel
  import opened TieredCoherence

  /**
   A run and a final operation, without SetTTL, one operation after the other, in which no operation
   writes the first tier later than `lag` after it started.
   */
  predicate Legal(ops: seq<Timed>, lag: int) {
    && (forall i :: 0 <= i < |ops| ==>
          WellOrdered(ops[i].op) && !ops[i].op.SetTTLOp? && ops[i].now <= ops[i].later <= ops[i].now + lag)
    && (forall i, j :: 0 <= i < j < |ops| ==> ops[i].later <= ops[j].now)
  }

  /** After the run, the operation returns a value more than `bound` after its time to live ended. */
  predicate Late(c: Config, ops: seq<Timed>, o: Timed, key: string, bound: int) {
    var w := Run(c, ops);
    && key in Returned(c, w.tiers, o.op, o.now, o.later)
    && key in w.truth && w.truth[key].ttl > 0 && o.now > w.truth[key].setAt + w.truth[key].ttl + bound
  }

  ghost predicate Bounded(c: Config, lag: int, bound: int) {
    forall ops, o, key :: Legal(ops + [o], lag) ==> !Late(c, ops, o, key, bound)
  }

  // ----- a run that reaches the bound -----

  lemma SetThenGet(c: CM.Config, s: CM.Cache, key: string, value: string, ttl: int, now: int, at: int)
    requires CI.Good(c, s) && (CM.EffectiveTTL(c, ttl) <= 0 || at <= now + CM.EffectiveTTL(c, ttl))
    ensures CI.Good(c, SetKey(c, s, key, value, ttl, now))
    ensures GetKey(c, SetKey(c, s, key, value, ttl, now), key, at).1 == Some(value)
  {
    CI.SetIsGood(c, s, CM.FormatKey(c, key), value, ttl, now);
  }

  lemma FirstTierMisses(c: Config, l1: CM.Cache, key: string, now: int)
    requires CI.Good(c.c1, l1)
    ensures GetKey(c.c1, DeleteKey(c.c1, l1, key), key, now).1.None?
    ensures CI.Good(c.c1, GetKey(c.c1, DeleteKey(c.c1, l1, key), key, now).0)
  {
    var k := CM.FormatKey(c.c1, key);
    CI.DropIs(l1.entries, k);
    CI.DoIsGood(c.c1, l1, CM.DeleteOp(k));
    CI.GetIsGood(c.c1, DeleteKey(c.c1, l1, key), k, now);
  }

  /**
   A value set at time 0, invalidated in the first tier and read again at the last moment of its
   time to live is served from the first tier until the backfill expires; forever, if it does not.
   */
  lemma StaleValueReturned(c: Config, t: Tiers, key: string, value: string, ttl: int, lag: nat, at: int)
    requires CI.Good(c.c1, t.l1) && CI.Good(c.c2, t.l2) && 0 < ttl
    requires Backfill(c) <= 0 || at <= ttl + lag + Backfill(c)
    ensures var t1 := Set(c, t, key, value, ttl, 0, 0);
            var t2 := InvalidateL1(c, t1, key);
            var (t3, v) := Get(c, t2, key, ttl, ttl + lag);
            v == Some(value) && Get(c, t3, key, at, at).1 == Some(value)
  {
    hide GetKey, SetKey, DeleteKey;
    var t1 := Set(c, t, key, value, ttl, 0, 0);
    SetThenGet(c.c1, t.l1, key, value, CapHour(ttl), 0, 0);
    var l1 := DeleteKey(c.c1, t1.l1, key);
    FirstTierMisses(c, t1.l1, key, ttl);
    SetThenGet(c.c2, t.l2, key, value, ttl, 0, ttl);
    SetThenGet(c.c1, GetKey(c.c1, l1, key, ttl).0, key, value, CapHour(c.defaultTTL), ttl + lag, at);
  }

  lemma RunNext(c: Config, ops: seq<Timed>, o: Timed)
    ensures var w := Run(c, ops);
            Run(c, ops + [o]) == World(Do(c, w.tiers, o.op, o.now, o.later), TruthDo(c, w.truth, o.op, o.now))
  {
    assert (ops + [o])[..|ops|] == ops;
  }

  /** The run of `StaleValueReturned`, from empty tiers, with a time to live of 1. */
  function StaleRun(lag: nat): seq<Timed> {
    [Timed(SetOp("k", "v", 1), 0, 0), Timed(InvalidateOp("k"), 0, 0), Timed(GetOp("k"), 1, 1 + lag)]
  }

  lemma StaleRunIs(c: Config, lag: nat)
    ensures var t1 := Set(c, START.tiers, "k", "v", 1, 0, 0);
            Run(c, StaleRun(lag)) == World(Get(c, InvalidateL1(c, t1, "k"), "k", 1, 1 + lag).0,
                                           map["k" := Record("v", 0, 1)])
  {
    hide Get, Set, InvalidateL1;
    var ops := StaleRun(lag);
    RunNext(c, [], ops[0]);
    RunNext(c, [ops[0]], ops[1]);
    RunNext(c, [ops[0], ops[1]], ops[2]);
    assert [] + [ops[0]] == [ops[0]] && [ops[0]] + [ops[1]] == [ops[0], ops[1]];
    assert [ops[0], ops[1]] + [ops[2]] == ops;
  }

  lemma StaleRunIsLate(c: Config, lag: nat, at: int, bound: int)
    requires (Backfill(c) <= 0 || at <= 1 + lag + Backfill(c)) && at > 1 + bound && at >= 1 + lag
    ensures !Bounded(c, lag, bound)
  {
    hide Backfill, Get, Set, InvalidateL1;
    var o := Timed(GetOp("k"), at, at);
    StaleRunIs(c, lag);
    hide Run;
    StaleValueReturned(c, START.tiers, "k", "v", 1, lag, at);
    assert Legal(StaleRun(lag) + [o], lag);
    assert Late(c, StaleRun(lag), o, "k", bound);
  }

  // ----- the exact bound -----

  lemma LateIsNotTooLate(c: Config, ops: seq<Timed>, o: Timed, key: string, lag: int, bound: int)
    requires Backfill(c) > 0 && bound >= lag + Backfill(c) && Legal(ops + [o], lag)
    ensures !Late(c, ops, o, key, bound)
  {
    hide Run, Returned, Backfill, WellOrdered;
    assert forall i :: 0 <= i < |ops| ==> ops[i] == (ops + [o])[i];
    assert o == (ops + [o])[|ops|];
    if Late(c, ops, o, key, bound) { NeverTooStale(c, ops, o, key, lag); }
  }

  /**
   Over all runs, no value is returned more than `bound` after its time to live if and only if
   backfills expire and `bound` is at least their time to live plus the lag.
   */
  lemma StalenessBoundIff(c: Config, lag: nat, bound: int)
    ensures Bounded(c, lag, bound) <==> Backfill(c) > 0 && bound >= lag + Backfill(c)
  {
    hide Late, Legal, Backfill;
    if Backfill(c) > 0 && bound >= lag + Backfill(c) {
      forall ops, o, key | Legal(ops + [o], lag) ensures !Late(c, ops, o, key, bound) {
        LateIsNotTooLate(c, ops, o, key, lag, bound);
      }
    } else if Backfill(c) > 0 {
      StaleRunIsLate(c, lag, 1 + lag + Backfill(c), bound);
    } else {
      StaleRunIsLate(c, lag, 2 + lag + (if bound > 0 then bound else 0), bound);
    }
  }
}
