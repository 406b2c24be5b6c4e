/**
 Least-recently-used eviction over whole traces.  A key is touched by a Set or by a Get that hits.
 Entries stand in the order of their last touch, so eviction takes the key touched longest ago, and
 only after enough other keys have been touched since.
 */
module CacheLru {
  import opened Wrappers
  import opened CacheModel
  import opened CacheInvariant

  predicate Touches(c: Config, s: Cache, op: Op, k: string) {
    || (op.SetOp? && op.key == k)
    || (op.GetOp? && op.key == k && Get(c, s, k, op.now).1.Some?)
  }

  /** The index of the last operation that touched `k`, or -1. */
  function LastTouch(c: Config, ops: seq<Op>, k: string): (i: int)
    ensures -1 <= i < |ops|
  {
    if ops == [] then -1
    else
      var n := |ops| - 1;
      if Touches(c, Run(c, ops[..n]), ops[n], k) then n else LastTouch(c, ops[..n], k)
  }

  /** Keys touched by an operation with index above `a`. */
  function TouchedSince(c: Config, ops: seq<Op>, a: int): set<string> {
    if |ops| - 1 <= a || ops == [] then {}
    else
      var n := |ops| - 1;
      TouchedSince(c, ops[..n], a)
      + if (ops[n].SetOp? || ops[n].GetOp?)
          && Touches(c, Run(c, ops[..n]), ops[n], ops[n].key) then {ops[n].key} else {}
  }

  // ----- recency order -----

  /** Entries in strictly descending order of a rank on their keys. */
  ghost predicate Ranked(s: seq<Entry>, f: string -> int) {
    && (forall i :: 0 <= i < |s| ==> f(s[i].key) >= 0)
    && (forall i, j :: 0 <= i < j < |s| ==> f(s[i].key) > f(s[j].key))
  }

  lemma PrependBelow(e: Entry, s: seq<Entry>, f: string -> int)
    requires Ranked(s, f) && 0 <= f(e.key) && forall i :: 0 <= i < |s| ==> f(s[i].key) < f(e.key)
    ensures Ranked([e] + s, f)
  {
  }

  lemma {:induction false} DropRanked(s: seq<Entry>, k: string, f: string -> int)
    requires Ranked(s, f)
    ensures Ranked(Drop(s, k), f)
    ensures forall i :: 0 <= i < |Drop(s, k)| ==> Drop(s, k)[i] in s && Drop(s, k)[i].key != k
  {
    if s != [] {
      hide Ranked;
      var d := Drop(s[1..], k);
      RankedTail(s, f, s[0]);
      DropRanked(s[1..], k, f);
      if s[0].key != k {
        forall i | 0 <= i < |d| ensures f(d[i].key) < f(s[0].key) { RankedTail(s, f, d[i]); }
        RankedTail(s, f, s[0]);
        PrependBelow(s[0], d, f);
      } else {
        forall i | 0 <= i < |s[1..]| ensures s[1..][i].key != k { RankedTail(s, f, s[1..][i]); }
        RankedTail(s, f, s[0]);
      }
    }
  }

  lemma RankedTail(s: seq<Entry>, f: string -> int, e: Entry)
    requires Ranked(s, f) && s != []
    ensures Ranked(s[1..], f) && f(s[0].key) >= 0
    ensures e in s[1..] ==> e in s && f(e.key) < f(s[0].key)
  {
  }

  lemma {:induction false} DropExpiredRanked(s: seq<Entry>, now: int, f: string -> int)
    requires Ranked(s, f)
    ensures Ranked(DropExpired(s, now), f)
    ensures forall i :: 0 <= i < |DropExpired(s, now)| ==> DropExpired(s, now)[i] in s
  {
    if s != [] {
      hide Ranked;
      var d := DropExpired(s[1..], now);
      RankedTail(s, f, s[0]);
      DropExpiredRanked(s[1..], now, f);
      forall i | 0 <= i < |d| ensures d[i] in s && f(d[i].key) < f(s[0].key) { RankedTail(s, f, d[i]); }
      RankedTail(s, f, s[0]);
      PrependBelow(s[0], d, f);
    }
  }

  /** The touched key in front outranks everything else. */
  lemma PrependRanked(e: Entry, s: seq<Entry>, f: string -> int, g: string -> int, n: int)
    requires Ranked(s, f) && 0 <= n && g(e.key) == n
    requires forall i :: 0 <= i < |s| ==> s[i].key != e.key && f(s[i].key) < n
    requires forall k :: k != e.key ==> g(k) == f(k)
    ensures Ranked([e] + s, g)
  {
  }

  function Rank(c: Config, ops: seq<Op>): string -> int {
    k => LastTouch(c, ops, k)
  }

  lemma RankAfter(c: Config, ops: seq<Op>, op: Op)
    ensures Run(c, ops + [op]) == Do(c, Run(c, ops), op)
    ensures forall k :: Rank(c, ops + [op])(k) == if Touches(c, Run(c, ops), op, k) then |ops| else Rank(c, ops)(k)
  {
    assert (ops + [op])[..|ops|] == ops;
  }

  lemma TouchRanks(c: Config, s: Cache, op: Op, f: string -> int, g: string -> int, n: int)
    requires c.enableLRU && Good(c, s) && Ranked(s.entries, f) && (op.SetOp? || op.GetOp?) && 0 <= n
    requires Touches(c, s, op, op.key) && g(op.key) == n && forall k :: k != op.key ==> g(k) == f(k)
    requires forall k :: f(k) < n
    ensures Ranked(Do(c, s, op).entries, g)
  {
    var k := op.key;
    DropRanked(s.entries, k, f);
    var e := if op.GetOp? then Lookup(s.entries, k) else Entry(k, op.value, Expiry(EffectiveTTL(c, op.ttl), op.now));
    PrependRanked(e, Drop(s.entries, k), f, g, n);
    if !Has(s.entries, k) {
      assert forall i :: 0 <= i < |s.entries| ==> s.entries[i].key != k;
      PrependRanked(e, s.entries, f, g, n);
    }
  }

  lemma OtherRanks(c: Config, s: Cache, op: Op, f: string -> int)
    requires Good(c, s) && Ranked(s.entries, f) && !op.SetOp?
    requires op.GetOp? ==> !Touches(c, s, op, op.key)
    ensures Ranked(Do(c, s, op).entries, f)
  {
    match op
    case GetOp(k, _) => DropRanked(s.entries, k, f);
    case DeleteOp(k) => DropRanked(s.entries, k, f);
    case ExistsOp(k, _) => DropRanked(s.entries, k, f);
    case ClearOp =>
    case SetTTLOp(k, ttl, now) =>
      if Has(s.entries, k) { ReplaceIs(s.entries, Lookup(s.entries, k).(expiresAt := Expiry(ttl, now))); }
    case CleanupOp(now) => DropExpiredRanked(s.entries, now, f);
  }

  /** After any trace, entries stand in the order of their last touch. */
  lemma {:induction false} RunIsRanked(c: Config, ops: seq<Op>)
    requires c.enableLRU
    ensures Ranked(Run(c, ops).entries, Rank(c, ops))
  {
    if ops != [] {
      var n := |ops| - 1;
      var front, op := ops[..n], ops[n];
      assert ops == front + [op];
      RunIsRanked(c, front);
      RunIsGood(c, front);
      RankAfter(c, front, op);
      var s, f, g := Run(c, front), Rank(c, front), Rank(c, ops);
      if (op.SetOp? || op.GetOp?) && Touches(c, s, op, op.key) {
        TouchRanks(c, s, op, f, g, n);
      } else {
        OtherRanks(c, s, op, f);
        assert forall k :: g(k) == f(k);
      }
    }
  }

  // ----- eviction -----

  /** A Set that makes another key disappear. */
  predicate Evicts(c: Config, s: Cache, op: Op, k: string) {
    op.SetOp? && Has(s.entries, k) && !Has(Do(c, s, op).entries, k)
  }

  /** Updating a key that is present removes nothing. */
  lemma UpdateKeeps(c: Config, s: Cache, op: Op, k: string)
    requires c.enableLRU && Good(c, s) && op.SetOp? && Has(s.entries, op.key) && Has(s.entries, k)
    ensures Has(Do(c, s, op).entries, k)
  {
    var t, d := Do(c, s, op).entries, Drop(s.entries, op.key);
    assert t[0].key == op.key && t[1..] == d;
    if k != op.key {
      DropIs(s.entries, op.key);
      assert Lookup(s.entries, k) in d;
      var j :| 0 <= j < |d| && d[j] == Lookup(s.entries, k);
      assert t[j + 1].key == k;
    }
  }

  /** Inserting a new key, with or without eviction, loses at most the last entry. */
  lemma InsertKeeps(c: Config, s: Cache, op: Op)
    requires c.enableLRU && Good(c, s) && op.SetOp? && !Has(s.entries, op.key)
    ensures var t := Do(c, s, op).entries;
            && t != [] && t[0].key == op.key
            && (t[1..] == s.entries
                || (c.maxSize > 0 && |t| == c.maxSize && s.entries != [] && t[1..] == s.entries[..|s.entries| - 1]))
  {
    var e := Entry(op.key, op.value, Expiry(EffectiveTTL(c, op.ttl), op.now));
    var i := Inserted(c, s, e);
    InsertedIs(c, s, e);
    assert i.entries == [e] + s.entries;
    hide Has, Distinct;
    var t := Do(c, s, op).entries;
    assert t == if MustEvict(c, i) then i.entries[..|s.entries|] else i.entries;
  }

  lemma EvictsLast(c: Config, s: Cache, op: Op, k: string)
    requires c.enableLRU && Good(c, s) && Evicts(c, s, op, k)
    ensures k != op.key && s.entries != [] && s.entries[|s.entries| - 1].key == k
    ensures c.maxSize > 0 && |Do(c, s, op).entries| == c.maxSize
  {
    var t := Do(c, s, op).entries;
    if Has(s.entries, op.key) { UpdateKeeps(c, s, op, k); }
    InsertKeeps(c, s, op);
    hide Do, Good;
    var n :| 0 <= n < |s.entries| && s.entries[n].key == k;
    assert forall m :: 0 <= m < |t[1..]| ==> t[1..][m] == t[m + 1] && t[m + 1].key != k;
    assert !(n < |t[1..]|);
  }

  /** An evicted key is always the one whose last Set or hit is oldest. */
  lemma EvictsOldest(c: Config, ops: seq<Op>, op: Op, k: string, j: string)
    requires c.enableLRU && Evicts(c, Run(c, ops), op, k) && Has(Run(c, ops).entries, j) && j != k
    ensures LastTouch(c, ops, k) < LastTouch(c, ops, j)
  {
    hide Run, Do, Evicts, Good, LastTouch;
    RunIsGood(c, ops);
    RunIsRanked(c, ops);
    EvictsLast(c, Run(c, ops), op, k);
    var f := Rank(c, ops);
    assert f(k) == LastTouch(c, ops, k) && f(j) == LastTouch(c, ops, j);
  }

  // ----- retention -----

  function Keys(s: seq<Entry>): set<string> {
    set i | 0 <= i < |s| :: s[i].key
  }

  lemma {:induction false} KeysCount(s: seq<Entry>)
    requires Distinct(s)
    ensures |Keys(s)| == |s|
  {
    if s != [] {
      KeysCount(s[1..]);
      assert Keys(s) == Keys(s[1..]) + {s[0].key} by {
        forall k | k in Keys(s) ensures k in Keys(s[1..]) + {s[0].key} {
          var i :| 0 <= i < |s| && s[i].key == k;
          if i > 0 { assert s[1..][i - 1].key == k; }
        }
        forall k | k in Keys(s[1..]) ensures k in Keys(s) {
          var i :| 0 <= i < |s[1..]| && s[1..][i].key == k;
          assert s[i + 1].key == k;
        }
      }
      assert s[0].key !in Keys(s[1..]);
    }
  }

  lemma {:induction false} TouchedAfter(c: Config, ops: seq<Op>, a: int, k: string)
    requires LastTouch(c, ops, k) > a >= -1
    ensures k in TouchedSince(c, ops, a)
  {
    var n := |ops| - 1;
    if !Touches(c, Run(c, ops[..n]), ops[n], k) { TouchedAfter(c, ops[..n], a, k); }
  }

  lemma {:induction false} TouchedSinceGrows(c: Config, ops: seq<Op>, a: int, b: int)
    requires a <= b
    ensures TouchedSince(c, ops, b) <= TouchedSince(c, ops, a)
  {
    if ops != [] { TouchedSinceGrows(c, ops[..|ops| - 1], a, b); }
  }

  /** No key is evicted before MaxSize distinct other keys have been touched since its own last touch. */
  lemma EvictionNeedsOthers(c: Config, ops: seq<Op>, op: Op, k: string)
    requires c.enableLRU && Evicts(c, Run(c, ops), op, k)
    ensures |TouchedSince(c, ops + [op], LastTouch(c, ops, k)) - {k}| >= c.maxSize
  {
    var s, all := Run(c, ops), ops + [op];
    RunIsGood(c, ops);
    EvictsLast(c, s, op, k);
    RankAfter(c, ops, op);
    RunIsGood(c, all);
    var t := Run(c, all).entries;
    KeysCount(t);
    var touched := TouchedSince(c, all, LastTouch(c, ops, k));
    forall j | j in Keys(t) ensures j in touched - {k} {
      var i :| 0 <= i < |t| && t[i].key == j;
      assert j != k;
      if j != op.key {
        KeptFrom(c, s, op, j);
        EvictsOldest(c, ops, op, k, j);
      }
      assert Rank(c, all)(j) == LastTouch(c, all, j);
      TouchedAfter(c, all, LastTouch(c, ops, k), j);
    }
    SubsetCount(Keys(t), touched - {k});
  }

  lemma KeptFrom(c: Config, s: Cache, op: Op, j: string)
    requires c.enableLRU && Good(c, s) && op.SetOp? && j != op.key && Has(Do(c, s, op).entries, j)
    ensures Has(s.entries, j)
  {
    var t := Do(c, s, op).entries;
    var i :| 0 <= i < |t| && t[i].key == j;
    if Has(s.entries, op.key) {
      DropIs(s.entries, op.key);
      assert t[1..] == Drop(s.entries, op.key) && t[i] in t[1..];
      assert t[i] in s.entries;
    } else {
      InsertKeeps(c, s, op);
      assert t[i] == t[1..][i - 1];
      assert t[i] in s.entries;
    }
  }

  lemma SubsetCount(a: set<string>, b: set<string>)
    requires a <= b
    ensures |a| <= |b|
  {
    assert b == a + (b - a);
  }

  /** An operation that removes `k` because it was asked to, or because `k` has expired. */
  predicate RemovesForCause(s: Cache, op: Op, k: string) {
    match op
    case DeleteOp(key) => key == k
    case ClearOp => true
    case GetOp(key, now) => key == k && Has(s.entries, k) && IsExpired(Lookup(s.entries, k), now)
    case ExistsOp(key, now) => key == k && Has(s.entries, k) && IsExpired(Lookup(s.entries, k), now)
    case CleanupOp(now) => Has(s.entries, k) && IsExpired(Lookup(s.entries, k), now)
    case _ => false
  }

  lemma StaysAfterDrop(c: Config, s: Cache, op: Op, k: string)
    requires Good(c, s) && Has(s.entries, k) && !RemovesForCause(s, op, k)
    requires op.GetOp? || op.DeleteOp? || op.ExistsOp?
    ensures Has(Do(c, s, op).entries, k)
  {
    var e := Lookup(s.entries, k);
    DropMembers(s.entries, op.key);
    hide Drop, Distinct;
    assert op.key != k ==> e in Drop(s.entries, op.key);
    assert e in Do(c, s, op).entries;
  }

  lemma StaysWithoutCause(c: Config, s: Cache, op: Op, k: string)
    requires Good(c, s) && Has(s.entries, k) && !RemovesForCause(s, op, k)
    ensures Has(Do(c, s, op).entries, k) || Evicts(c, s, op, k)
  {
    match op
    case SetOp(_, _, _, _) =>
    case ClearOp =>
    case SetTTLOp(key, ttl, now) =>
      if Has(s.entries, key) {
        ReplaceIs(s.entries, Lookup(s.entries, key).(expiresAt := Expiry(ttl, now)));
        var i :| 0 <= i < |s.entries| && s.entries[i].key == k;
        assert Do(c, s, op).entries[i].key == k;
      }
    case CleanupOp(now) =>
      DropExpiredIs(s.entries, now);
      assert Lookup(s.entries, k) in Do(c, s, op).entries;
    case _ => StaysAfterDrop(c, s, op, k);
  }

  lemma {:induction false} TouchedIsRecent(c: Config, ops: seq<Op>, a: nat, k: string)
    requires a < |ops| && Touches(c, Run(c, ops[..a]), ops[a], k)
    ensures LastTouch(c, ops, k) >= a
  {
    hide Run, Touches;
    var n := |ops| - 1;
    if a < n {
      assert ops[..n][..a] == ops[..a];
      TouchedIsRecent(c, ops[..n], a, k);
    }
  }

  /**
   Retention: a key touched at step `a` is still there at the end of the trace, if fewer than
   MaxSize distinct other keys were touched since and nothing removed it for cause.
   */
  lemma {:induction false} Retained(c: Config, ops: seq<Op>, a: nat, k: string)
    requires c.enableLRU && a < |ops| && Touches(c, Run(c, ops[..a]), ops[a], k)
    requires forall m :: a < m < |ops| ==> !RemovesForCause(Run(c, ops[..m]), ops[m], k)
    requires c.maxSize > 0 ==> |TouchedSince(c, ops, a) - {k}| < c.maxSize
    ensures Has(Run(c, ops).entries, k)
  {
    hide Run, Do, Evicts, Good, LastTouch, Touches, TouchedSince, RemovesForCause, Has, Rank;
    var n := |ops| - 1;
    var front, op := ops[..n], ops[n];
    assert ops == front + [op];
    RankAfter(c, front, op);
    RunIsGood(c, front);
    if a == n {
      TouchedIsPresent(c, Run(c, front), op, k);
    } else {
      assert front[..a] == ops[..a];
      assert forall m :: a < m < n ==> front[..m] == ops[..m];
      TouchedSinceFront(c, ops, a);
      SubsetCount(TouchedSince(c, front, a) - {k}, TouchedSince(c, ops, a) - {k});
      Retained(c, front, a, k);
      StaysWithoutCause(c, Run(c, front), op, k);
      if Evicts(c, Run(c, front), op, k) { RetainedAgainstEviction(c, front, op, a, k); }
    }
  }

  lemma TouchedSinceFront(c: Config, ops: seq<Op>, a: int)
    requires ops != []
    ensures TouchedSince(c, ops[..|ops| - 1], a) <= TouchedSince(c, ops, a)
  {
    hide Run, Touches;
  }

  /** If the key touched at step `a` is evicted, enough other keys were touched since. */
  lemma RetainedAgainstEviction(c: Config, ops: seq<Op>, op: Op, a: nat, k: string)
    requires c.enableLRU && a < |ops| && Touches(c, Run(c, ops[..a]), ops[a], k) && Evicts(c, Run(c, ops), op, k)
    ensures c.maxSize > 0 && |TouchedSince(c, ops + [op], a) - {k}| >= c.maxSize
  {
    hide Run, Do, Evicts, Good, LastTouch, Touches, TouchedSince;
    RunIsGood(c, ops);
    EvictionNeedsOthers(c, ops, op, k);
    EvictsLast(c, Run(c, ops), op, k);
    TouchedIsRecent(c, ops, a, k);
    var last := LastTouch(c, ops, k);
    TouchedSinceGrows(c, ops + [op], a, last);
    SubsetCount(TouchedSince(c, ops + [op], last) - {k}, TouchedSince(c, ops + [op], a) - {k});
  }

  lemma TouchedIsPresent(c: Config, s: Cache, op: Op, k: string)
    requires Good(c, s) && Touches(c, s, op, k)
    ensures Has(Do(c, s, op).entries, k)
  {
    if op.SetOp? {
      SetIsGood(c, s, k, op.value, op.ttl, op.now);
    } else if c.enableLRU {
      assert Do(c, s, op).entries[0].key == k;
    }
  }
}
