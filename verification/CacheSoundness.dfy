/**
 With eviction on: whatever is evicted, cleaned up or revived, and however the clock reads, the cache
 answers as the plain table of timestamped values does, or it answers with a miss.
 */
module CacheSoundness {
  import opened Wrappers
  import opened CacheModel
  import opened CacheInvariant
  import opened CacheRefinement

  /** Every stored entry is the table's. */
  ghost predicate Within(s: Cache, m: Table) {
    forall e :: e in s.entries ==> e.key in m && m[e.key] == e
  }

  /** The cache may have lost what it is asked for. */
  predicate SameOrMiss(a: Answer, b: Answer) {
    a == b || a == Value(None) || a == Present(false)
  }

  lemma SetWithin(c: Config, s: Cache, m: Table, op: Op)
    requires op.SetOp? && Within(s, m) && Good(c, s)
    ensures Within(Do(c, s, op), TableDo(c, m, op))
  {
    hide Set, Good;
    forall e | e in Do(c, s, op).entries ensures e.key in TableDo(c, m, op) && TableDo(c, m, op)[e.key] == e {
      SetMembers(c, s, op.key, op.value, op.ttl, op.now, e);
    }
  }

  lemma SetTTLWithin(c: Config, s: Cache, m: Table, op: Op)
    requires op.SetTTLOp? && Within(s, m) && Good(c, s)
    ensures Within(Do(c, s, op), TableDo(c, m, op))
    ensures SameOrMiss(CacheAnswer(c, s, op), TableAnswer(m, op))
  {
    if Has(s.entries, op.key) {
      var n := Lookup(s.entries, op.key).(expiresAt := Expiry(op.ttl, op.now));
      forall e | e in Do(c, s, op).entries ensures e.key in TableDo(c, m, op) && TableDo(c, m, op)[e.key] == e {
        ReplaceMembers(s.entries, n, e);
      }
    }
  }

  lemma DropWithin(c: Config, s: Cache, m: Table, op: Op)
    requires (op.DeleteOp? || op.ExistsOp? || op.ClearOp? || op.CleanupOp?) && Within(s, m) && Good(c, s)
    ensures Within(Do(c, s, op), TableDo(c, m, op))
    ensures SameOrMiss(CacheAnswer(c, s, op), TableAnswer(m, op))
  {
    match op
    case DeleteOp(k) => DeleteMembers(c, s, k);
    case ExistsOp(k, _) => DropIs(s.entries, k);
    case ClearOp =>
    case CleanupOp(now) => DropExpiredIs(s.entries, now);
  }

  /** Every operation, under every configuration. */
  lemma DoWithin(c: Config, s: Cache, m: Table, op: Op)
    requires Within(s, m) && Good(c, s)
    ensures Within(Do(c, s, op), TableDo(c, m, op))
    ensures SameOrMiss(CacheAnswer(c, s, op), TableAnswer(m, op))
  {
    hide Good;
    match op
    case GetOp(k, now) => GetMembers(c, s, k, now);
    case SetOp(_, _, _, _) => SetWithin(c, s, m, op);
    case SetTTLOp(_, _, _) => SetTTLWithin(c, s, m, op);
    case _ => DropWithin(c, s, m, op);
  }

  /** Over every trace from agreeing states, each answer is the table's or a miss. */
  lemma {:induction false} AnswersOrMisses(c: Config, s: Cache, m: Table, ops: seq<Op>)
    requires Within(s, m) && Good(c, s)
    ensures |Answers(c, s, ops)| == |TableAnswers(c, m, ops)|
    ensures forall i :: 0 <= i < |Answers(c, s, ops)| ==> SameOrMiss(Answers(c, s, ops)[i], TableAnswers(c, m, ops)[i])
    decreases |ops|
  {
    if ops != [] {
      hide Within, Good, Do, CacheAnswer, TableAnswer, SameOrMiss;
      DoWithin(c, s, m, ops[0]);
      DoIsGood(c, s, ops[0]);
      AnswersOrMisses(c, Do(c, s, ops[0]), TableDo(c, m, ops[0]), ops[1..]);
    }
  }
}
