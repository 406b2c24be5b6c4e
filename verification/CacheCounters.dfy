/** What the cache's running statistics count, over every sequence of operations. */
module CacheCounters {
  import opened Wrappers
  import opened CacheModel
  import opened CacheInvariant

  datatype Event = Hit | Miss | Write | Removal | Eviction

  /** The operation on this state is such an event. */
  predicate Counts(c: Config, s: Cache, op: Op, event: Event) {
    match event
    case Hit => op.GetOp? && Get(c, s, op.key, op.now).1.Some?
    case Miss => op.GetOp? && Get(c, s, op.key, op.now).1.None?
    case Write => op.SetOp?
    case Removal => op.DeleteOp? && Has(s.entries, op.key)
    case Eviction => op.SetOp? && !Has(s.entries, op.key) && c.enableLRU && 0 < c.maxSize <= |s.entries|
  }

  /** How many operations of a sequence are such an event. */
  function Tally(c: Config, ops: seq<Op>, event: Event): nat {
    if ops == [] then 0
    else
      var n := |ops| - 1;
      Tally(c, ops[..n], event) + if Counts(c, Run(c, ops[..n]), ops[n], event) then 1 else 0
  }

  /** The counter for each kind of event. */
  function Counter(st: Stats, event: Event): int {
    match event
    case Hit => st.hits
    case Miss => st.misses
    case Write => st.sets
    case Removal => st.deletes
    case Eviction => st.evictions
  }

  lemma SetCounts(c: Config, s: Cache, op: Op, event: Event)
    requires Good(c, s) && c.enableStats && op.SetOp?
    ensures Counter(Do(c, s, op).stats, event) == Counter(s.stats, event) + if Counts(c, s, op, event) then 1 else 0
  {
    hide Has, Drop, Replace, Lookup, Bytes, Distinct;
  }

  lemma OtherCounts(c: Config, s: Cache, op: Op, event: Event)
    requires c.enableStats && !op.SetOp?
    ensures Counter(Do(c, s, op).stats, event) == Counter(s.stats, event) + if Counts(c, s, op, event) then 1 else 0
  {
    hide Has, Drop, Replace, Lookup, Bytes, DropExpired;
  }

  lemma StatsOff(c: Config, s: Cache, op: Op)
    requires !c.enableStats
    ensures Do(c, s, op).stats == s.stats
  {
    hide Has, Drop, Replace, Lookup, Bytes, DropExpired;
  }

  /**
   Hits and misses count the Gets that found and did not find a value, sets the Sets, deletes the
   Deletes of a stored key, and evictions the Sets of a new key in a full cache; with statistics off
   every counter stays zero.
   */
  lemma {:induction false} CountersTally(c: Config, ops: seq<Op>, event: Event)
    ensures Counter(Run(c, ops).stats, event) == if c.enableStats then Tally(c, ops, event) else 0
  {
    if ops != [] {
      hide Do, Counts, Counter, Good;
      var n := |ops| - 1;
      var s, op := Run(c, ops[..n]), ops[n];
      CountersTally(c, ops[..n], event);
      RunIsGood(c, ops[..n]);
      if !c.enableStats {
        StatsOff(c, s, op);
      } else if op.SetOp? {
        SetCounts(c, s, op, event);
      } else {
        OtherCounts(c, s, op, event);
      }
    }
  }
}
