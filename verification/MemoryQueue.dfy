/** The in-memory job queue: a map of jobs, a heap of pending ones, and a record of scheduled ones. */
module MemoryQueue {
  import opened Wrappers
  import opened JobHeap
  import opened JobProtocol

  /** What ends a wait in Dequeue. */
  datatype Event = Cancelled | TimedOut | Notified

  class Queue {
    var jobs: map<nat, Job>
    const pending: Heap
    var scheduled: set<nat>  // keys of `scheduledJobs`; written, never read
    var closed: bool

    predicate Valid()
      reads this, pending
    {
      pending.Valid()
    }

    ghost function Pending(): multiset<Entry>
      reads this, pending
    {
      multiset(pending.h)
    }

    constructor ()
      ensures Valid() && fresh(pending) && jobs == map[] && Pending() == multiset{} && !closed
    {
      jobs, scheduled, closed := map[], {}, false;
      pending := new Heap();
    }

    /** Stores the job, and pushes it unless its time is still to come. */
    method Enqueue(id: nat, job: Job, now: int) returns (ok: bool)
      requires Valid()
      modifies this, pending
      ensures Valid() && closed == old(closed) && ok == !closed
      ensures !ok ==> jobs == old(jobs) && Pending() == old(Pending()) && scheduled == old(scheduled)
      ensures ok ==> jobs == old(jobs)[id := job]
      ensures ok && job.scheduleAt.Some? && job.scheduleAt.value > now ==>
                Pending() == old(Pending()) && scheduled == old(scheduled) + {id}
      ensures ok && (job.scheduleAt.None? || job.scheduleAt.value <= now) ==>
                && Pending() == old(Pending()) + multiset{Entry(id, job.priority, job.createdAt)}
                && scheduled == old(scheduled)
    {
      if closed {
        return false;
      }
      jobs := jobs[id := job];
      if !IsScheduled(job, now) {
        pending.Push(EntryOf(id, job));
        return true;
      }
      scheduled := scheduled + {id};
      return true;
    }

    /** The first try of Dequeue: no pending job comes before the one returned; if there is none, it goes on to wait. */
    method Dequeue() returns (e: Option<Entry>)
      requires Valid()
      modifies pending
      ensures Valid() && (e.None? <==> closed || old(Pending()) == multiset{})
      ensures e.None? ==> Pending() == old(Pending())
      ensures e.Some? ==> e.value in old(Pending()) && Pending() == old(Pending()) - multiset{e.value}
      ensures e.Some? ==> forall f :: f in old(Pending()) ==>
                f.priority < e.value.priority || (f.priority == e.value.priority && f.createdAt >= e.value.createdAt)
    {
      if closed || pending.h == [] {
        return None;
      }
      ghost var before := pending.h;
      assert before[0] in multiset(before);
      var x := pending.Pop();
      assert multiset(before)[x] > 0;
      forall f | f in multiset(before)
        ensures f.priority < x.priority || (f.priority == x.priority && f.createdAt >= x.createdAt)
      {
        assert f == x || f in multiset(pending.h);
      }
      return Some(x);
    }

    /** The rest of Dequeue, for one event it waits for: only a notification makes it look again. */
    method Wake(event: Event) returns (e: Option<Entry>)
      requires Valid()
      modifies pending
      ensures Valid() && (e.None? <==> event != Notified || closed || old(Pending()) == multiset{})
      ensures e.None? ==> Pending() == old(Pending())
      ensures e.Some? ==> e.value in old(Pending()) && Pending() == old(Pending()) - multiset{e.value}
      ensures e.Some? ==> forall f :: f in old(Pending()) ==>
                f.priority < e.value.priority || (f.priority == e.value.priority && f.createdAt >= e.value.createdAt)
    {
      match event {
        case Cancelled => return None;
        case TimedOut => return None;
        case Notified => e := Dequeue();
      }
    }

    method Schedule(id: nat, job: Job) returns (ok: bool)
      requires Valid()
      modifies this`jobs, this`scheduled
      ensures Valid() && ok == !closed
      ensures jobs == if ok then old(jobs)[id := job] else old(jobs)
    {
      if closed {
        return false;
      }
      jobs := jobs[id := job];
      scheduled := scheduled + {id};
      return true;
    }

    /** Stores the job; only a pending one is pushed. */
    method UpdateJob(id: nat, job: Job) returns (ok: bool)
      requires Valid()
      modifies this, pending
      ensures Valid() && closed == old(closed) && ok == !closed
      ensures jobs == if ok then old(jobs)[id := job] else old(jobs)
      ensures Pending() == old(Pending())
          + if ok && job.status == Status.Pending then multiset{EntryOf(id, job)} else multiset{}
    {
      if closed {
        return false;
      }
      jobs := jobs[id := job];
      match job.status {
        case Pending =>
          scheduled := scheduled - {id};
          pending.Push(EntryOf(id, job));
        case Scheduled => scheduled := scheduled + {id};
        case Retrying => scheduled := scheduled + {id};
        case Running =>
        case _ => scheduled := scheduled - {id};
      }
      return true;
    }

    /** Up to `limit` jobs of a status (all of them when `limit` is not positive), each once, in no particular order. */
    method GetJobs(status: Status, limit: int) returns (ok: bool, ids: seq<nat>)
      ensures ok == !closed && (!ok ==> ids == [])
      ensures forall i :: 0 <= i < |ids| ==> ids[i] in jobs && jobs[ids[i]].status == status
      ensures forall i, j :: 0 <= i < j < |ids| ==> ids[i] != ids[j]
      ensures limit > 0 ==> |ids| <= limit
      ensures ok && (limit <= 0 || |ids| < limit) ==> forall id :: id in jobs && jobs[id].status == status ==> id in ids
    {
      if closed {
        return false, [];
      }
      ok, ids := true, [];
      var rest := jobs.Keys;
      while rest != {}
        invariant rest <= jobs.Keys && (limit > 0 ==> |ids| < limit)
        invariant forall i :: 0 <= i < |ids| ==> ids[i] in jobs && jobs[ids[i]].status == status && ids[i] !in rest
        invariant forall i, j :: 0 <= i < j < |ids| ==> ids[i] != ids[j]
        invariant forall id :: id in jobs && jobs[id].status == status ==> id in ids || id in rest
        decreases rest
      {
        var id :| id in rest;
        rest := rest - {id};
        if jobs[id].status == status {
          ids := ids + [id];
          if limit > 0 && |ids| >= limit {
            break;
          }
        }
      }
    }
  }

  // ----- any sequence of operations -----

  datatype Operation = Add(id: nat, job: Job, now: int) | Update(id: nat, job: Job) | Take

  /** The entries an operation pushes. */
  function Pushed(op: Operation): multiset<Entry> {
    match op
    case Add(id, j, now) => if IsScheduled(j, now) then multiset{} else multiset{EntryOf(id, j)}
    case Update(id, j) => if j.status == Pending then multiset{EntryOf(id, j)} else multiset{}
    case Take => multiset{}
  }

  function AllPushed(ops: seq<Operation>): multiset<Entry> {
    if ops == [] then multiset{} else AllPushed(ops[..|ops| - 1]) + Pushed(ops[|ops| - 1])
  }

  function Taken(e: Option<Entry>): multiset<Entry> {
    if e.Some? then multiset{e.value} else multiset{}
  }

  method TakeOne(q: Queue) returns (e: Option<Entry>)
    requires q.Valid() && !q.closed
    modifies q.pending
    ensures q.Valid() && q.Pending() + Taken(e) == old(q.Pending())
  {
    e := q.Dequeue();
    if e.Some? {
      hide Taken;
      TakenBack(old(q.Pending()), e.value);
    }
  }

  lemma TakenBack(p: multiset<Entry>, x: Entry)
    requires x in p
    ensures p - multiset{x} + Taken(Some(x)) == p
  {
  }

  method Perform(q: Queue, op: Operation) returns (e: Option<Entry>)
    requires q.Valid() && !q.closed
    modifies q, q.pending
    ensures q.Valid() && !q.closed && q.Pending() + Taken(e) == old(q.Pending()) + Pushed(op)
  {
    e := None;
    ghost var before := q.Pending();
    match op {
      case Add(id, j, now) =>
        var _ := q.Enqueue(id, j, now);
        assert q.Pending() == before + Pushed(op);
      case Update(id, j) =>
        var _ := q.UpdateJob(id, j);
        assert q.Pending() == before + Pushed(op);
      case Take =>
        e := TakeOne(q);
    }
  }

  lemma Regroup(p: multiset<Entry>, t: multiset<Entry>, b: multiset<Entry>, x: multiset<Entry>, h: multiset<Entry>)
    requires p + t == b + x
    ensures p + (h + t) == (b + h) + x
  {
    forall e: Entry ensures (p + (h + t))[e] == ((b + h) + x)[e] {
      assert (p + t)[e] == (b + x)[e];
    }
  }

  /** Over any sequence of operations, what is pending is exactly what was pushed and not yet taken. */
  method Replay(q: Queue, ops: seq<Operation>) returns (taken: seq<Entry>)
    requires q.Valid() && !q.closed
    modifies q, q.pending
    ensures q.Valid() && !q.closed
    ensures q.Pending() + multiset(taken) == old(q.Pending()) + AllPushed(ops)
  {
    hide Pushed;
    taken := [];
    for i := 0 to |ops|
      invariant q.Valid() && !q.closed
      invariant q.Pending() + multiset(taken) == old(q.Pending()) + AllPushed(ops[..i])
    {
      assert ops[..i + 1][..i] == ops[..i];
      ghost var before, had := q.Pending(), multiset(taken);
      var e := Perform(q, ops[i]);
      if e.Some? {
        taken := taken + [e.value];
      }
      assert multiset(taken) == had + Taken(e);
      Regroup(q.Pending(), Taken(e), before, Pushed(ops[i]), had);
      assert AllPushed(ops[..i + 1]) == AllPushed(ops[..i]) + Pushed(ops[i]);
    }
    assert ops[..|ops|] == ops;
  }
}
