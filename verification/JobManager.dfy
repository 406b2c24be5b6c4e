/**
 The job manager's code: fields updated in place, over a heap of pending jobs.  Each method is one
 atomic action of the source and takes exactly the corresponding step of the protocol.
 */
module JobManager {
  import opened Wrappers
  import opened JobHeap
  import opened JobProtocol
  import opened MemoryQueue

  class Manager {
    const config: Config
    const queue: Queue
    var workers: map<nat, Worker>
    var timers: multiset<nat>
    var batch: seq<nat>
    var batchAt: int
    var now: int
    var processed: nat
    var failed: nat
    var retried: nat
    var calls: map<nat, nat>
    ghost var strays: set<nat>

    ghost function View(): State
      reads this, queue, queue.pending
    {
      State(queue.jobs, queue.Pending(), workers, timers, batch, batchAt, now, processed, failed, retried, calls,
            strays)
    }

    predicate Valid()
      reads this, queue, queue.pending
    {
      queue.Valid() && !queue.closed
    }

    constructor (config: Config, now: int)
      ensures Valid() && fresh(queue) && fresh(queue.pending) && this.config == config
      ensures Init(config, View()) && View().now == now
    {
      this.config := config;
      this.now, batchAt := now, now;
      queue := new Queue();
      workers := map w | w in config.workers :: Idle;
      timers, batch, calls := multiset{}, [], map[];
      processed, failed, retried := 0, 0, 0;
      strays := {};
    }

    /** Hands a job to the queue. */
    method Hand(id: nat, job: Job)
      requires Valid()
      modifies queue, queue.pending
      ensures Valid() && View() == Put(old(View()), id, job)
      ensures id in queue.jobs && queue.jobs[id] == job
    {
      var _ := queue.Enqueue(id, job, now);
      assert queue.Pending() == Put(old(View()), id, job).heap;
    }

    method Enqueue(id: nat, job: Job)
      requires Valid()
      modifies this, queue, queue.pending
      ensures Valid() && View() == Accept(config, old(View()), id, job)
      ensures id in queue.jobs && queue.jobs[id] == job.(maxAttempts := queue.jobs[id].maxAttempts)
      ensures queue.jobs[id].maxAttempts == if job.maxAttempts != 0 then job.maxAttempts else config.maxRetries
    {
      var j := job;
      if j.maxAttempts == 0 {
        j := j.(maxAttempts := config.maxRetries);
      }
      hide Put;
      Hand(id, j);
      calls := calls[id := 0];
      if j.status == Pending && IsScheduled(j, now) { strays := strays + {id}; }
    }

    method Schedule(id: nat, job: Job)
      requires Valid()
      modifies this, queue
      ensures Valid() && View() == Deposit(config, old(View()), id, job)
      ensures id in queue.jobs && queue.jobs[id] == job.(maxAttempts := queue.jobs[id].maxAttempts)
      ensures queue.jobs[id].maxAttempts == if job.maxAttempts != 0 then job.maxAttempts else config.maxRetries
    {
      var j := job;
      if j.maxAttempts == 0 {
        j := j.(maxAttempts := config.maxRetries);
      }
      var _ := queue.Schedule(id, j);
      calls := calls[id := 0];
      if j.status == Pending { strays := strays + {id}; }
    }

    /** A worker takes the first pending job, or times out when there is none. */
    method Dequeue(w: nat) returns (e: Option<Entry>)
      requires Valid() && w in workers && workers[w].Idle?
      modifies this`workers, queue.pending
      ensures Valid() && (e.None? <==> old(View().heap) == multiset{})
      ensures e.None? ==> View() == old(View())
      ensures e.Some? ==> Enabled(old(View()), Step.Dequeue(w, e.value))
      ensures e.Some? ==> View() == Apply(config, old(View()), Step.Dequeue(w, e.value))
      ensures e.Some? ==> forall f :: f in old(View().heap) ==>
                f.priority < e.value.priority || (f.priority == e.value.priority && f.createdAt >= e.value.createdAt)
    {
      e := queue.Dequeue();
      if e.Some? {
        workers := workers[w := Popped(e.value.id)];
      }
    }

    /** `processJob` up to the handler look-up. */
    method Start(w: nat)
      requires Valid() && Enabled(View(), Step.Start(w))
      modifies this`workers, queue, queue.pending
      ensures Valid() && View() == Apply(config, old(View()), Step.Start(w))
    {
      var id := workers[w].id;
      var job := queue.jobs[id];
      job := job.(status := Running);
      job := job.(attempts := job.attempts + 1);
      var _ := queue.UpdateJob(id, job);
      workers := workers[w := Looking(id)];
    }

    /** Storing a result: the job's status in the queue, and what is left to count. */
    method Store(w: nat, outcome: Outcome)
      requires Valid() && At(View(), w)
      modifies this`workers, queue, queue.pending
      ensures Valid() && View() == Record(old(View()), w, outcome)
      ensures var id := old(workers[w].id); id in queue.jobs && queue.jobs[id].status == StatusOf(outcome)
    {
      var id := workers[w].id;
      var _ := queue.UpdateJob(id, queue.jobs[id].(status := StatusOf(outcome)));
      workers := workers[w := Closing(id, outcome)];
    }

    /** The handler look-up: without a handler the job fails at once, otherwise the handler is called. */
    method LookUp(w: nat, registered: bool)
      requires Valid() && Enabled(View(), Step.Invoke(w))
      modifies this`workers, this`calls, queue, queue.pending
      ensures Valid()
      ensures View() == Apply(config, old(View()), if registered then Step.Invoke(w) else Step.NoHandler(w))
    {
      if !registered {
        Store(w, Fail);
        return;
      }
      var id := workers[w].id;
      workers := workers[w := Handling(id)];
      calls := calls[id := calls[id] + 1];
    }

    /** The handler returns: the status is stored, as a retry only while attempts remain. */
    method Return(w: nat, result: Result)
      requires Valid() && Enabled(View(), Step.Return(w, result))
      modifies this`workers, queue, queue.pending
      ensures Valid() && View() == Apply(config, old(View()), Step.Return(w, result))
      ensures var id, attempts, limit := old(workers[w].id), old(queue.jobs[workers[w].id].attempts),
                                         old(queue.jobs[workers[w].id].maxAttempts);
              && id in queue.jobs
              && (result == Ok ==> queue.jobs[id].status == Completed)
              && (result == PlainError ==> queue.jobs[id].status == Failed)
              && (result == RetryableError ==> queue.jobs[id].status == if attempts < limit then Retrying else Failed)
    {
      hide Record;
      var job := queue.jobs[workers[w].id];
      if result != Ok {
        if result == RetryableError && job.attempts < job.maxAttempts {
          Store(w, Retry);
          return;
        }
        Store(w, Fail);
        return;
      }
      Store(w, Done);
    }

    /** The counters, and the goroutine that sleeps before a retry. */
    method Close(w: nat)
      requires Valid() && Enabled(View(), Step.Close(w))
      modifies this`workers, this`processed, this`failed, this`retried, this`timers
      ensures Valid() && View() == Apply(config, old(View()), Step.Close(w))
    {
      hide IsFirst, IsBatch, Fresh, EntryOf;
      var Closing(id, outcome) := workers[w];
      match outcome {
        case Done => processed := processed + 1;
        case Fail => failed := failed + 1;
        case Retry =>
          retried := retried + 1;
          timers := timers + multiset{id};
      }
      workers := workers[w := Idle];
    }

    /** The retry goroutine wakes up and enqueues its job. */
    method Fire(id: nat)
      requires Valid() && Enabled(View(), Step.Fire(id))
      modifies this`timers, queue, queue.pending
      ensures Valid() && View() == Apply(config, old(View()), Step.Fire(id))
    {
      hide Put;
      Hand(id, queue.jobs[id].(status := Pending));
      timers := timers - multiset{id};
    }

    /** A tick of the schedule processor reads up to 100 scheduled jobs. */
    method Snapshot() returns (ids: seq<nat>)
      requires Valid() && batch == []
      modifies this`batch, this`batchAt
      ensures Valid() && Enabled(old(View()), Step.Snapshot(ids))
      ensures View() == Apply(config, old(View()), Step.Snapshot(ids))
    {
      var _, jobs := queue.GetJobs(Scheduled, BATCH_LIMIT);
      ids := jobs;
      batch, batchAt := ids, now;
    }

    /** The schedule processor looks at one job of the tick. */
    method Release()
      requires Valid() && Enabled(View(), Step.Release)
      modifies this`batch, queue, queue.pending
      ensures Valid() && View() == Apply(config, old(View()), Step.Release)
      ensures var id, job := old(batch[0]), old(queue.jobs[batch[0]]);
              && id in queue.jobs
              && queue.jobs[id] == if job.scheduleAt.Some? && job.scheduleAt.value > old(batchAt) then job
                                   else job.(status := Pending, scheduleAt := None)
    {
      var id := batch[0];
      batch := batch[1..];
      var job := queue.jobs[id];
      if Due(job, batchAt) {
        Hand(id, job.(status := Pending, scheduleAt := None));
      }
    }
  }
}
