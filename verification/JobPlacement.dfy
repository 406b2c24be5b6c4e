/** In every run of the job manager, every accepted job is in exactly one place. */
module JobPlacement {
  import opened JobHeap
  import opened JobProtocol

  /** A worker's stage fits the status of the job it holds. */
  predicate StageFits(x: Worker, t: Status) {
    match x
    case Idle => true
    case Popped(_) => t == Pending
    case Looking(_) => t == Running
    case Handling(_) => t == Running
    case Closing(_, o) => t == StatusOf(o)
  }

  /** No two workers hold the same job. */
  predicate Exclusive(workers: map<nat, Worker>) {
    forall w, v :: w in workers && v in workers && w != v && !workers[w].Idle? && !workers[v].Idle? ==>
      workers[w].id != workers[v].id
  }

  predicate WorkersOk(workers: map<nat, Worker>, jobs: map<nat, Job>) {
    forall w :: w in workers && !workers[w].Idle? ==>
      workers[w].id in jobs && StageFits(workers[w], jobs[workers[w].id].status)
  }

  predicate HeapOk(heap: multiset<Entry>, jobs: map<nat, Job>, held: set<nat>) {
    forall e :: e in heap ==>
      && heap[e] == 1 && e.id in jobs && e == EntryOf(e.id, jobs[e.id])
      && jobs[e.id].status == Pending && e.id !in held
  }

  predicate TimersOk(timers: multiset<nat>, jobs: map<nat, Job>, held: set<nat>) {
    forall id :: id in timers ==> timers[id] == 1 && id in jobs && jobs[id].status == Retrying && id !in held
  }

  /** No job is lost: each status names the place where the job must be. */
  predicate JobOk(id: nat, j: Job, heap: multiset<Entry>, timers: multiset<nat>, held: set<nat>) {
    && (j.status == Pending ==> id in held || EntryOf(id, j) in heap)
    && (j.status == Running ==> id in held)
    && (j.status == Retrying ==> id in held || id in timers)
    && j.status != DeadLetter
  }

  predicate JobsOk(jobs: map<nat, Job>, heap: multiset<Entry>, timers: multiset<nat>, held: set<nat>,
                   strays: set<nat>) {
    forall id :: id in jobs && id !in strays ==> JobOk(id, jobs[id], heap, timers, held)
  }

  /** A stray says it is pending, but is in no heap and with no worker. */
  predicate StraysOk(strays: set<nat>, jobs: map<nat, Job>, heap: multiset<Entry>, held: set<nat>) {
    && (forall id :: id in strays ==> id in jobs && jobs[id].status == Pending && id !in held)
    && (forall e :: e in heap ==> e.id !in strays)
  }

  /** Only jobs that await their schedule, and strays, have a time still to come. */
  predicate TimesOk(jobs: map<nat, Job>, strays: set<nat>, now: int) {
    forall id :: id in jobs && id !in strays && jobs[id].status != Scheduled ==> !IsScheduled(jobs[id], now)
  }

  predicate BatchOk(batch: seq<nat>, jobs: map<nat, Job>) {
    && (forall i :: 0 <= i < |batch| ==> batch[i] in jobs && jobs[batch[i]].status == Scheduled)
    && (forall i, j :: 0 <= i < j < |batch| ==> batch[i] != batch[j])
  }

  predicate Consistent(s: State) {
    var held := HeldJobs(s.workers);
    && Exclusive(s.workers) && WorkersOk(s.workers, s.jobs)
    && HeapOk(s.heap, s.jobs, held) && TimersOk(s.timers, s.jobs, held)
    && JobsOk(s.jobs, s.heap, s.timers, held, s.strays) && StraysOk(s.strays, s.jobs, s.heap, held)
    && BatchOk(s.batch, s.jobs) && TimesOk(s.jobs, s.strays, s.now)
    && s.calls.Keys == s.jobs.Keys
  }

  // ----- every step keeps it -----

  lemma InHeld(workers: map<nat, Worker>, w: nat)
    requires w in workers && !workers[w].Idle?
    ensures workers[w].id in HeldJobs(workers)
  {
  }

  /** A worker moves on with the job it holds. */
  lemma HeldAfterMove(workers: map<nat, Worker>, w: nat, x: Worker)
    requires w in workers && !workers[w].Idle? && !x.Idle? && x.id == workers[w].id && Exclusive(workers)
    ensures HeldJobs(workers[w := x]) == HeldJobs(workers) && Exclusive(workers[w := x])
  {
    var after := workers[w := x];
    forall id ensures id in HeldJobs(workers) <==> id in HeldJobs(after) {
      if v :| v in workers && !workers[v].Idle? && workers[v].id == id { InHeld(after, v); }
      if v :| v in after && !after[v].Idle? && after[v].id == id { InHeld(workers, v); }
    }
  }

  lemma HeldAfterPop(workers: map<nat, Worker>, w: nat, id: nat)
    requires w in workers && workers[w].Idle? && id !in HeldJobs(workers) && Exclusive(workers)
    ensures HeldJobs(workers[w := Popped(id)]) == HeldJobs(workers) + {id} && Exclusive(workers[w := Popped(id)])
  {
    var after := workers[w := Popped(id)];
    InHeld(after, w);
    forall k ensures k in HeldJobs(workers) ==> k in HeldJobs(after) {
      if v :| v in workers && !workers[v].Idle? && workers[v].id == k { InHeld(after, v); }
    }
    forall v | v in workers && !workers[v].Idle? ensures workers[v].id != id { InHeld(workers, v); }
  }

  lemma HeldAfterClose(workers: map<nat, Worker>, w: nat)
    requires w in workers && !workers[w].Idle? && Exclusive(workers)
    ensures HeldJobs(workers[w := Idle]) == HeldJobs(workers) - {workers[w].id} && Exclusive(workers[w := Idle])
  {
    var after := workers[w := Idle];
    forall k ensures k in HeldJobs(workers) && k != workers[w].id ==> k in HeldJobs(after) {
      if v :| v in workers && !workers[v].Idle? && workers[v].id == k && v != w { InHeld(after, v); }
    }
  }

  lemma MoveKeepsPlaces(s: State, held: set<nat>, id: nat, j: Job)
    requires HeapOk(s.heap, s.jobs, held) && TimersOk(s.timers, s.jobs, held) && id in held && id in s.jobs
    ensures HeapOk(s.heap, s.jobs[id := j], held) && TimersOk(s.timers, s.jobs[id := j], held)
  {
  }

  lemma MoveKeepsWorkers(workers: map<nat, Worker>, jobs: map<nat, Job>, w: nat, x: Worker, j: Job)
    requires w in workers && !workers[w].Idle? && !x.Idle? && x.id == workers[w].id && Exclusive(workers)
    requires WorkersOk(workers, jobs) && StageFits(x, j.status)
    ensures WorkersOk(workers[w := x], jobs[x.id := j])
  {
  }

  lemma MoveKeepsBatch(s: State, id: nat, j: Job)
    requires BatchOk(s.batch, s.jobs) && id in s.jobs && s.jobs[id].status != Scheduled
    ensures BatchOk(s.batch, s.jobs[id := j])
  {
  }

  /** Steps that change the held job's record and the worker's stage: Start, NoHandler, Invoke, Return. */
  lemma MoveKeeps(s: State, t: State, w: nat, x: Worker, j: Job)
    requires Consistent(s) && At(s, w) && !x.Idle? && x.id == s.workers[w].id
    requires t.jobs == s.jobs[x.id := j] && t.workers == s.workers[w := x]
    requires t.heap == s.heap && t.timers == s.timers && t.batch == s.batch && t.calls.Keys == s.calls.Keys
    requires t.strays == s.strays && t.now == s.now
    requires StageFits(x, j.status) && j.status != Pending && j.status != DeadLetter && !IsScheduled(j, s.now)
    ensures Consistent(t)
  {
    hide HeldJobs, WorkersOk, HeapOk, TimersOk, JobsOk, StraysOk, TimesOk, Exclusive, BatchOk;
    HeldAfterMove(s.workers, w, x);
    InHeld(s.workers, w);
    CloseKeepsWorkers(s.workers, s.jobs, w);
    MoveKeepsPlaces(s, HeldJobs(s.workers), x.id, j);
    MoveKeepsWorkers(s.workers, s.jobs, w, x, j);
    MoveKeepsBatch(s, x.id, j);
    StoreKeepsJobs(s, HeldJobs(s.workers), x.id, j);
    StoreKeepsTimes(s, x.id, j);
    NotStray(s, HeldJobs(s.workers), x.id);
    StoreKeepsStrays(s, HeldJobs(s.workers), x.id, j);
  }

  lemma PushKeepsHeap(heap: multiset<Entry>, jobs: map<nat, Job>, held: set<nat>, id: nat, j: Job)
    requires HeapOk(heap, jobs, held) && id !in held && j.status == Pending
    requires forall e :: e in heap ==> e.id != id
    ensures HeapOk(heap + multiset{EntryOf(id, j)}, jobs[id := j], held)
  {
  }

  lemma PutKeepsTimers(timers: multiset<nat>, jobs: map<nat, Job>, held: set<nat>, id: nat, j: Job)
    requires TimersOk(timers, jobs, held)
    ensures TimersOk(timers - multiset{id}, jobs[id := j], held)
  {
  }

  lemma PutKeepsJobs(s: State, held: set<nat>, id: nat, j: Job, timers: multiset<nat>)
    requires JobsOk(s.jobs, s.heap, s.timers, held, s.strays) && j.status == Pending
    requires timers == s.timers - multiset{id}
    ensures JobsOk(s.jobs[id := j], s.heap + multiset{EntryOf(id, j)}, timers, held, s.strays)
  {
    forall k | k in s.jobs && k !in s.strays && k != id
      ensures JobOk(k, s.jobs[k], s.heap + multiset{EntryOf(id, j)}, timers, held) {
      assert JobOk(k, s.jobs[k], s.heap, s.timers, held);
      assert k in s.timers ==> k in timers;
    }
  }

  lemma PutKeepsWorkers(s: State, id: nat, j: Job)
    requires Consistent(s) && id !in HeldJobs(s.workers)
    ensures WorkersOk(s.workers, s.jobs[id := j])
  {
    forall w | w in s.workers && !s.workers[w].Idle? ensures s.workers[w].id != id { InHeld(s.workers, w); }
  }

  /** Steps that put a job nobody holds into the heap: Enqueue of a pending job, Fire, Release. */
  lemma PutKeeps(s: State, t: State, id: nat, j: Job)
    requires Consistent(s) && id !in HeldJobs(s.workers) && forall e :: e in s.heap ==> e.id != id
    requires t.jobs == s.jobs[id := j] && t.heap == s.heap + multiset{EntryOf(id, j)}
    requires t.workers == s.workers && t.calls.Keys == t.jobs.Keys
    requires t.strays == s.strays && id !in s.strays && t.now == s.now
    requires t.timers == s.timers - multiset{id}
    requires BatchOk(t.batch, t.jobs)
    requires j.status == Pending && !IsScheduled(j, s.now)
    ensures Consistent(t)
  {
    hide HeldJobs, WorkersOk, HeapOk, TimersOk, JobsOk, StraysOk, TimesOk, Exclusive, BatchOk;
    PushKeepsHeap(s.heap, s.jobs, HeldJobs(s.workers), id, j);
    PutKeepsTimers(s.timers, s.jobs, HeldJobs(s.workers), id, j);
    PutKeepsJobs(s, HeldJobs(s.workers), id, j, t.timers);
    PutKeepsWorkers(s, id, j);
    StoreKeepsTimes(s, id, j);
    PutKeepsStrays(s, HeldJobs(s.workers), id, j);
  }

  lemma StoreKeeps(s: State, id: nat, j: Job)
    requires id !in s.jobs
    ensures WorkersOk(s.workers, s.jobs) ==> WorkersOk(s.workers, s.jobs[id := j])
    ensures BatchOk(s.batch, s.jobs) ==> BatchOk(s.batch, s.jobs[id := j])
  {
  }

  lemma StoreKeepsPlaces(s: State, held: set<nat>, id: nat, j: Job)
    requires id !in s.jobs && HeapOk(s.heap, s.jobs, held) && TimersOk(s.timers, s.jobs, held)
    ensures HeapOk(s.heap, s.jobs[id := j], held) && TimersOk(s.timers, s.jobs[id := j], held)
  {
  }

  lemma StoreKeepsTimes(s: State, id: nat, j: Job)
    requires TimesOk(s.jobs, s.strays, s.now) && (j.status == Scheduled || !IsScheduled(j, s.now))
    ensures TimesOk(s.jobs[id := j], s.strays, s.now)
  {
  }

  lemma NotStray(s: State, held: set<nat>, id: nat)
    requires StraysOk(s.strays, s.jobs, s.heap, held)
    requires id in held || id !in s.jobs || s.jobs[id].status != Pending
    ensures id !in s.strays
  {
  }

  lemma StoreKeepsStrays(s: State, held: set<nat>, id: nat, j: Job)
    requires StraysOk(s.strays, s.jobs, s.heap, held) && id !in s.strays
    ensures StraysOk(s.strays, s.jobs[id := j], s.heap, held)
  {
  }

  lemma PutKeepsStrays(s: State, held: set<nat>, id: nat, j: Job)
    requires StraysOk(s.strays, s.jobs, s.heap, held) && id !in s.strays
    ensures StraysOk(s.strays, s.jobs[id := j], s.heap + multiset{EntryOf(id, j)}, held)
  {
  }

  lemma StoreKeepsJobs(s: State, held: set<nat>, id: nat, j: Job)
    requires JobsOk(s.jobs, s.heap, s.timers, held, s.strays) && JobOk(id, j, s.heap, s.timers, held)
    ensures JobsOk(s.jobs[id := j], s.heap, s.timers, held, s.strays)
  {
    hide JobOk;
  }

  /** Storing a new job that awaits its time. */
  lemma AwaitKeeps(s: State, t: State, id: nat, j: Job)
    requires Consistent(s) && id !in s.jobs && j.status == Scheduled
    requires t.jobs == s.jobs[id := j] && t.heap == s.heap && t.workers == s.workers && t.timers == s.timers
    requires t.batch == s.batch && t.calls.Keys == t.jobs.Keys
    requires t.strays == s.strays && t.now == s.now
    ensures Consistent(t)
  {
    hide HeldJobs, WorkersOk, BatchOk, HeapOk, TimersOk, JobsOk, StraysOk, TimesOk;
    StoreKeeps(s, id, j);
    StoreKeepsPlaces(s, HeldJobs(s.workers), id, j);
    StoreKeepsJobs(s, HeldJobs(s.workers), id, j);
    StoreKeepsTimes(s, id, j);
    NotStray(s, HeldJobs(s.workers), id);
    StoreKeepsStrays(s, HeldJobs(s.workers), id, j);
  }

  lemma StrayJoins(s: State, held: set<nat>, id: nat, j: Job)
    requires id !in s.jobs && j.status == Pending && id !in held && forall e :: e in s.heap ==> e.id != id
    requires StraysOk(s.strays, s.jobs, s.heap, held) && JobsOk(s.jobs, s.heap, s.timers, held, s.strays)
    requires TimesOk(s.jobs, s.strays, s.now)
    ensures StraysOk(s.strays + {id}, s.jobs[id := j], s.heap, held)
    ensures JobsOk(s.jobs[id := j], s.heap, s.timers, held, s.strays + {id})
    ensures TimesOk(s.jobs[id := j], s.strays + {id}, s.now)
  {
    hide JobOk, IsScheduled;
  }

  /** Storing a new job that says it is pending, and putting it nowhere. */
  lemma StrayKeeps(s: State, t: State, id: nat, j: Job)
    requires Consistent(s) && id !in s.jobs && j.status == Pending
    requires t.jobs == s.jobs[id := j] && t.heap == s.heap && t.workers == s.workers && t.timers == s.timers
    requires t.batch == s.batch && t.calls.Keys == t.jobs.Keys
    requires t.strays == s.strays + {id} && t.now == s.now
    ensures Consistent(t)
  {
    NewJobIsNowhere(s, id);
    hide HeldJobs, WorkersOk, BatchOk, HeapOk, TimersOk, JobsOk, StraysOk, TimesOk;
    StoreKeeps(s, id, j);
    StoreKeepsPlaces(s, HeldJobs(s.workers), id, j);
    StrayJoins(s, HeldJobs(s.workers), id, j);
  }

  lemma PopKeepsJobs(s: State, held: set<nat>, e: Entry)
    requires JobsOk(s.jobs, s.heap, s.timers, held, s.strays) && e in s.heap
    ensures JobsOk(s.jobs, s.heap - multiset{e}, s.timers, held + {e.id}, s.strays)
  {
    forall id | id in s.jobs && id !in s.strays
      ensures JobOk(id, s.jobs[id], s.heap - multiset{e}, s.timers, held + {e.id})
    {
      assert JobOk(id, s.jobs[id], s.heap, s.timers, held);
      assert EntryOf(id, s.jobs[id]) in s.heap && id != e.id ==> EntryOf(id, s.jobs[id]) in s.heap - multiset{e};
    }
  }

  lemma PopKeepsPlaces(s: State, held: set<nat>, e: Entry)
    requires HeapOk(s.heap, s.jobs, held) && TimersOk(s.timers, s.jobs, held) && e in s.heap
    requires StraysOk(s.strays, s.jobs, s.heap, held)
    ensures e.id in s.jobs && s.jobs[e.id].status == Pending && e.id !in held
    ensures HeapOk(s.heap - multiset{e}, s.jobs, held + {e.id}) && TimersOk(s.timers, s.jobs, held + {e.id})
    ensures StraysOk(s.strays, s.jobs, s.heap - multiset{e}, held + {e.id})
  {
    forall f | f in s.heap - multiset{e} ensures f.id != e.id && (s.heap - multiset{e})[f] == 1 {
      assert f in s.heap && (f == e ==> s.heap[e] == 1);
    }
  }

  lemma PopKeepsWorkers(workers: map<nat, Worker>, jobs: map<nat, Job>, w: nat, id: nat)
    requires WorkersOk(workers, jobs) && id in jobs && jobs[id].status == Pending
    ensures WorkersOk(workers[w := Popped(id)], jobs)
  {
  }

  lemma DequeueKeeps(c: Config, s: State, w: nat, e: Entry)
    requires Consistent(s) && Enabled(s, Dequeue(w, e))
    ensures Consistent(Apply(c, s, Dequeue(w, e)))
  {
    hide HeldJobs, WorkersOk, HeapOk, TimersOk, JobsOk, StraysOk, TimesOk, Exclusive, BatchOk, IsFirst;
    PopKeepsPlaces(s, HeldJobs(s.workers), e);
    PopKeepsJobs(s, HeldJobs(s.workers), e);
    PopKeepsWorkers(s.workers, s.jobs, w, e.id);
    HeldAfterPop(s.workers, w, e.id);
  }

  /** A worker lets go of a job: it stays accounted for if its status is final or a timer takes it over. */
  lemma LetGoKeepsJobs(s: State, held: set<nat>, id: nat, timers: multiset<nat>)
    requires JobsOk(s.jobs, s.heap, s.timers, held, s.strays) && id in s.jobs
    requires if s.jobs[id].status == Retrying then timers == s.timers + multiset{id}
             else IsTerminal(s.jobs[id].status) && timers == s.timers
    ensures JobsOk(s.jobs, s.heap, timers, held - {id}, s.strays)
  {
    forall k | k in s.jobs && k !in s.strays ensures JobOk(k, s.jobs[k], s.heap, timers, held - {id}) {
      assert JobOk(k, s.jobs[k], s.heap, s.timers, held);
      assert k in s.timers ==> k in timers;
    }
  }

  lemma LetGoKeepsPlaces(s: State, held: set<nat>, id: nat, timers: multiset<nat>)
    requires HeapOk(s.heap, s.jobs, held) && TimersOk(s.timers, s.jobs, held) && id in held && id in s.jobs
    requires timers == s.timers || (s.jobs[id].status == Retrying && timers == s.timers + multiset{id})
    ensures HeapOk(s.heap, s.jobs, held - {id}) && TimersOk(timers, s.jobs, held - {id})
  {
    assert id !in s.timers;
  }

  lemma CloseKeepsWorkers(workers: map<nat, Worker>, jobs: map<nat, Job>, w: nat)
    requires WorkersOk(workers, jobs) && w in workers && !workers[w].Idle?
    ensures WorkersOk(workers[w := Idle], jobs)
    ensures workers[w].id in jobs && StageFits(workers[w], jobs[workers[w].id].status)
  {
  }

  lemma LetGoKeepsStrays(s: State, held: set<nat>, id: nat)
    requires StraysOk(s.strays, s.jobs, s.heap, held)
    ensures StraysOk(s.strays, s.jobs, s.heap, held - {id})
  {
  }

  lemma CloseKeeps(c: Config, s: State, w: nat)
    requires Consistent(s) && Enabled(s, Close(w))
    ensures Consistent(Apply(c, s, Close(w)))
  {
    hide HeldJobs, WorkersOk, HeapOk, TimersOk, JobsOk, StraysOk, TimesOk, Exclusive, BatchOk;
    var t := Apply(c, s, Close(w));
    var id := s.workers[w].id;
    HeldAfterClose(s.workers, w);
    InHeld(s.workers, w);
    CloseKeepsWorkers(s.workers, s.jobs, w);
    LetGoKeepsStrays(s, HeldJobs(s.workers), id);
    LetGoKeepsJobs(s, HeldJobs(s.workers), id, t.timers);
    LetGoKeepsPlaces(s, HeldJobs(s.workers), id, t.timers);
  }

  lemma NewJobIsNowhere(s: State, id: nat)
    requires Consistent(s) && (id !in s.jobs || s.jobs[id].status == Scheduled)
    ensures id !in HeldJobs(s.workers) && id !in s.timers && forall e :: e in s.heap ==> e.id != id
    ensures id !in s.strays
  {
    hide JobsOk, TimesOk, BatchOk, Exclusive;
    forall w | w in s.workers && !s.workers[w].Idle? ensures s.workers[w].id != id {
      assert StageFits(s.workers[w], s.jobs[s.workers[w].id].status);
    }
  }

  lemma EnqueueKeeps(c: Config, s: State, id: nat, j: Job)
    requires Consistent(s) && Enabled(s, Enqueue(id, j))
    ensures Consistent(Apply(c, s, Enqueue(id, j)))
  {
    hide HeldJobs, WorkersOk, BatchOk, HeapOk, TimersOk, JobsOk, StraysOk, TimesOk, Exclusive;
    var t := Accept(c, s, id, j);
    NewJobIsNowhere(s, id);
    StoreKeeps(s, id, WithDefault(c, j));
    assert t.timers == s.timers - multiset{id};
    if j.status == Pending && IsScheduled(j, s.now) {
      StrayKeeps(s, t, id, WithDefault(c, j));
    } else if j.status == Pending {
      PutKeeps(s, t, id, WithDefault(c, j));
    } else {
      AwaitKeeps(s, t, id, WithDefault(c, j));
    }
  }

  lemma TimedJobIsNowhereElse(s: State, id: nat)
    requires Consistent(s) && id in s.timers
    ensures id in s.jobs && id !in HeldJobs(s.workers) && !IsScheduled(s.jobs[id], s.now) && id !in s.batch
    ensures id !in s.strays
    ensures s.jobs[id].status == Retrying && forall e :: e in s.heap ==> e.id != id
  {
    hide HeldJobs, WorkersOk, Exclusive;
  }

  lemma FireKeeps(c: Config, s: State, id: nat)
    requires Consistent(s) && Enabled(s, Fire(id))
    ensures Consistent(Apply(c, s, Fire(id)))
  {
    TimedJobIsNowhereElse(s, id);
    var j := s.jobs[id].(status := Pending);
    var t := Apply(c, s, Fire(id));
    assert BatchOk(t.batch, t.jobs);
    hide HeldJobs, WorkersOk, BatchOk, HeapOk, TimersOk, JobsOk, StraysOk, TimesOk, Exclusive;
    PutKeeps(s, t, id, j);
  }

  lemma CallsMatch(s: State)
    requires Consistent(s)
    ensures s.calls.Keys == s.jobs.Keys
  {
  }

  lemma BatchJobIsScheduled(s: State)
    requires Consistent(s) && s.batch != []
    ensures s.batch[0] in s.jobs && s.jobs[s.batch[0]].status == Scheduled
    ensures BatchOk(s.batch[1..], s.jobs) && s.batch[0] !in s.batch[1..]
  {
    hide HeldJobs, WorkersOk, HeapOk, TimersOk, JobsOk, StraysOk, TimesOk, Exclusive;
  }

  lemma BatchWithout(batch: seq<nat>, jobs: map<nat, Job>, id: nat, j: Job)
    requires BatchOk(batch, jobs) && id !in batch
    ensures BatchOk(batch, jobs[id := j])
  {
  }

  lemma ReleaseKeeps(c: Config, s: State)
    requires Consistent(s) && Enabled(s, Release)
    ensures Consistent(Apply(c, s, Release))
  {
    BatchJobIsScheduled(s);
    NewJobIsNowhere(s, s.batch[0]);
    hide HeldJobs, WorkersOk, HeapOk, TimersOk, JobsOk, StraysOk, TimesOk, Exclusive, BatchOk;
    var t := Apply(c, s, Release);
    var id := s.batch[0];
    if Due(s.jobs[id], s.batchAt) {
      BatchWithout(t.batch, s.jobs, id, t.jobs[id]);
      assert t.timers == s.timers - multiset{id};
      PutKeeps(s, t, id, t.jobs[id]);
    }
  }

  /** What a worker knows of the job it holds. */
  lemma HeldJobIs(s: State, w: nat)
    requires Consistent(s) && At(s, w)
    ensures StageFits(s.workers[w], s.jobs[s.workers[w].id].status)
    ensures !IsScheduled(s.jobs[s.workers[w].id], s.now)
  {
    InHeld(s.workers, w);
    hide HeldJobs, BatchOk, HeapOk, TimersOk, Exclusive;
    NotStray(s, HeldJobs(s.workers), s.workers[w].id);
  }

  lemma StartKeeps(c: Config, s: State, w: nat)
    requires Consistent(s) && Enabled(s, Start(w))
    ensures Consistent(Apply(c, s, Start(w)))
  {
    HeldJobIs(s, w);
    hide Consistent;
    var t := Apply(c, s, Start(w));
    var id := s.workers[w].id;
    MoveKeeps(s, t, w, Looking(id), t.jobs[id]);
  }

  lemma InvokeKeeps(c: Config, s: State, w: nat)
    requires Consistent(s) && Enabled(s, Invoke(w))
    ensures Consistent(Apply(c, s, Invoke(w)))
  {
    HeldJobIs(s, w);
    hide Consistent;
    var t := Apply(c, s, Invoke(w));
    var id := s.workers[w].id;
    assert t.jobs == s.jobs[id := s.jobs[id]];
    assert t.calls.Keys == s.calls.Keys;
    MoveKeeps(s, t, w, Handling(id), s.jobs[id]);
  }

  lemma RecordKeeps(s: State, w: nat, o: Outcome)
    requires Consistent(s) && At(s, w) && (s.workers[w].Looking? || s.workers[w].Handling?)
    ensures Consistent(Record(s, w, o))
  {
    HeldJobIs(s, w);
    hide Consistent;
    var id := s.workers[w].id;
    MoveKeeps(s, Record(s, w, o), w, Closing(id, o), s.jobs[id].(status := StatusOf(o)));
  }

  lemma ScheduleKeeps(c: Config, s: State, id: nat, j: Job)
    requires Consistent(s) && Enabled(s, Schedule(id, j))
    ensures Consistent(Apply(c, s, Schedule(id, j)))
  {
    hide HeldJobs, WorkersOk, HeapOk, TimersOk, JobsOk, StraysOk, TimesOk, Exclusive, BatchOk;
    var t := Apply(c, s, Schedule(id, j));
    if j.status == Pending {
      StrayKeeps(s, t, id, WithDefault(c, j));
    } else {
      AwaitKeeps(s, t, id, WithDefault(c, j));
    }
  }

  lemma ClockStepKeeps(c: Config, s: State, step: Step)
    requires Consistent(s) && Enabled(s, step)
    requires step.Snapshot? || step.Clock?
    ensures Consistent(Apply(c, s, step))
  {
    hide HeldJobs, WorkersOk, HeapOk, TimersOk, JobsOk, StraysOk, Exclusive;
  }

  /** Every step keeps consistency, whatever the state it starts from. */
  lemma StepKeeps(c: Config, s: State, step: Step)
    requires Consistent(s) && Enabled(s, step)
    ensures Consistent(Apply(c, s, step))
  {
    hide Consistent;
    match step
    case Enqueue(id, j) => EnqueueKeeps(c, s, id, j);
    case Schedule(id, j) => ScheduleKeeps(c, s, id, j);
    case Dequeue(w, e) => DequeueKeeps(c, s, w, e);
    case Start(w) => StartKeeps(c, s, w);
    case NoHandler(w) => RecordKeeps(s, w, Fail);
    case Invoke(w) => InvokeKeeps(c, s, w);
    case Return(w, r) => RecordKeeps(s, w, OutcomeOf(s.jobs[s.workers[w].id], r));
    case Close(w) => CloseKeeps(c, s, w);
    case Fire(id) => FireKeeps(c, s, id);
    case Release => ReleaseKeeps(c, s);
    case Snapshot(_) => ClockStepKeeps(c, s, step);
    case Clock(_) => ClockStepKeeps(c, s, step);
  }

  lemma {:induction false} RunIsConsistent(c: Config, run: seq<State>, steps: seq<Step>, i: nat)
    requires IsRun(c, run, steps) && i < |run|
    ensures Consistent(run[i])
  {
    if i > 0 {
      RunIsConsistent(c, run, steps, i - 1);
      StepKeeps(c, run[i - 1], steps[i - 1]);
    }
  }

  // ----- exactly one place -----

  /** The parts of `Where`, from the facts about one job. */
  lemma WhereIs(s: State, id: nat)
    requires Consistent(s) && id in s.jobs
    ensures var j := s.jobs[id];
            && s.heap[EntryOf(id, j)] <= 1 && s.timers[id] <= 1
            && (EntryOf(id, j) in s.heap ==> j.status == Pending && id !in HeldJobs(s.workers))
            && (id in s.timers ==> j.status == Retrying && id !in HeldJobs(s.workers))
            && (id !in s.strays ==> JobOk(id, j, s.heap, s.timers, HeldJobs(s.workers)))
  {
    hide HeldJobs, WorkersOk, StraysOk, TimesOk, BatchOk, Exclusive;
  }

  lemma ConsistentMeansOnePlace(s: State, id: nat)
    requires Consistent(s) && id in s.jobs && id !in s.strays
    ensures InOnePlace(s, id)
  {
    hide HeapOk, TimersOk, JobsOk, StraysOk, TimesOk, BatchOk, WorkersOk, Exclusive, Where, JobOk;
    WhereIs(s, id);
    if w :| w in s.workers && Holds(s.workers[w], id) {
      WithOneWorker(s, id, w);
    } else {
      OutsideWorkers(s, id);
    }
  }

  lemma WithOneWorker(s: State, id: nat, w: nat)
    requires id in s.jobs && w in s.workers && Holds(s.workers[w], id)
    requires Exclusive(s.workers) && WorkersOk(s.workers, s.jobs)
    requires EntryOf(id, s.jobs[id]) in s.heap || id in s.timers ==> id !in HeldJobs(s.workers)
    ensures InOnePlace(s, id)
  {
    InHeld(s.workers, w);
    hide HeldJobs;
    assert StageFits(s.workers[w], s.jobs[id].status);
    assert Where(s, id) == {WithWorker(w)};
  }

  lemma OutsideWorkers(s: State, id: nat)
    requires id in s.jobs && id !in HeldJobs(s.workers) && JobOk(id, s.jobs[id], s.heap, s.timers, HeldJobs(s.workers))
    requires forall w :: w in s.workers ==> !Holds(s.workers[w], id)
    requires s.heap[EntryOf(id, s.jobs[id])] <= 1 && s.timers[id] <= 1
    requires EntryOf(id, s.jobs[id]) in s.heap ==> s.jobs[id].status == Pending
    requires id in s.timers ==> s.jobs[id].status == Retrying
    ensures InOnePlace(s, id)
  {
    hide HeldJobs;
    var j := s.jobs[id];
    if j.status == Pending {
      assert Where(s, id) == {InHeap(0)};
    } else if j.status == Retrying {
      assert Where(s, id) == {InTimer(0)};
    } else if j.status == Scheduled {
      assert Where(s, id) == {Awaiting};
    } else {
      assert Where(s, id) == {Terminal};
    }
  }

  lemma StrayIsNowhere(s: State, id: nat)
    requires Consistent(s) && id in s.strays
    ensures id in s.jobs && Where(s, id) == {} && id !in HeldJobs(s.workers)
    ensures forall e :: e in s.heap ==> e.id != id
  {
    assert forall w :: w in s.workers && Holds(s.workers[w], id) ==> id in HeldJobs(s.workers);
  }

  /** The calls that lose their job: Schedule of a pending one, Enqueue of a pending one that is not yet due. */
  predicate Loses(s: State, step: Step, id: nat) {
    || (step.Schedule? && step.id == id && step.job.status == Pending)
    || (step.Enqueue? && step.id == id && step.job.status == Pending
        && step.job.scheduleAt.Some? && step.job.scheduleAt.value > s.now)
  }

  lemma StraysStep(c: Config, s: State, step: Step)
    requires Enabled(s, step)
    ensures forall id :: id in Apply(c, s, step).strays <==> id in s.strays || Loses(s, step, id)
  {
    hide IsFirst, IsBatch;
  }

  /** The strays are exactly the jobs given to such calls. */
  lemma {:induction false} StraysAre(c: Config, run: seq<State>, steps: seq<Step>, i: nat, id: nat)
    requires IsRun(c, run, steps) && i < |run|
    ensures id in run[i].strays <==> exists k :: 0 <= k < i && Loses(run[k], steps[k], id)
  {
    hide Enabled, Apply, Loses;
    if i > 0 {
      StraysAre(c, run, steps, i - 1, id);
      StraysStep(c, run[i - 1], steps[i - 1]);
    }
  }

  /**
   In every interleaving, each accepted job is awaiting its schedule, once in the heap, with one
   worker, in one retry timer, or finished: exactly one of these, so none is lost or run twice.
   The only exceptions are the jobs that a client lost when handing them in, which are nowhere.
   */
  lemma EveryJobInOnePlace(c: Config, run: seq<State>, steps: seq<Step>, i: nat, id: nat)
    requires IsRun(c, run, steps) && i < |run| && id in run[i].jobs
    ensures InOnePlace(run[i], id) <==> !exists k :: 0 <= k < i && Loses(run[k], steps[k], id)
    ensures !InOnePlace(run[i], id) ==> Where(run[i], id) == {}
    ensures Exclusive(run[i].workers)
  {
    RunIsConsistent(c, run, steps, i);
    StraysAre(c, run, steps, i, id);
    hide Where;
    if id in run[i].strays {
      StrayIsNowhere(run[i], id);
    } else {
      ConsistentMeansOnePlace(run[i], id);
    }
  }

  /** A job lost when it was handed in never reaches a worker, whatever happens afterwards. */
  lemma LostForever(c: Config, run: seq<State>, steps: seq<Step>, i: nat, k: nat, id: nat)
    requires IsRun(c, run, steps) && i < k < |run| && Loses(run[i], steps[i], id)
    ensures id in run[k].jobs && run[k].jobs[id].status == Pending && Where(run[k], id) == {}
    ensures k < |steps| && steps[k].Dequeue? ==> steps[k].e.id != id
  {
    StraysAre(c, run, steps, k, id);
    RunIsConsistent(c, run, steps, k);
    StrayIsNowhere(run[k], id);
  }
}
