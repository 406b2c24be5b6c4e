/**
 The job manager over the in-memory queue, as a transition system.

 A step is one action of a client, a worker, the schedule processor, a retry timer or the clock;
 every interleaving of steps is a run.  The queue's `scheduledJobs` map is not part of the state:
 the code writes it but never reads it.
 */
module JobProtocol {
  import opened Wrappers
  import opened JobHeap

  datatype Status = Pending | Running | Completed | Failed | Retrying | Scheduled | DeadLetter

  /** `scheduleAt` is `None` for the zero time. */
  datatype Job = Job(priority: int, createdAt: int, status: Status, attempts: int, maxAttempts: int,
                     scheduleAt: Option<int>)

  /** What a worker recorded before it counts the result. */
  datatype Outcome = Done | Fail | Retry

  /** Where a worker is in its loop; all but `Idle` hold a job. */
  datatype Worker =
    | Idle
    | Popped(id: nat)    // dequeued, not yet marked running
    | Looking(id: nat)   // marked running and counted as an attempt, handler not yet looked up
    | Handling(id: nat)  // inside the handler
    | Closing(id: nat, outcome: Outcome)  // status stored, counter not yet updated

  datatype State = State(
    jobs: map<nat, Job>,
    heap: multiset<Entry>,
    workers: map<nat, Worker>,
    timers: multiset<nat>,   // retry goroutines asleep, by the job they hold
    batch: seq<nat>,         // scheduled jobs the schedule processor has yet to look at in this tick
    batchAt: int,            // its clock reading for this tick
    now: int,
    processed: nat, failed: nat, retried: nat,
    calls: map<nat, nat>,    // handler calls so far, by job
    strays: set<nat>)        // jobs accepted in a way that puts them nowhere, for the record

  datatype Config = Config(maxRetries: int, workers: set<nat>)

  datatype Result = Ok | PlainError | RetryableError

  datatype Step =
    | Enqueue(id: nat, job: Job)
    | Schedule(id: nat, job: Job)
    | Dequeue(w: nat, e: Entry)
    | Start(w: nat)
    | NoHandler(w: nat)
    | Invoke(w: nat)
    | Return(w: nat, result: Result)
    | Close(w: nat)
    | Fire(id: nat)
    | Snapshot(ids: seq<nat>)
    | Release
    | Clock(time: int)

  const BATCH_LIMIT := 100

  predicate IsScheduled(j: Job, now: int) {
    j.scheduleAt.Some? && j.scheduleAt.value > now
  }

  function EntryOf(id: nat, j: Job): Entry {
    Entry(id, j.priority, j.createdAt)
  }

  function WithDefault(c: Config, j: Job): Job {
    if j.maxAttempts == 0 then j.(maxAttempts := c.maxRetries) else j
  }

  /** `MemoryQueue.Enqueue`: store the job, and push it unless its time is still to come. */
  function Put(s: State, id: nat, j: Job): State {
    s.(jobs := s.jobs[id := j],
       heap := if IsScheduled(j, s.now) then s.heap else s.heap + multiset{EntryOf(id, j)})
  }

  /** `Manager.Enqueue`, for any job.  A pending job with a time still to come is stored and no more. */
  function Accept(c: Config, s: State, id: nat, j: Job): State {
    Put(s, id, WithDefault(c, j)).(
      calls := s.calls[id := 0],
      strays := if j.status == Pending && IsScheduled(j, s.now) then s.strays + {id} else s.strays)
  }

  /** `Manager.Schedule`, for any job.  It is stored and no more, and ticks look at Scheduled jobs only. */
  function Deposit(c: Config, s: State, id: nat, j: Job): State {
    s.(jobs := s.jobs[id := WithDefault(c, j)],
       calls := s.calls[id := 0],
       strays := if j.status == Pending then s.strays + {id} else s.strays)
  }

  function OutcomeOf(j: Job, r: Result): Outcome {
    match r
    case Ok => Done
    case PlainError => Fail
    case RetryableError => if j.attempts < j.maxAttempts then Retry else Fail
  }

  function StatusOf(o: Outcome): Status {
    match o
    case Done => Completed
    case Fail => Failed
    case Retry => Retrying
  }

  predicate Due(j: Job, at: int) {
    j.scheduleAt.None? || j.scheduleAt.value <= at
  }

  // ----- steps -----

  predicate At(s: State, w: nat) {
    w in s.workers && !s.workers[w].Idle? && s.workers[w].id in s.jobs && s.workers[w].id in s.calls
  }

  /** The two kinds of job that `JobBuilder` builds. */
  predicate Fresh(j: Job) {
    j.attempts == 0 && (j.status == Pending || j.status == Scheduled)
  }

  /** `GetJobs(StatusScheduled, 100)`: scheduled jobs, each once; when there are fewer than 100, all of them. */
  predicate IsBatch(jobs: map<nat, Job>, ids: seq<nat>) {
    && |ids| <= BATCH_LIMIT
    && (forall i :: 0 <= i < |ids| ==> ids[i] in jobs && jobs[ids[i]].status == Scheduled)
    && (forall i, j :: 0 <= i < j < |ids| ==> ids[i] != ids[j])
    && (|ids| < BATCH_LIMIT ==> forall id :: id in jobs && jobs[id].status == Scheduled ==> id in ids)
  }

  /** Nothing in the heap has a higher priority, or the same and an earlier creation. */
  predicate IsFirst(heap: multiset<Entry>, e: Entry) {
    forall f :: f in heap ==> f.priority < e.priority || (f.priority == e.priority && f.createdAt >= e.createdAt)
  }

  /** New jobs are fresh; a Scheduled one given to Enqueue must still be in the future. */
  predicate Enabled(s: State, step: Step) {
    match step
    case Enqueue(id, j) =>
      id !in s.jobs && Fresh(j) && (j.status == Scheduled ==> IsScheduled(j, s.now))
    case Schedule(id, j) => id !in s.jobs && Fresh(j)
    case Dequeue(w, e) =>
      w in s.workers && s.workers[w].Idle? && e in s.heap && IsFirst(s.heap, e)
    case Start(w) => At(s, w) && s.workers[w].Popped?
    case NoHandler(w) => At(s, w) && s.workers[w].Looking?
    case Invoke(w) => At(s, w) && s.workers[w].Looking?
    case Return(w, _) => At(s, w) && s.workers[w].Handling?
    case Close(w) => At(s, w) && s.workers[w].Closing?
    case Fire(id) => id in s.timers && id in s.jobs
    case Snapshot(ids) => s.batch == [] && IsBatch(s.jobs, ids)
    case Release => s.batch != [] && s.batch[0] in s.jobs
    case Clock(t) => s.now <= t
  }

  function Apply(c: Config, s: State, step: Step): State
    requires Enabled(s, step)
  {
    match step
    case Enqueue(id, j) => Accept(c, s, id, j)
    case Schedule(id, j) => Deposit(c, s, id, j)
    case Dequeue(w, e) => s.(heap := s.heap - multiset{e}, workers := s.workers[w := Popped(e.id)])
    case Start(w) =>
      var id := s.workers[w].id;
      var j := s.jobs[id];
      s.(jobs := s.jobs[id := j.(status := Running, attempts := j.attempts + 1)],
         workers := s.workers[w := Looking(id)])
    case NoHandler(w) => Record(s, w, Fail)
    case Invoke(w) =>
      var id := s.workers[w].id;
      s.(workers := s.workers[w := Handling(id)], calls := s.calls[id := s.calls[id] + 1])
    case Return(w, r) => Record(s, w, OutcomeOf(s.jobs[s.workers[w].id], r))
    case Close(w) =>
      var Closing(id, o) := s.workers[w];
      var t := s.(workers := s.workers[w := Idle]);
      (match o
       case Done => t.(processed := t.processed + 1)
       case Fail => t.(failed := t.failed + 1)
       case Retry => t.(retried := t.retried + 1, timers := t.timers + multiset{id}))
    case Fire(id) => Put(s, id, s.jobs[id].(status := Pending)).(timers := s.timers - multiset{id})
    case Snapshot(ids) => s.(batch := ids, batchAt := s.now)
    case Release =>
      var id := s.batch[0];
      var t := s.(batch := s.batch[1..]);
      if Due(s.jobs[id], s.batchAt) then Put(t, id, s.jobs[id].(status := Pending, scheduleAt := None)) else t
    case Clock(time) => s.(now := time)
  }

  /** Storing a result: the job's status, and the worker's memory of what to count. */
  function Record(s: State, w: nat, o: Outcome): State
    requires At(s, w)
  {
    var id := s.workers[w].id;
    s.(jobs := s.jobs[id := s.jobs[id].(status := StatusOf(o))], workers := s.workers[w := Closing(id, o)])
  }

  /** The job whose record a step rewrites, other than a new one. */
  function Rewritten(s: State, step: Step): Option<nat>
    requires Enabled(s, step)
  {
    match step
    case Start(w) => Some(s.workers[w].id)
    case NoHandler(w) => Some(s.workers[w].id)
    case Return(w, _) => Some(s.workers[w].id)
    case Fire(id) => Some(id)
    case Release => if Due(s.jobs[s.batch[0]], s.batchAt) then Some(s.batch[0]) else None
    case _ => None
  }

  /** A step leaves all other records alone, and never gives a job the status Scheduled. */
  lemma RecordsKept(c: Config, s: State, step: Step, id: nat)
    requires Enabled(s, step) && id in s.jobs
    ensures id in Apply(c, s, step).jobs
    ensures Rewritten(s, step) != Some(id) ==> Apply(c, s, step).jobs[id] == s.jobs[id]
    ensures Rewritten(s, step) == Some(id) ==> Apply(c, s, step).jobs[id].status != Scheduled
  {
    hide Enabled, Apply;
    if step.Start? || step.NoHandler? || step.Invoke? || step.Return? {
      WorkerRecords(c, s, step, id);
    } else {
      QueueRecords(c, s, step, id);
    }
  }

  lemma WorkerRecords(c: Config, s: State, step: Step, id: nat)
    requires Enabled(s, step) && id in s.jobs && (step.Start? || step.NoHandler? || step.Invoke? || step.Return?)
    ensures id in Apply(c, s, step).jobs
    ensures Rewritten(s, step) != Some(id) ==> Apply(c, s, step).jobs[id] == s.jobs[id]
    ensures Rewritten(s, step) == Some(id) ==> Apply(c, s, step).jobs[id].status != Scheduled
  {
    hide IsFirst, IsBatch, Fresh, EntryOf, IsScheduled;
  }

  lemma QueueRecords(c: Config, s: State, step: Step, id: nat)
    requires Enabled(s, step) && id in s.jobs && !step.Start? && !step.NoHandler? && !step.Invoke? && !step.Return?
    ensures id in Apply(c, s, step).jobs
    ensures Rewritten(s, step) != Some(id) ==> Apply(c, s, step).jobs[id] == s.jobs[id]
    ensures Rewritten(s, step) == Some(id) ==> Apply(c, s, step).jobs[id].status != Scheduled
  {
    hide IsFirst, IsBatch, Fresh, EntryOf, IsScheduled;
    if step.Enqueue? || step.Schedule? { NewRecords(c, s, step, id); hide Apply; }
  }

  lemma NewRecords(c: Config, s: State, step: Step, id: nat)
    requires Enabled(s, step) && id in s.jobs && (step.Enqueue? || step.Schedule?)
    ensures id in Apply(c, s, step).jobs && Apply(c, s, step).jobs[id] == s.jobs[id]
  {
    hide Fresh, EntryOf, IsScheduled;
  }

  predicate Init(c: Config, s: State) {
    && s.jobs == map[] && s.heap == multiset{} && s.timers == multiset{} && s.batch == [] && s.calls == map[]
    && s.strays == {}
    && s.workers.Keys == c.workers && (forall w :: w in s.workers ==> s.workers[w].Idle?)
    && s.processed == 0 && s.failed == 0 && s.retried == 0
  }

  /** A run: states linked by enabled steps, from an initial one. */
  ghost predicate IsRun(c: Config, run: seq<State>, steps: seq<Step>) {
    && |run| == |steps| + 1 && Init(c, run[0])
    && forall i :: 0 <= i < |steps| ==> Enabled(run[i], steps[i]) && run[i + 1] == Apply(c, run[i], steps[i])
  }

  // ----- where a job is -----

  predicate Holds(x: Worker, id: nat) {
    !x.Idle? && x.id == id
  }

  /** The jobs that workers hold. */
  function HeldJobs(workers: map<nat, Worker>): set<nat> {
    set w | w in workers && !workers[w].Idle? :: workers[w].id
  }

  predicate IsTerminal(t: Status) {
    t == Completed || t == Failed
  }

  datatype Place = Awaiting | InHeap(copy: nat) | WithWorker(worker: nat) | InTimer(copy: nat) | Terminal

  /** Every place a job is at, copies in the heap and in timers counted separately. */
  function Where(s: State, id: nat): set<Place>
    requires id in s.jobs
  {
    var j := s.jobs[id];
    (if j.status == Scheduled then {Awaiting} else {})
    + (set k | 0 <= k < s.heap[EntryOf(id, j)] :: InHeap(k))
    + (set w | w in s.workers && Holds(s.workers[w], id) :: WithWorker(w))
    + (set k | 0 <= k < s.timers[id] :: InTimer(k))
    + (if IsTerminal(j.status) && id !in HeldJobs(s.workers) then {Terminal} else {})
  }

  ghost predicate InOnePlace(s: State, id: nat)
    requires id in s.jobs
  {
    exists p :: Where(s, id) == {p}
  }
}
