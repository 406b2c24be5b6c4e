/**
 Progress of the job manager: the work for accepted jobs is bounded in every run, and a state in
 which no work is left to do has finished every job that is not awaiting its schedule or lost.
 */
module JobProgress {
  import opened JobHeap
  import opened JobProtocol
  import opened JobPlacement
  import opened JobCounters
  import opened Totals

  // ----- bounded work -----

  function JobRank(j: Job): int {
    var left := 8 * (Cap(j) - j.attempts);
    match j.status
    case Scheduled => left + 7
    case Pending => left + 6
    case Running => left + 7
    case Retrying => left + 7
    case _ => 0
  }

  function WorkerRank(x: Worker): int {
    match x
    case Popped(_) => 0
    case Idle => 1
    case Closing(_, _) => 2
    case Handling(_) => 3
    case Looking(_) => 4
  }

  /** An upper bound on the steps of work left. */
  ghost function Measure(s: State): int {
    Sum(s.jobs, JobRank) + Sum(s.workers, WorkerRank)
  }

  /** A step that advances a job: everything but new jobs, clock readings and looking at jobs not yet due. */
  predicate IsWork(s: State, step: Step) {
    match step
    case Enqueue(_, _) => false
    case Schedule(_, _) => false
    case Snapshot(_) => false
    case Clock(_) => false
    case Release => s.batch != [] && s.batch[0] in s.jobs && Due(s.jobs[s.batch[0]], s.batchAt)
    case _ => true
  }

  lemma WorkerDescends(c: Config, s: State, step: Step)
    requires Consistent(s) && AttemptsOk(s) && Enabled(s, step)
    requires step.Start? || step.NoHandler? || step.Invoke? || step.Return?
    ensures Measure(Apply(c, s, step)) < Measure(s)
  {
    hide HeldJobs, HeapOk, JobsOk, StraysOk, TimesOk, TimersOk, BatchOk, Exclusive, Sum;
    var id := s.workers[step.w].id;
    var t := Apply(c, s, step);
    assert StageFits(s.workers[step.w], s.jobs[id].status);
    assert AttemptOk(s.jobs[id], s.calls[id]);
    hide WorkersOk, AttemptsOk;
    assert t.jobs == s.jobs[id := t.jobs[id]];
    SumUpdate(s.jobs, JobRank, id, t.jobs[id]);
    SumUpdate(s.workers, WorkerRank, step.w, t.workers[step.w]);
  }

  lemma QueueDescends(c: Config, s: State, step: Step)
    requires Consistent(s) && Enabled(s, step) && (step.Dequeue? || step.Close?)
    ensures Measure(Apply(c, s, step)) < Measure(s)
  {
    hide HeldJobs, HeapOk, JobsOk, StraysOk, TimesOk, TimersOk, BatchOk, Exclusive, Sum, WorkersOk;
    SumUpdate(s.workers, WorkerRank, step.w, Apply(c, s, step).workers[step.w]);
  }

  lemma ReleaseDescends(c: Config, s: State, step: Step)
    requires Consistent(s) && Enabled(s, step) && IsWork(s, step) && (step.Fire? || step.Release?)
    ensures Measure(Apply(c, s, step)) < Measure(s)
  {
    hide HeldJobs, HeapOk, JobsOk, StraysOk, TimesOk, Exclusive, Sum, WorkersOk;
    var id: nat := if step.Fire? then step.id else s.batch[0];
    var t := Apply(c, s, step);
    assert s.jobs[id].status == Retrying || s.jobs[id].status == Scheduled;
    hide TimersOk, BatchOk;
    assert t.jobs == s.jobs[id := t.jobs[id]] && t.workers == s.workers;
    SumUpdate(s.jobs, JobRank, id, t.jobs[id]);
  }

  /** Every step of work brings the measure down, and no other step but a new job brings it up. */
  lemma WorkDescends(c: Config, s: State, step: Step)
    requires Consistent(s) && AttemptsOk(s) && Enabled(s, step) && !step.Enqueue? && !step.Schedule?
    ensures Measure(Apply(c, s, step)) <= Measure(s) - (if IsWork(s, step) then 1 else 0)
  {
    hide Consistent, AttemptsOk, Sum;
    if step.Start? || step.NoHandler? || step.Invoke? || step.Return? {
      WorkerDescends(c, s, step);
    } else if step.Dequeue? || step.Close? {
      QueueDescends(c, s, step);
    } else if IsWork(s, step) {
      ReleaseDescends(c, s, step);
    }
  }

  lemma MeasureNatural(s: State)
    requires Consistent(s) && AttemptsOk(s)
    ensures 0 <= Measure(s)
  {
    forall id | id in s.jobs ensures JobRank(s.jobs[id]) >= 0 {
      assert AttemptOk(s.jobs[id], s.calls[id]);
    }
    SumNatural(s.jobs, JobRank);
    SumNatural(s.workers, WorkerRank);
  }

  function WorkCount(run: seq<State>, steps: seq<Step>, i: nat, k: nat): nat
    requires i <= k <= |steps| <= |run|
    decreases k
  {
    if i == k then 0 else WorkCount(run, steps, i, k - 1) + if IsWork(run[k - 1], steps[k - 1]) then 1 else 0
  }

  /** Between arrivals of new jobs, only boundedly many steps of work can happen, in any interleaving. */
  lemma {:induction false} WorkIsBounded(c: Config, run: seq<State>, steps: seq<Step>, i: nat, k: nat)
    requires IsRun(c, run, steps) && i <= k <= |steps|
    requires forall n :: i <= n < k ==> !steps[n].Enqueue? && !steps[n].Schedule?
    ensures WorkCount(run, steps, i, k) + Measure(run[k]) <= Measure(run[i])
    ensures WorkCount(run, steps, i, k) <= Measure(run[i])
    decreases k
  {
    if i < k {
      WorkIsBounded(c, run, steps, i, k - 1);
      RunIsConsistent(c, run, steps, k - 1);
      RunAttempts(c, run, steps, k - 1);
      WorkDescends(c, run[k - 1], steps[k - 1]);
    }
    RunIsConsistent(c, run, steps, k);
    RunAttempts(c, run, steps, k);
    MeasureNatural(run[k]);
  }

  // ----- nothing left to do means everything is done -----

  lemma {:induction false} HeapHasFirst(h: multiset<Entry>) returns (e: Entry)
    requires h != multiset{}
    ensures e in h && IsFirst(h, e)
    decreases |h|
  {
    var d :| d in h;
    var rest := h - multiset{d};
    assert forall g :: g in h ==> g == d || g in rest;
    e := d;
    if rest != multiset{} {
      var f := HeapHasFirst(rest);
      if Less(f, d) { e := f; }
    }
  }

  /** The next step of a worker that holds a job. */
  function NextOf(x: Worker, w: nat): Step
    requires !x.Idle?
  {
    match x
    case Popped(_) => Start(w)
    case Looking(_) => Invoke(w)
    case Handling(_) => Return(w, Ok)
    case Closing(_, _) => Close(w)
  }

  lemma UnfinishedIsSomewhere(s: State, id: nat)
    requires Consistent(s) && id in s.jobs && id !in s.strays
    requires !IsTerminal(s.jobs[id].status) && s.jobs[id].status != Scheduled
    ensures s.heap != multiset{} || s.timers != multiset{} || id in HeldJobs(s.workers)
  {
    hide HeldJobs, WorkersOk, StraysOk, TimesOk, BatchOk, Exclusive, HeapOk, TimersOk;
    assert JobOk(id, s.jobs[id], s.heap, s.timers, HeldJobs(s.workers));
  }

  lemma NextIsEnabled(s: State, w: nat)
    requires Consistent(s) && w in s.workers && !s.workers[w].Idle?
    ensures var step := NextOf(s.workers[w], w); Enabled(s, step) && IsWork(s, step)
  {
    hide HeldJobs, StraysOk, TimesOk, BatchOk, Exclusive, HeapOk, TimersOk, JobsOk;
  }

  lemma TimersAreJobs(s: State, k: nat)
    requires Consistent(s) && k in s.timers
    ensures k in s.jobs
  {
    hide HeldJobs, StraysOk, TimesOk, BatchOk, Exclusive, HeapOk, JobsOk, WorkersOk;
  }

  /** If some accepted job is neither finished, awaiting its schedule nor lost, some work can be done now. */
  lemma WorkIsPossible(s: State, id: nat) returns (step: Step)
    requires Consistent(s) && s.workers != map[]
    requires id in s.jobs && !IsTerminal(s.jobs[id].status) && s.jobs[id].status != Scheduled && id !in s.strays
    ensures Enabled(s, step) && IsWork(s, step)
  {
    hide Consistent;
    UnfinishedIsSomewhere(s, id);
    var w :| w in s.workers;
    if v :| v in s.workers && !s.workers[v].Idle? {
      NextIsEnabled(s, v);
      step := NextOf(s.workers[v], v);
    } else if s.timers != multiset{} {
      var k :| k in s.timers;
      TimersAreJobs(s, k);
      step := Fire(k);
    } else {
      var e := HeapHasFirst(s.heap);
      step := Dequeue(w, e);
    }
  }
}
