/** Attempts, handler calls and statistics over every run of the job manager. */
module JobCounters {
  import opened Wrappers
  import opened JobHeap
  import opened JobProtocol
  import opened JobPlacement
  import opened Totals

  // ----- attempts and handler calls -----

  /** A job is attempted at least once, and otherwise at most `MaxAttempts` times. */
  function Cap(j: Job): int {
    if j.maxAttempts > 1 then j.maxAttempts else 1
  }

  predicate AttemptOk(j: Job, calls: nat) {
    && calls <= j.attempts <= Cap(j)
    && (j.status == Pending || j.status == Scheduled || j.status == Retrying ==> j.attempts < Cap(j))
  }

  ghost predicate AttemptsOk(s: State) {
    && (forall id :: id in s.jobs && id in s.calls ==> AttemptOk(s.jobs[id], s.calls[id]))
    && (forall w :: At(s, w) && s.workers[w].Looking? ==>
          s.calls[s.workers[w].id] < s.jobs[s.workers[w].id].attempts)
  }

  lemma AcceptedAttempts(c: Config, s: State, step: Step)
    requires Consistent(s) && AttemptsOk(s) && Enabled(s, step) && (step.Enqueue? || step.Schedule?)
    ensures AttemptsOk(Apply(c, s, step))
  {
    hide HeldJobs, HeapOk, TimersOk, JobsOk, StraysOk, TimesOk, BatchOk;
  }

  /** A worker moves on with its job: only that job's record and call count change. */
  lemma MoveKeepsAttempts(s: State, t: State, w: nat, id: nat)
    requires AttemptsOk(s) && Exclusive(s.workers) && At(s, w) && s.workers[w].id == id && At(t, w)
    requires id in t.jobs && id in t.calls && t.workers[w].id == id
    requires t.jobs == s.jobs[id := t.jobs[id]] && t.calls == s.calls[id := t.calls[id]]
    requires t.workers == s.workers[w := t.workers[w]]
    requires AttemptOk(t.jobs[id], t.calls[id]) && (t.workers[w].Looking? ==> t.calls[id] < t.jobs[id].attempts)
    ensures AttemptsOk(t)
  {
    hide AttemptOk;
    forall v | At(t, v) && t.workers[v].Looking? ensures t.calls[t.workers[v].id] < t.jobs[t.workers[v].id].attempts {
      if v != w { assert t.workers[v].id != id; assert At(s, v); }
    }
  }

  lemma HeldAttempts(s: State, w: nat)
    requires Consistent(s) && AttemptsOk(s) && At(s, w)
    ensures Exclusive(s.workers) && StageFits(s.workers[w], s.jobs[s.workers[w].id].status)
    ensures AttemptOk(s.jobs[s.workers[w].id], s.calls[s.workers[w].id])
    ensures s.workers[w].Looking? ==> s.calls[s.workers[w].id] < s.jobs[s.workers[w].id].attempts
  {
    hide HeldJobs, HeapOk, TimersOk, JobsOk, StraysOk, TimesOk, BatchOk, Exclusive;
  }

  lemma WorkerAttempts(c: Config, s: State, step: Step)
    requires Consistent(s) && AttemptsOk(s) && Enabled(s, step)
    requires step.Start? || step.NoHandler? || step.Invoke? || step.Return?
    ensures AttemptsOk(Apply(c, s, step))
  {
    hide Consistent, AttemptsOk, Exclusive, IsFirst, IsBatch, Fresh, EntryOf;
    HeldAttempts(s, step.w);
    var id, t := s.workers[step.w].id, Apply(c, s, step);
    assert t.jobs == s.jobs[id := t.jobs[id]] && t.calls == s.calls[id := t.calls[id]];
    MoveKeepsAttempts(s, t, step.w, id);
  }

  lemma PutKeepsAttempts(s: State, t: State, id: nat)
    requires AttemptsOk(s) && id in s.jobs && id in s.calls && id in t.jobs
    requires s.jobs[id].status == Retrying || s.jobs[id].status == Scheduled
    requires t.jobs == s.jobs[id := t.jobs[id]] && t.calls == s.calls && t.workers == s.workers
    requires t.jobs[id].attempts == s.jobs[id].attempts && t.jobs[id].maxAttempts == s.jobs[id].maxAttempts
    ensures AttemptsOk(t)
  {
    assert AttemptOk(s.jobs[id], s.calls[id]);
    forall w | At(t, w) && t.workers[w].Looking? ensures t.calls[t.workers[w].id] < t.jobs[t.workers[w].id].attempts {
      assert At(s, w);
    }
  }

  lemma FireAttempts(c: Config, s: State, id: nat)
    requires Consistent(s) && AttemptsOk(s) && Enabled(s, Fire(id))
    ensures AttemptsOk(Apply(c, s, Fire(id)))
  {
    hide Consistent, AttemptsOk;
    TimedJobIsNowhereElse(s, id);
    CallsMatch(s);
    PutKeepsAttempts(s, Apply(c, s, Fire(id)), id);
  }

  lemma ReleaseAttempts(c: Config, s: State)
    requires Consistent(s) && AttemptsOk(s) && Enabled(s, Release)
    ensures AttemptsOk(Apply(c, s, Release))
  {
    hide Consistent, AttemptsOk;
    BatchJobIsScheduled(s);
    CallsMatch(s);
    var t := Apply(c, s, Release);
    assert t.jobs == s.jobs[s.batch[0] := t.jobs[s.batch[0]]];
    PutKeepsAttempts(s, t, s.batch[0]);
  }

  lemma SameAttempts(s: State, t: State)
    requires AttemptsOk(s) && t.jobs == s.jobs && t.calls == s.calls
    requires forall w :: w in t.workers && t.workers[w].Looking? ==> w in s.workers && s.workers[w] == t.workers[w]
    ensures AttemptsOk(t)
  {
    forall w | At(t, w) && t.workers[w].Looking? ensures t.calls[t.workers[w].id] < t.jobs[t.workers[w].id].attempts {
      assert At(s, w);
    }
  }

  lemma QueueAttempts(c: Config, s: State, step: Step)
    requires AttemptsOk(s) && Enabled(s, step) && (step.Dequeue? || step.Close?)
    ensures AttemptsOk(Apply(c, s, step))
  {
    hide AttemptsOk, IsFirst;
    var t := Apply(c, s, step);
    assert t.workers == s.workers[step.w := t.workers[step.w]] && !t.workers[step.w].Looking?;
    SameAttempts(s, t);
  }

  lemma StepKeepsAttempts(c: Config, s: State, step: Step)
    requires Consistent(s) && AttemptsOk(s) && Enabled(s, step)
    ensures AttemptsOk(Apply(c, s, step))
  {
    hide Consistent, AttemptsOk;
    match step
    case Enqueue(_, _) => AcceptedAttempts(c, s, step);
    case Schedule(_, _) => AcceptedAttempts(c, s, step);
    case Dequeue(_, _) => QueueAttempts(c, s, step);
    case Close(_) => QueueAttempts(c, s, step);
    case Fire(id) => FireAttempts(c, s, id);
    case Release => ReleaseAttempts(c, s);
    case Snapshot(_) => SameAttempts(s, Apply(c, s, step));
    case Clock(_) => SameAttempts(s, Apply(c, s, step));
    case _ => WorkerAttempts(c, s, step);
  }

  lemma {:induction false} RunAttempts(c: Config, run: seq<State>, steps: seq<Step>, i: nat)
    requires IsRun(c, run, steps) && i < |run|
    ensures AttemptsOk(run[i])
  {
    if i > 0 {
      hide Consistent, AttemptsOk, Apply, Enabled, Init;
      RunAttempts(c, run, steps, i - 1);
      RunIsConsistent(c, run, steps, i - 1);
      StepKeepsAttempts(c, run[i - 1], steps[i - 1]);
    } else {
      assert run[0].jobs == map[] && forall w :: !At(run[0], w);
    }
  }

  /** In every run, a job's handler is called at most max(1, MaxAttempts) times. */
  lemma CallsAreBounded(c: Config, run: seq<State>, steps: seq<Step>, i: nat, id: nat)
    requires IsRun(c, run, steps) && i < |run| && id in run[i].jobs
    ensures id in run[i].calls && run[i].calls[id] <= run[i].jobs[id].attempts
    ensures run[i].jobs[id].attempts <= run[i].jobs[id].maxAttempts || run[i].jobs[id].attempts <= 1
  {
    RunAttempts(c, run, steps, i);
    RunIsConsistent(c, run, steps, i);
  }

  // ----- how a job's record changes -----

  /** Grows with every attempt and again when the attempt's result is stored. */
  function Phase(j: Job): int {
    2 * j.attempts + if j.status == Running then 0 else 1
  }

  predicate Follows(j: Job, k: Job) {
    && k.priority == j.priority && k.createdAt == j.createdAt && k.maxAttempts == j.maxAttempts
    && Phase(j) <= Phase(k)
    && (IsTerminal(j.status) ==> k == j)
  }

  lemma FollowsItself(j: Job)
    ensures Follows(j, j)
  {
  }

  lemma FollowsOn(j: Job, k: Job, l: Job)
    requires Follows(j, k) && Follows(k, l)
    ensures Follows(j, l)
  {
  }

  lemma WorkerFollows(c: Config, s: State, step: Step, id: nat)
    requires Consistent(s) && Enabled(s, step) && id in s.jobs
    requires step.Start? || step.NoHandler? || step.Invoke? || step.Return?
    ensures id in Apply(c, s, step).jobs && Follows(s.jobs[id], Apply(c, s, step).jobs[id])
  {
    hide HeldJobs, HeapOk, JobsOk, StraysOk, TimesOk, Exclusive, TimersOk, BatchOk;
    assert StageFits(s.workers[step.w], s.jobs[s.workers[step.w].id].status);
    hide WorkersOk;
  }

  lemma FiredFollows(c: Config, s: State, id: nat)
    requires Consistent(s) && Enabled(s, Fire(id))
    ensures id in s.jobs && id in Apply(c, s, Fire(id)).jobs
    ensures Follows(s.jobs[id], Apply(c, s, Fire(id)).jobs[id])
  {
    hide Consistent, EntryOf, IsScheduled;
    TimedJobIsNowhereElse(s, id);
  }

  lemma ReleasedFollows(c: Config, s: State)
    requires Consistent(s) && Enabled(s, Release) && Rewritten(s, Release) == Some(s.batch[0])
    ensures s.batch[0] in s.jobs && s.batch[0] in Apply(c, s, Release).jobs
    ensures Follows(s.jobs[s.batch[0]], Apply(c, s, Release).jobs[s.batch[0]])
  {
    hide Consistent, EntryOf, IsScheduled;
    BatchJobIsScheduled(s);
  }

  lemma StartsOrEnds(s: State, step: Step, id: nat)
    requires Enabled(s, step) && Rewritten(s, step) == Some(id)
    ensures step.Release? ==> s.batch != []
    ensures step.Start? || step.NoHandler? || step.Return? || step == Fire(id) || (step.Release? && s.batch[0] == id)
  {
    hide IsFirst, IsBatch, Fresh;
  }

  lemma StepFollows(c: Config, s: State, step: Step, id: nat)
    requires Consistent(s) && Enabled(s, step) && id in s.jobs
    ensures id in Apply(c, s, step).jobs && Follows(s.jobs[id], Apply(c, s, step).jobs[id])
  {
    hide Consistent, Enabled, Apply, Rewritten;
    RecordsKept(c, s, step, id);
    if Rewritten(s, step) == Some(id) {
      StartsOrEnds(s, step, id);
      if step.Fire? {
        FiredFollows(c, s, id);
      } else if step.Release? {
        ReleasedFollows(c, s);
      } else {
        WorkerFollows(c, s, step, id);
      }
    }
  }

  /** Completed and Failed are never left; an accepted job keeps its limits and its attempts never shrink. */
  lemma {:induction false} JobsFollow(c: Config, run: seq<State>, steps: seq<Step>, i: nat, k: nat, id: nat)
    requires IsRun(c, run, steps) && i <= k < |run| && id in run[i].jobs
    ensures id in run[k].jobs && Follows(run[i].jobs[id], run[k].jobs[id])
    decreases k
  {
    hide Apply, Enabled, Consistent, Init, Follows;
    if i == k {
      FollowsItself(run[i].jobs[id]);
    } else {
      JobsFollow(c, run, steps, i, k - 1, id);
      RunIsConsistent(c, run, steps, k - 1);
      StepFollows(c, run[k - 1], steps[k - 1], id);
      FollowsOn(run[i].jobs[id], run[k - 1].jobs[id], run[k].jobs[id]);
    }
  }

  /** Step `i` of the run records a retry of the job. */
  predicate Retries(run: seq<State>, steps: seq<Step>, i: nat, id: nat)
    requires |run| == |steps| + 1 && i < |steps|
  {
    && steps[i].Return? && At(run[i], steps[i].w) && run[i].workers[steps[i].w] == Handling(id)
    && id in run[i + 1].jobs && run[i + 1].jobs[id].status == Retrying
  }

  /** Each retry leaves strictly fewer attempts than the one before, and at least one. */
  lemma RetriesDescend(c: Config, run: seq<State>, steps: seq<Step>, i: nat, k: nat, id: nat)
    requires IsRun(c, run, steps) && i < k < |steps| && Retries(run, steps, i, id) && Retries(run, steps, k, id)
    ensures 0 < run[k + 1].jobs[id].maxAttempts - run[k + 1].jobs[id].attempts
              < run[i + 1].jobs[id].maxAttempts - run[i + 1].jobs[id].attempts
  {
    JobsFollow(c, run, steps, i + 1, k, id);
    RunIsConsistent(c, run, steps, k);
    assert StageFits(run[k].workers[steps[k].w], run[k].jobs[id].status);
    assert run[k + 1] == Apply(c, run[k], steps[k]);
  }

  // ----- conservation -----

  function Attempts(j: Job): int { j.attempts }
  function IsCompleted(j: Job): int { if j.status == Completed then 1 else 0 }
  function IsFailed(j: Job): int { if j.status == Failed then 1 else 0 }

  function InFlight(x: Worker): int { if x.Looking? || x.Handling? || x.Closing? then 1 else 0 }
  function ClosingDone(x: Worker): int { if x.Closing? && x.outcome == Done then 1 else 0 }
  function ClosingFail(x: Worker): int { if x.Closing? && x.outcome == Fail then 1 else 0 }

  /**
   Every attempt is either counted or still in flight, and the processed and failed counters lag
   the job records by exactly the results that workers have stored but not yet counted.
   */
  ghost predicate Balanced(s: State) {
    && Sum(s.jobs, Attempts) == s.processed + s.failed + s.retried + Sum(s.workers, InFlight)
    && Sum(s.jobs, IsCompleted) == s.processed + Sum(s.workers, ClosingDone)
    && Sum(s.jobs, IsFailed) == s.failed + Sum(s.workers, ClosingFail)
  }

  lemma JobSums(jobs: map<nat, Job>, id: nat, j: Job)
    ensures Sum(jobs[id := j], Attempts)
        == Sum(jobs, Attempts) + j.attempts - (if id in jobs then jobs[id].attempts else 0)
    ensures Sum(jobs[id := j], IsCompleted)
         == Sum(jobs, IsCompleted) + IsCompleted(j) - (if id in jobs then IsCompleted(jobs[id]) else 0)
    ensures Sum(jobs[id := j], IsFailed)
        == Sum(jobs, IsFailed) + IsFailed(j) - (if id in jobs then IsFailed(jobs[id]) else 0)
  {
    SumUpdate(jobs, Attempts, id, j);
    SumUpdate(jobs, IsCompleted, id, j);
    SumUpdate(jobs, IsFailed, id, j);
  }

  lemma WorkerSums(workers: map<nat, Worker>, w: nat, x: Worker)
    requires w in workers
    ensures Sum(workers[w := x], InFlight) == Sum(workers, InFlight) + InFlight(x) - InFlight(workers[w])
    ensures Sum(workers[w := x], ClosingDone) == Sum(workers, ClosingDone) + ClosingDone(x) - ClosingDone(workers[w])
    ensures Sum(workers[w := x], ClosingFail) == Sum(workers, ClosingFail) + ClosingFail(x) - ClosingFail(workers[w])
  {
    SumUpdate(workers, InFlight, w, x);
    SumUpdate(workers, ClosingDone, w, x);
    SumUpdate(workers, ClosingFail, w, x);
  }

  lemma WorkerBalances(c: Config, s: State, step: Step)
    requires Consistent(s) && Balanced(s) && Enabled(s, step)
    requires step.Start? || step.NoHandler? || step.Invoke? || step.Return?
    ensures Balanced(Apply(c, s, step))
  {
    hide HeldJobs, Sum, HeapOk, TimersOk, JobsOk, StraysOk, TimesOk, BatchOk, Exclusive;
    var id := s.workers[step.w].id;
    assert StageFits(s.workers[step.w], s.jobs[id].status);
    var t := Apply(c, s, step);
    assert t.jobs == s.jobs[id := t.jobs[id]];
    JobSums(s.jobs, id, t.jobs[id]);
    WorkerSums(s.workers, step.w, t.workers[step.w]);
  }

  lemma QueueBalances(c: Config, s: State, step: Step)
    requires Consistent(s) && Balanced(s) && Enabled(s, step)
    requires step.Dequeue? || step.Close?
    ensures Balanced(Apply(c, s, step))
  {
    hide Consistent, Sum, IsFirst, IsBatch, Fresh;
    WorkerSums(s.workers, step.w, Apply(c, s, step).workers[step.w]);
  }

  /** Putting one job in place of another that is equally attempted and equally unfinished. */
  lemma PutBalances(s: State, t: State, id: nat)
    requires Balanced(s) && id in t.jobs && t.jobs == s.jobs[id := t.jobs[id]] && t.workers == s.workers
    requires t.processed == s.processed && t.failed == s.failed && t.retried == s.retried
    requires !IsTerminal(t.jobs[id].status)
    requires if id in s.jobs then t.jobs[id].attempts == s.jobs[id].attempts && !IsTerminal(s.jobs[id].status)
             else t.jobs[id].attempts == 0
    ensures Balanced(t)
  {
    hide Sum;
    JobSums(s.jobs, id, t.jobs[id]);
  }

  lemma JobBalances(c: Config, s: State, step: Step)
    requires Consistent(s) && Balanced(s) && Enabled(s, step)
    requires step.Enqueue? || step.Schedule? || step.Fire?
    ensures Balanced(Apply(c, s, step))
  {
    hide Consistent, Balanced;
    if step.Fire? { TimedJobIsNowhereElse(s, step.id); }
    PutBalances(s, Apply(c, s, step), step.id);
  }

  lemma ReleaseBalances(c: Config, s: State)
    requires Consistent(s) && Balanced(s) && Enabled(s, Release)
    ensures Balanced(Apply(c, s, Release))
  {
    hide Consistent, Balanced;
    BatchJobIsScheduled(s);
    var t := Apply(c, s, Release);
    assert t.jobs == s.jobs[s.batch[0] := t.jobs[s.batch[0]]];
    PutBalances(s, t, s.batch[0]);
  }

  lemma StepBalances(c: Config, s: State, step: Step)
    requires Consistent(s) && Balanced(s) && Enabled(s, step)
    ensures Balanced(Apply(c, s, step))
  {
    hide Consistent, Sum;
    if step.Start? || step.NoHandler? || step.Invoke? || step.Return? {
      WorkerBalances(c, s, step);
    } else if step.Dequeue? || step.Close? {
      QueueBalances(c, s, step);
    } else if step.Release? {
      ReleaseBalances(c, s);
    } else if !step.Snapshot? && !step.Clock? {
      JobBalances(c, s, step);
    }
  }

  /** The counters agree with the job records in every state of every run. */
  lemma {:induction false} RunIsBalanced(c: Config, run: seq<State>, steps: seq<Step>, i: nat)
    requires IsRun(c, run, steps) && i < |run|
    ensures Balanced(run[i])
  {
    if i == 0 {
      SumEmpty(run[0].workers, InFlight);
      SumEmpty(run[0].workers, ClosingDone);
      SumEmpty(run[0].workers, ClosingFail);
      SumEmpty(run[0].jobs, Attempts);
      SumEmpty(run[0].jobs, IsCompleted);
      SumEmpty(run[0].jobs, IsFailed);
    } else {
      RunIsBalanced(c, run, steps, i - 1);
      RunIsConsistent(c, run, steps, i - 1);
      StepBalances(c, run[i - 1], steps[i - 1]);
    }
  }
}
