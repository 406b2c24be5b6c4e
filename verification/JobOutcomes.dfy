/**
 What becomes of a job, over every run, in terms of what its handler returned: when it is Completed or
 Failed, what the counters count, how often the handler was called, and which pending job is next.
 */
module JobOutcomes {
  import opened Wrappers
  import opened JobHeap
  import opened JobProtocol
  import opened JobPlacement
  import opened JobCounters
  import opened Totals

  /** The step is the return, with this result, of the handler that was called for the job. */
  predicate Returns(s: State, step: Step, id: nat, result: Result) {
    step.Return? && step.w in s.workers && s.workers[step.w] == Handling(id) && step.result == result
  }

  /** The step calls the job's handler. */
  predicate Calls(s: State, step: Step, id: nat) {
    step.Invoke? && step.w in s.workers && s.workers[step.w] == Looking(id)
  }

  /** No handler, an error that is not retryable, or a retryable one with no attempt left. */
  predicate GivesUp(s: State, step: Step, id: nat) {
    || (step.NoHandler? && step.w in s.workers && s.workers[step.w] == Looking(id))
    || Returns(s, step, id, PlainError)
    || (Returns(s, step, id, RetryableError) && id in s.jobs && s.jobs[id].attempts >= s.jobs[id].maxAttempts)
  }

  /** A retryable error with an attempt left. */
  predicate TriesAgain(s: State, step: Step, id: nat) {
    Returns(s, step, id, RetryableError) && id in s.jobs && s.jobs[id].attempts < s.jobs[id].maxAttempts
  }

  // ----- one step -----

  /** What the return of a handler does to its job's record, and nothing else. */
  lemma ReturnStores(c: Config, s: State, w: nat, result: Result)
    requires Enabled(s, Return(w, result))
    ensures var id, t := s.workers[w].id, Apply(c, s, Return(w, result));
            && id in t.jobs
            && (result == Ok ==> t.jobs[id] == s.jobs[id].(status := Completed))
            && (result == PlainError ==> t.jobs[id] == s.jobs[id].(status := Failed))
            && (result == RetryableError && s.jobs[id].attempts < s.jobs[id].maxAttempts ==>
                  t.jobs[id] == s.jobs[id].(status := Retrying))
            && (result == RetryableError && s.jobs[id].attempts >= s.jobs[id].maxAttempts ==>
                  t.jobs[id] == s.jobs[id].(status := Failed))
            && (forall k :: k in s.jobs && k != id ==> k in t.jobs && t.jobs[k] == s.jobs[k])
  {
  }

  /** A job that is rewritten was neither Completed nor Failed. */
  lemma RewrittenIsOpen(s: State, step: Step, id: nat)
    requires Consistent(s) && Enabled(s, step) && Rewritten(s, step) == Some(id)
    ensures id in s.jobs && !IsTerminal(s.jobs[id].status)
  {
    hide Consistent, IsBatch, Fresh, IsFirst;
    if step.Start? || step.NoHandler? || step.Return? {
      HeldJobIs(s, step.w);
    } else if step.Fire? {
      TimedJobIsNowhereElse(s, id);
    } else {
      BatchJobIsScheduled(s);
    }
  }

  lemma RewrittenEnds(c: Config, s: State, step: Step, id: nat)
    requires Enabled(s, step) && Rewritten(s, step) == Some(id)
    ensures id in Apply(c, s, step).jobs
    ensures Apply(c, s, step).jobs[id].status == Completed <==> Returns(s, step, id, Ok)
    ensures Apply(c, s, step).jobs[id].status == Failed <==> GivesUp(s, step, id)
  {
    hide IsBatch, Fresh, IsFirst, EntryOf, IsScheduled;
  }

  lemma EndsAreRewritten(s: State, step: Step, id: nat)
    requires Enabled(s, step) && (Returns(s, step, id, Ok) || GivesUp(s, step, id))
    ensures Rewritten(s, step) == Some(id)
  {
    hide IsBatch, Fresh, IsFirst, EntryOf, IsScheduled;
  }

  lemma StepEnds(c: Config, s: State, step: Step, id: nat)
    requires Consistent(s) && Enabled(s, step) && id in s.jobs
    ensures id in Apply(c, s, step).jobs
    ensures Apply(c, s, step).jobs[id].status == Completed <==>
              s.jobs[id].status == Completed || Returns(s, step, id, Ok)
    ensures Apply(c, s, step).jobs[id].status == Failed <==> s.jobs[id].status == Failed || GivesUp(s, step, id)
  {
    hide Consistent, Enabled, Apply, Rewritten, Returns, GivesUp;
    RecordsKept(c, s, step, id);
    if Rewritten(s, step) == Some(id) {
      RewrittenIsOpen(s, step, id);
      RewrittenEnds(c, s, step, id);
    } else if Returns(s, step, id, Ok) || GivesUp(s, step, id) {
      EndsAreRewritten(s, step, id);
    }
  }

  lemma NewIsFresh(c: Config, s: State, step: Step, id: nat)
    requires Enabled(s, step) && id !in s.jobs && id in Apply(c, s, step).jobs
    ensures !IsTerminal(Apply(c, s, step).jobs[id].status)
    ensures id in Apply(c, s, step).calls && Apply(c, s, step).calls[id] == 0
    ensures !Returns(s, step, id, Ok) && !GivesUp(s, step, id) && !Calls(s, step, id)
  {
    hide IsBatch, IsFirst, EntryOf, IsScheduled;
  }

  lemma StrangersDoNothing(s: State, step: Step, id: nat)
    requires Enabled(s, step) && id !in s.jobs
    ensures !Returns(s, step, id, Ok) && !GivesUp(s, step, id) && !Calls(s, step, id)
  {
    hide IsBatch, IsFirst, EntryOf, IsScheduled, Fresh;
  }

  // ----- over runs -----

  predicate Succeeded(run: seq<State>, steps: seq<Step>, i: nat, id: nat)
    requires |run| == |steps| + 1 && i < |run|
  {
    exists k :: 0 <= k < i && Returns(run[k], steps[k], id, Ok)
  }

  predicate GaveUp(run: seq<State>, steps: seq<Step>, i: nat, id: nat)
    requires |run| == |steps| + 1 && i < |run|
  {
    exists k :: 0 <= k < i && GivesUp(run[k], steps[k], id)
  }

  lemma {:induction false} NothingBefore(c: Config, run: seq<State>, steps: seq<Step>, i: nat, id: nat)
    requires IsRun(c, run, steps) && i < |run| && id !in run[i].jobs
    ensures !Succeeded(run, steps, i, id) && !GaveUp(run, steps, i, id) && CallSteps(run, steps, i, id) == 0
  {
    hide Enabled, Apply, Returns, GivesUp, Calls, Init;
    if i > 0 {
      assert Enabled(run[i - 1], steps[i - 1]) && run[i] == Apply(c, run[i - 1], steps[i - 1]);
      if id in run[i - 1].jobs { RecordsKept(c, run[i - 1], steps[i - 1], id); }
      NothingBefore(c, run, steps, i - 1, id);
      StrangersDoNothing(run[i - 1], steps[i - 1], id);
    }
  }

  /**
   In every run, a job is Completed if and only if its handler once returned without an error, and
   Failed if and only if it once had no handler, met an error that is not retryable, or a retryable
   one with no attempt left.
   */
  lemma {:induction false} EndedIff(c: Config, run: seq<State>, steps: seq<Step>, i: nat, id: nat)
    requires IsRun(c, run, steps) && i < |run| && id in run[i].jobs
    ensures run[i].jobs[id].status == Completed <==> Succeeded(run, steps, i, id)
    ensures run[i].jobs[id].status == Failed <==> GaveUp(run, steps, i, id)
  {
    hide Enabled, Apply, Returns, GivesUp, Consistent;
    if i > 0 {
      var s, step := run[i - 1], steps[i - 1];
      assert Enabled(s, step) && run[i] == Apply(c, s, step);
      if id in s.jobs {
        hide Init;
        EndedIff(c, run, steps, i - 1, id);
        RunIsConsistent(c, run, steps, i - 1);
        StepEnds(c, s, step, id);
      } else {
        hide Init;
        NothingBefore(c, run, steps, i - 1, id);
        NewIsFresh(c, s, step, id);
      }
    }
  }

  // ----- what the counters count -----

  function ClosingRetry(x: Worker): int { if x.Closing? && x.outcome == Retry then 1 else 0 }

  /** Returns without an error, jobs given up and retries, among the first `i` steps. */
  function OkReturns(steps: seq<Step>, i: nat): nat
    requires i <= |steps|
  {
    if i == 0 then 0
    else OkReturns(steps, i - 1) + if steps[i - 1].Return? && steps[i - 1].result == Ok then 1 else 0
  }

  predicate SomeoneGivesUp(s: State, step: Step) {
    (step.NoHandler? || step.Return?) && At(s, step.w) && GivesUp(s, step, s.workers[step.w].id)
  }

  predicate SomeoneTriesAgain(s: State, step: Step) {
    step.Return? && At(s, step.w) && TriesAgain(s, step, s.workers[step.w].id)
  }

  function GivenUp(run: seq<State>, steps: seq<Step>, i: nat): nat
    requires i <= |steps| <= |run|
    decreases i
  {
    if i == 0 then 0 else GivenUp(run, steps, i - 1) + if SomeoneGivesUp(run[i - 1], steps[i - 1]) then 1 else 0
  }

  function Retried(run: seq<State>, steps: seq<Step>, i: nat): nat
    requires i <= |steps| <= |run|
    decreases i
  {
    if i == 0 then 0 else Retried(run, steps, i - 1) + if SomeoneTriesAgain(run[i - 1], steps[i - 1]) then 1 else 0
  }

  /** Counters together with the results stored but not yet counted. */
  ghost function DoneSoFar(s: State): int { s.processed + Sum(s.workers, ClosingDone) }
  ghost function FailedSoFar(s: State): int { s.failed + Sum(s.workers, ClosingFail) }
  ghost function RetriedSoFar(s: State): int { s.retried + Sum(s.workers, ClosingRetry) }

  lemma ClosingSums(workers: map<nat, Worker>, w: nat, x: Worker)
    requires w in workers
    ensures Sum(workers[w := x], ClosingDone) == Sum(workers, ClosingDone) + ClosingDone(x) - ClosingDone(workers[w])
    ensures Sum(workers[w := x], ClosingFail) == Sum(workers, ClosingFail) + ClosingFail(x) - ClosingFail(workers[w])
    ensures Sum(workers[w := x], ClosingRetry)
         == Sum(workers, ClosingRetry) + ClosingRetry(x) - ClosingRetry(workers[w])
  {
    SumUpdate(workers, ClosingDone, w, x);
    SumUpdate(workers, ClosingFail, w, x);
    SumUpdate(workers, ClosingRetry, w, x);
  }

  lemma WorkerCounts(c: Config, s: State, step: Step)
    requires Enabled(s, step)
    requires step.Dequeue? || step.Start? || step.NoHandler? || step.Invoke? || step.Return? || step.Close?
    ensures var t := Apply(c, s, step);
            && DoneSoFar(t) == DoneSoFar(s) + (if step.Return? && step.result == Ok then 1 else 0)
            && FailedSoFar(t) == FailedSoFar(s) + (if SomeoneGivesUp(s, step) then 1 else 0)
            && RetriedSoFar(t) == RetriedSoFar(s) + (if SomeoneTriesAgain(s, step) then 1 else 0)
  {
    hide Sum, IsFirst, IsBatch, Fresh, EntryOf, IsScheduled;
    var t := Apply(c, s, step);
    assert t.workers == s.workers[step.w := t.workers[step.w]];
    ClosingSums(s.workers, step.w, t.workers[step.w]);
  }

  lemma OtherCounts(c: Config, s: State, step: Step)
    requires Enabled(s, step)
    requires !(step.Dequeue? || step.Start? || step.NoHandler? || step.Invoke? || step.Return? || step.Close?)
    ensures var t := Apply(c, s, step);
            && DoneSoFar(t) == DoneSoFar(s) && FailedSoFar(t) == FailedSoFar(s) && RetriedSoFar(t) == RetriedSoFar(s)
  {
    hide Sum, IsFirst, IsBatch, Fresh, EntryOf, IsScheduled;
  }

  /**
   In every state of every run, `JobsProcessed` plus the successes not yet counted is the number of
   handlers that returned without an error; likewise `JobsFailed` for jobs given up and `JobsRetried`
   for retries.
   */
  lemma {:induction false} CountersCount(c: Config, run: seq<State>, steps: seq<Step>, i: nat)
    requires IsRun(c, run, steps) && i < |run|
    ensures run[i].processed + Sum(run[i].workers, ClosingDone) == OkReturns(steps, i)
    ensures run[i].failed + Sum(run[i].workers, ClosingFail) == GivenUp(run, steps, i)
    ensures run[i].retried + Sum(run[i].workers, ClosingRetry) == Retried(run, steps, i)
  {
    hide Sum, Enabled, Apply, SomeoneGivesUp, SomeoneTriesAgain;
    if i == 0 {
      SumEmpty(run[0].workers, ClosingDone);
      SumEmpty(run[0].workers, ClosingFail);
      SumEmpty(run[0].workers, ClosingRetry);
    } else {
      hide Init;
      CountersCount(c, run, steps, i - 1);
      var s, step := run[i - 1], steps[i - 1];
      assert Enabled(s, step) && run[i] == Apply(c, s, step);
      if step.Dequeue? || step.Start? || step.NoHandler? || step.Invoke? || step.Return? || step.Close? {
        WorkerCounts(c, s, step);
      } else {
        OtherCounts(c, s, step);
        NotWorkers(s, step);
      }
    }
  }

  lemma NotWorkers(s: State, step: Step)
    requires !step.NoHandler? && !step.Return?
    ensures !SomeoneGivesUp(s, step) && !SomeoneTriesAgain(s, step)
  {
  }

  // ----- handler calls -----

  /** How often the job's handler was called in the first `i` steps. */
  function CallSteps(run: seq<State>, steps: seq<Step>, i: nat, id: nat): nat
    requires i <= |steps| <= |run|
    decreases i
  {
    if i == 0 then 0 else CallSteps(run, steps, i - 1, id) + if Calls(run[i - 1], steps[i - 1], id) then 1 else 0
  }

  lemma StepCalls(c: Config, s: State, step: Step, id: nat)
    requires Enabled(s, step) && id in s.jobs && id in s.calls
    ensures id in Apply(c, s, step).calls
    ensures Apply(c, s, step).calls[id] == s.calls[id] + if Calls(s, step, id) then 1 else 0
  {
    hide IsFirst, IsBatch, Fresh, EntryOf, IsScheduled;
  }

  lemma {:induction false} CallsCounted(c: Config, run: seq<State>, steps: seq<Step>, i: nat, id: nat)
    requires IsRun(c, run, steps) && i < |run| && id in run[i].jobs
    ensures id in run[i].calls && run[i].calls[id] == CallSteps(run, steps, i, id)
  {
    hide Enabled, Apply, Calls, Consistent;
    if i > 0 {
      var s, step := run[i - 1], steps[i - 1];
      assert Enabled(s, step) && run[i] == Apply(c, s, step);
      if id in s.jobs {
        hide Init;
        CallsCounted(c, run, steps, i - 1, id);
        StepCalls(c, s, step, id);
      } else {
        hide Init;
        NothingBefore(c, run, steps, i - 1, id);
        NewIsFresh(c, s, step, id);
      }
    }
  }

  /** In every run, a job's handler is called at most MaxAttempts times, and once if MaxAttempts is below one. */
  lemma CallStepsAreBounded(c: Config, run: seq<State>, steps: seq<Step>, i: nat, id: nat)
    requires IsRun(c, run, steps) && i < |run| && id in run[i].jobs
    ensures CallSteps(run, steps, i, id) <= run[i].jobs[id].maxAttempts || CallSteps(run, steps, i, id) <= 1
  {
    CallsCounted(c, run, steps, i, id);
    CallsAreBounded(c, run, steps, i, id);
  }

  // ----- which job is next -----

  lemma EntryIsJob(s: State, e: Entry)
    requires Consistent(s) && e in s.heap
    ensures e.id in s.jobs && e.priority == s.jobs[e.id].priority && e.createdAt == s.jobs[e.id].createdAt
  {
    hide HeldJobs, WorkersOk, TimersOk, JobsOk, StraysOk, TimesOk, BatchOk, Exclusive;
  }

  /** In every run, a worker takes a job such that no pending one has a higher priority, or the same and is older. */
  lemma FirstJobFirst(c: Config, run: seq<State>, steps: seq<Step>, i: nat, f: Entry)
    requires IsRun(c, run, steps) && i < |steps| && steps[i].Dequeue? && f in run[i].heap
    ensures var s, id := run[i], steps[i].e.id;
            && id in s.jobs && f.id in s.jobs
            && s.jobs[f.id].priority <= s.jobs[id].priority
            && (s.jobs[f.id].priority == s.jobs[id].priority ==> s.jobs[f.id].createdAt >= s.jobs[id].createdAt)
  {
    assert Enabled(run[i], steps[i]);
    hide Apply, Consistent;
    RunIsConsistent(c, run, steps, i);
    EntryIsJob(run[i], f);
    EntryIsJob(run[i], steps[i].e);
  }
}
