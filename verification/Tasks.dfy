/**
 The task scheduler: which tasks a check starts, what one run of a task records, and what a whole
 history of runs guarantees about a cron task's `NextRun`.

 The task function and the contexts are the environment of a run: for each attempt they say
 whether the context was already cancelled, and what the function and the wait after it did.
 */
module Tasks {
  import opened Wrappers
  import Calendar
  import opened CronExpression
  import CronNextRun
  import CronSpec

  datatype Schedule = Cron(spec: string) | Every(interval: int)

  datatype Attempt = Cancelled | Succeeds | Fails(cancelledInWait: bool)

  /** How a run ends: recorded as success or failure, or abandoned by a context. */
  datatype Exit = Success | Failure | Abandoned

  /** The attempt the run stops at, from attempt `k` on. */
  function LastAttempt(env: nat -> Attempt, maxRetries: nat, k: nat): (n: nat)
    requires k <= maxRetries
    ensures k <= n <= maxRetries
    decreases maxRetries - k
  {
    if env(k) == Fails(false) && k < maxRetries then LastAttempt(env, maxRetries, k + 1) else k
  }

  function ExitOf(env: nat -> Attempt, maxRetries: nat): Exit {
    var n := LastAttempt(env, maxRetries, 0);
    match env(n)
    case Cancelled => Abandoned
    case Succeeds => Success
    case Fails(cancelled) => if cancelled && n < maxRetries then Abandoned else Failure
  }

  /** Every attempt before the last one failed and its wait ran to the end. */
  lemma {:induction false} EarlierAttemptsFail(env: nat -> Attempt, maxRetries: nat, k: nat, i: nat)
    requires k <= maxRetries && k <= i < LastAttempt(env, maxRetries, k)
    ensures env(i) == Fails(false)
    decreases maxRetries - k
  {
    if k < i { EarlierAttemptsFail(env, maxRetries, k + 1, i); }
  }

  /** A run records success exactly when some attempt succeeds after only plain failures. */
  lemma ExitMeaning(env: nat -> Attempt, maxRetries: nat)
    ensures ExitOf(env, maxRetries) == Success <==>
              exists n: nat :: n <= maxRetries && env(n) == Succeeds
                  && forall i: nat :: i < n ==> env(i) == Fails(false)
    ensures ExitOf(env, maxRetries) == Failure <==>
              env(maxRetries).Fails? && forall i: nat :: i < maxRetries ==> env(i) == Fails(false)
  {
    var n := LastAttempt(env, maxRetries, 0);
    forall i: nat | i < n ensures env(i) == Fails(false) {
      EarlierAttemptsFail(env, maxRetries, 0, i);
    }
    StopsAtFirst(env, maxRetries, 0);
  }

  lemma {:induction false} StopsAtFirst(env: nat -> Attempt, maxRetries: nat, k: nat)
    requires k <= maxRetries
    ensures var n := LastAttempt(env, maxRetries, k); n == maxRetries || env(n) != Fails(false)
    decreases maxRetries - k
  {
    if env(k) == Fails(false) && k < maxRetries { StopsAtFirst(env, maxRetries, k + 1); }
  }

  /** What the last attempt and the ones before it were, by the exit taken. */
  lemma LastAttemptIs(env: nat -> Attempt, maxRetries: nat)
    ensures var n, exit := LastAttempt(env, maxRetries, 0), ExitOf(env, maxRetries);
            && (exit == Success ==> env(n) == Succeeds)
            && (exit == Failure ==> n == maxRetries && env(maxRetries).Fails?)
            && (forall i :: 0 <= i < n ==> env(i) == Fails(false))
  {
    var n := LastAttempt(env, maxRetries, 0);
    forall i: nat | i < n ensures env(i) == Fails(false) {
      EarlierAttemptsFail(env, maxRetries, 0, i);
    }
    StopsAtFirst(env, maxRetries, 0);
  }

  class Task {
    const schedule: Schedule
    const maxRetries: nat
    var enabled: bool
    var isRunning: bool
    var nextRun: int
    var lastRun: int
    var runCount: nat
    var errorCount: nat

    /** Registration accepts a cron task only after its specification parses. */
    ghost predicate Valid() {
      schedule.Cron? ==> CronSpec.StepsFit(schedule.spec) && CronSpec.SpecExpression(schedule.spec).Some?
    }

    constructor (schedule: Schedule, maxRetries: nat, nextRun: int)
      ensures this.schedule == schedule && this.maxRetries == maxRetries && this.nextRun == nextRun
      ensures enabled && !isRunning && runCount == 0 && errorCount == 0
    {
      this.schedule, this.maxRetries, this.nextRun := schedule, maxRetries, nextRun;
      enabled, isRunning, lastRun, runCount, errorCount := true, false, 0, 0, 0;
    }

    method UpdateNextRun(now: int) returns (ok: bool)
      requires Valid()
      modifies this`nextRun
      ensures schedule.Every? ==> ok && nextRun == now + schedule.interval
      ensures schedule.Cron? ==>
          CronUpdate(CronSpec.SpecExpression(schedule.spec).value, now, old(nextRun), ok, nextRun)
    {
      match schedule
      case Cron(spec) =>
        var r := CronSpec.CalculateNextCronRun(spec, now);
        if r.At? {
          nextRun := r.instant;
        }
        ok := r.At?;
      case Every(interval) =>
        nextRun := now + interval;
        ok := true;
    }

    /** One run: `now` is the clock when it records its result. */
    method Run(env: nat -> Attempt, now: int) returns (exit: Exit, calls: nat, ok: bool)
      requires Valid()
      modifies this`isRunning, this`lastRun, this`runCount, this`errorCount, this`nextRun
      ensures exit == ExitOf(env, maxRetries)
      ensures var n := LastAttempt(env, maxRetries, 0); calls == if env(n) == Cancelled then n else n + 1
      ensures exit == Success ==> 1 <= calls <= maxRetries + 1 && env(calls - 1) == Succeeds
      ensures exit == Failure ==> calls == maxRetries + 1 && env(maxRetries).Fails?
      ensures forall i :: 0 <= i < calls - 1 ==> env(i) == Fails(false)
      ensures runCount == old(runCount) + (if exit == Success then 1 else 0)
      ensures errorCount == old(errorCount) + (if exit == Failure then 1 else 0)
      ensures isRunning == (exit == Abandoned)
      ensures exit == Abandoned ==> nextRun == old(nextRun) && lastRun == old(lastRun)
      ensures exit != Abandoned ==> lastRun == now
      ensures exit != Abandoned && schedule.Every? ==> nextRun == now + schedule.interval
      ensures exit != Abandoned && schedule.Cron? ==>
                CronUpdate(CronSpec.SpecExpression(schedule.spec).value, now, old(nextRun), ok, nextRun)
    {
      LastAttemptIs(env, maxRetries);
      isRunning := true;
      calls := 0;
      var attempt := 0;
      while attempt <= maxRetries
        invariant attempt <= maxRetries + 1 && calls == attempt
        invariant attempt <= maxRetries ==> LastAttempt(env, maxRetries, attempt) == LastAttempt(env, maxRetries, 0)
        invariant attempt == maxRetries + 1 ==>
                    LastAttempt(env, maxRetries, 0) == maxRetries && env(maxRetries).Fails?
        invariant isRunning && runCount == old(runCount) && errorCount == old(errorCount)
        invariant nextRun == old(nextRun) && lastRun == old(lastRun)
      {
        if env(attempt) == Cancelled {
          return Abandoned, calls, false;
        }
        calls := calls + 1;
        if env(attempt) == Succeeds {
          isRunning := false;
          lastRun := now;
          runCount := runCount + 1;
          ok := UpdateNextRun(now);
          return Success, calls, ok;
        }
        if attempt < maxRetries && env(attempt).cancelledInWait {
          return Abandoned, calls, false;
        }
        attempt := attempt + 1;
      }
      isRunning := false;
      lastRun := now;
      errorCount := errorCount + 1;
      ok := UpdateNextRun(now);
      return Failure, calls, ok;
    }
  }

  /** `updateNextRun` of a cron task: the next run after `now`, or the old value when there is none in reach. */
  ghost predicate CronUpdate(e: Expression, now: int, before: int, ok: bool, next: int) {
    CronNextRun.IsNextRun(e, now, if ok then Some(next) else None) && (!ok ==> next == before)
  }

  predicate Due(t: Task, now: int)
    reads t
  {
    t.enabled && !t.isRunning && now > t.nextRun
  }

  /** One check: exactly the tasks that are enabled, idle and past their `NextRun` are started, once each. */
  method TasksToRun(tasks: map<string, Task>, now: int) returns (due: map<string, Task>)
    ensures due.Keys <= tasks.Keys
    ensures forall name :: name in tasks ==>
              (name in due <==> tasks[name].enabled && !tasks[name].isRunning && now > tasks[name].nextRun)
    ensures forall name :: name in due ==> due[name] == tasks[name]
  {
    due := map[];
    var rest := tasks.Keys;
    while rest != {}
      invariant rest <= tasks.Keys && due.Keys <= tasks.Keys - rest
      invariant forall name :: name in tasks && name !in rest ==> (name in due <==> Due(tasks[name], now))
      invariant forall name :: name in due ==> due[name] == tasks[name]
      decreases rest
    {
      var name :| name in rest;
      rest := rest - {name};
      if Due(tasks[name], now) {
        due := due[name := tasks[name]];
      }
    }
  }

  // ----- a cron task over a whole history of runs -----

  /** One recorded run: found due at `check`, its result recorded at `finish`. */
  datatype RunRecord = RunRecord(check: int, finish: int, ok: bool)

  /**
   A history: `next[i]` is the task's `NextRun` before run `i`.  Each run starts at a check past it,
   runs do not overlap, and each recorded run updates `NextRun` as `updateNextRun` does.
   */
  ghost predicate History(e: Expression, next: seq<int>, runs: seq<RunRecord>) {
    && |next| == |runs| + 1
    && forall i :: 0 <= i < |runs| ==>
         && next[i] < runs[i].check <= runs[i].finish
         && (i + 1 < |runs| ==> runs[i].finish <= runs[i + 1].check)
         && CronUpdate(e, runs[i].finish, next[i], runs[i].ok, next[i + 1])
  }

  /** One update: the new value is later than the run's finish and is the first match after it, or it is the old one. */
  lemma UpdateIs(e: Expression, now: int, before: int, ok: bool, next: int)
    requires CronUpdate(e, now, before, ok, next)
    ensures !ok ==> next == before
    ensures ok ==> now < next && CronNextRun.MatchesAt(e, next)
    ensures ok ==> forall m :: now < m < next ==> !CronNextRun.MatchesAt(e, m)
  {
    hide CronNextRun.MatchesAt, CronNextRun.YearAt, CronNextRun.LastYear;
  }

  /** `NextRun` never moves back, and every computed value exceeds all earlier ones. */
  lemma {:induction false} NextRunsAscend(e: Expression, next: seq<int>, runs: seq<RunRecord>, i: nat, j: nat)
    requires History(e, next, runs) && i < j < |next|
    ensures next[i] <= next[j]
    ensures runs[j - 1].ok ==> next[i] < next[j]
    decreases j - i
  {
    hide CronUpdate, CronNextRun.MatchesAt;
    if i + 1 < j { NextRunsAscend(e, next, runs, i, j - 1); }
    UpdateIs(e, runs[j - 1].finish, next[j - 1], runs[j - 1].ok, next[j]);
  }

  /** Years do not go back with time. */
  lemma YearsFollowTime(i: int, j: int)
    requires i <= j
    ensures CronNextRun.YearAt(i) <= CronNextRun.YearAt(j)
  {
    hide Calendar.FromSeconds, Calendar.ToSeconds;
    var a, b := Calendar.FromSeconds(i / Calendar.NANOS), Calendar.FromSeconds(j / Calendar.NANOS);
    assert i / Calendar.NANOS <= j / Calendar.NANOS;
    Calendar.OrderIsChronological(b, a);
  }

  lemma FailedUpdateMeans(e: Expression, now: int, before: int, next: int, m: int, until: int)
    requires CronUpdate(e, now, before, false, next) && now < m <= until
    requires CronNextRun.YearAt(until) <= CronNextRun.LastYear(e, now)
    ensures !CronNextRun.MatchesAt(e, m)
  {
    hide CronNextRun.MatchesAt, CronNextRun.YearAt, CronNextRun.LastYear;
    YearsFollowTime(m, until);
  }

  /**
   Whether a cron task runs for a reason.  As long as the next run's check lies within the search
   window of the last update, that update succeeded if and only if some instant between the two runs
   matches, and then `NextRun` was the first of them.  If it failed, `NextRun` is still the one that
   started the last run, so every later check finds the task due: it runs with nothing to run for.
   */
  lemma RunTriggeredIff(e: Expression, next: seq<int>, runs: seq<RunRecord>, i: nat)
    requires History(e, next, runs) && i + 1 < |runs|
    requires CronNextRun.YearAt(runs[i + 1].check) <= CronNextRun.LastYear(e, runs[i].finish)
    ensures runs[i].ok <==> exists m :: runs[i].finish < m < runs[i + 1].check && CronNextRun.MatchesAt(e, m)
    ensures runs[i].ok ==> forall m :: runs[i].finish < m < next[i + 1] ==> !CronNextRun.MatchesAt(e, m)
    ensures runs[i].ok ==> runs[i].finish < next[i + 1] < runs[i + 1].check && CronNextRun.MatchesAt(e, next[i + 1])
    ensures !runs[i].ok ==> next[i + 1] == next[i] < runs[i].check
  {
    hide CronUpdate, CronNextRun.MatchesAt, CronNextRun.YearAt, CronNextRun.LastYear;
    UpdateIs(e, runs[i].finish, next[i], runs[i].ok, next[i + 1]);
    if !runs[i].ok {
      forall m | runs[i].finish < m < runs[i + 1].check ensures !CronNextRun.MatchesAt(e, m) {
        FailedUpdateMeans(e, runs[i].finish, next[i], next[i + 1], m, runs[i + 1].check);
      }
    }
  }

  lemma ExtendHistory(e: Expression, next: seq<int>, runs: seq<RunRecord>, r: RunRecord, n: int)
    requires History(e, next, runs) && CronUpdate(e, r.finish, next[|runs|], r.ok, n)
    requires next[|runs|] < r.check <= r.finish && (runs != [] ==> runs[|runs| - 1].finish <= r.check)
    ensures History(e, next + [n], runs + [r])
  {
    hide CronUpdate;
  }

  /** Checks at given times, with the environment and finishing time of the run each may start. */
  datatype Check = Check(at: int, finish: int, env: nat -> Attempt)

  predicate InTimeOrder(checks: seq<Check>) {
    && (forall i :: 0 <= i < |checks| ==> checks[i].at <= checks[i].finish)
    && (forall i, j :: 0 <= i < j < |checks| ==> checks[i].finish <= checks[j].at)
  }

  /** Checking a cron task again and again produces a history, up to a run that is abandoned. */
  method Replay(t: Task, checks: seq<Check>) returns (next: seq<int>, runs: seq<RunRecord>)
    requires t.Valid() && t.schedule.Cron? && InTimeOrder(checks)
    modifies t
    ensures History(CronSpec.SpecExpression(t.schedule.spec).value, next, runs)
    ensures next[0] == old(t.nextRun) && next[|runs|] == t.nextRun
    ensures t.runCount + t.errorCount == old(t.runCount + t.errorCount) + |runs|
  {
    hide CronUpdate, CronSpec.SpecExpression, ExitOf, LastAttempt;
    next, runs := [t.nextRun], [];
    for i := 0 to |checks|
      invariant History(CronSpec.SpecExpression(t.schedule.spec).value, next, runs)
      invariant next[0] == old(t.nextRun) && next[|runs|] == t.nextRun
      invariant runs != [] && i < |checks| ==> runs[|runs| - 1].finish <= checks[i].at
      invariant t.runCount + t.errorCount == old(t.runCount + t.errorCount) + |runs|
    {
      var c := checks[i];
      if Due(t, c.at) {
        var exit, _, ok := t.Run(c.env, c.finish);
        if exit != Abandoned {
          ExtendHistory(CronSpec.SpecExpression(t.schedule.spec).value, next, runs,
                        RunRecord(c.at, c.finish, ok), t.nextRun);
          next, runs := next + [t.nextRun], runs + [RunRecord(c.at, c.finish, ok)];
        }
      }
    }
  }
}
