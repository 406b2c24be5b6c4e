/**
 Ticks of the schedule processor, in any interleaving: which of the jobs that await their schedule a
 tick releases, and when it can pass one over that is due.
 */
module JobTicks {
  import opened JobHeap
  import opened JobProtocol
  import opened JobPlacement

  function ScheduledJobs(jobs: map<nat, Job>): set<nat> {
    set id | id in jobs && jobs[id].status == Scheduled
  }

  // ----- which jobs a tick looks at -----

  function Elements(ids: seq<nat>): set<nat> {
    set id | id in ids
  }

  predicate NoRepeats(ids: seq<nat>) {
    forall i, j :: 0 <= i < j < |ids| ==> ids[i] != ids[j]
  }

  lemma {:induction false} CountElements(ids: seq<nat>)
    requires NoRepeats(ids)
    ensures |Elements(ids)| == |ids|
  {
    if ids == [] {
      assert Elements(ids) == {};
    } else {
      var front, last := ids[..|ids| - 1], ids[|ids| - 1];
      CountElements(front);
      assert ids == front + [last];
      assert Elements(ids) == Elements(front) + {last};
      assert last !in Elements(front);
    }
  }

  lemma {:induction false} SubsetSize(a: set<nat>, b: set<nat>)
    requires a <= b
    ensures |a| <= |b|
  {
    if a != {} {
      var x :| x in a;
      SubsetSize(a - {x}, b - {x});
    }
  }

  /** Any `n` elements of a set, in some order. */
  lemma {:induction false} Pick(a: set<nat>, n: nat) returns (ids: seq<nat>)
    requires n <= |a|
    ensures |ids| == n && NoRepeats(ids) && Elements(ids) <= a
  {
    if n == 0 {
      return [];
    }
    var x :| x in a;
    var rest := Pick(a - {x}, n - 1);
    assert forall i :: 0 <= i < |rest| ==> rest[i] in Elements(rest);
    ids := rest + [x];
  }

  lemma BatchWithoutIt(jobs: map<nat, Job>, ids: seq<nat>, id: nat)
    requires IsBatch(jobs, ids) && id in ScheduledJobs(jobs) && id !in ids
    ensures |ScheduledJobs(jobs)| > BATCH_LIMIT
  {
    CountElements(ids);
    SubsetSize(Elements(ids), ScheduledJobs(jobs) - {id});
  }

  /** A tick can pass over a scheduled job, due or not, if and only if more than 100 jobs are scheduled. */
  lemma PassedOverIff(s: State, id: nat)
    requires s.batch == [] && id in ScheduledJobs(s.jobs)
    ensures (exists ids :: Enabled(s, Snapshot(ids)) && id !in ids) <==> |ScheduledJobs(s.jobs)| > 100
  {
    if ids :| Enabled(s, Snapshot(ids)) && id !in ids { BatchWithoutIt(s.jobs, ids, id); }
    if |ScheduledJobs(s.jobs)| > BATCH_LIMIT {
      var ids := Pick(ScheduledJobs(s.jobs) - {id}, BATCH_LIMIT);
      assert forall i :: 0 <= i < |ids| ==> ids[i] in Elements(ids);
      assert id !in ids by { assert id !in Elements(ids); }
      assert Enabled(s, Snapshot(ids));
    }
  }

  // ----- what a tick does to them, whatever happens in between -----

  /** The step that takes the job out of Awaiting. */
  predicate Releases(s: State, step: Step, id: nat) {
    step.Release? && s.batch != [] && s.batch[0] == id && id in s.jobs && Due(s.jobs[id], s.batchAt)
  }

  lemma OtherStepsLeave(c: Config, s: State, step: Step, id: nat)
    requires Consistent(s) && Enabled(s, step) && id in ScheduledJobs(s.jobs) && !Releases(s, step, id)
    ensures id in Apply(c, s, step).jobs && Apply(c, s, step).jobs[id] == s.jobs[id]
  {
    hide Consistent, Apply, IsBatch, Fresh, IsFirst, HeldJobs;
    RecordsKept(c, s, step, id);
    NewJobIsNowhere(s, id);
    if step.Start? || step.NoHandler? || step.Return? { InHeld(s.workers, step.w); }
  }

  lemma NeverScheduledAgain(c: Config, s: State, step: Step, id: nat)
    requires Enabled(s, step) && id in s.jobs && s.jobs[id].status != Scheduled
    ensures id in Apply(c, s, step).jobs && Apply(c, s, step).jobs[id].status != Scheduled
  {
    hide Enabled, Apply, Rewritten;
    RecordsKept(c, s, step, id);
  }

  lemma BatchShrinks(c: Config, s: State, step: Step, id: nat)
    requires Consistent(s) && Enabled(s, step) && !step.Snapshot?
    ensures Apply(c, s, step).batchAt == s.batchAt
    ensures id in Apply(c, s, step).batch <==> id in s.batch && !(step.Release? && s.batch[0] == id)
  {
    hide Consistent, IsFirst, IsBatch, Fresh, IsScheduled, EntryOf;
    if step.Release? {
      BatchJobIsScheduled(s);
      assert s.batch == [s.batch[0]] + s.batch[1..];
    }
  }

  lemma Released(c: Config, s: State, step: Step, id: nat)
    requires Enabled(s, step) && Releases(s, step, id)
    ensures id in Apply(c, s, step).jobs && Apply(c, s, step).jobs[id].status == Pending
  {
    hide IsFirst, IsBatch;
  }

  /**
   How far the tick that read `ids` at time `at` is with a job: the job is scheduled, with its
   record `j` unchanged, while the tick has yet to come to it, and afterwards unless it was read and due.
   */
  predicate Tracks(s: State, id: nat, j: Job, ids: seq<nat>, at: int) {
    && s.batchAt == at && (id in s.batch ==> id in ids) && id in s.jobs
    && (s.jobs[id].status == Scheduled <==> id in s.batch || !(id in ids && Due(j, at)))
    && (s.jobs[id].status == Scheduled ==> s.jobs[id] == j)
  }

  lemma TrackStep(c: Config, s: State, step: Step, id: nat, j: Job, ids: seq<nat>, at: int)
    requires Consistent(s) && Enabled(s, step) && !step.Snapshot? && Tracks(s, id, j, ids, at)
    ensures Tracks(Apply(c, s, step), id, j, ids, at)
  {
    hide Consistent, Enabled, Apply;
    BatchShrinks(c, s, step, id);
    if s.jobs[id].status != Scheduled {
      NeverScheduledAgain(c, s, step, id);
    } else if Releases(s, step, id) {
      Released(c, s, step, id);
    } else {
      OtherStepsLeave(c, s, step, id);
    }
  }

  lemma TrackStart(c: Config, s: State, ids: seq<nat>, id: nat)
    requires Enabled(s, Snapshot(ids)) && id in ScheduledJobs(s.jobs)
    ensures Tracks(Apply(c, s, Snapshot(ids)), id, s.jobs[id], ids, s.now)
  {
  }

  lemma {:induction false} RunTracks(c: Config, run: seq<State>, steps: seq<Step>, i: nat, k: nat, id: nat)
    requires IsRun(c, run, steps) && i < k < |run| && steps[i].Snapshot? && id in ScheduledJobs(run[i].jobs)
    requires forall n :: i < n < k ==> !steps[n].Snapshot?
    ensures Tracks(run[k], id, run[i].jobs[id], steps[i].ids, run[i].now)
    decreases k
  {
    hide Consistent, Enabled, Apply, Tracks, Init;
    if k == i + 1 {
      TrackStart(c, run[i], steps[i].ids, id);
    } else {
      RunTracks(c, run, steps, i, k - 1, id);
      RunIsConsistent(c, run, steps, k - 1);
      TrackStep(c, run[k - 1], steps[k - 1], id, run[i].jobs[id], steps[i].ids, run[i].now);
    }
  }

  /**
   In every interleaving, a tick that has come to its end has released a job that was scheduled
   when it began if and only if it read that job and the job was due; any other is left as it was.
   */
  lemma TickReleasesIff(c: Config, run: seq<State>, steps: seq<Step>, i: nat, k: nat, id: nat)
    requires IsRun(c, run, steps) && i < k < |run| && steps[i].Snapshot? && id in ScheduledJobs(run[i].jobs)
    requires run[k].batch == [] && forall n :: i < n < k ==> !steps[n].Snapshot?
    ensures id in run[k].jobs
    ensures run[k].jobs[id].status != Scheduled <==>
              && id in steps[i].ids
              && (run[i].jobs[id].scheduleAt.None? || run[i].jobs[id].scheduleAt.value <= run[i].now)
    ensures run[k].jobs[id].status == Scheduled ==> run[k].jobs[id] == run[i].jobs[id]
  {
    RunTracks(c, run, steps, i, k, id);
  }

  /** With at most 100 scheduled jobs, a tick releases every one that is due, and none is passed over. */
  lemma SmallTickReleasesAll(c: Config, run: seq<State>, steps: seq<Step>, i: nat, k: nat, id: nat)
    requires IsRun(c, run, steps) && i < k < |run| && steps[i].Snapshot? && id in ScheduledJobs(run[i].jobs)
    requires run[k].batch == [] && forall n :: i < n < k ==> !steps[n].Snapshot?
    requires |ScheduledJobs(run[i].jobs)| <= 100
    ensures id in run[k].jobs
    ensures run[k].jobs[id].status != Scheduled <==>
              run[i].jobs[id].scheduleAt.None? || run[i].jobs[id].scheduleAt.value <= run[i].now
  {
    hide Apply;
    TickReleasesIff(c, run, steps, i, k, id);
    assert Enabled(run[i], steps[i]);
    if id !in steps[i].ids { BatchWithoutIt(run[i].jobs, steps[i].ids, id); }
  }
}
