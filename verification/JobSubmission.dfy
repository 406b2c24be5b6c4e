/**
 Handing a job in: where Enqueue and Schedule put it, exactly when that is one place, and what
 happens to the jobs for which it is not.
 */
module JobSubmission {
  import opened JobHeap
  import opened JobProtocol
  import opened JobPlacement

  lemma NewPlaces(s: State, t: State, id: nat, j: Job)
    requires Consistent(s) && id !in s.jobs && t.jobs == s.jobs[id := j]
    requires t.workers == s.workers && t.timers == s.timers
    requires t.heap == s.heap || t.heap == s.heap + multiset{EntryOf(id, j)}
    ensures Where(t, id) == (if j.status == Scheduled then {Awaiting} else {})
                            + (if t.heap == s.heap then {} else {InHeap(0)})
                            + (if IsTerminal(j.status) then {Terminal} else {})
  {
    hide Consistent;
    NewJobIsNowhere(s, id);
    var e := EntryOf(id, j);
    assert e !in s.heap;
    assert t.heap[e] == if t.heap == s.heap then 0 else 1;
    assert forall w :: w in s.workers && Holds(s.workers[w], id) ==> id in HeldJobs(s.workers);
    assert t.timers[id] == 0;
  }

  /** Enqueue puts any new job, whatever its status, in one place if and only if its status says what its time does. */
  lemma EnqueuePlacesOnceIff(c: Config, s: State, id: nat, j: Job)
    requires Consistent(s) && id !in s.jobs
    ensures var future := j.scheduleAt.Some? && j.scheduleAt.value > s.now;
            && (InOnePlace(Accept(c, s, id, j), id) <==>
                  (j.status == Scheduled || j.status == Completed || j.status == Failed <==> future))
            && (j.status == Pending && future ==> Where(Accept(c, s, id, j), id) == {})
            && (j.status == Scheduled && !future ==> Where(Accept(c, s, id, j), id) == {Awaiting, InHeap(0)})
            && (j.status == Pending && !future ==> Where(Accept(c, s, id, j), id) == {InHeap(0)})
  {
    hide Consistent, Where, InOnePlace;
    var t := Accept(c, s, id, j);
    NewPlaces(s, t, id, t.jobs[id]);
    var e := EntryOf(id, t.jobs[id]);
    assert (s.heap + multiset{e})[e] == s.heap[e] + 1;
    Singletons(t, id);
  }

  /**
   Schedule puts any new job in one place if and only if it is Scheduled,
   or finished already; a pending one is lost.
   */
  lemma SchedulePlacesOnceIff(c: Config, s: State, id: nat, j: Job)
    requires Consistent(s) && id !in s.jobs
    ensures InOnePlace(Deposit(c, s, id, j), id) <==>
              j.status == Scheduled || j.status == Completed || j.status == Failed
    ensures j.status == Pending ==> Where(Deposit(c, s, id, j), id) == {}
  {
    hide Consistent, Where;
    var t := Deposit(c, s, id, j);
    NewPlaces(s, t, id, t.jobs[id]);
    Singletons(t, id);
  }

  lemma Singletons(t: State, id: nat)
    requires id in t.jobs
    ensures Where(t, id) == {Awaiting} || Where(t, id) == {InHeap(0)} || Where(t, id) == {Terminal}
        ==> InOnePlace(t, id)
    ensures Where(t, id) == {} || |Where(t, id)| > 1 ==> !InOnePlace(t, id)
  {
    hide Where;
  }

  /** The steps are enabled one after another from `s` and lead to `t`. */
  ghost predicate Leads(c: Config, s: State, steps: seq<Step>, t: State)
    decreases |steps|
  {
    if steps == [] then s == t
    else Enabled(s, steps[0]) && Leads(c, Apply(c, s, steps[0]), steps[1..], t)
  }

  /**
   Without the condition the guarantee fails: a scheduled job that is already due when it is given
   to Enqueue is pushed at once and again by the next tick, and two workers then hold it.
   */
  lemma DueJobRunsTwice(c: Config, s: State, id: nat, j: Job, w: nat, v: nat) returns (t: State)
    requires Init(c, s) && w in c.workers && v in c.workers && w != v
    requires j.status == Scheduled && Due(j, s.now)
    ensures Leads(c, Accept(c, s, id, j),
                  [Snapshot([id]), Release, Dequeue(w, EntryOf(id, j)), Dequeue(v, EntryOf(id, j))], t)
    ensures w in t.workers && v in t.workers && t.workers[w] == Popped(id) && t.workers[v] == Popped(id)
  {
    var e := EntryOf(id, j);
    var s1 := Accept(c, s, id, j);
    assert s1.heap == multiset{e};
    var s2 := Apply(c, s1, Snapshot([id]));
    t := DueJobDequeuedTwice(c, s2, id, e, w, v);
    var steps := [Release, Dequeue(w, e), Dequeue(v, e)];
    assert ([Snapshot([id])] + steps)[1..] == steps;
    assert Leads(c, s1, [Snapshot([id])] + steps, t);
  }

  lemma DueJobDequeuedTwice(c: Config, s: State, id: nat, e: Entry, w: nat, v: nat) returns (t: State)
    requires s.batch == [id] && id in s.jobs && Due(s.jobs[id], s.batchAt) && e == EntryOf(id, s.jobs[id])
    requires s.heap == multiset{e}
    requires w in s.workers && v in s.workers && w != v && s.workers[w].Idle? && s.workers[v].Idle?
    ensures Leads(c, s, [Release, Dequeue(w, e), Dequeue(v, e)], t)
    ensures w in t.workers && v in t.workers && t.workers[w] == Popped(id) && t.workers[v] == Popped(id)
  {
    var s3 := Apply(c, s, Release);
    assert s3.heap == multiset{e, e};
    var s4 := Apply(c, s3, Dequeue(w, e));
    assert s4.heap == multiset{e};
    t := Apply(c, s4, Dequeue(v, e));
    assert Leads(c, t, [], t);
    assert Leads(c, s4, [Dequeue(v, e)], t);
    assert [Dequeue(w, e), Dequeue(v, e)][1..] == [Dequeue(v, e)];
    assert Leads(c, s3, [Dequeue(w, e), Dequeue(v, e)], t);
    assert [Release, Dequeue(w, e), Dequeue(v, e)][1..] == [Dequeue(w, e), Dequeue(v, e)];
  }
}
