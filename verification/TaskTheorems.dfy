/** What the dispatch protocol promises, over every interleaving of C0 and the tiles. */
module TaskTheorems {
  import opened Finite
  import opened TaskProtocol
  import opened TaskInvariant

  /** The state is reached from a reset with no task in flight. */
  ghost predicate Reachable(s: St) {
    exists start: St, run: seq<Action> ::
      AfterReset(start) && Quiescent(start) && IsRun(start, run) && s == After(start, run)
  }

  lemma ReachableInv(s: St)
    requires Reachable(s)
    ensures Inv(s)
  {
    var start: St, run: seq<Action> :|
      AfterReset(start) && Quiescent(start) && IsRun(start, run) && s == After(start, run);
    QuiescentStart(start);
    InvariantHolds(start, run);
  }

  // ---- at most once, and none lost ----

  ghost function LiveSlots(s: St, id: int): set<nat> {
    set i: nat | i < |s.store| && Live(s.tiles, s.store[i]) && s.store[i].id == id
  }

  ghost function TimesStarted(started: seq<int>, id: int): nat {
    if started == [] then 0 else (if started[0] == id then 1 else 0) + TimesStarted(started[1..], id)
  }

  lemma {:induction false} TimesStartedOf(started: seq<int>, id: int)
    requires NoRepeats(started)
    ensures TimesStarted(started, id) == if id in started then 1 else 0
  {
    if started == [] {
    } else {
      TimesStartedOf(started[1..], id);
      assert id in started <==> started[0] == id || id in started[1..];
    }
  }

  /**
    In every interleaving a queued task either waits in exactly one slot some tile will take, or
    has been taken exactly once and waits nowhere; a task not queued is in neither place.
  */
  lemma AtMostOnce(s: St, id: int)
    requires Reachable(s)
    ensures |LiveSlots(s, id)| + TimesStarted(s.started, id) == if id in s.queued then 1 else 0
  {
    ReachableInv(s);
    TimesStartedOf(s.started, id);
    if id in s.home && s.home[id].InSlot? {
      assert LiveSlots(s, id) == {s.home[id].slot};
    } else {
      assert LiveSlots(s, id) == {};
    }
  }

  // ---- conservation ----

  /**
    active_tasks + completed_tasks is the number of queue calls counted so far, off by the interrupts that
    were counted as completions without taking anything from active_tasks.
  */
  lemma Conservation(s: St)
    requires Reachable(s)
    ensures s.active + s.completed == CountedCalls(s) + (s.irqs - s.drops)
    ensures s.drops <= s.irqs
    ensures s.completed <= |s.queued| + s.irqs
  {
    ReachableInv(s);
    FinishedAmongQueued(s);
  }

  ghost predicate IsFinished(s: St, x: int) {
    x in s.home && s.home[x].Finished?
  }

  /**
    active_tasks is below zero exactly when fewer tasks are unfinished than were taken from it early: one by an
    assignment not counted yet, and one by each interrupt that decremented it. It is never lower than that.
  */
  lemma ActiveBelowZeroIff(s: St)
    requires Reachable(s)
    ensures s.active >= -1 - s.drops
    ensures s.active < 0 <==> |Members(s.queued) - FinishedIds(s)| < s.drops + if s.c0.Assigned? then 1 else 0
  {
    ReachableInv(s);
    FinishedAmongQueued(s);
    assert |Members(s.queued) - FinishedIds(s)| == |s.queued| - |FinishedIds(s)|;
  }

  /** Without interrupts it is at least -1, and -1 exactly between an assignment and its count with all finished. */
  lemma QuietActiveBelowZeroIff(s: St)
    requires Reachable(s) && s.irqs == 0
    ensures s.active >= -1
    ensures s.active < 0 <==> s.c0.Assigned? && forall x | x in s.queued :: IsFinished(s, x)
  {
    ReachableInv(s);
    ActiveBelowZeroIff(s);
    FinishedAmongQueued(s);
    var left := Members(s.queued) - FinishedIds(s);
    if forall x | x in s.queued :: IsFinished(s, x) {
      assert forall x | x in Members(s.queued) :: x in FinishedIds(s);
      assert left == {};
    }
    if |left| == 0 {
      forall x | x in s.queued ensures IsFinished(s, x) {
        assert x in Members(s.queued) && x !in left;
      }
    }
  }

  lemma FinishedAmongQueued(s: St)
    requires Inv(s)
    ensures FinishedIds(s) <= Members(s.queued) && |FinishedIds(s)| <= |s.queued| == |Members(s.queued)|
  {
    MembersSize(s.queued);
    assert forall x | x in FinishedIds(s) :: x in s.home && x in s.queued;
    SubsetSize(FinishedIds(s), Members(s.queued));
  }

  // ---- what waiting guarantees ----

  /** wait_for_all_tasks_completion, called for every task queued so far, would return now. */
  predicate WaitReturns(s: St) {
    s.c0.Idle? && s.queued != [] && s.completed >= |s.queued|
  }

  /** Every queued task has stored its result through result_ptr. */
  predicate AllStored(s: St) {
    forall x | x in s.queued :: x in s.results
  }

  /** Without interrupt increments the wait returns only when every task is done. */
  lemma WaitIsSafe(s: St)
    requires Reachable(s) && s.irqs == 0 && WaitReturns(s)
    ensures forall x | x in s.queued :: IsFinished(s, x)
    ensures AllStored(s) && Members(s.started) == Members(s.queued)
    ensures s.active == 0
  {
    ReachableInv(s);
    FinishedAmongQueued(s);
    SubsetSize(FinishedIds(s), Members(s.queued));
    forall x | x in s.queued ensures IsFinished(s, x) {
      assert x in Members(s.queued) && x in FinishedIds(s);
    }
    forall x ensures x in s.queued <==> x in s.started {
      assert x in s.queued ==> IsFinished(s, x);
    }
  }

  /** What a finished task stored is never touched again. */
  lemma FinishedStaysByStep(s: St, a: Action, x: int)
    requires Inv(s) && Enabled(s, a) && IsFinished(s, x)
    ensures IsFinished(Apply(s, a), x)
    ensures x in s.results && x in Apply(s, a).results && Apply(s, a).results[x] == s.results[x]
  {
    hide CountersOk, QueueingOk;
  }

  lemma {:induction false} ResultIsFinal(s: St, run: seq<Action>, x: int)
    requires Inv(s) && IsRun(s, run) && IsFinished(s, x)
    ensures IsFinished(After(s, run), x)
    ensures x in s.results && x in After(s, run).results && After(s, run).results[x] == s.results[x]
    decreases |run|
  {
    hide Apply, Enabled, IsFinished;
    if run == [] {
      ResultIsThere(s, x);
    } else {
      FinishedStaysByStep(s, run[0], x);
      StepKeepsInvariant(s, run[0]);
      ResultIsFinal(Apply(s, run[0]), run[1..], x);
    }
  }

  lemma ResultIsThere(s: St, x: int)
    requires Inv(s) && IsFinished(s, x)
    ensures x in s.results
  {
  }

  /** What C0 reads when the wait returns is what it would read at any later moment. */
  lemma WaitedResultsAreFinal(s: St, run: seq<Action>)
    requires Reachable(s) && s.irqs == 0 && WaitReturns(s) && IsRun(s, run)
    ensures forall x | x in s.queued ::
      x in s.results && x in After(s, run).results && After(s, run).results[x] == s.results[x]
  {
    WaitIsSafe(s);
    ReachableInv(s);
    forall x | x in s.queued
      ensures x in s.results && x in After(s, run).results && After(s, run).results[x] == s.results[x]
    {
      ResultIsFinal(s, run, x);
    }
  }

  /** Each interrupt increment can hide at most one unfinished task from the wait. */
  lemma WaitMissesAtMostIrqs(s: St)
    requires Reachable(s) && WaitReturns(s)
    ensures |Members(s.queued) - FinishedIds(s)| <= s.irqs
  {
    ReachableInv(s);
    FinishedAmongQueued(s);
  }
}
