/** What C0 reads through the result pointers: the values the tests returned, each stored once. */
module TaskResults {
  import opened Finite
  import opened TaskProtocol
  import opened TaskInvariant
  import opened TaskTheorems
  import opened TaskProgress

  // ---- who stored what ----

  /** The values that the run stores through the result pointer of task `x`. */
  ghost function StoredFor(s: St, run: seq<Action>, x: int): seq<int>
    requires IsRun(s, run)
    decreases |run|
  {
    if run == [] then []
    else
      (if run[0].Store? && s.store[s.phase[run[0].tile].slot].id == x then [run[0].value] else [])
      + StoredFor(Apply(s, run[0]), run[1..], x)
  }

  /** A task has a result only once its tile is past the store: no tile is about to store it again. */
  ghost predicate ResultsOk(s: St) {
    forall x | x in s.results ::
      && x in s.home && !s.home[x].InSlot?
      && (s.home[x].With? ==> s.home[x].tile < |s.phase| && !s.phase[s.home[x].tile].Running?)
  }

  lemma ResultsKeptByOthers(s: St, a: Action)
    requires Inv(s) && ResultsOk(s) && Enabled(s, a) && !a.Store?
    ensures ResultsOk(Apply(s, a)) && Apply(s, a).results == s.results
  {
    if a.Take? || IsExecuteStep(a) {
      ResultsKeptByTile(s, a);
    } else {
      ResultsKeptByC0(s, a);
    }
  }

  lemma ResultsKeptByTile(s: St, a: Action)
    requires Inv(s) && ResultsOk(s) && Enabled(s, a) && !a.Store? && (a.Take? || IsExecuteStep(a))
    ensures ResultsOk(Apply(s, a)) && Apply(s, a).results == s.results
  {
    hide HistoryOk, CountersOk, CreatedOk, QueueingOk;
  }

  lemma ResultsKeptByC0(s: St, a: Action)
    requires Inv(s) && ResultsOk(s) && Enabled(s, a) && !(a.Take? || IsExecuteStep(a))
    ensures ResultsOk(Apply(s, a)) && Apply(s, a).results == s.results
  {
    hide HistoryOk, CountersOk, BusyOk;
  }

  /** A store finds no result there and leaves the value it stores. */
  lemma ResultStored(s: St, t: nat, v: int)
    requires Inv(s) && ResultsOk(s) && Enabled(s, Store(t, v))
    ensures ResultsOk(Apply(s, Store(t, v)))
    ensures
      var x := s.store[s.phase[t].slot].id;
      x !in s.results && Apply(s, Store(t, v)).results == s.results[x := v]
  {
    hide HistoryOk, CountersOk, CreatedOk, QueueingOk, LiveOk;
  }

  lemma StepKeepsResults(s: St, a: Action)
    requires Inv(s) && ResultsOk(s) && Enabled(s, a)
    ensures Inv(Apply(s, a)) && ResultsOk(Apply(s, a))
  {
    StepKeepsInvariant(s, a);
    hide Inv, Enabled, Apply, ResultsOk;
    match a {
      case Store(t, v) => ResultStored(s, t, v);
      case _ => ResultsKeptByOthers(s, a);
    }
  }

  /** Each task's result is stored at most once, and what is there is the value of that one store. */
  lemma {:induction false} StoredOnce(s: St, run: seq<Action>, x: int)
    requires Inv(s) && ResultsOk(s) && IsRun(s, run)
    ensures x in s.results ==>
      StoredFor(s, run, x) == [] && x in After(s, run).results && After(s, run).results[x] == s.results[x]
    ensures x !in s.results ==>
      StoredFor(s, run, x) == if x in After(s, run).results then [After(s, run).results[x]] else []
    decreases |run|
  {
    if run == [] {
    } else {
      StepKeepsResults(s, run[0]);
      if run[0].Store? {
        ResultStored(s, run[0].tile, run[0].value);
      } else {
        ResultsKeptByOthers(s, run[0]);
      }
      hide Inv, Enabled, Apply, ResultsOk;
      StoredOnce(Apply(s, run[0]), run[1..], x);
    }
  }

  /** What a tile stores at any moment of a run is what the task's result is at the end of it. */
  lemma {:induction false} StoredStays(s: St, run: seq<Action>, k: nat, t: nat, v: int)
    requires Inv(s) && ResultsOk(s) && IsRun(s, run) && k < |run| && run[k] == Store(t, v)
    ensures IsRun(s, run[..k]) && Enabled(After(s, run[..k]), Store(t, v))
    ensures
      var now := After(s, run[..k]);
      var x := now.store[now.phase[t].slot].id;
      x in After(s, run).results && After(s, run).results[x] == v
    decreases k
  {
    if k == 0 {
      assert run[..0] == [];
      StepKeepsResults(s, run[0]);
      ResultStored(s, t, v);
      StoredOnce(Apply(s, run[0]), run[1..], s.store[s.phase[t].slot].id);
    } else {
      StepKeepsResults(s, run[0]);
      hide Inv, Enabled, Apply, ResultsOk;
      StoredStays(Apply(s, run[0]), run[1..], k - 1, t, v);
      assert run[..k][0] == run[0] && run[..k][1..] == run[1..][..k - 1];
    }
  }

  // ---- from a quiet reset ----

  /**
    From a quiet reset, in any interleaving: a result is there exactly when some tile has stored one for that
    task, only one store was ever made for it, and the result is the value that store was given.
  */
  lemma ResultIsTheValueReturned(s: St, run: seq<Action>, x: int)
    requires AfterReset(s) && Quiescent(s) && IsRun(s, run)
    ensures StoredFor(s, run, x) == if x in After(s, run).results then [After(s, run).results[x]] else []
    ensures x in After(s, run).results ==> x in After(s, run).queued
  {
    QuiescentStart(s);
    StoredOnce(s, run, x);
    ResultsHold(s, run);
  }

  lemma {:induction false} ResultsHold(s: St, run: seq<Action>)
    requires Inv(s) && ResultsOk(s) && IsRun(s, run)
    ensures Inv(After(s, run)) && ResultsOk(After(s, run))
    decreases |run|
  {
    hide Inv, Enabled, Apply, ResultsOk;
    if run == [] {
    } else {
      StepKeepsResults(s, run[0]);
      ResultsHold(Apply(s, run[0]), run[1..]);
    }
  }

  /** The value tile `t` stores for the task it holds is what C0 finds in every later state. */
  lemma ReturnedValueIsRead(s: St, run: seq<Action>, k: nat, t: nat, v: int)
    requires AfterReset(s) && Quiescent(s) && IsRun(s, run) && k < |run| && run[k] == Store(t, v)
    ensures IsRun(s, run[..k]) && Enabled(After(s, run[..k]), Store(t, v))
    ensures
      var now := After(s, run[..k]);
      var x := now.store[now.phase[t].slot].id;
      && now.phase[t].Running?
      && x in After(s, run).results && After(s, run).results[x] == v
  {
    QuiescentStart(s);
    StoredStays(s, run, k, t, v);
  }

  /** When the wait returns, each queued task has been stored exactly once, and that value is what C0 reads. */
  lemma WaitReadsReturnedValues(s: St, run: seq<Action>)
    requires AfterReset(s) && Quiescent(s) && IsRun(s, run)
    requires After(s, run).irqs == 0 && WaitReturns(After(s, run))
    ensures forall x | x in After(s, run).queued ::
      x in After(s, run).results && StoredFor(s, run, x) == [After(s, run).results[x]]
  {
    var end := After(s, run);
    assert Reachable(end);
    WaitIsSafe(end);
    forall x | x in end.queued ensures x in end.results && StoredFor(s, run, x) == [end.results[x]] {
      ResultIsTheValueReturned(s, run, x);
    }
  }

  // ---- the wait ends ----

  /** Once everything queued is finished the wait returns, whatever interrupts have added. */
  lemma FinishedEndsWait(s: St)
    requires Inv(s) && s.c0.Idle? && s.queued != [] && forall x | x in s.queued :: IsFinished(s, x)
    ensures WaitReturns(s) && s.completed == |s.queued| + s.irqs
  {
    FinishedAmongQueued(s);
    forall x | x in Members(s.queued) ensures x in FinishedIds(s) {
      assert IsFinished(s, x);
    }
    assert FinishedIds(s) == Members(s.queued);
  }

  /** So does every wait in a state reached from a quiet reset. */
  lemma ReachableFinishedEndsWait(s: St)
    requires Reachable(s) && s.c0.Idle? && s.queued != [] && forall x | x in s.queued :: IsFinished(s, x)
    ensures WaitReturns(s) && s.completed == |s.queued| + s.irqs
  {
    ReachableInv(s);
    FinishedEndsWait(s);
  }

  lemma {:induction false} InvariantAfterRounds(s: St, rounds: seq<seq<Action>>)
    requires Inv(s) && Fair(s, rounds)
    ensures Inv(AfterRounds(s, rounds))
    decreases |rounds|
  {
    hide Inv;
    if rounds == [] {
    } else {
      InvariantHolds(s, rounds[0]);
      InvariantAfterRounds(After(s, rounds[0]), rounds[1..]);
    }
  }

  /** Under a fair schedule the wait returns: after as many rounds as there is work, once C0 is waiting. */
  lemma FairScheduleEndsWait(s: St, rounds: seq<seq<Action>>)
    requires Inv(s) && Fair(s, rounds) && (forall round | round in rounds :: Assigns(round) == 0)
    requires |rounds| >= Work(s)
    requires AfterRounds(s, rounds).c0.Idle? && AfterRounds(s, rounds).queued != []
    ensures WaitReturns(AfterRounds(s, rounds))
  {
    FairScheduleCompletes(s, rounds);
    InvariantAfterRounds(s, rounds);
    hide Inv, Fair, AfterRounds, Work;
    FinishedEndsWait(AfterRounds(s, rounds));
  }
}
