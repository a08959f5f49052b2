/** Completion of everything queued, from exactly the resets that lose nothing. */
module TaskCompletion {
  import opened Finite
  import opened TaskProtocol
  import opened TaskInvariant
  import opened TaskRuns
  import opened TaskProgress
  import opened TaskResets

  ghost function LiveSet(s: St): set<nat> {
    set i: nat | i < |s.store| && IsLive(s, i)
  }

  /** The tile steps still needed before all tiles are polling with nothing to take. */
  ghost function Remaining(s: St): nat {
    5 * |LiveSet(s)| + PhaseWork(s.phase)
  }

  /** Every queued task has been taken, and every tile is done with what it took. */
  ghost predicate AllDone(s: St) {
    (forall x | x in s.queued :: x in s.started) && Quiescent(s)
  }

  // ---- the budget ----

  lemma TakeUsesOne(s: St, t: nat)
    requires SettledInv(s) && Enabled(s, Take(t))
    ensures Remaining(Apply(s, Take(t))) == Remaining(s) - 1
  {
    var s' := Apply(s, Take(t));
    PhaseWorkUpdate(s.phase, t, s'.phase[t]);
    var k := LiveAfterTake(s, t);
    LiveSetIs(s);
    LiveSetIs(s');
    hide IsLive, LiveSet, SettledInv, PhaseWork;
    assert LiveSet(s') == LiveSet(s) - {k};
  }

  /** Apart from taking, assigning and copying, the live slots are the same. */
  lemma SameLiveSet(s: St, a: Action)
    requires SettledInv(s) && Enabled(s, a) && !ChangesLive(a)
    ensures LiveSet(Apply(s, a)) == LiveSet(s)
  {
    var s' := Apply(s, a);
    forall i: nat ensures IsLive(s', i) <==> IsLive(s, i) {
      if IsLive(s', i) {
        LiveOnlyShrinks(s, a, i);
      }
      if IsLive(s, i) {
        LiveStaysLive(s, a, i);
      }
    }
    assert |s'.store| == |s.store|;
    hide IsLive;
  }

  lemma ExecuteUsesOne(s: St, a: Action)
    requires SettledInv(s) && Enabled(s, a) && IsExecuteStep(a)
    ensures Remaining(Apply(s, a)) == Remaining(s) - 1
  {
    SameLiveSet(s, a);
    PhaseWorkUpdate(s.phase, a.tile, Apply(s, a).phase[a.tile]);
  }

  lemma AssignAddsFive(s: St, o: nat)
    requires SettledInv(s) && Enabled(s, Assign(o))
    ensures Remaining(Apply(s, Assign(o))) == Remaining(s) + 5
  {
    hide OnceOk, NoneLost;
    var s' := Apply(s, Assign(o));
    assert IsLive(s', o) && !IsLive(s, o);
    forall i: nat | i != o ensures IsLive(s', i) == IsLive(s, i) {
    }
    assert LiveSet(s') == LiveSet(s) + {o};
  }

  lemma CopyKeepsRemaining(s: St)
    requires SettledInv(s) && Enabled(s, Copy)
    ensures Remaining(Apply(s, Copy)) == Remaining(s)
  {
    CopyMovesLive(s);
    SamePhases(s, Copy);
    hide SettledInv, Apply, Enabled, PhaseWork, LiveSet;
  }

  lemma CopyMovesLive(s: St)
    requires AnyResetInv(s) && Enabled(s, Copy)
    ensures |LiveSet(Apply(s, Copy))| == |LiveSet(s)|
  {
    var s', o, c := Apply(s, Copy), s.c0.slot, s.count;
    LiveAfterCopy(s);
    LiveSetIs(s);
    LiveSetIs(s');
    hide IsLive, LiveSet, AnyResetInv, Apply, Enabled;
    if c < |s.store| && o in LiveSet(s) {
      assert LiveSet(s') == LiveSet(s) - {o} + {c};
      SwapSize(LiveSet(s), LiveSet(s'), o, c);
    } else {
      assert LiveSet(s') == LiveSet(s);
    }
  }

  lemma LiveSetIs(s: St)
    ensures forall i: nat :: i in LiveSet(s) <==> IsLive(s, i)
  {
  }

  lemma StepUsesOne(s: St, a: Action)
    requires SettledInv(s) && Enabled(s, a)
    ensures Remaining(Apply(s, a)) == Remaining(s) + (if a.Assign? then 5 else 0) - (if IsTileStep(a) then 1 else 0)
  {
    hide Apply, Enabled, SettledInv, PhaseWork, LiveSet;
    match a {
      case Take(t) => TakeUsesOne(s, t);
      case Assign(o) => AssignAddsFive(s, o);
      case Copy => CopyKeepsRemaining(s);
      case _ =>
        if IsExecuteStep(a) {
          ExecuteUsesOne(s, a);
        } else {
          SameLiveSet(s, a);
          SamePhases(s, a);
        }
    }
  }

  lemma SamePhases(s: St, a: Action)
    requires Enabled(s, a) && !IsTileStep(a)
    ensures Apply(s, a).phase == s.phase
  {
  }

  lemma NothingRemainsIff(s: St)
    requires SettledInv(s)
    ensures Remaining(s) == 0 <==> AllDone(s)
  {
    if Remaining(s) == 0 {
      PhaseWorkZero(s.phase);
      forall i: nat ensures !IsLive(s, i) {
        assert i !in LiveSet(s);
      }
    }
    if AllDone(s) {
      PhaseWorkPolling(s.phase);
      assert LiveSet(s) == {};
    }
  }

  lemma SomeTileReady(s: St) returns (a: Action)
    requires SettledInv(s) && Remaining(s) > 0
    ensures IsTileStep(a) && Enabled(s, a) && TileReady(s, a.tile)
  {
    if t: nat :| t <= s.tiles && !s.phase[t].Polling? {
      a := NextStep(s, t);
    } else {
      PhaseWorkPolling(s.phase);
      var i: nat :| i in LiveSet(s);
      var t := s.store[i].tile;
      var first := FirstLive(s, t, i);
      a := Take(t);
    }
  }

  /** The budget of a run, from any settled reset, with C0 and handlers doing anything meanwhile. */
  lemma {:induction false} EveryRunCompletes(s: St, run: seq<Action>)
    requires SettledInv(s) && IsRun(s, run)
    ensures TileSteps(run) + Remaining(After(s, run)) == Remaining(s) + 5 * Assigns(run)
    ensures TileSteps(run) == Remaining(s) + 5 * Assigns(run) <==> AllDone(After(s, run))
    ensures !AllDone(After(s, run)) ==> exists a :: IsTileStep(a) && Enabled(After(s, run), a)
    decreases |run|
  {
    hide Apply, Enabled, SettledInv, Remaining, AllDone;
    if run == [] {
      NothingRemainsIff(s);
      if !AllDone(s) {
        var a := SomeTileReady(s);
      }
    } else {
      SettledStep(s, run[0]);
      StepUsesOne(s, run[0]);
      EveryRunCompletes(Apply(s, run[0]), run[1..]);
    }
  }

  /** Under any fair schedule everything queued is taken and done, once C0 has made its last assignment. */
  lemma {:induction false} FairRunCompletes(s: St, rounds: seq<seq<Action>>)
    requires SettledInv(s) && Fair(s, rounds) && forall round | round in rounds :: Assigns(round) == 0
    ensures |rounds| >= Remaining(s) ==> AllDone(AfterRounds(s, rounds))
    decreases |rounds|
  {
    hide Apply, Enabled, SettledInv, Remaining, AllDone, IsRun, After;
    NothingRemainsIff(s);
    if rounds == [] {
    } else {
      var round := rounds[0];
      SettledHolds(s, round);
      EveryRunCompletes(s, round);
      if !AllDone(s) {
        var a := SomeTileReady(s);
        var i: nat :| i < |round| && IsStepOf(round[i], a.tile);
        HasTileStep(round, i);
      }
      FairRunCompletes(After(s, round), rounds[1..]);
    }
  }

  /** The tiles alone can finish everything that is queued. */
  lemma {:induction false} TilesFinish(s: St) returns (run: seq<Action>)
    requires SettledInv(s)
    ensures IsRun(s, run) && AllDone(After(s, run)) && After(s, run).queued == s.queued
    decreases Remaining(s)
  {
    NothingRemainsIff(s);
    if Remaining(s) == 0 {
      run := [];
    } else {
      var a := SomeTileReady(s);
      StepUsesOne(s, a);
      SettledStep(s, a);
      SameQueued(s, a);
      hide Apply, Enabled, SettledInv, Remaining, AllDone;
      var rest := TilesFinish(Apply(s, a));
      ConsRun(s, a, rest);
      run := [a] + rest;
    }
  }

  lemma SameQueued(s: St, a: Action)
    requires Enabled(s, a) && IsTileStep(a)
    ensures Apply(s, a).queued == s.queued
  {
  }

  /** At every moment of every run, everything queued can still be taken. */
  ghost predicate AlwaysCompletable(s: St) {
    forall run | IsRun(s, run) :: Completable(After(s, run))
  }

  ghost predicate Completable(s: St) {
    exists more: seq<Action> :: IsRun(s, more) && forall x | x in s.queued :: x in After(s, more).started
  }

  /** Completion rests on the condition of `ExactlyOnceIff`: no tile had a write to its slot left to do at the reset. */
  lemma CompletionIff(s: St)
    requires AfterReset(s)
    ensures AlwaysCompletable(s) <==> SettledAtReset(s)
  {
    if SettledAtReset(s) {
      SettledStart(s);
      forall run | IsRun(s, run) ensures Completable(After(s, run)) {
        SettledHolds(s, run);
        var more := TilesFinish(After(s, run));
        assert forall x | x in After(s, run).queued :: x in After(After(s, run), more).started;
      }
    } else {
      var run, id := StragglerLosesTask(s);
      assert !Completable(After(s, run));
    }
  }
}
