/** No deadlock among C0 and the tiles, and completion of everything queued under every schedule. */
module TaskProgress {
  import opened TaskProtocol
  import opened TaskInvariant
  import opened TaskRuns

  /** A step of some tile thread that changes the state. */
  predicate IsTileStep(a: Action) {
    a.Take? || IsExecuteStep(a)
  }

  ghost function WaitingIds(s: St): set<int> {
    set x | x in s.home && s.home[x].InSlot?
  }

  function PhaseWork(phases: seq<Phase>): nat {
    if phases == [] then 0 else StepsLeft(phases[0]) + PhaseWork(phases[1..])
  }

  /** The tile steps still needed before every queued task is finished. */
  ghost function Work(s: St): nat {
    5 * |WaitingIds(s)| + PhaseWork(s.phase)
  }

  ghost predicate AllFinished(s: St) {
    forall x | x in s.queued :: x in s.home && s.home[x].Finished?
  }

  lemma {:induction false} PhaseWorkUpdate(phases: seq<Phase>, t: nat, p: Phase)
    requires t < |phases|
    ensures PhaseWork(phases[t := p]) == PhaseWork(phases) - StepsLeft(phases[t]) + StepsLeft(p)
  {
    if t > 0 {
      PhaseWorkUpdate(phases[1..], t - 1, p);
      assert phases[t := p][1..] == phases[1..][t - 1 := p];
    } else {
      assert phases[t := p][1..] == phases[1..];
    }
  }

  lemma {:induction false} PhaseWorkZero(phases: seq<Phase>)
    requires PhaseWork(phases) == 0
    ensures forall t | 0 <= t < |phases| :: phases[t].Polling?
  {
    if phases == [] {
    } else {
      PhaseWorkZero(phases[1..]);
      forall t | 0 <= t < |phases| ensures phases[t].Polling? {
        assert t > 0 ==> phases[t] == phases[1..][t - 1];
      }
    }
  }

  lemma {:induction false} PhaseWorkPolling(phases: seq<Phase>)
    requires forall t | 0 <= t < |phases| :: phases[t].Polling?
    ensures PhaseWork(phases) == 0
  {
    if phases == [] {
    } else {
      PhaseWorkPolling(phases[1..]);
    }
  }

  lemma TakeUsesWork(s: St, t: nat)
    requires Inv(s) && Enabled(s, Take(t))
    ensures Work(Apply(s, Take(t))) == Work(s) - 1
  {
    var s' := Apply(s, Take(t));
    PhaseWorkUpdate(s.phase, t, s'.phase[t]);
    var i: nat :| IsFirstLive(s.store, s.count, t, i) && s'.phase[t] == Running(i);
    assert Live(s.tiles, s.store[i]);
    hide BusyOk, HistoryOk, CountersOk, CreatedOk, QueueingOk;
    assert WaitingIds(s') == WaitingIds(s) - {s.store[i].id};
  }

  lemma ExecuteUsesWork(s: St, a: Action)
    requires Inv(s) && Enabled(s, a) && IsExecuteStep(a)
    ensures Work(Apply(s, a)) == Work(s) - 1
  {
    var s' := Apply(s, a);
    PhaseWorkUpdate(s.phase, a.tile, s'.phase[a.tile]);
    hide LiveOk, HistoryOk, CountersOk, CreatedOk, QueueingOk;
    assert WaitingIds(s') == WaitingIds(s);
  }

  /** No work is left exactly when every queued task is finished. */
  lemma NoWorkIffAllFinished(s: St)
    requires Inv(s)
    ensures Work(s) == 0 <==> AllFinished(s)
  {
    if Work(s) == 0 {
      PhaseWorkZero(s.phase);
      assert |WaitingIds(s)| == 0;
      forall x | x in s.queued ensures x in s.home && s.home[x].Finished? {
        assert x !in WaitingIds(s);
      }
    }
    if AllFinished(s) {
      assert forall x | x in s.home :: x in s.queued && s.home[x].Finished?;
      assert WaitingIds(s) == {};
      PhaseWorkPolling(s.phase);
    }
  }

  /** While some queued task is unfinished, some tile can move. */
  lemma TileCanMove(s: St) returns (a: Action)
    requires Inv(s) && !AllFinished(s)
    ensures IsTileStep(a) && Enabled(s, a)
  {
    var x :| x in s.queued && !s.home[x].Finished?;
    if t: nat :| t <= s.tiles && !s.phase[t].Polling? {
      a := NextStep(s, t);
    } else {
      assert s.home[x].InSlot?;
      var i := s.home[x].slot;
      var t := s.store[i].tile;
      var first := FirstLive(s, t, i);
      a := Take(t);
    }
  }

  lemma {:induction false} FirstLive(s: St, t: nat, i: nat) returns (first: nat)
    requires i < s.count <= |s.store| && LiveFor(s.store[i], t)
    ensures IsFirstLive(s.store, s.count, t, first)
  {
    if j: nat :| j < i && LiveFor(s.store[j], t) {
      first := FirstLive(s, t, j);
    } else {
      first := i;
    }
  }

  // ---- every interleaving ----

  function TileSteps(run: seq<Action>): nat {
    if run == [] then 0 else (if IsTileStep(run[0]) then 1 else 0) + TileSteps(run[1..])
  }

  function Assigns(run: seq<Action>): nat {
    if run == [] then 0 else (if run[0].Assign? then 1 else 0) + Assigns(run[1..])
  }

  /** Of the steps that are not the tiles', only an assignment brings work, and it brings five steps. */
  lemma OtherStepsKeepWork(s: St, a: Action)
    requires Inv(s) && Enabled(s, a) && !IsTileStep(a)
    ensures Work(Apply(s, a)) == Work(s) + if a.Assign? then 5 else 0
  {
    var s' := Apply(s, a);
    hide BusyOk, HistoryOk, CountersOk, LiveOk, Live;
    assert s'.phase == s.phase;
    if a.Assign? {
      AssignAddsWaiting(s, a.slot);
    } else if a.Copy? {
      CopyKeepsHomes(s);
      assert WaitingIds(s') == WaitingIds(s);
    } else {
      assert s'.home == s.home;
    }
  }

  lemma AssignAddsWaiting(s: St, o: nat)
    requires Inv(s) && Enabled(s, Assign(o))
    ensures |WaitingIds(Apply(s, Assign(o)))| == |WaitingIds(s)| + 1
  {
    var id := s.store[o].id;
    hide BusyOk, HistoryOk, CountersOk, LiveOk, QueueingOk;
    assert id !in s.home;
    assert WaitingIds(Apply(s, Assign(o))) == WaitingIds(s) + {id};
  }

  lemma CopyKeepsHomes(s: St)
    requires Inv(s) && Enabled(s, Copy)
    ensures Apply(s, Copy).home.Keys == s.home.Keys
    ensures forall x | x in s.home :: Apply(s, Copy).home[x].InSlot? == s.home[x].InSlot?
  {
    hide BusyOk, HistoryOk, CountersOk, CreatedOk;
  }

  lemma StepUsesWork(s: St, a: Action)
    requires Inv(s) && Enabled(s, a)
    ensures Work(Apply(s, a)) == Work(s) + (if a.Assign? then 5 else 0) - (if IsTileStep(a) then 1 else 0)
  {
    if a.Take? {
      TakeUsesWork(s, a.tile);
    } else if IsExecuteStep(a) {
      ExecuteUsesWork(s, a);
    } else {
      OtherStepsKeepWork(s, a);
    }
  }

  /**
    However C0, the tiles and interrupt handlers interleave, the tiles' steps and the work left add up to the
    work there was and five steps for each assignment. They have used up that budget exactly when every queued
    task is finished, and until then some tile can move.
  */
  lemma {:induction false} EveryInterleavingCompletes(s: St, run: seq<Action>)
    requires Inv(s) && IsRun(s, run)
    ensures TileSteps(run) + Work(After(s, run)) == Work(s) + 5 * Assigns(run)
    ensures TileSteps(run) == Work(s) + 5 * Assigns(run) <==> AllFinished(After(s, run))
    ensures !AllFinished(After(s, run)) ==> exists a :: IsTileStep(a) && Enabled(After(s, run), a)
    decreases |run|
  {
    hide Apply, Enabled, Inv, Work, AllFinished;
    if run == [] {
      NoWorkIffAllFinished(s);
      if !AllFinished(s) {
        var a := TileCanMove(s);
      }
    } else {
      StepKeepsInvariant(s, run[0]);
      StepUsesWork(s, run[0]);
      EveryInterleavingCompletes(Apply(s, run[0]), run[1..]);
    }
  }

  /** While only tiles move, a schedule is at most as long as the work, and that long exactly when all is finished. */
  lemma EveryScheduleCompletes(s: St, run: seq<Action>)
    requires Inv(s) && IsRun(s, run) && forall i | 0 <= i < |run| :: IsTileStep(run[i])
    ensures |run| <= Work(s)
    ensures |run| == Work(s) <==> AllFinished(After(s, run))
    ensures |run| < Work(s) ==> exists a :: IsTileStep(a) && Enabled(After(s, run), a)
  {
    EveryInterleavingCompletes(s, run);
    OnlyTileSteps(run);
  }

  lemma {:induction false} OnlyTileSteps(run: seq<Action>)
    requires forall i | 0 <= i < |run| :: IsTileStep(run[i])
    ensures TileSteps(run) == |run| && Assigns(run) == 0
  {
    if run == [] {
    } else {
      assert IsTileStep(run[0]);
      OnlyTileSteps(run[1..]);
    }
  }

  // ---- fair schedules ----

  /** Tile `t` holds a task or finds one waiting, so a step of its own is enabled. */
  ghost predicate TileReady(s: St, t: nat) {
    && IsTile(s, t)
    && (s.phase[t].Polling? ==> exists i: nat :: i < s.count <= |s.store| && LiveFor(s.store[i], t))
  }

  predicate IsStepOf(a: Action, t: nat) {
    IsTileStep(a) && a.tile == t
  }

  lemma ReadyIffEnabled(s: St, t: nat)
    requires Inv(s) && IsTile(s, t)
    ensures TileReady(s, t) <==> exists a :: IsStepOf(a, t) && Enabled(s, a)
  {
    hide LiveOk, HistoryOk, CountersOk, CreatedOk, QueueingOk;
    if TileReady(s, t) {
      if s.phase[t].Polling? {
        var i: nat :| i < s.count <= |s.store| && LiveFor(s.store[i], t);
        var first := FirstLive(s, t, i);
        assert IsStepOf(Take(t), t) && Enabled(s, Take(t));
      } else {
        assert IsStepOf(NextStep(s, t), t) && Enabled(s, NextStep(s, t));
      }
    }
  }

  /** Nothing C0, another tile or a handler does takes a ready tile's next step away. */
  lemma ReadyTileStaysReady(s: St, a: Action, t: nat)
    requires Inv(s) && Enabled(s, a) && TileReady(s, t) && !IsStepOf(a, t)
    ensures TileReady(Apply(s, a), t)
  {
    if IsTileStep(a) {
      ReadyAmongTiles(s, a, t);
    } else {
      ReadyBesideC0(s, a, t);
    }
  }

  lemma ReadyAmongTiles(s: St, a: Action, t: nat)
    requires Inv(s) && Enabled(s, a) && TileReady(s, t) && IsTileStep(a) && a.tile != t
    ensures TileReady(Apply(s, a), t)
  {
    var s' := Apply(s, a);
    hide HistoryOk, CountersOk, LiveOk, CreatedOk, QueueingOk;
    if s.phase[t].Polling? {
      var i: nat :| i < s.count <= |s.store| && LiveFor(s.store[i], t);
      assert LiveFor(s'.store[i], t);
    }
  }

  lemma ReadyBesideC0(s: St, a: Action, t: nat)
    requires Inv(s) && Enabled(s, a) && TileReady(s, t) && !IsTileStep(a)
    ensures TileReady(Apply(s, a), t)
  {
    var s' := Apply(s, a);
    hide HistoryOk, CountersOk, BusyOk, LiveOk;
    if s.phase[t].Polling? {
      var i: nat :| i < s.count <= |s.store| && LiveFor(s.store[i], t);
      assert LiveFor(s'.store[if a.Copy? && s.c0.slot == i && s.count < |s.store| then s.count else i], t);
    }
  }

  /** A schedule cut into rounds, in each of which every tile that is ready at its beginning gets to move. */
  ghost predicate Fair(s: St, rounds: seq<seq<Action>>)
    decreases |rounds|
  {
    rounds == [] || (
      && IsRun(s, rounds[0])
      && (forall t: nat | TileReady(s, t) :: exists i: nat :: i < |rounds[0]| && IsStepOf(rounds[0][i], t))
      && Fair(After(s, rounds[0]), rounds[1..]))
  }

  ghost function AfterRounds(s: St, rounds: seq<seq<Action>>): St
    requires Fair(s, rounds)
    decreases |rounds|
  {
    if rounds == [] then s else AfterRounds(After(s, rounds[0]), rounds[1..])
  }

  lemma {:induction false} HasTileStep(run: seq<Action>, i: nat)
    requires i < |run| && IsTileStep(run[i])
    ensures TileSteps(run) >= 1
  {
    if i == 0 {
    } else {
      HasTileStep(run[1..], i - 1);
    }
  }

  /**
    Under any fair schedule every queued task completes: once C0 has made its last assignment, after as many
    rounds as there is work, whatever else C0 and the interrupt handlers do in them.
  */
  lemma {:induction false} FairScheduleCompletes(s: St, rounds: seq<seq<Action>>)
    requires Inv(s) && Fair(s, rounds) && forall round | round in rounds :: Assigns(round) == 0
    ensures |rounds| >= Work(s) ==> AllFinished(AfterRounds(s, rounds))
    decreases |rounds|
  {
    hide Apply, Enabled, Inv, Work, AllFinished, IsRun, After;
    NoWorkIffAllFinished(s);
    if rounds == [] {
    } else {
      var round, s' := rounds[0], After(s, rounds[0]);
      InvariantHolds(s, round);
      EveryInterleavingCompletes(s, round);
      if !AllFinished(s) {
        var a := TileCanMove(s);
        StepHasReadyTile(s, a);
        var i: nat :| i < |round| && IsStepOf(round[i], a.tile);
        HasTileStep(round, i);
      }
      FairScheduleCompletes(s', rounds[1..]);
    }
  }

  lemma StepHasReadyTile(s: St, a: Action)
    requires Inv(s) && IsTileStep(a) && Enabled(s, a)
    ensures TileReady(s, a.tile)
  {
    ReadyIffEnabled(s, a.tile);
    assert IsStepOf(a, a.tile);
  }
}
