/** Constructed runs: the exact condition for a safe wait, and progress to completion. */
module TaskRuns {
  import opened TaskProtocol
  import opened TaskTheorems

  // ---- building runs ----

  lemma ConsRun(s: St, a: Action, run: seq<Action>)
    requires Enabled(s, a) && IsRun(Apply(s, a), run)
    ensures IsRun(s, [a] + run) && After(s, [a] + run) == After(Apply(s, a), run)
  {
  }

  lemma {:induction false} AppendRuns(s: St, r1: seq<Action>, r2: seq<Action>)
    requires IsRun(s, r1) && IsRun(After(s, r1), r2)
    ensures IsRun(s, r1 + r2) && After(s, r1 + r2) == After(After(s, r1), r2)
    decreases |r1|
  {
    if r1 == [] {
      assert r1 + r2 == r2;
    } else {
      AppendRuns(Apply(s, r1[0]), r1[1..], r2);
      assert r1 + r2 == [r1[0]] + (r1[1..] + r2);
      ConsRun(s, r1[0], r1[1..] + r2);
    }
  }

  lemma RunOfTwo(s: St, a: Action, b: Action)
    requires Enabled(s, a) && Enabled(Apply(s, a), b)
    ensures IsRun(s, [a, b]) && After(s, [a, b]) == Apply(Apply(s, a), b)
  {
    hide Apply, Enabled;
    ConsRun(Apply(s, a), b, []);
    ConsRun(s, a, [b]);
    assert [a] + [b] == [a, b] && [b] + [] == [b];
  }

  lemma RunOfThree(s: St, a: Action, b: Action, c: Action)
    requires Enabled(s, a) && Enabled(Apply(s, a), b) && Enabled(Apply(Apply(s, a), b), c)
    ensures IsRun(s, [a, b, c]) && After(s, [a, b, c]) == Apply(Apply(Apply(s, a), b), c)
  {
    hide Apply, Enabled;
    RunOfTwo(Apply(s, a), b, c);
    ConsRun(s, a, [b, c]);
    assert [a] + [b, c] == [a, b, c];
  }

  lemma RunOfFour(s: St, a: Action, b: Action, c: Action, d: Action)
    requires Enabled(s, a) && Enabled(Apply(s, a), b) && Enabled(Apply(Apply(s, a), b), c)
    requires Enabled(Apply(Apply(Apply(s, a), b), c), d)
    ensures IsRun(s, [a, b, c, d]) && After(s, [a, b, c, d]) == Apply(Apply(Apply(Apply(s, a), b), c), d)
  {
    hide Apply, Enabled;
    RunOfThree(Apply(s, a), b, c, d);
    ConsRun(s, a, [b, c, d]);
    assert [a] + [b, c, d] == [a, b, c, d];
  }

  ghost predicate NoIrq(run: seq<Action>) {
    forall a | a in run :: !a.Irq?
  }

  // ---- stragglers break the wait ----

  /** Steps left before a tile is polling again. */
  function StepsLeft(p: Phase): nat {
    match p
    case Polling => 0
    case Running(_) => 4
    case Stored(_, _) => 3
    case Recorded(_) => 2
    case Marked(_) => 1
  }

  /** The next step of a busy tile. */
  function NextStep(s: St, t: nat): Action
    requires t < |s.phase| && !s.phase[t].Polling?
  {
    match s.phase[t]
    case Running(_) => Store(t, 0)
    case Stored(_, _) => Record(t)
    case Recorded(_) => Mark(t)
    case Marked(_) => Bump(t)
  }

  ghost predicate SameForC0(s: St, s': St) {
    && s'.c0 == s.c0 && s'.count == s.count && |s'.store| == |s.store| && s'.nextId == s.nextId
    && s'.queued == s.queued && s'.created == s.created && s'.tiles == s.tiles
    && (forall i | 0 <= i < |s.store| :: s'.store[i].id == s.store[i].id)
    && (forall x | x in s'.results && x !in s.results :: exists i :: 0 <= i < |s.store| && s.store[i].id == x)
  }

  lemma BusyStep(s: St, t: nat)
    requires IsTile(s, t) && !s.phase[t].Polling? && s.phase[t].slot < |s.store|
    ensures
      var a := NextStep(s, t);
      && Enabled(s, a)
      && Apply(s, a).completed == s.completed + (if s.phase[t].Marked? then 1 else 0)
      && Apply(s, a).active == s.active - (if s.phase[t].Marked? then 1 else 0)
      && IsTile(Apply(s, a), t)
      && StepsLeft(Apply(s, a).phase[t]) == StepsLeft(s.phase[t]) - 1
      && (!s.phase[t].Marked? ==> Apply(s, a).phase[t].slot == s.phase[t].slot)
      && SameForC0(s, Apply(s, a))
  {
  }

  lemma {:induction false} FinishTile(s: St, t: nat) returns (run: seq<Action>)
    requires IsTile(s, t) && !s.phase[t].Polling? && s.phase[t].slot < |s.store|
    ensures IsRun(s, run) && NoIrq(run)
    ensures After(s, run).completed == s.completed + 1 && After(s, run).active == s.active - 1
    ensures SameForC0(s, After(s, run))
    decreases StepsLeft(s.phase[t])
  {
    var a := NextStep(s, t);
    BusyStep(s, t);
    hide Apply, Enabled;
    var rest := [];
    if s.phase[t].Marked? {
    } else {
      rest := FinishTile(Apply(s, a), t);
    }
    ConsRun(s, a, rest);
    run := [a] + rest;
  }

  /** C0 creates one task while no tile moves. */
  lemma CreateOne(s: St) returns (run: seq<Action>)
    requires s.c0.Idle? && s.count < |s.store|
    ensures IsRun(s, run) && NoIrq(run)
    ensures After(s, run) == s.(
      nextId := s.nextId + 1, count := s.count + 1, created := s.created + {s.count},
      store := s.store[s.count := Slot(s.nextId, -1, false, false, 0)])
  {
    var s2 := Apply(Apply(s, TakeId), Reserve);
    RunOfTwo(s, TakeId, Reserve);
    RunOfThree(s2, Zero, Name, Unassign);
    AppendRuns(s, [TakeId, Reserve], [Zero, Name, Unassign]);
    run := [TakeId, Reserve] + [Zero, Name, Unassign];
  }

  /** C0 creates one task and queues it while no tile moves. */
  lemma QueueOne(s: St) returns (run: seq<Action>)
    requires s.c0.Idle? && s.count < |s.store|
    ensures IsRun(s, run) && NoIrq(run)
    ensures
      var s' := After(s, run);
      s'.c0.Idle? && s'.queued == s.queued + [s.nextId] && s'.results == s.results && s'.completed == s.completed
  {
    var r1 := CreateOne(s);
    var r2 := [Assign(s.count), Count, Copy];
    RunOfThree(After(s, r1), Assign(s.count), Count, Copy);
    AppendRuns(s, r1, r2);
    run := r1 + r2;
  }

  /** With a task still in flight at the reset, some run makes the wait return before its task has a result. */
  lemma StragglerBreaksWait(s: St) returns (run: seq<Action>)
    requires AfterReset(s) && !Quiescent(s) && |s.store| >= 1
    ensures IsRun(s, run) && NoIrq(run)
    ensures WaitReturns(After(s, run)) && !AllStored(After(s, run))
  {
    var t: nat :| t < |s.phase| && !s.phase[t].Polling?;
    var r1 := FinishTile(s, t);
    var mid := After(s, r1);
    var r2 := QueueOne(mid);
    AppendRuns(s, r1, r2);
    run := r1 + r2;
    var end := After(mid, r2);
    assert end.queued == [s.nextId];
    assert s.nextId !in end.results;
    assert s.nextId in end.queued;
  }

  /** One interrupt handled as a completion does the same, from any start. */
  lemma IrqBreaksWait(s: St, taskComplete: bool) returns (run: seq<Action>)
    requires AfterReset(s) && |s.store| >= 1
    ensures IsRun(s, run) && WaitReturns(After(s, run)) && !AllStored(After(s, run))
  {
    var s1 := Apply(s, Irq(taskComplete));
    var rest := QueueOne(s1);
    ConsRun(s, Irq(taskComplete), rest);
    run := [Irq(taskComplete)] + rest;
    assert s.nextId in After(s1, rest).queued;
  }

  lemma {:induction false} NoIrqKept(s: St, run: seq<Action>)
    requires IsRun(s, run) && NoIrq(run)
    ensures After(s, run).irqs == s.irqs
    decreases |run|
  {
    if run == [] {
    } else {
      assert run[0] in run && !run[0].Irq?;
      NoIrqKept(Apply(s, run[0]), run[1..]);
    }
  }

  /** The wait is safe in every interrupt-free run exactly when every tile was polling at the reset. */
  lemma WaitSafeIffQuiescent(s: St)
    requires AfterReset(s) && |s.store| >= 1
    ensures
      (forall run | IsRun(s, run) && NoIrq(run) && WaitReturns(After(s, run)) :: AllStored(After(s, run))) <==>
      Quiescent(s)
  {
    if Quiescent(s) {
      forall run | IsRun(s, run) && NoIrq(run) && WaitReturns(After(s, run)) ensures AllStored(After(s, run)) {
        NoIrqKept(s, run);
        assert Reachable(After(s, run));
        WaitIsSafe(After(s, run));
      }
    } else {
      var run := StragglerBreaksWait(s);
    }
  }

  // ---- active_tasks below zero ----

  /** The assignment precedes the count, so a fast tile can bring active_tasks down to -1. */
  lemma ActiveCanGoNegative(s: St) returns (run: seq<Action>)
    requires AfterReset(s) && Quiescent(s) && |s.store| >= 1
    ensures IsRun(s, run) && After(s, run).active == -1
  {
    var t := s.nextTile;
    var r1 := CreateOne(s);
    var s1 := After(s, r1);
    var s2 := Apply(s1, Assign(0));
    assert IsFirstLive(s2.store, s2.count, t, 0);
    RunOfTwo(s1, Assign(0), Take(t));
    var s3 := Apply(s2, Take(t));
    var r3 := FinishTile(s3, t);
    AppendRuns(s1, [Assign(0), Take(t)], r3);
    AppendRuns(s, r1, [Assign(0), Take(t)] + r3);
    run := r1 + ([Assign(0), Take(t)] + r3);
  }
}
