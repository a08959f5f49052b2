/** C0's interrupt drains as steps of the dispatch machine: the counters they share. */
module InterruptTasks {
  import opened InterruptProtocol
  import opened DrainProtocol
  import opened TaskProtocol
  import opened TaskRuns

  /** Both machines see the same active_tasks and completed_tasks. */
  ghost predicate Agree(sys: Sys, s: St) {
    sys.active == s.active && sys.completed == s.completed
  }

  /** The step of the dispatch machine that handling `id` is, if it touches the counters at all. */
  function HandlerSteps(loop: Loop, harts: nat, id: nat): seq<Action> {
    if !DrainProtocol.Counted(loop, harts, id) then []
    else [Irq(loop == Enhanced && (id - 32) % 32 == 22)]
  }

  function DrainSteps(loop: Loop, harts: nat, log: seq<nat>): seq<Action> {
    if log == [] then [] else DrainSteps(loop, harts, log[..|log| - 1]) + HandlerSteps(loop, harts, log[|log| - 1])
  }

  /** Interrupt handlers touch nothing of the dispatch but its counters. */
  ghost predicate OnlyCounters(s: St, s': St) {
    s' == s.(active := s'.active, completed := s'.completed, irqs := s'.irqs, drops := s'.drops)
  }

  lemma HandlerIsStep(loop: Loop, sys: Sys, id: nat, s: St)
    requires sys.Valid() && Agree(sys, s)
    ensures IsRun(s, HandlerSteps(loop, sys.harts, id))
    ensures
      var s' := After(s, HandlerSteps(loop, sys.harts, id));
      Agree(Step(loop, sys, id), s') && OnlyCounters(s, s')
  {
    StepCounts(loop, sys, id);
    StepReports(sys, id);
    hide Step;
    if DrainProtocol.Counted(loop, sys.harts, id) {
      ConsRun(s, HandlerSteps(loop, sys.harts, id)[0], []);
      assert [HandlerSteps(loop, sys.harts, id)[0]] + [] == HandlerSteps(loop, sys.harts, id);
    }
  }

  /**
    Any part of a drain, by either loop, moves the counters exactly as a run of the dispatch machine's interrupt
    steps does, one for each counted interrupt in the order of delivery. So the dispatch theorems, which allow these
    steps anywhere, hold with C0 draining at any moment.
  */
  lemma {:induction false} DrainIsInterruptSteps(loop: Loop, sys: Sys, log: seq<nat>, s: St)
    requires sys.Valid() && Agree(sys, s)
    ensures IsRun(s, DrainSteps(loop, sys.harts, log))
    ensures
      var s' := After(s, DrainSteps(loop, sys.harts, log));
      Agree(Replay(loop, sys, log), s') && OnlyCounters(s, s')
  {
    if log == [] {
    } else {
      var n := |log| - 1;
      DrainIsInterruptSteps(loop, sys, log[..n], s);
      var mid := After(s, DrainSteps(loop, sys.harts, log[..n]));
      ReplayHarts(loop, sys, log[..n]);
      HandlerIsStep(loop, Replay(loop, sys, log[..n]), log[n], mid);
      AppendRuns(s, DrainSteps(loop, sys.harts, log[..n]), HandlerSteps(loop, sys.harts, log[n]));
      hide Step, HandlerSteps, IsRun, After;
    }
  }

  /** A complete drain adds as many interrupt increments as it counts, from any state of the dispatch. */
  lemma DrainAddsIrqs(loop: Loop, sys: Sys, log: seq<nat>, after: Sys, s: St)
    requires sys.Valid() && Undisturbed(loop, sys) && IsDrain(loop, sys, log, after) && Agree(sys, s)
    ensures IsRun(s, DrainSteps(loop, sys.harts, log))
    ensures
      var s' := After(s, DrainSteps(loop, sys.harts, log));
      && Agree(after, s') && OnlyCounters(s, s')
      && s'.irqs == s.irqs + |CountedIds(loop, sys.harts, sys.c0c1.Claimable(0))|
      && s'.drops == s.drops + (s.active - after.active)
  {
    DrainIsInterruptSteps(loop, sys, log, s);
    DrainCounts(loop, sys, log, after);
    IrqsMatch(s, DrainSteps(loop, sys.harts, log)) by {
      OnlyInterruptSteps(loop, sys.harts, log);
    }
  }

  lemma {:induction false} OnlyInterruptSteps(loop: Loop, harts: nat, log: seq<nat>)
    ensures forall a | a in DrainSteps(loop, harts, log) :: a.Irq?
  {
    if log == [] {
    } else {
      OnlyInterruptSteps(loop, harts, log[..|log| - 1]);
    }
  }

  /** Interrupt steps count themselves as completions and their decrements as drops. */
  lemma {:induction false} IrqsMatch(s: St, run: seq<Action>)
    requires IsRun(s, run) && forall a | a in run :: a.Irq?
    ensures After(s, run).irqs - s.irqs == After(s, run).completed - s.completed
    ensures After(s, run).drops - s.drops == s.active - After(s, run).active
    decreases |run|
  {
    if run == [] {
    } else {
      assert run[0] in run && run[0].Irq?;
      IrqsMatch(Apply(s, run[0]), run[1..]);
    }
  }
}
