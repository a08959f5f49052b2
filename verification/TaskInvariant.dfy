/** Every step of C0 and of every tile keeps the dispatch invariant. */
module TaskInvariant {
  import opened TaskProtocol

  lemma QuiescentStart(s: St)
    requires AfterReset(s) && Quiescent(s)
    ensures Inv(s)
  {
  }

  /** Steps inside create_hal_test_task. */
  predicate IsCreateStep(a: Action) {
    a.TakeId? || a.Reserve? || a.Zero? || a.Name? || a.Unassign?
  }

  /** Steps inside tile_execute_task and tile_complete_task. */
  predicate IsExecuteStep(a: Action) {
    a.Store? || a.Record? || a.Mark? || a.Bump?
  }

  lemma ShapeKeptByTile(s: St, a: Action)
    requires Inv(s) && Enabled(s, a) && (a.Take? || IsExecuteStep(a))
    ensures Shape(Apply(s, a))
  {
    hide HistoryOk, CountersOk, LiveOk;
  }

  lemma ShapeKeptByC0(s: St, a: Action)
    requires Inv(s) && Enabled(s, a) && !(a.Take? || IsExecuteStep(a))
    ensures Shape(Apply(s, a))
  {
    hide HistoryOk, CountersOk, LiveOk;
  }

  lemma ShapeKept(s: St, a: Action)
    requires Inv(s) && Enabled(s, a)
    ensures Shape(Apply(s, a))
  {
    hide Inv, Apply, Enabled;
    if (a.Take? || IsExecuteStep(a)) {
      ShapeKeptByTile(s, a);
    } else {
      ShapeKeptByC0(s, a);
    }
  }

  lemma CreatedKeptByTile(s: St, a: Action)
    requires Inv(s) && Enabled(s, a) && (a.Take? || IsExecuteStep(a))
    ensures Shape(Apply(s, a)) && CreatedOk(Apply(s, a))
  {
    ShapeKept(s, a);
    hide HistoryOk, CountersOk, LiveOk, QueueingOk;
  }

  lemma CreatedKeptByC0(s: St, a: Action)
    requires Inv(s) && Enabled(s, a) && !(a.Take? || IsExecuteStep(a))
    ensures Shape(Apply(s, a)) && CreatedOk(Apply(s, a))
  {
    ShapeKept(s, a);
    hide HistoryOk, CountersOk, LiveOk, BusyOk;
  }

  lemma CreatedKept(s: St, a: Action)
    requires Inv(s) && Enabled(s, a)
    ensures Shape(Apply(s, a)) && CreatedOk(Apply(s, a))
  {
    hide Inv, Apply, Enabled;
    if a.Take? || IsExecuteStep(a) {
      CreatedKeptByTile(s, a);
    } else {
      CreatedKeptByC0(s, a);
    }
  }

  lemma LiveKeptByTake(s: St, a: Action)
    requires Inv(s) && Enabled(s, a) && a.Take?
    ensures Shape(Apply(s, a)) && LiveOk(Apply(s, a))
  {
    hide HistoryOk, CountersOk, BusyOk, CreatedOk, QueueingOk;
  }

  lemma LiveKeptByExecute(s: St, a: Action)
    requires Inv(s) && Enabled(s, a) && IsExecuteStep(a)
    ensures Shape(Apply(s, a)) && LiveOk(Apply(s, a))
  {
    ShapeKept(s, a);
    hide HistoryOk, CountersOk, CreatedOk, QueueingOk;
  }

  lemma LiveKeptByCreate(s: St, a: Action)
    requires Inv(s) && Enabled(s, a) && (IsCreateStep(a) || a.Count? || a.Irq?)
    ensures Shape(Apply(s, a)) && LiveOk(Apply(s, a))
  {
    ShapeKept(s, a);
    hide HistoryOk, CountersOk, BusyOk, CreatedOk, QueueingOk;
  }

  lemma LiveKeptByQueue(s: St, a: Action)
    requires Inv(s) && Enabled(s, a) && (a.Assign? || a.Copy?)
    ensures Shape(Apply(s, a)) && LiveOk(Apply(s, a))
  {
    ShapeKept(s, a);
    hide HistoryOk, CountersOk, BusyOk;
  }

  lemma LiveKept(s: St, a: Action)
    requires Inv(s) && Enabled(s, a)
    ensures Shape(Apply(s, a)) && LiveOk(Apply(s, a))
  {
    hide Inv, Apply, Enabled;
    if a.Take? {
      LiveKeptByTake(s, a);
    } else if IsExecuteStep(a) {
      LiveKeptByExecute(s, a);
    } else if a.Assign? || a.Copy? {
      LiveKeptByQueue(s, a);
    } else {
      LiveKeptByCreate(s, a);
    }
  }

  lemma QueueingKept(s: St, a: Action)
    requires Inv(s) && Enabled(s, a)
    ensures Shape(Apply(s, a)) && QueueingOk(Apply(s, a))
  {
    ShapeKept(s, a);
    hide HistoryOk, CountersOk, BusyOk;
  }

  /** A step that leaves tiles, taken slots and ids at home with a tile alone keeps their correspondence. */
  lemma BusyFrame(s: St, s': St)
    requires Shape(s) && Shape(s') && BusyOk(s)
    requires s'.tiles == s.tiles && s'.count >= s.count && |s'.store| == |s.store|
    requires forall t | 0 <= t <= s.tiles ::
      s'.phase[t].Polling? == s.phase[t].Polling? && (!s.phase[t].Polling? ==> s'.phase[t].slot == s.phase[t].slot)
    requires forall i | 0 <= i < |s.store| && s.store[i].taken :: s'.store[i].taken && s'.store[i].id == s.store[i].id
    requires forall x :: (x in s.home && s.home[x].With?) == (x in s'.home && s'.home[x].With?)
    requires forall x | x in s.home && s.home[x].With? :: s'.home[x] == s.home[x]
    ensures BusyOk(s')
  {
  }

  lemma BusyKeptByCreate(s: St, a: Action)
    requires Inv(s) && Enabled(s, a) && (IsCreateStep(a) || a.Count? || a.Irq?)
    ensures Shape(Apply(s, a)) && BusyOk(Apply(s, a))
  {
    ShapeKept(s, a);
    BusyFrame(s, Apply(s, a)) by {
      hide BusyOk, HistoryOk, CountersOk, LiveOk, CreatedOk, QueueingOk;
    }
    hide *;
  }

  lemma BusyKeptByQueue(s: St, a: Action)
    requires Inv(s) && Enabled(s, a) && (a.Assign? || a.Copy?)
    ensures Shape(Apply(s, a)) && BusyOk(Apply(s, a))
  {
    ShapeKept(s, a);
    BusyFrame(s, Apply(s, a)) by {
      hide BusyOk, HistoryOk, CountersOk;
    }
    hide *;
  }

  lemma BusyKeptByTake(s: St, a: Action)
    requires Inv(s) && Enabled(s, a) && a.Take?
    ensures Shape(Apply(s, a)) && BusyOk(Apply(s, a))
  {
    hide HistoryOk, CountersOk, QueueingOk, CreatedOk;
  }

  lemma BusyKeptByExecute(s: St, a: Action)
    requires Inv(s) && Enabled(s, a) && (a.Store? || a.Record? || a.Mark?)
    ensures Shape(Apply(s, a)) && BusyOk(Apply(s, a))
  {
    ShapeKept(s, a);
    BusyFrame(s, Apply(s, a)) by {
      hide BusyOk, HistoryOk, CountersOk, QueueingOk, CreatedOk, LiveOk;
    }
    hide *;
  }

  lemma BusyKeptByBump(s: St, a: Action)
    requires Inv(s) && Enabled(s, a) && a.Bump?
    ensures Shape(Apply(s, a)) && BusyOk(Apply(s, a))
  {
    hide HistoryOk, CountersOk, QueueingOk, CreatedOk, LiveOk;
  }

  lemma BusyKept(s: St, a: Action)
    requires Inv(s) && Enabled(s, a)
    ensures Shape(Apply(s, a)) && BusyOk(Apply(s, a))
  {
    hide Inv, Apply, Enabled;
    match a {
      case Take(_) => BusyKeptByTake(s, a);
      case Store(_, _) => BusyKeptByExecute(s, a);
      case Record(_) => BusyKeptByExecute(s, a);
      case Mark(_) => BusyKeptByExecute(s, a);
      case Bump(_) => BusyKeptByBump(s, a);
      case Assign(_) => BusyKeptByQueue(s, a);
      case Copy => BusyKeptByQueue(s, a);
      case _ => BusyKeptByCreate(s, a);
    }
  }

  lemma HistoryKeptByCreate(s: St, a: Action)
    requires Inv(s) && Enabled(s, a) && (IsCreateStep(a) || a.Count? || a.Irq?)
    ensures Shape(Apply(s, a)) && BusyOk(Apply(s, a)) && HistoryOk(Apply(s, a))
  {
    BusyKept(s, a);
    hide CountersOk, QueueingOk;
  }

  lemma HistoryKeptByAssign(s: St, a: Action)
    requires Inv(s) && Enabled(s, a) && a.Assign?
    ensures Shape(Apply(s, a)) && BusyOk(Apply(s, a)) && HistoryOk(Apply(s, a))
  {
    BusyKept(s, a);
    hide CountersOk, QueueingOk;
  }

  /** A step that only moves a waiting task from slot to slot keeps the histories. */
  lemma HistoryFrame(s: St, s': St)
    requires Shape(s) && BusyOk(s) && HistoryOk(s) && Shape(s') && BusyOk(s')
    requires s'.phase == s.phase && s'.tiles == s.tiles
    requires s'.queued == s.queued && s'.started == s.started && s'.results == s.results
    requires s'.home.Keys == s.home.Keys
    requires forall x | x in s.home ::
      s'.home[x].InSlot? == s.home[x].InSlot? && s'.home[x].Finished? == s.home[x].Finished?
    requires forall t | 0 <= t <= s.tiles && !s.phase[t].Polling? :: HeldId(s', t) == HeldId(s, t)
    ensures HistoryOk(s')
  {
  }

  lemma HistoryKeptByCopy(s: St, a: Action)
    requires Inv(s) && Enabled(s, a) && a.Copy?
    ensures Shape(Apply(s, a)) && BusyOk(Apply(s, a)) && HistoryOk(Apply(s, a))
  {
    BusyKept(s, a);
    HistoryFrame(s, Apply(s, a)) by {
      hide HistoryOk, CountersOk, CreatedOk;
    }
    hide *;
  }

  lemma HistoryKeptByTake(s: St, a: Action)
    requires Inv(s) && Enabled(s, a) && a.Take?
    ensures Shape(Apply(s, a)) && BusyOk(Apply(s, a)) && HistoryOk(Apply(s, a))
  {
    BusyKept(s, a);
    hide CountersOk, QueueingOk;
  }

  lemma HistoryKeptByExecute(s: St, a: Action)
    requires Inv(s) && Enabled(s, a) && (a.Store? || a.Record? || a.Mark?)
    ensures Shape(Apply(s, a)) && BusyOk(Apply(s, a)) && HistoryOk(Apply(s, a))
  {
    BusyKept(s, a);
    hide CountersOk, QueueingOk;
  }

  lemma HistoryKeptByBump(s: St, a: Action)
    requires Inv(s) && Enabled(s, a) && a.Bump?
    ensures Shape(Apply(s, a)) && BusyOk(Apply(s, a)) && HistoryOk(Apply(s, a))
  {
    hide CountersOk, QueueingOk;
  }

  lemma HistoryKept(s: St, a: Action)
    requires Inv(s) && Enabled(s, a)
    ensures Shape(Apply(s, a)) && BusyOk(Apply(s, a)) && HistoryOk(Apply(s, a))
  {
    hide Inv, Apply, Enabled;
    match a {
      case Assign(_) => HistoryKeptByAssign(s, a);
      case Copy => HistoryKeptByCopy(s, a);
      case Take(_) => HistoryKeptByTake(s, a);
      case Store(_, _) => HistoryKeptByExecute(s, a);
      case Record(_) => HistoryKeptByExecute(s, a);
      case Mark(_) => HistoryKeptByExecute(s, a);
      case Bump(_) => HistoryKeptByBump(s, a);
      case _ => HistoryKeptByCreate(s, a);
    }
  }

  lemma CountersKeptByOthers(s: St, a: Action)
    requires Inv(s) && Enabled(s, a) && !a.Bump?
    ensures CountersOk(Apply(s, a))
  {
    hide Shape, QueueingOk, BusyOk, HistoryOk;
    assert FinishedIds(Apply(s, a)) == FinishedIds(s);
  }

  lemma CountersKeptByBump(s: St, a: Action)
    requires Inv(s) && Enabled(s, a) && a.Bump?
    ensures CountersOk(Apply(s, a))
  {
    hide CreatedOk, LiveOk, QueueingOk, HistoryOk;
    assert FinishedIds(Apply(s, a)) == FinishedIds(s) + {HeldId(s, a.tile)};
  }

  /** The invariant is inductive. */
  lemma StepKeepsInvariant(s: St, a: Action)
    requires Inv(s) && Enabled(s, a)
    ensures Inv(Apply(s, a))
  {
    CreatedKept(s, a);
    LiveKept(s, a);
    QueueingKept(s, a);
    HistoryKept(s, a);
    if a.Bump? {
      CountersKeptByBump(s, a);
    } else {
      CountersKeptByOthers(s, a);
    }
    hide Shape, CreatedOk, LiveOk, QueueingOk, BusyOk, HistoryOk, CountersOk, Apply, Enabled;
  }

  /** So it holds in every state of every interleaving that starts without a task in flight. */
  lemma {:induction false} InvariantHolds(s: St, run: seq<Action>)
    requires Inv(s) && IsRun(s, run)
    ensures Inv(After(s, run))
    decreases |run|
  {
    if run == [] {
    } else {
      StepKeepsInvariant(s, run[0]);
      InvariantHolds(Apply(s, run[0]), run[1..]);
    }
  }
}
