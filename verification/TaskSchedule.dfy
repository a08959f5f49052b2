/** Which tile each queued task goes to, how many each gets, and the order in which a tile takes them. */
module TaskSchedule {
  import opened Finite
  import opened TaskProtocol
  import opened TaskInvariant
  import opened TaskOrder

  // ---- where the tasks go, in every run ----

  /** The tile that a queued task waits for, runs on, or ran on. */
  function TileHolding(s: St, x: int): int
    requires x in s.home && (s.home[x].InSlot? ==> s.home[x].slot < |s.store|)
  {
    match s.home[x]
    case InSlot(i) => s.store[i].tile
    case With(t) => t
    case Finished(t) => t
  }

  ghost predicate AtTile(s: St, x: int, t: int) {
    && x in s.home
    && (s.home[x].InSlot? ==> s.home[x].slot < |s.store|)
    && TileHolding(s, x) == t
  }

  /** Every queued task is with the tile that round robin gave its call, counted from tile `start`. */
  ghost predicate Placed(s: St, start: nat) {
    && s.nextTile == TileOfCall(s.tiles, start, |s.queued|)
    && forall k | 0 <= k < |s.queued| :: AtTile(s, s.queued[k], TileOfCall(s.tiles, start, k))
  }

  /** A task stays with its tile: waiting, running and finished. */
  lemma StaysAtTile(s: St, a: Action, x: int, t: int)
    requires Inv(s) && Enabled(s, a) && AtTile(s, x, t)
    ensures AtTile(Apply(s, a), x, t)
  {
    if a.Take? || IsExecuteStep(a) {
      StaysThroughTile(s, a, x, t);
    } else {
      StaysThroughC0(s, a, x, t);
    }
  }

  lemma StaysThroughTile(s: St, a: Action, x: int, t: int)
    requires Inv(s) && Enabled(s, a) && AtTile(s, x, t) && (a.Take? || IsExecuteStep(a))
    ensures AtTile(Apply(s, a), x, t)
  {
    hide HistoryOk, CountersOk, CreatedOk, QueueingOk;
  }

  lemma StaysThroughC0(s: St, a: Action, x: int, t: int)
    requires Inv(s) && Enabled(s, a) && AtTile(s, x, t) && !(a.Take? || IsExecuteStep(a))
    ensures AtTile(Apply(s, a), x, t)
  {
    hide HistoryOk, CountersOk, BusyOk;
  }

  lemma PlacedKept(s: St, a: Action, start: nat)
    requires Inv(s) && Enabled(s, a) && Placed(s, start)
    ensures Placed(Apply(s, a), start)
  {
    var s' := Apply(s, a);
    forall k | 0 <= k < |s'.queued| ensures AtTile(s', s'.queued[k], TileOfCall(s'.tiles, start, k)) {
      if k < |s.queued| {
        StaysAtTile(s, a, s.queued[k], TileOfCall(s.tiles, start, k));
        SameQueue(s, a);
      }
    }
  }

  lemma SameQueue(s: St, a: Action)
    requires Enabled(s, a)
    ensures Apply(s, a).tiles == s.tiles && s.queued <= Apply(s, a).queued
  {
  }

  /** In every interleaving, the k-th queued task is, and stays, with the k-th tile of the round robin. */
  lemma {:induction false} PlacedHolds(s: St, run: seq<Action>, start: nat)
    requires Inv(s) && Placed(s, start) && IsRun(s, run)
    ensures Placed(After(s, run), start) && After(s, run).tiles == s.tiles
    decreases |run|
  {
    hide Apply, Enabled, Inv, Placed;
    if run == [] {
    } else {
      StepKeepsInvariant(s, run[0]);
      PlacedKept(s, run[0], start);
      SameQueue(s, run[0]);
      PlacedHolds(Apply(s, run[0]), run[1..], start);
    }
  }

  /** The queued tasks that wait for, run on or ran on tile `t`. */
  ghost function TasksOf(s: St, t: int): set<int> {
    set x | x in s.queued && AtTile(s, x, t)
  }

  ghost function TasksUpTo(s: St, t: int, n: nat): set<int>
    requires n <= |s.queued|
  {
    set x | x in s.queued[..n] && AtTile(s, x, t)
  }

  lemma {:induction false} TasksUpToCount(s: St, start: nat, t: nat, n: nat)
    requires NoRepeats(s.queued) && Placed(s, start) && n <= |s.queued|
    ensures |TasksUpTo(s, t, n)| == CallsTo(s.tiles, start, n, t)
  {
    hide AtTile, TasksUpTo;
    if n == 0 {
      assert TasksUpTo(s, t, 0) == {} by {
        TasksUpToStart(s, t);
      }
    } else {
      TasksUpToCount(s, start, t, n - 1);
      var u := TileOfCall(s.tiles, start, n - 1);
      TasksUpToStep(s, t, n);
      AtOneTile(s, s.queued[n - 1], t, u);
    }
  }

  lemma TasksUpToStart(s: St, t: nat)
    ensures TasksUpTo(s, t, 0) == {}
  {
  }

  lemma TasksUpToStep(s: St, t: nat, n: nat)
    requires NoRepeats(s.queued) && 0 < n <= |s.queued|
    ensures |TasksUpTo(s, t, n)| == |TasksUpTo(s, t, n - 1)| + if AtTile(s, s.queued[n - 1], t) then 1 else 0
  {
    hide AtTile;
    var x := s.queued[n - 1];
    assert x !in s.queued[..n - 1];
    assert s.queued[..n] == s.queued[..n - 1] + [x];
    assert TasksUpTo(s, t, n) == TasksUpTo(s, t, n - 1) + if AtTile(s, x, t) then {x} else {};
  }

  lemma AtOneTile(s: St, x: int, t: int, u: int)
    requires AtTile(s, x, u)
    ensures AtTile(s, x, t) <==> t == u
  {
  }

  /**
    Of the n tasks queued since a quiet reset, in any interleaving and at any moment, every tile has got
    n / tiles, the first n % tiles of the round one more, and tile 0 none.
  */
  lemma SharesInEveryRun(s: St, run: seq<Action>, t: nat)
    requires AfterReset(s) && Quiescent(s) && IsRun(s, run) && t <= s.tiles
    ensures
      var end := After(s, run);
      var n, got := |end.queued|, |TasksOf(end, t)|;
      && (t == 0 ==> got == 0)
      && (t > 0 ==> got == n / s.tiles + if Distance(s.tiles, s.nextTile, t) < n % s.tiles then 1 else 0)
  {
    QuiescentStart(s);
    assert Placed(s, s.nextTile);
    InvariantHolds(s, run);
    PlacedHolds(s, run, s.nextTile);
    var end := After(s, run);
    TasksUpToCount(end, s.nextTile, t, |end.queued|);
    assert end.queued[..|end.queued|] == end.queued;
    assert TasksOf(end, t) == TasksUpTo(end, t, |end.queued|);
    if t == 0 {
      NeverTileZero(s.tiles, s.nextTile, |end.queued|);
    } else {
      RoundRobinCounts(s.tiles, s.nextTile, |end.queued|, t);
    }
  }

  // ---- the order, when create and queue alternate ----

  /** Ids are queued in increasing order, and whatever C0 has in hand comes after all of them. */
  ghost predicate QueueOrdered(s: St) {
    && (forall j, k | 0 <= j < k < |s.queued| :: s.queued[j] < s.queued[k])
    && (forall o, x | o in s.created && o < |s.store| && x in s.queued :: x < s.store[o].id)
    && (InCreate(s) ==> forall x | x in s.queued :: x < s.c0.id)
  }

  lemma QueueOrderedKept(s: St, a: Action)
    requires AltInv(s) && Enabled(s, a) && QueueOrdered(s) && (a.TakeId? ==> s.created == {})
    ensures QueueOrdered(Apply(s, a))
  {
    if a.Assign? {
      QueueOrderedByAssign(s, a.slot);
    } else if a.Take? || IsExecuteStep(a) {
      IdsKeptByTile(s, a);
    } else {
      QueueOrderedByC0(s, a);
    }
  }

  lemma QueueOrderedByAssign(s: St, o: nat)
    requires AltInv(s) && Enabled(s, Assign(o)) && QueueOrdered(s)
    ensures QueueOrdered(Apply(s, Assign(o)))
  {
    hide Inv, OrderOk;
    assert s.created == {o};
    var s' := Apply(s, Assign(o));
    forall j, k | 0 <= j < k < |s'.queued| ensures s'.queued[j] < s'.queued[k] {
      assert s.queued[j] in s.queued;
    }
  }

  lemma QueueOrderedByC0(s: St, a: Action)
    requires AltInv(s) && Enabled(s, a) && QueueOrdered(s) && (a.TakeId? ==> s.created == {})
    requires !(a.Assign? || a.Take? || IsExecuteStep(a))
    ensures QueueOrdered(Apply(s, a))
  {
    hide LiveOk, BusyOk, CountersOk, OrderOk;
    assert forall x | x in s.queued :: x in s.home;
    assert Apply(s, a).queued == s.queued;
  }

  lemma IdsKeptByTile(s: St, a: Action)
    requires Enabled(s, a) && (a.Take? || IsExecuteStep(a))
    ensures Apply(s, a).queued == s.queued && Apply(s, a).created == s.created && Apply(s, a).c0 == s.c0
    ensures |Apply(s, a).store| == |s.store|
    ensures forall i | 0 <= i < |s.store| :: Apply(s, a).store[i].id == s.store[i].id
  {
  }

  /** A tile has started everything queued for it before a task by the time it starts that task. */
  ghost predicate TakenInOrder(s: St, start: nat) {
    forall a, j, k | 0 <= a < |s.started| && 0 <= j < k < |s.queued| && s.started[a] == s.queued[k]
      && TileOfCall(s.tiles, start, j) == TileOfCall(s.tiles, start, k) :: s.queued[j] in s.started[..a]
  }

  /** The moment tile `t` takes a task, all that was queued for `t` before it has been taken. */
  lemma TakesInQueueOrder(s: St, start: nat, t: nat, i: nat, j: nat, k: nat)
    requires AltInv(s) && QueueOrdered(s) && Placed(s, start)
    requires IsTile(s, t) && IsFirstLive(s.store, s.count, t, i)
    requires j < k < |s.queued| && s.queued[k] == s.store[i].id
    requires TileOfCall(s.tiles, start, j) == TileOfCall(s.tiles, start, k)
    ensures s.queued[j] in s.started
  {
    var x, y := s.queued[j], s.queued[k];
    assert Live(s.tiles, s.store[i]);
    assert s.home[y] == InSlot(i) && AtTile(s, y, TileOfCall(s.tiles, start, k));
    assert AtTile(s, x, TileOfCall(s.tiles, start, j));
    hide BusyOk, CountersOk, QueueingOk, OrderOk, CreatedOk, CapacityOk;
    if s.home[x].InSlot? {
      TakesOldest(s, t, i, x);
    }
  }

  lemma TakenInOrderKept(s: St, a: Action, start: nat)
    requires AltInv(s) && Enabled(s, a) && QueueOrdered(s) && Placed(s, start) && TakenInOrder(s, start)
    ensures TakenInOrder(Apply(s, a), start)
  {
    var s' := Apply(s, a);
    SameQueue(s, a);
    forall n, j, k | 0 <= n < |s'.started| && 0 <= j < k < |s'.queued| && s'.started[n] == s'.queued[k]
      && TileOfCall(s.tiles, start, j) == TileOfCall(s.tiles, start, k)
      ensures s'.queued[j] in s'.started[..n]
    {
      hide Apply, Enabled, QueueOrdered, Placed, CapacityOk, OrderOk, Inv;
      if n == |s.started| {
        TakenNow(s, a, start, j, k);
      } else {
        StartedBefore(s, a, n, k);
        assert s'.started[..n] == s.started[..n];
      }
    }
  }

  lemma TakenNow(s: St, a: Action, start: nat, j: nat, k: nat)
    requires AltInv(s) && Enabled(s, a) && QueueOrdered(s) && Placed(s, start)
    requires
      var s', n := Apply(s, a), |s.started|;
      && |s'.started| > n && j < k < |s'.queued| && s'.started[n] == s'.queued[k]
      && TileOfCall(s.tiles, start, j) == TileOfCall(s.tiles, start, k)
    ensures Apply(s, a).queued[j] in Apply(s, a).started[..|s.started|]
  {
    var s' := Apply(s, a);
    var i: nat :| IsFirstLive(s.store, s.count, a.tile, i) && s'.started == s.started + [s.store[i].id];
    assert s'.started[..|s.started|] == s.started;
    hide AltInv, QueueOrdered, Placed;
    TakesInQueueOrder(s, start, a.tile, i, j, k);
  }

  /** What was started before a step was queued before it. */
  lemma StartedBefore(s: St, a: Action, n: nat, k: nat)
    requires Inv(s) && Enabled(s, a) && n < |Apply(s, a).started| && n != |s.started| && k < |Apply(s, a).queued|
    requires Apply(s, a).started[n] == Apply(s, a).queued[k]
    ensures n < |s.started| && k < |s.queued| && s.queued <= Apply(s, a).queued && s.started <= Apply(s, a).started
  {
    hide LiveOk, BusyOk, CountersOk, QueueingOk;
    assert s.started[n] in s.started;
  }

  ghost predicate ScheduleInv(s: St, start: nat) {
    AltInv(s) && Placed(s, start) && QueueOrdered(s) && TakenInOrder(s, start)
  }

  lemma {:induction false} ScheduleHolds(s: St, run: seq<Action>, start: nat)
    requires ScheduleInv(s, start) && IsRun(s, run) && Alternates(s, run)
    ensures ScheduleInv(After(s, run), start) && After(s, run).tiles == s.tiles
    decreases |run|
  {
    hide Apply, Enabled, Inv, CapacityOk, OrderOk, Placed, QueueOrdered, TakenInOrder;
    if run == [] {
    } else {
      AltStep(s, run[0]);
      PlacedKept(s, run[0], start);
      QueueOrderedKept(s, run[0]);
      TakenInOrderKept(s, run[0], start);
      SameQueue(s, run[0]);
      ScheduleHolds(Apply(s, run[0]), run[1..], start);
    }
  }

  /**
    With create and queue alternating from a quiet reset, in every interleaving: ids are queued in increasing
    order, and each tile takes the tasks of its own calls in the order of those calls.
  */
  lemma TilesTakeInQueueOrder(s: St, run: seq<Action>)
    requires AfterReset(s) && Quiescent(s) && IsRun(s, run) && Alternates(s, run)
    ensures Placed(After(s, run), s.nextTile) && QueueOrdered(After(s, run)) && TakenInOrder(After(s, run), s.nextTile)
  {
    QuiescentStart(s);
    ScheduleHolds(s, run, s.nextTile);
  }

  /** A task being queued has a larger id than everything queued before it, waiting, taken or finished. */
  lemma QueuedInIdOrder(s: St, run: seq<Action>, o: nat)
    requires AfterReset(s) && Quiescent(s) && IsRun(s, run) && Alternates(s, run)
    requires Enabled(After(s, run), Assign(o))
    ensures forall x | x in After(s, run).queued :: x < After(s, run).store[o].id
  {
    TilesTakeInQueueOrder(s, run);
  }
}
