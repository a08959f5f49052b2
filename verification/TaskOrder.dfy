/** Round-robin balance, store capacity, and the order in which a tile meets its tasks. */
module TaskOrder {
  import opened Arithmetic
  import opened TaskProtocol
  import opened TaskInvariant

  // ---- balance ----

  /** The tile the k-th queue call after `start` is assigned to. */
  function TileOfCall(tiles: nat, start: nat, k: nat): nat {
    if k == 0 then start else NextTile(tiles, TileOfCall(tiles, start, k - 1))
  }

  function CallsTo(tiles: nat, start: nat, n: nat, tile: nat): nat {
    if n == 0 then 0
    else CallsTo(tiles, start, n - 1, tile) + if TileOfCall(tiles, start, n - 1) == tile then 1 else 0
  }

  lemma {:induction false} TileOfCallMod(tiles: nat, start: nat, k: nat)
    requires 1 <= start <= tiles
    ensures TileOfCall(tiles, start, k) == 1 + (start - 1 + k) % tiles
  {
    if k == 0 {
      DivModUnique(start - 1, 0, tiles, start - 1);
    } else {
      TileOfCallMod(tiles, start, k - 1);
      ModSucc(start - 1 + (k - 1), tiles);
    }
  }

  /** Calls that reached `tile` after n calls: every full round gives one, a partial round gives the first tiles one. */
  lemma {:induction false} RoundRobinCounts(tiles: nat, start: nat, n: nat, tile: nat)
    requires 1 <= start <= tiles && 1 <= tile <= tiles
    ensures CallsTo(tiles, start, n, tile) == n / tiles + if Distance(tiles, start, tile) < n % tiles then 1 else 0
  {
    if n == 0 {
    } else {
      RoundRobinCounts(tiles, start, n - 1, tile);
      TileOfCallMod(tiles, start, n - 1);
      HitsAt(tiles, start, n - 1, tile);
      ModSucc(n - 1, tiles);
    }
  }

  /** How many calls after `start` is `tile` first reached. */
  function Distance(tiles: nat, start: nat, tile: nat): (d: nat)
    requires 1 <= start <= tiles && 1 <= tile <= tiles
    ensures d < tiles
  {
    if tile >= start then tile - start else tile + tiles - start
  }

  lemma HitsAt(tiles: nat, start: nat, k: nat, tile: nat)
    requires 1 <= start <= tiles && 1 <= tile <= tiles
    ensures 1 + (start - 1 + k) % tiles == tile <==> k % tiles == Distance(tiles, start, tile)
  {
    var q, r := k / tiles, k % tiles;
    assert k == q * tiles + r;
    var sum := start - 1 + r;
    if sum < tiles {
      assert start - 1 + k == q * tiles + sum;
      DivModUnique(start - 1 + k, q, tiles, sum);
    } else {
      assert start - 1 + k == (q + 1) * tiles + (sum - tiles);
      DivModUnique(start - 1 + k, q + 1, tiles, sum - tiles);
    }
  }

  lemma {:induction false} NeverTileZero(tiles: nat, start: nat, n: nat)
    requires 1 <= start <= tiles
    ensures CallsTo(tiles, start, n, 0) == 0
  {
    if n == 0 {
    } else {
      NeverTileZero(tiles, start, n - 1);
      TileOfCallMod(tiles, start, n - 1);
    }
  }

  /** The machine's next_tile follows that sequence in every run, so the k-th Assign goes to TileOfCall(k). */
  lemma {:induction false} NextTileFollows(s: St, run: seq<Action>, start: nat)
    requires IsRun(s, run) && s.nextTile == TileOfCall(s.tiles, start, |s.queued|)
    ensures After(s, run).tiles == s.tiles
    ensures After(s, run).nextTile == TileOfCall(s.tiles, start, |After(s, run).queued|)
    decreases |run|
  {
    if run == [] {
    } else {
      NextTileFollows(Apply(s, run[0]), run[1..], start);
    }
  }

  // ---- create and queue in alternation ----

  /** A run in which every created task is queued before the next one is created. */
  ghost predicate Alternates(s: St, run: seq<Action>)
    requires IsRun(s, run)
    decreases |run|
  {
    run == [] || ((run[0].TakeId? ==> s.created == {}) && Alternates(Apply(s, run[0]), run[1..]))
  }

  function Min(a: nat, b: nat): nat {
    if a <= b then a else b
  }

  /** Slots used once `k` tasks have been created and queued in alternation. */
  function SlotsFor(k: nat, cap: nat): nat {
    Min(2 * k, cap)
  }

  ghost predicate InCreate(s: St) {
    s.c0.HaveId? || s.c0.Reserved? || s.c0.Zeroed? || s.c0.Named?
  }

  /** How far C0 is with the current task, and what that means for the store. */
  ghost predicate CapacityOk(s: St) {
    var cap := |s.store|;
    var k := |s.queued|;
    2 * k <= cap + 1 &&
    if s.c0.Assigned? || s.c0.Counted? then
      s.created == {} && k >= 1 && s.count == SlotsFor(k - 1, cap) + 1 && s.c0.slot == s.count - 1
    else if s.c0.Idle? && s.created != {} then
      s.count == SlotsFor(k, cap) + 1 && s.created == {s.count - 1}
    else if s.c0.Reserved? || s.c0.Zeroed? || s.c0.Named? then
      s.created == {} && s.count == SlotsFor(k, cap) + 1 && s.c0.slot == s.count - 1
    else
      s.created == {} && s.count == SlotsFor(k, cap)
  }

  /** Used slots carry non-decreasing ids, and a task in the making has the largest. */
  ghost predicate OrderOk(s: St) {
    && s.count <= |s.store|
    && (forall i, j | 0 <= i < j < s.count && s.store[j].id > 0 :: s.store[i].id <= s.store[j].id)
    && (InCreate(s) ==> forall i | 0 <= i < s.count && !(s.c0.Named? && i == s.c0.slot) :: s.store[i].id < s.c0.id)
    && (s.c0.Reserved? || s.c0.Zeroed? ==> s.c0.slot == s.count - 1)
    && (s.c0.Assigned? || s.c0.Counted? ==> s.c0.slot == s.count - 1)
  }

  ghost predicate AltInv(s: St) {
    Inv(s) && CapacityOk(s) && OrderOk(s)
  }

  lemma AltStep(s: St, a: Action)
    requires AltInv(s) && Enabled(s, a) && (a.TakeId? ==> s.created == {})
    ensures AltInv(Apply(s, a))
  {
    StepKeepsInvariant(s, a);
    CapacityKept(s, a);
    OrderKept(s, a);
  }

  lemma CapacityKeptByTile(s: St, a: Action)
    requires AltInv(s) && Enabled(s, a) && (a.Take? || IsExecuteStep(a))
    ensures CapacityOk(Apply(s, a))
  {
    hide HistoryOk, CountersOk, LiveOk, BusyOk, CreatedOk, QueueingOk, OrderOk;
  }

  lemma CapacityKeptByC0(s: St, a: Action)
    requires AltInv(s) && Enabled(s, a) && !(a.Take? || IsExecuteStep(a)) && (a.TakeId? ==> s.created == {})
    ensures CapacityOk(Apply(s, a))
  {
    hide HistoryOk, CountersOk, LiveOk, BusyOk, OrderOk;
  }

  lemma CapacityKept(s: St, a: Action)
    requires AltInv(s) && Enabled(s, a) && (a.TakeId? ==> s.created == {})
    ensures CapacityOk(Apply(s, a))
  {
    hide AltInv, Enabled, Apply, CapacityOk;
    if a.Take? || IsExecuteStep(a) {
      CapacityKeptByTile(s, a);
    } else {
      CapacityKeptByC0(s, a);
    }
  }

  lemma OrderKeptByTile(s: St, a: Action)
    requires AltInv(s) && Enabled(s, a) && (a.Take? || IsExecuteStep(a))
    ensures OrderOk(Apply(s, a))
  {
    hide HistoryOk, CountersOk, LiveOk, BusyOk, CreatedOk, QueueingOk, CapacityOk;
  }

  lemma OrderKeptByCreate(s: St, a: Action)
    requires AltInv(s) && Enabled(s, a) && IsCreateStep(a) && (a.TakeId? ==> s.created == {})
    ensures OrderOk(Apply(s, a))
  {
    hide HistoryOk, CountersOk, LiveOk, BusyOk, CreatedOk, QueueingOk;
  }

  lemma OrderKeptByQueue(s: St, a: Action)
    requires AltInv(s) && Enabled(s, a) && !(a.Take? || IsExecuteStep(a) || IsCreateStep(a))
    ensures OrderOk(Apply(s, a))
  {
    hide HistoryOk, CountersOk, LiveOk, BusyOk, CreatedOk, QueueingOk;
  }

  lemma OrderKept(s: St, a: Action)
    requires AltInv(s) && Enabled(s, a) && (a.TakeId? ==> s.created == {})
    ensures OrderOk(Apply(s, a))
  {
    hide AltInv, Enabled, Apply, OrderOk;
    if a.Take? || IsExecuteStep(a) {
      OrderKeptByTile(s, a);
    } else if IsCreateStep(a) {
      OrderKeptByCreate(s, a);
    } else {
      OrderKeptByQueue(s, a);
    }
  }

  lemma {:induction false} AltInvHolds(s: St, run: seq<Action>)
    requires AltInv(s) && IsRun(s, run) && Alternates(s, run)
    ensures AltInv(After(s, run))
    decreases |run|
  {
    if run == [] {
    } else {
      AltStep(s, run[0]);
      AltInvHolds(Apply(s, run[0]), run[1..]);
    }
  }

  ghost predicate AltReachable(s: St) {
    exists start: St, run: seq<Action> ::
      AfterReset(start) && Quiescent(start) && IsRun(start, run) && Alternates(start, run) && s == After(start, run)
  }

  lemma AltReachableInv(s: St)
    requires AltReachable(s)
    ensures AltInv(s)
  {
    var start: St, run: seq<Action> :|
      AfterReset(start) && Quiescent(start) && IsRun(start, run) && Alternates(start, run) && s == After(start, run);
    QuiescentStart(start);
    AltInvHolds(start, run);
  }

  /** Creating the next task succeeds exactly while fewer than half the slots' worth of tasks are queued. */
  lemma CreateSucceedsIff(s: St)
    requires AltReachable(s) && s.c0.HaveId?
    ensures Apply(s, Reserve).c0.Reserved? <==> 2 * |s.queued| < |s.store|
  {
    AltReachableInv(s);
  }

  /** With 64 slots exactly 32 tasks fit. */
  lemma ThirtyTwoTasksFit(s: St)
    requires AltReachable(s) && |s.store| == 64 && s.c0.HaveId?
    ensures |s.queued| <= 32
    ensures Apply(s, Reserve).c0.Reserved? <==> |s.queued| < 32
  {
    AltReachableInv(s);
    QueuedFit(s);
  }

  lemma QueuedFit(s: St)
    requires AltReachable(s)
    ensures 2 * |s.queued| <= |s.store| + 1
  {
    AltReachableInv(s);
  }

  /** A tile always takes the oldest task waiting for it. */
  lemma TakesOldest(s: St, t: nat, i: nat, x: int)
    requires AltInv(s) && 1 <= t <= s.tiles && IsFirstLive(s.store, s.count, t, i)
    requires x in s.home && s.home[x].InSlot? && s.home[x].slot < |s.store| && s.store[s.home[x].slot].tile == t
    ensures s.store[i].id <= x
  {
  }
}
