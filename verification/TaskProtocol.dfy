/** C0 and the polling tiles as one state machine: every locked section and every unlocked write is a step. */
module TaskProtocol {
  import opened Finite

  // ---- state ----

  const INVALID_TILE := -999

  datatype Slot = Slot(id: int, tile: int, completed: bool, taken: bool, result: int)

  const ZERO_SLOT := Slot(0, 0, false, false, 0)

  /** Where C0 is inside create_hal_test_task or queue_task_to_available_tile. */
  datatype C0Pc =
    | Idle
    | HaveId(id: int)                  // got a task id
    | Reserved(id: int, slot: nat)     // got a slot
    | Zeroed(id: int, slot: nat)       // after the memset
    | Named(id: int, slot: nat)        // after writing task_id
    | Assigned(slot: nat)              // after the unlocked write of assigned_tile
    | Counted(slot: nat)               // after active_tasks++

  /** Where a tile thread is; `slot` is the task pointer it holds. */
  datatype Phase =
    | Polling
    | Running(slot: nat)               // taken, test function not yet returned
    | Stored(slot: nat, value: int)    // after *result_ptr = result
    | Recorded(slot: nat)              // after task->result = result
    | Marked(slot: nat)                // after task->completed = true

  /** History: where each assigned task id currently is. */
  datatype Home = InSlot(slot: nat) | With(tile: nat) | Finished(ranOn: nat)

  datatype St = St(
    tiles: nat,                        // tile threads are 1..tiles
    store: seq<Slot>,                  // hal_task_storage
    count: nat,                        // hal_task_storage_count
    nextId: int,                       // next_task_id
    nextTile: nat,                     // next_tile
    active: int,                       // active_tasks
    completed: int,                    // completed_tasks
    c0: C0Pc,
    phase: seq<Phase>,                 // indexed by tile id
    // history
    created: set<nat>,                 // slots of created tasks not yet queued
    queued: seq<int>,                  // ids in the order of the queue calls
    home: map<int, Home>,
    started: seq<int>,                 // ids in the order tiles took them
    results: map<int, int>,            // what was stored through result_ptr
    irqs: nat,                         // increments of completed_tasks by interrupt handlers
    drops: nat)                        // decrements of active_tasks by interrupt handlers

  datatype Action =
    | TakeId | Reserve | Zero | Name | Unassign
    | Assign(slot: nat) | Count | Copy
    | Take(tile: nat) | Store(tile: nat, value: int) | Record(tile: nat) | Mark(tile: nat) | Bump(tile: nat)
    | Irq(taskComplete: bool)

  /** The test in tile_get_next_task. */
  predicate LiveFor(slot: Slot, tile: nat) {
    slot.tile == tile && !slot.completed && !slot.taken && slot.id > 0
  }

  predicate Live(tiles: nat, slot: Slot) {
    1 <= slot.tile <= tiles && LiveFor(slot, slot.tile)
  }

  /** The scan in tile_get_next_task finds slot `i` for `tile`. */
  predicate IsFirstLive(store: seq<Slot>, count: nat, tile: nat, i: nat) {
    && i < count <= |store|
    && LiveFor(store[i], tile)
    && forall j | 0 <= j < i :: !LiveFor(store[j], tile)
  }

  /** Marking a slot as taken, by a tile or when its copy is made. */
  function Invalidate(slot: Slot): Slot {
    slot.(taken := true, tile := INVALID_TILE)
  }

  function NextTile(tiles: nat, tile: nat): nat {
    if tile + 1 >= tiles + 1 then 1 else tile + 1
  }

  predicate IsTile(s: St, t: nat) {
    1 <= t <= s.tiles && t < |s.phase|
  }

  // ---- steps ----

  ghost predicate Enabled(s: St, a: Action) {
    match a
    case TakeId => s.c0.Idle?
    case Reserve => s.c0.HaveId?
    case Zero => s.c0.Reserved? && s.c0.slot < |s.store|
    case Name => s.c0.Zeroed? && s.c0.slot < |s.store|
    case Unassign => s.c0.Named? && s.c0.slot < |s.store|
    case Assign(o) => s.c0.Idle? && o in s.created && o < |s.store|
    case Count => s.c0.Assigned?
    case Copy => s.c0.Counted? && s.c0.slot < |s.store|
    case Take(t) => IsTile(s, t) && s.phase[t].Polling? && exists i :: IsFirstLive(s.store, s.count, t, i)
    case Store(t, _) => IsTile(s, t) && s.phase[t].Running? && s.phase[t].slot < |s.store|
    case Record(t) => IsTile(s, t) && s.phase[t].Stored? && s.phase[t].slot < |s.store|
    case Mark(t) => IsTile(s, t) && s.phase[t].Recorded? && s.phase[t].slot < |s.store|
    case Bump(t) => IsTile(s, t) && s.phase[t].Marked? && s.phase[t].slot < |s.store|
    case Irq(_) => true
  }

  ghost function Apply(s: St, a: Action): St
    requires Enabled(s, a)
  {
    match a
    case TakeId => s.(nextId := s.nextId + 1, c0 := HaveId(s.nextId))
    case Reserve =>
      if s.count >= |s.store| then s.(c0 := Idle)
      else s.(count := s.count + 1, c0 := Reserved(s.c0.id, s.count))
    case Zero => s.(store := s.store[s.c0.slot := ZERO_SLOT], c0 := Zeroed(s.c0.id, s.c0.slot))
    case Name =>
      s.(store := s.store[s.c0.slot := s.store[s.c0.slot].(id := s.c0.id)], c0 := Named(s.c0.id, s.c0.slot))
    case Unassign =>
      s.(store := s.store[s.c0.slot := s.store[s.c0.slot].(tile := -1)], c0 := Idle, created := s.created + {s.c0.slot})
    case Assign(o) =>
      s.(store := s.store[o := s.store[o].(tile := s.nextTile)],
         nextTile := NextTile(s.tiles, s.nextTile), c0 := Assigned(o), created := s.created - {o},
         queued := s.queued + [s.store[o].id], home := s.home[s.store[o].id := InSlot(o)])
    case Count => s.(active := s.active + 1, c0 := Counted(s.c0.slot))
    case Copy =>
      var o := s.c0.slot;
      if s.count >= |s.store| then s.(c0 := Idle)
      else
        s.(store := s.store[s.count := s.store[o]][o := Invalidate(s.store[o])],
           count := s.count + 1, c0 := Idle,
           home := if Live(s.tiles, s.store[o]) then s.home[s.store[o].id := InSlot(s.count)] else s.home)
    case Take(t) =>
      var i: nat :| IsFirstLive(s.store, s.count, t, i);
      s.(store := s.store[i := Invalidate(s.store[i])], phase := s.phase[t := Running(i)],
         home := s.home[s.store[i].id := With(t)], started := s.started + [s.store[i].id])
    case Store(t, r) =>
      var i := s.phase[t].slot;
      s.(phase := s.phase[t := Stored(i, r)], results := s.results[s.store[i].id := r])
    case Record(t) =>
      var i := s.phase[t].slot;
      s.(store := s.store[i := s.store[i].(result := s.phase[t].value)], phase := s.phase[t := Recorded(i)])
    case Mark(t) =>
      var i := s.phase[t].slot;
      s.(store := s.store[i := s.store[i].(completed := true)], phase := s.phase[t := Marked(i)])
    case Bump(t) =>
      s.(phase := s.phase[t := Polling], completed := s.completed + 1, active := s.active - 1,
         home := s.home[s.store[s.phase[t].slot].id := Finished(t)])
    case Irq(taskComplete) =>
      var drop := taskComplete && s.active > 0;
      s.(completed := s.completed + 1, irqs := s.irqs + 1,
         active := if drop then s.active - 1 else s.active, drops := if drop then s.drops + 1 else s.drops)
  }

  /** The state right after the resets at the head of the distributed run; tiles may be anywhere. */
  ghost predicate AfterReset(s: St) {
    && s.tiles >= 1 && |s.phase| == s.tiles + 1 && s.phase[0].Polling?
    && s.count == 0 && (forall i | 0 <= i < |s.store| :: s.store[i] == ZERO_SLOT)
    && s.nextId >= 1 && 1 <= s.nextTile <= s.tiles
    && s.active == 0 && s.completed == 0 && s.c0.Idle?
    && s.created == {} && s.queued == [] && s.home == map[] && s.started == [] && s.results == map[]
    && s.irqs == s.drops == 0
    && (forall t | 0 <= t <= s.tiles && !s.phase[t].Polling? :: s.phase[t].slot < |s.store|)
  }

  /** No task is in flight at the reset. */
  ghost predicate Quiescent(s: St) {
    forall t | 0 <= t < |s.phase| :: s.phase[t].Polling?
  }

  ghost predicate IsRun(s: St, run: seq<Action>)
    decreases |run|
  {
    run == [] || (Enabled(s, run[0]) && IsRun(Apply(s, run[0]), run[1..]))
  }

  ghost function After(s: St, run: seq<Action>): St
    requires IsRun(s, run)
    decreases |run|
  {
    if run == [] then s else After(Apply(s, run[0]), run[1..])
  }

  // ---- the invariant ----

  /** Slot id held by a busy tile. */
  function HeldId(s: St, t: nat): int
    requires t < |s.phase| && !s.phase[t].Polling? && s.phase[t].slot < |s.store|
  {
    s.store[s.phase[t].slot].id
  }

  ghost predicate Shape(s: St) {
    && s.tiles >= 1 && |s.phase| == s.tiles + 1 && s.phase[0].Polling?
    && s.count <= |s.store|
    && s.nextId >= 1 && 1 <= s.nextTile <= s.tiles
    && (forall i | s.count <= i < |s.store| :: s.store[i] == ZERO_SLOT)
    && (forall i | 0 <= i < |s.store| :: 0 <= s.store[i].id < s.nextId)
    && (forall x | x in s.home :: 0 < x < s.nextId)
    && (s.c0.HaveId? || s.c0.Reserved? || s.c0.Zeroed? || s.c0.Named? ==>
          && 0 < s.c0.id < s.nextId && s.c0.id !in s.home
          && forall i | 0 <= i < |s.store| && s.store[i].id == s.c0.id :: s.c0.Named? && i == s.c0.slot)
    && (s.c0.Reserved? || s.c0.Zeroed? || s.c0.Named? ==> s.c0.slot < s.count && s.c0.slot !in s.created)
    && (s.c0.Reserved? || s.c0.Zeroed? ==> s.store[s.c0.slot] == ZERO_SLOT)
    && (s.c0.Named? ==> s.store[s.c0.slot] == ZERO_SLOT.(id := s.c0.id))
  }

  /** Created tasks are waiting to be queued: nobody can take them, and their ids are their own. */
  ghost predicate CreatedOk(s: St)
    requires Shape(s)
  {
    forall o | o in s.created ::
      && o < s.count
      && s.store[o].id > 0 && s.store[o].tile == -1 && !s.store[o].taken && !s.store[o].completed
      && s.store[o].id !in s.home
      && forall o' | o' in s.created && o' < s.count && s.store[o'].id == s.store[o].id :: o' == o
  }

  /** A slot a tile would take is the one home of its id, and conversely. */
  ghost predicate LiveOk(s: St)
    requires Shape(s)
  {
    && (forall i | 0 <= i < |s.store| && Live(s.tiles, s.store[i]) ::
          s.store[i].id in s.home && s.home[s.store[i].id] == InSlot(i))
    && (forall x | x in s.home && s.home[x].InSlot? ::
          s.home[x].slot < s.count && s.store[s.home[x].slot].id == x && Live(s.tiles, s.store[s.home[x].slot]))
  }

  /** A task being queued is either still live in its original slot or already past it. */
  ghost predicate QueueingOk(s: St)
    requires Shape(s)
  {
    s.c0.Assigned? || s.c0.Counted? ==>
      && s.c0.slot < s.count && s.c0.slot !in s.created
      && s.store[s.c0.slot].id in s.home
      && (Live(s.tiles, s.store[s.c0.slot]) || s.store[s.c0.slot].taken)
  }

  /** Busy tiles and ids at home with a tile correspond one to one. */
  ghost predicate BusyOk(s: St)
    requires Shape(s)
  {
    && (forall t | 0 <= t <= s.tiles && !s.phase[t].Polling? ::
          && s.phase[t].slot < s.count && s.store[s.phase[t].slot].taken
          && HeldId(s, t) in s.home && s.home[HeldId(s, t)] == With(t))
    && (forall x | x in s.home && s.home[x].With? ::
          && 1 <= s.home[x].tile <= s.tiles && !s.phase[s.home[x].tile].Polling?
          && s.phase[s.home[x].tile].slot < s.count && HeldId(s, s.home[x].tile) == x)
  }

  /** The histories agree with the homes; results are there from the store through result_ptr on. */
  ghost predicate HistoryOk(s: St)
    requires Shape(s) && BusyOk(s)
  {
    && (forall x :: x in s.home <==> x in s.queued)
    && NoRepeats(s.queued)
    && (forall x :: x in s.started <==> x in s.home && !s.home[x].InSlot?)
    && NoRepeats(s.started)
    && (forall x | x in s.home && s.home[x].Finished? :: x in s.results)
    && (forall t | 0 <= t <= s.tiles && !s.phase[t].Polling? && !s.phase[t].Running? :: HeldId(s, t) in s.results)
  }

  ghost function FinishedIds(s: St): set<int> {
    set x | x in s.home && s.home[x].Finished?
  }

  /** Queue calls whose increment of active_tasks has happened. */
  ghost function CountedCalls(s: St): int {
    |s.queued| - if s.c0.Assigned? then 1 else 0
  }

  ghost predicate CountersOk(s: St) {
    && s.completed == |FinishedIds(s)| + s.irqs
    && s.active + |FinishedIds(s)| + s.drops == CountedCalls(s)
    && s.drops <= s.irqs
  }

  ghost predicate Inv(s: St) {
    Shape(s) && CreatedOk(s) && LiveOk(s) && QueueingOk(s) && BusyOk(s) && HistoryOk(s) && CountersOk(s)
  }
}
