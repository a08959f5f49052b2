/** The shared task store and counters in place: each function of C0 and of a tile performs its protocol steps. */
module TaskStore {
  import opened TaskProtocol
  import opened TaskRuns
  import opened TaskTheorems

  class Dispatcher {
    const tiles: nat              // node_count - 1
    const storage: array<Slot>    // hal_task_storage
    var count: nat                // hal_task_storage_count
    var nextId: int
    var nextTile: nat
    var active: int
    var completed: int
    var results: map<int, int>    // what the result pointer of each task points to, by task id

    constructor (tiles: nat, capacity: nat)
      requires tiles >= 1
      ensures fresh(storage) && storage.Length == capacity && this.tiles == tiles
      ensures forall i | 0 <= i < capacity :: storage[i] == ZERO_SLOT
      ensures count == 0 && nextId == 1 && nextTile == 1 && active == 0 && completed == 0 && results == map[]
    {
      this.tiles := tiles;
      storage := new Slot[capacity](_ => ZERO_SLOT);
      count, nextId, nextTile, active, completed, results := 0, 1, 1, 0, 0, map[];
    }

    /** The memory agrees with protocol state `s`. */
    ghost predicate Holds(s: St)
      reads this, storage
    {
      && s.tiles == tiles && s.store == storage[..] && s.count == count
      && s.nextId == nextId && s.nextTile == nextTile && s.active == active && s.completed == completed
      && s.results == results
    }

    /** The resets at the head of c0_run_hal_tests_distributed, and its fresh table of results. */
    method Reset()
      requires count <= storage.Length
      modifies this`count, this`active, this`completed, this`results, storage
      ensures count == 0 && active == 0 && completed == 0 && results == map[]
      ensures forall i | 0 <= i < storage.Length :: storage[i] == Slot(0, 0, false, false, 0)
    {
      results := map[];
      count := 0;
      for i := 0 to storage.Length
        invariant count == 0 && results == map[] && forall j | 0 <= j < i :: storage[j] == ZERO_SLOT
      {
        storage[i] := ZERO_SLOT;
      }
      completed, active := 0, 0;
    }

    /** create_hal_test_task: -1 stands for the NULL returned when the store is full. */
    method Create(ghost s: St) returns (slot: int, ghost s': St)
      requires Holds(s) && s.c0.Idle?
      modifies this`count, this`nextId, storage
      ensures slot == -1 <==> old(count) >= storage.Length
      ensures slot == -1 ==> count == old(count) && storage[..] == old(storage[..])
      ensures slot != -1 ==> slot == old(count) && count == old(count) + 1
      ensures slot != -1 ==> storage[..] == old(storage[..])[slot := Slot(old(nextId), -1, false, false, 0)]
      ensures nextId == old(nextId) + 1
      ensures IsRun(s, CreateRun(slot)) && s' == After(s, CreateRun(slot)) && Holds(s')
      ensures slot != -1 ==> slot in s'.created
    {
      hide Live, LiveFor, IsFirstLive, NextTile, IsRun, After;
      var id := nextId;
      nextId := nextId + 1;
      ghost var s1 := Apply(s, TakeId);
      ghost var s2 := Apply(s1, Reserve);
      if count >= storage.Length {
        slot, s' := -1, s2;
        RunOfTwo(s, TakeId, Reserve);
        return;
      }
      slot := count;
      count := count + 1;
      storage[slot] := ZERO_SLOT;
      ghost var s3 := Apply(s2, Zero);
      storage[slot] := storage[slot].(id := id);
      ghost var s4 := Apply(s3, Name);
      storage[slot] := storage[slot].(tile := -1);
      s' := Apply(s4, Unassign);
      RunOfTwo(s, TakeId, Reserve);
      RunOfThree(s2, Zero, Name, Unassign);
      AppendRuns(s, [TakeId, Reserve], [Zero, Name, Unassign]);
      assert CreateRun(slot) == [TakeId, Reserve] + [Zero, Name, Unassign];
    }

    /** queue_task_to_available_tile for a task created before. */
    method Queue(slot: nat, ghost s: St) returns (ghost s': St)
      requires Holds(s) && s.c0.Idle? && slot in s.created && slot < storage.Length && count <= storage.Length
      modifies this`count, this`nextTile, this`active, storage
      ensures nextTile == (if old(nextTile) >= tiles then 1 else old(nextTile) + 1) && active == old(active) + 1
      ensures
        var before := old(storage[..]);
        var task := before[slot].(tile := old(nextTile));
        if old(count) < storage.Length then
          && count == old(count) + 1
          && storage[..] == before[old(count) := task][slot := task.(taken := true, tile := -999)]
        else
          count == old(count) && storage[..] == before[slot := task]
      ensures IsRun(s, [Assign(slot), Count, Copy]) && s' == After(s, [Assign(slot), Count, Copy]) && Holds(s')
    {
      hide Apply, Enabled, IsRun, After, Live;
      QueueRun(s, slot);
      var target := nextTile;
      nextTile := nextTile + 1;
      if nextTile >= tiles + 1 {
        nextTile := 1;
      }
      storage[slot] := storage[slot].(tile := target);
      active := active + 1;
      if count < storage.Length {
        storage[count] := storage[slot];
        storage[slot] := storage[slot].(taken := true);
        storage[slot] := storage[slot].(tile := INVALID_TILE);
        count := count + 1;
      }
      s' := After(s, [Assign(slot), Count, Copy]);
    }

    /** tile_get_next_task: -1 stands for NULL, when no slot is waiting for the tile. */
    method GetNextTask(tile: nat, ghost s: St) returns (found: int, ghost s': St)
      requires Holds(s) && IsTile(s, tile) && s.phase[tile].Polling? && count <= storage.Length
      modifies storage
      ensures -1 <= found < count
      ensures
        var before := old(storage[..]);
        var waits := i requires 0 <= i < |before| =>
          before[i].tile == tile && !before[i].completed && !before[i].taken && before[i].id > 0;
        if found >= 0 then
          && waits(found) && (forall j | 0 <= j < found :: !waits(j))
          && storage[..] == before[found := before[found].(taken := true, tile := -999)]
        else
          (forall j | 0 <= j < count :: !waits(j)) && storage[..] == before
      ensures found == -1 <==> !Enabled(s, Take(tile))
      ensures found == -1 ==> s' == s
      ensures found >= 0 ==> s' == Apply(s, Take(tile)) && s'.phase[tile] == Running(found)
      ensures Holds(s')
    {
      for i := 0 to count
        invariant Holds(s)
        invariant forall j | 0 <= j < i :: !LiveFor(storage[j], tile)
      {
        if storage[i].tile == tile && !storage[i].completed && !storage[i].taken && storage[i].id > 0 {
          assert IsFirstLive(s.store, s.count, tile, i);
          assert Enabled(s, Take(tile));
          s' := Apply(s, Take(tile));
          storage[i] := storage[i].(taken := true);
          storage[i] := storage[i].(tile := INVALID_TILE);
          found := i;
          return;
        }
      }
      found, s' := -1, s;
    }

    /** The writes of tile_execute_task and tile_complete_task after the test function returned `value`. */
    method Complete(tile: nat, slot: nat, value: int, ghost s: St) returns (ghost s': St)
      requires Holds(s) && IsTile(s, tile) && s.phase[tile] == Running(slot) && slot < storage.Length
      modifies this`active, this`completed, this`results, storage
      ensures storage[..] == old(storage[..])[slot := old(storage[slot]).(result := value, completed := true)]
      ensures results == old(results)[old(storage[slot]).id := value]
      ensures completed == old(completed) + 1 && active == old(active) - 1
      ensures IsRun(s, [Store(tile, value), Record(tile), Mark(tile), Bump(tile)])
      ensures s' == After(s, [Store(tile, value), Record(tile), Mark(tile), Bump(tile)]) && Holds(s')
    {
      hide Apply, Enabled, IsRun, After;
      CompleteRun(s, tile, value);
      results := results[storage[slot].id := value];
      storage[slot] := storage[slot].(result := value);
      storage[slot] := storage[slot].(completed := true);
      completed := completed + 1;
      active := active - 1;
      s' := After(s, [Store(tile, value), Record(tile), Mark(tile), Bump(tile)]);
    }

    /** One round of wait_for_all_tasks_completion: whether the call returns now, and what. */
    method PollWait(expected: int, ghost s: St) returns (over: bool, r: int)
      requires Holds(s)
      ensures expected <= 0 ==> over && r == -1
      ensures expected > 0 ==> r == 0 && (over <==> completed >= expected)
      ensures s.c0.Idle? && expected == |s.queued| > 0 ==> (over <==> WaitReturns(s))
    {
      if expected <= 0 {
        return true, -1;
      }
      over, r := completed >= expected, 0;
    }
  }

  /** The steps of one create call, by its outcome. */
  function CreateRun(slot: int): seq<Action> {
    if slot == -1 then [TakeId, Reserve] else [TakeId, Reserve, Zero, Name, Unassign]
  }

  /** The memory after a queue call. */
  lemma QueueRun(s: St, o: nat)
    requires s.c0.Idle? && o in s.created && o < |s.store| && s.count <= |s.store|
    ensures IsRun(s, [Assign(o), Count, Copy])
    ensures
      var s', task := After(s, [Assign(o), Count, Copy]), s.store[o].(tile := s.nextTile);
      && s'.tiles == s.tiles && s'.nextId == s.nextId && s'.nextTile == NextTile(s.tiles, s.nextTile)
      && s'.active == s.active + 1 && s'.completed == s.completed && s'.results == s.results
      && if s.count < |s.store| then
           s'.count == s.count + 1 && s'.store == s.store[o := task][s.count := task][o := Invalidate(task)]
         else
           s'.count == s.count && s'.store == s.store[o := task]
  {
    hide LiveFor, NextTile;
    RunOfThree(s, Assign(o), Count, Copy);
  }

  /** The memory after a task's completion. */
  lemma CompleteRun(s: St, t: nat, v: int)
    requires IsTile(s, t) && s.phase[t].Running? && s.phase[t].slot < |s.store|
    ensures IsRun(s, [Store(t, v), Record(t), Mark(t), Bump(t)])
    ensures
      var s', i := After(s, [Store(t, v), Record(t), Mark(t), Bump(t)]), s.phase[t].slot;
      && s'.tiles == s.tiles && s'.count == s.count && s'.nextId == s.nextId && s'.nextTile == s.nextTile
      && s'.store == s.store[i := s.store[i].(result := v, completed := true)]
      && s'.results == s.results[s.store[i].id := v]
      && s'.completed == s.completed + 1 && s'.active == s.active - 1
  {
    RunOfFour(s, Store(t, v), Record(t), Mark(t), Bump(t));
  }
}
