/** Dispatch after any reset, also one that catches tiles in the middle of a task. */
module TaskResets {
  import opened Finite
  import opened TaskProtocol
  import opened TaskInvariant
  import opened TaskTheorems
  import opened TaskRuns

  // ---- what survives any reset ----

  ghost predicate IsLive(s: St, i: nat) {
    i < |s.store| && Live(s.tiles, s.store[i])
  }

  /** The parts of the state that tiles left over from before the reset cannot spoil. */
  ghost predicate Frame(s: St) {
    && s.tiles >= 1 && |s.phase| == s.tiles + 1 && s.phase[0].Polling? && s.count <= |s.store|
    && s.nextId >= 1 && 1 <= s.nextTile <= s.tiles
    && (forall t | 0 <= t <= s.tiles && !s.phase[t].Polling? :: s.phase[t].slot < |s.store|)
    && (forall i | s.count <= i < |s.store| :: s.store[i].id == 0 && !s.store[i].taken)
    && (forall i | 0 <= i < |s.store| :: 0 <= s.store[i].id < s.nextId)
    && (forall x | x in s.queued :: 0 < x < s.nextId)
  }

  /** A task C0 is making or has made, but not queued, has an id of its own and no tile. */
  ghost predicate FreshOk(s: St)
    requires Frame(s)
  {
    && (s.c0.HaveId? || s.c0.Reserved? || s.c0.Zeroed? || s.c0.Named? ==>
          && 0 < s.c0.id < s.nextId && s.c0.id !in s.queued
          && forall i | 0 <= i < |s.store| && s.store[i].id == s.c0.id :: s.c0.Named? && i == s.c0.slot)
    && (s.c0.Reserved? || s.c0.Zeroed? || s.c0.Named? ==> s.c0.slot < s.count && s.c0.slot !in s.created)
    && (s.c0.Reserved? || s.c0.Zeroed? ==> s.store[s.c0.slot].id == 0)
    && (s.c0.Reserved? || s.c0.Zeroed? || s.c0.Named? ==> !s.store[s.c0.slot].taken)
    && (s.c0.Zeroed? || s.c0.Named? ==> s.store[s.c0.slot].tile == 0)
    && (s.c0.Named? ==> s.store[s.c0.slot].id == s.c0.id)
    && (forall o | o in s.created ::
          && o < s.count && s.store[o].id > 0 && s.store[o].tile == -1 && !s.store[o].taken
          && s.store[o].id !in s.queued
          && forall o' | o' in s.created && o' < s.count && s.store[o'].id == s.store[o].id :: o' == o)
  }

  /** Every queued id can be taken from at most one slot, and only while it has not been started. */
  ghost predicate OnceOk(s: St)
    requires Frame(s)
  {
    && (forall i: nat | IsLive(s, i) :: s.store[i].id in s.queued && s.store[i].id !in s.started)
    && (forall i: nat, j: nat | IsLive(s, i) && IsLive(s, j) && s.store[i].id == s.store[j].id :: i == j)
    && NoRepeats(s.queued) && NoRepeats(s.started)
    && (forall x | x in s.started :: x in s.queued)
    && (s.c0.Assigned? || s.c0.Counted? ==> s.c0.slot < s.count && s.c0.slot !in s.created)
  }

  ghost predicate AnyResetInv(s: St) {
    Frame(s) && FreshOk(s) && OnceOk(s)
  }

  lemma AnyResetStart(s: St)
    requires AfterReset(s)
    ensures AnyResetInv(s)
  {
  }

  lemma FrameKept(s: St, a: Action)
    requires AnyResetInv(s) && Enabled(s, a)
    ensures Frame(Apply(s, a))
  {
    if a.Take? || IsExecuteStep(a) {
      FrameKeptByTile(s, a);
    } else {
      FrameKeptByC0(s, a);
    }
  }

  lemma FrameKeptByTile(s: St, a: Action)
    requires AnyResetInv(s) && Enabled(s, a) && (a.Take? || IsExecuteStep(a))
    ensures Frame(Apply(s, a))
  {
    hide OnceOk, FreshOk;
  }

  lemma FrameKeptByC0(s: St, a: Action)
    requires AnyResetInv(s) && Enabled(s, a) && !(a.Take? || IsExecuteStep(a))
    ensures Frame(Apply(s, a))
  {
    hide IsLive, NoRepeats;
  }

  lemma FreshKept(s: St, a: Action)
    requires AnyResetInv(s) && Enabled(s, a)
    ensures Frame(Apply(s, a)) && FreshOk(Apply(s, a))
  {
    FrameKept(s, a);
    if a.Take? || IsExecuteStep(a) {
      FreshKeptByTile(s, a);
    } else if IsCreateStep(a) {
      FreshKeptByCreate(s, a);
    } else {
      FreshKeptByQueue(s, a);
    }
  }

  lemma FreshKeptByTile(s: St, a: Action)
    requires AnyResetInv(s) && Enabled(s, a) && Frame(Apply(s, a)) && (a.Take? || IsExecuteStep(a))
    ensures FreshOk(Apply(s, a))
  {
    hide OnceOk;
  }

  lemma FreshKeptByCreate(s: St, a: Action)
    requires AnyResetInv(s) && Enabled(s, a) && Frame(Apply(s, a)) && IsCreateStep(a)
    ensures FreshOk(Apply(s, a))
  {
    hide OnceOk;
  }

  lemma FreshKeptByQueue(s: St, a: Action)
    requires AnyResetInv(s) && Enabled(s, a) && Frame(Apply(s, a))
    requires !(a.Take? || IsExecuteStep(a) || IsCreateStep(a))
    ensures FreshOk(Apply(s, a))
  {
    hide IsLive, NoRepeats;
  }

  // ---- how the live slots change ----

  predicate ChangesLive(a: Action) {
    a.Take? || a.Assign? || a.Copy?
  }

  /** Apart from taking, assigning and copying, slots only stop being live. */
  lemma LiveOnlyShrinks(s: St, a: Action, i: nat)
    requires AnyResetInv(s) && Enabled(s, a) && !ChangesLive(a) && IsLive(Apply(s, a), i)
    ensures IsLive(s, i) && Apply(s, a).store[i].id == s.store[i].id
  {
    hide OnceOk;
  }

  lemma OthersKeepHistory(s: St, a: Action)
    requires AnyResetInv(s) && Enabled(s, a) && !ChangesLive(a)
    ensures
      var s' := Apply(s, a);
      && s'.queued == s.queued && s'.started == s.started && |s'.store| == |s.store|
      && (s'.c0.Assigned? || s'.c0.Counted? ==> s'.c0.slot < s'.count && s'.c0.slot !in s'.created)
  {
    hide IsLive, NoRepeats;
  }

  lemma OnceKeptByOthers(s: St, a: Action)
    requires AnyResetInv(s) && Enabled(s, a) && Frame(Apply(s, a)) && !ChangesLive(a)
    ensures OnceOk(Apply(s, a))
  {
    var s' := Apply(s, a);
    OthersKeepHistory(s, a);
    forall i: nat | IsLive(s', i) ensures i < |s.store| && IsLive(s, i) && s'.store[i].id == s.store[i].id {
      LiveOnlyShrinks(s, a, i);
    }
    hide IsLive, NoRepeats, FreshOk, Frame, Apply, Enabled;
  }

  /** The slot taken stops being live; nothing else changes. */
  lemma LiveAfterTake(s: St, t: nat) returns (taken: nat)
    requires AnyResetInv(s) && Enabled(s, Take(t))
    ensures IsLive(s, taken)
    ensures
      var s' := Apply(s, Take(t));
      && s'.started == s.started + [s.store[taken].id] && s'.queued == s.queued && |s'.store| == |s.store|
      && (forall i: nat :: IsLive(s', i) <==> IsLive(s, i) && i != taken)
      && (forall i | 0 <= i < |s.store| :: s'.store[i].id == s.store[i].id)
      && s'.c0 == s.c0 && s'.count == s.count && s'.created == s.created
  {
    hide OnceOk, FreshOk;
    var s' := Apply(s, Take(t));
    taken :| IsFirstLive(s.store, s.count, t, taken) && s'.phase[t] == Running(taken);
  }

  lemma OnceKeptByTake(s: St, t: nat)
    requires AnyResetInv(s) && Enabled(s, Take(t)) && Frame(Apply(s, Take(t)))
    ensures OnceOk(Apply(s, Take(t)))
  {
    var k := LiveAfterTake(s, t);
    hide IsLive, FreshOk, Apply, Enabled;
  }

  lemma OnceKeptByAssign(s: St, o: nat)
    requires AnyResetInv(s) && Enabled(s, Assign(o)) && Frame(Apply(s, Assign(o)))
    ensures OnceOk(Apply(s, Assign(o)))
  {
    var s' := Apply(s, Assign(o));
    forall i: nat | i != o ensures IsLive(s', i) == IsLive(s, i) {
    }
    assert !IsLive(s, o);
    hide IsLive;
  }

  /** The copy is live in place of the original. */
  lemma LiveAfterCopy(s: St)
    requires AnyResetInv(s) && Enabled(s, Copy)
    ensures
      var s', c := Apply(s, Copy), s.count;
      && s'.queued == s.queued && s'.started == s.started && |s'.store| == |s.store|
      && (c >= |s.store| ==> forall i: nat :: IsLive(s', i) <==> IsLive(s, i))
      && (c < |s.store| ==> !IsLive(s, c))
      && (c < |s.store| ==> forall i: nat ::
            IsLive(s', i) <==> if i == c then IsLive(s, s.c0.slot) else IsLive(s, i) && i != s.c0.slot)
  {
    hide FreshOk, NoRepeats;
  }

  lemma IdsAfterCopy(s: St)
    requires AnyResetInv(s) && Enabled(s, Copy)
    ensures forall i | 0 <= i < |s.store| ::
      Apply(s, Copy).store[i].id == s.store[if i == s.count then s.c0.slot else i].id
    ensures Apply(s, Copy).c0.Idle?
  {
    hide FreshOk, NoRepeats, IsLive;
  }

  lemma OnceKeptByCopy(s: St)
    requires AnyResetInv(s) && Enabled(s, Copy) && Frame(Apply(s, Copy))
    ensures OnceOk(Apply(s, Copy))
  {
    LiveAfterCopy(s);
    IdsAfterCopy(s);
    InStore(s);
    InStore(Apply(s, Copy));
    hide IsLive, FreshOk, NoRepeats, Apply, Enabled;
  }

  lemma InStore(s: St)
    ensures forall i: nat | IsLive(s, i) :: i < |s.store|
  {
  }

  lemma OnceKept(s: St, a: Action)
    requires AnyResetInv(s) && Enabled(s, a)
    ensures Frame(Apply(s, a)) && OnceOk(Apply(s, a))
  {
    FrameKept(s, a);
    hide Apply, Enabled, Frame, FreshOk, OnceOk;
    match a {
      case Take(t) => OnceKeptByTake(s, t);
      case Assign(o) => OnceKeptByAssign(s, o);
      case Copy => OnceKeptByCopy(s);
      case _ => OnceKeptByOthers(s, a);
    }
  }

  lemma AnyResetStep(s: St, a: Action)
    requires AnyResetInv(s) && Enabled(s, a)
    ensures AnyResetInv(Apply(s, a))
  {
    FreshKept(s, a);
    OnceKept(s, a);
    hide Apply, Enabled, Frame, FreshOk, OnceOk;
  }

  lemma {:induction false} AnyResetHolds(s: St, run: seq<Action>)
    requires AnyResetInv(s) && IsRun(s, run)
    ensures AnyResetInv(After(s, run))
    decreases |run|
  {
    hide Apply, Enabled, AnyResetInv;
    if run == [] {
    } else {
      AnyResetStep(s, run[0]);
      AnyResetHolds(Apply(s, run[0]), run[1..]);
    }
  }

  // ---- never twice, from any reset ----

  /** Where a queued task is: in a slot that a tile will take, or among the tasks taken. */
  ghost function Places(s: St, id: int): nat {
    |LiveSlots(s, id)| + TimesStarted(s.started, id)
  }

  lemma PlacesAtMost(s: St, id: int)
    requires AnyResetInv(s)
    ensures Places(s, id) <= if id in s.queued then 1 else 0
    ensures Places(s, id) == 0 <==> id !in s.started && forall i: nat | IsLive(s, i) :: s.store[i].id != id
  {
    TimesStartedOf(s.started, id);
    hide FreshOk;
    if i: nat :| IsLive(s, i) && s.store[i].id == id {
      assert LiveSlots(s, id) == {i};
    } else {
      assert LiveSlots(s, id) == {};
    }
  }

  /** Whatever the tiles were doing at the reset, no interleaving runs a task twice. */
  lemma NeverTwice(s: St, run: seq<Action>, id: int)
    requires AfterReset(s) && IsRun(s, run)
    ensures Places(After(s, run), id) <= if id in After(s, run).queued then 1 else 0
  {
    AnyResetStart(s);
    AnyResetHolds(s, run);
    PlacesAtMost(After(s, run), id);
  }

  // ---- a lost task stays lost ----

  ghost predicate Lost(s: St, id: int) {
    id in s.queued && Places(s, id) == 0
  }

  lemma LostByStep(s: St, a: Action, id: int)
    requires AnyResetInv(s) && Enabled(s, a) && Lost(s, id)
    ensures Lost(Apply(s, a), id)
  {
    var s' := Apply(s, a);
    AnyResetStep(s, a);
    PlacesAtMost(s, id);
    PlacesAtMost(s', id);
    hide Places, AnyResetInv, IsLive, Apply, Enabled;
    match a {
      case Take(t) => LostByTake(s, t, id);
      case Assign(o) => LostByAssign(s, o, id);
      case Copy => LostByCopy(s, id);
      case _ => LostByOthers(s, a, id);
    }
  }

  lemma LostByOthers(s: St, a: Action, id: int)
    requires AnyResetInv(s) && Enabled(s, a) && !ChangesLive(a) && id in s.queued
    requires forall i: nat | IsLive(s, i) :: s.store[i].id != id
    ensures forall i: nat | IsLive(Apply(s, a), i) :: Apply(s, a).store[i].id != id
    ensures Apply(s, a).started == s.started && id in Apply(s, a).queued
  {
    var s' := Apply(s, a);
    assert s'.queued == s.queued && s'.started == s.started;
    hide FreshOk, OnceOk, Frame, IsLive;
    forall i: nat | IsLive(s', i) ensures s'.store[i].id != id {
      LiveOnlyShrinks(s, a, i);
    }
  }

  lemma LostByTake(s: St, t: nat, id: int)
    requires AnyResetInv(s) && Enabled(s, Take(t)) && id in s.queued && id !in s.started
    requires forall i: nat | IsLive(s, i) :: s.store[i].id != id
    ensures forall i: nat | IsLive(Apply(s, Take(t)), i) :: Apply(s, Take(t)).store[i].id != id
    ensures id !in Apply(s, Take(t)).started && id in Apply(s, Take(t)).queued
  {
    var taken := LiveAfterTake(s, t);
    InStore(s);
    hide FreshOk, OnceOk, Frame, IsLive, Apply, Enabled;
  }

  lemma LostByAssign(s: St, o: nat, id: int)
    requires AnyResetInv(s) && Enabled(s, Assign(o)) && id in s.queued
    requires forall i: nat | IsLive(s, i) :: s.store[i].id != id
    ensures forall i: nat | IsLive(Apply(s, Assign(o)), i) :: Apply(s, Assign(o)).store[i].id != id
    ensures Apply(s, Assign(o)).started == s.started && id in Apply(s, Assign(o)).queued
  {
    hide OnceOk;
    forall i: nat | IsLive(Apply(s, Assign(o)), i) ensures Apply(s, Assign(o)).store[i].id != id {
      assert i != o ==> IsLive(s, i);
    }
  }

  lemma LostByCopy(s: St, id: int)
    requires AnyResetInv(s) && Enabled(s, Copy) && id in s.queued
    requires forall i: nat | IsLive(s, i) :: s.store[i].id != id
    ensures forall i: nat | IsLive(Apply(s, Copy), i) :: Apply(s, Copy).store[i].id != id
    ensures Apply(s, Copy).started == s.started && id in Apply(s, Copy).queued
  {
    hide FreshOk;
    var s' := Apply(s, Copy);
    forall i: nat | IsLive(s', i) ensures s'.store[i].id != id {
      assert IsLive(s, if i == s.count then s.c0.slot else i);
    }
  }

  /** No continuation ever takes it. */
  lemma {:induction false} LostForEver(s: St, run: seq<Action>, id: int)
    requires AnyResetInv(s) && IsRun(s, run) && Lost(s, id)
    ensures Lost(After(s, run), id)
    decreases |run|
  {
    hide Apply, Enabled, AnyResetInv, Lost;
    if run == [] {
    } else {
      AnyResetStep(s, run[0]);
      LostByStep(s, run[0], id);
      LostForEver(Apply(s, run[0]), run[1..], id);
    }
  }

  // ---- none lost, when every tile is past its writes to the store ----

  /** The tile has no write to its slot left to do. */
  predicate PastSlot(p: Phase) {
    p.Polling? || p.Marked?
  }

  ghost predicate SettledAtReset(s: St) {
    forall t | 0 <= t < |s.phase| :: PastSlot(s.phase[t])
  }

  /** Tiles write only to slots that were taken, and what C0 has created can still be taken. */
  ghost predicate SlotsOwned(s: St) {
    && (forall t | 0 <= t < |s.phase| && !PastSlot(s.phase[t]) ::
          s.phase[t].slot < s.count <= |s.store| && s.store[s.phase[t].slot].taken)
    && (s.c0.Zeroed? || s.c0.Named? ==> s.c0.slot < |s.store| && !s.store[s.c0.slot].completed)
    && (forall o | o in s.created :: o < |s.store| && !s.store[o].completed)
  }

  ghost predicate NoneLost(s: St) {
    forall x | x in s.queued :: x in s.started || exists i: nat :: IsLive(s, i) && s.store[i].id == x
  }

  ghost predicate SettledInv(s: St) {
    AnyResetInv(s) && SlotsOwned(s) && NoneLost(s)
  }

  lemma SlotsOwnedByTile(s: St, a: Action)
    requires SettledInv(s) && Enabled(s, a) && (a.Take? || IsExecuteStep(a))
    ensures SlotsOwned(Apply(s, a))
  {
    hide OnceOk, NoneLost;
  }

  lemma SlotsOwnedByC0(s: St, a: Action)
    requires SettledInv(s) && Enabled(s, a) && !(a.Take? || IsExecuteStep(a))
    ensures SlotsOwned(Apply(s, a))
  {
    hide IsLive, NoRepeats, NoneLost;
  }

  /** Apart from taking, assigning and copying, live slots stay live: nobody marks or clears them. */
  lemma LiveStaysLive(s: St, a: Action, i: nat)
    requires AnyResetInv(s) && SlotsOwned(s) && Enabled(s, a) && !ChangesLive(a) && IsLive(s, i)
    ensures IsLive(Apply(s, a), i) && Apply(s, a).store[i].id == s.store[i].id
  {
    hide NoRepeats;
  }

  lemma NoneLostByOthers(s: St, a: Action)
    requires SettledInv(s) && Enabled(s, a) && !ChangesLive(a)
    ensures NoneLost(Apply(s, a))
  {
    var s' := Apply(s, a);
    assert s'.queued == s.queued && s'.started == s.started;
    hide IsLive, FreshOk, OnceOk, Frame;
    forall x | x in s'.queued ensures x in s'.started || exists i: nat :: IsLive(s', i) && s'.store[i].id == x {
      if x !in s.started {
        var i: nat :| IsLive(s, i) && s.store[i].id == x;
        LiveStaysLive(s, a, i);
      }
    }
  }

  lemma NoneLostByTake(s: St, t: nat)
    requires SettledInv(s) && Enabled(s, Take(t))
    ensures NoneLost(Apply(s, Take(t)))
  {
    var s' := Apply(s, Take(t));
    var taken := LiveAfterTake(s, t);
    InStore(s);
    hide IsLive, FreshOk, OnceOk, Frame, Apply, Enabled;
    forall x | x in s'.queued ensures x in s'.started || exists i: nat :: IsLive(s', i) && s'.store[i].id == x {
      if x !in s'.started {
        var i: nat :| IsLive(s, i) && s.store[i].id == x;
        assert IsLive(s', i);
      }
    }
  }

  lemma NoneLostByAssign(s: St, o: nat)
    requires SettledInv(s) && Enabled(s, Assign(o))
    ensures NoneLost(Apply(s, Assign(o)))
  {
    var s' := Apply(s, Assign(o));
    hide OnceOk;
    assert IsLive(s', o);
    forall x | x in s'.queued ensures x in s'.started || exists i: nat :: IsLive(s', i) && s'.store[i].id == x {
      if x in s.queued && x !in s.started {
        var i: nat :| IsLive(s, i) && s.store[i].id == x;
        assert IsLive(s', i);
      }
    }
  }

  lemma NoneLostByCopy(s: St)
    requires SettledInv(s) && Enabled(s, Copy)
    ensures NoneLost(Apply(s, Copy))
  {
    var s' := Apply(s, Copy);
    hide FreshOk, NoRepeats;
    forall x | x in s'.queued ensures x in s'.started || exists i: nat :: IsLive(s', i) && s'.store[i].id == x {
      if x !in s.started {
        var i: nat :| IsLive(s, i) && s.store[i].id == x;
        assert IsLive(s', if i == s.c0.slot && s.count < |s.store| then s.count else i);
      }
    }
  }

  lemma SettledStep(s: St, a: Action)
    requires SettledInv(s) && Enabled(s, a)
    ensures SettledInv(Apply(s, a))
  {
    hide Apply, Enabled, AnyResetInv, SlotsOwned, NoneLost;
    AnyResetStep(s, a);
    if a.Take? || IsExecuteStep(a) {
      SlotsOwnedByTile(s, a);
    } else {
      SlotsOwnedByC0(s, a);
    }
    match a {
      case Take(t) => NoneLostByTake(s, t);
      case Assign(o) => NoneLostByAssign(s, o);
      case Copy => NoneLostByCopy(s);
      case _ => NoneLostByOthers(s, a);
    }
  }

  lemma {:induction false} SettledHolds(s: St, run: seq<Action>)
    requires SettledInv(s) && IsRun(s, run)
    ensures SettledInv(After(s, run))
    decreases |run|
  {
    hide Apply, Enabled, SettledInv;
    if run == [] {
    } else {
      SettledStep(s, run[0]);
      SettledHolds(Apply(s, run[0]), run[1..]);
    }
  }

  lemma SettledStart(s: St)
    requires AfterReset(s) && SettledAtReset(s)
    ensures SettledInv(s)
  {
    AnyResetStart(s);
  }

  // ---- a straggler loses a task ----

  /** The tile's remaining writes up to its result. */
  lemma ReachRecorded(s: St, t: nat) returns (run: seq<Action>)
    requires IsTile(s, t) && !PastSlot(s.phase[t]) && s.phase[t].slot < |s.store|
    ensures IsRun(s, run) && NoIrq(run)
    ensures After(s, run).phase == s.phase[t := Recorded(s.phase[t].slot)]
    ensures SameForC0(s, After(s, run)) && After(s, run).started == s.started
  {
    match s.phase[t] {
      case Running(_) =>
        run := [Store(t, 0), Record(t)];
        RunOfTwo(s, Store(t, 0), Record(t));
      case Stored(_, _) =>
        run := [Record(t)];
        ConsRun(s, Record(t), []);
      case Recorded(_) =>
        run := [];
    }
  }

  /** C0 creates `n` tasks while no tile moves. */
  lemma {:induction false} CreateMany(s: St, n: nat) returns (run: seq<Action>)
    requires s.c0.Idle? && s.count + n <= |s.store|
    ensures IsRun(s, run) && NoIrq(run)
    ensures
      var end := After(s, run);
      && end.c0.Idle? && end.phase == s.phase && end.tiles == s.tiles && |end.store| == |s.store|
      && end.queued == s.queued && end.started == s.started && s.created <= end.created
      && end.count == s.count + n
      && forall i | s.count <= i < s.count + n :: i in end.created
    decreases n
  {
    if n == 0 {
      run := [];
    } else {
      var first := CreateOne(s);
      var rest := CreateMany(After(s, first), n - 1);
      AppendRuns(s, first, rest);
      run := first + rest;
    }
  }

  /**
    If some tile still has to mark its slot when the store is cleared, an interrupt-free run lets the mark hit a
    new task in that slot: it is queued, and no tile ever takes it.
  */
  lemma StragglerLosesTask(s: St) returns (run: seq<Action>, id: int)
    requires AfterReset(s) && !SettledAtReset(s)
    ensures IsRun(s, run) && NoIrq(run) && Lost(After(s, run), id)
    ensures forall more: seq<Action> | IsRun(After(s, run), more) :: id !in After(After(s, run), more).started
  {
    var t: nat :| t < |s.phase| && !PastSlot(s.phase[t]);
    var k := s.phase[t].slot;
    var r1 := ReachRecorded(s, t);
    var s1 := After(s, r1);
    var r2 := CreateMany(s1, k + 1);
    var s2 := After(s1, r2);
    AppendRuns(s, r1, r2);
    RunOfTwo(s2, Mark(t), Assign(k));
    AppendRuns(s, r1 + r2, [Mark(t), Assign(k)]);
    run := r1 + r2 + [Mark(t), Assign(k)];
    var end := After(s2, [Mark(t), Assign(k)]);
    id := end.store[k].id;
    AnyResetStart(s);
    AnyResetHolds(s, r1 + r2);
    AnyResetHolds(s, run);
    MarkedIsLost(s2, t, k);
    forall more: seq<Action> | IsRun(end, more) ensures id !in After(end, more).started {
      LostForEver(end, more, id);
      AnyResetHolds(end, more);
      PlacesAtMost(After(end, more), id);
    }
  }

  lemma MarkedIsLost(s: St, t: nat, k: nat)
    requires AnyResetInv(s) && s.c0.Idle? && IsTile(s, t) && s.phase[t] == Recorded(k) && k in s.created
    requires s.queued == [] && s.started == []
    ensures Enabled(s, Mark(t)) && Enabled(Apply(s, Mark(t)), Assign(k))
    ensures
      var end := Apply(Apply(s, Mark(t)), Assign(k));
      Lost(end, end.store[k].id)
  {
    var end := Apply(Apply(s, Mark(t)), Assign(k));
    AnyResetStep(s, Mark(t));
    AnyResetStep(Apply(s, Mark(t)), Assign(k));
    PlacesAtMost(end, end.store[k].id);
    assert !IsLive(end, k);
    forall i: nat | i != k ensures !IsLive(end, i) {
      assert !IsLive(s, i);
    }
  }

  /**
    From any reset: every queued task is, in every interleaving and at every moment, in exactly one place
    exactly when at the reset no tile had a write to its slot left to do.
  */
  lemma ExactlyOnceIff(s: St)
    requires AfterReset(s)
    ensures
      (forall run, id | IsRun(s, run) :: Places(After(s, run), id) == if id in After(s, run).queued then 1 else 0) <==>
      SettledAtReset(s)
  {
    if SettledAtReset(s) {
      SettledStart(s);
      forall run, id | IsRun(s, run)
        ensures Places(After(s, run), id) == if id in After(s, run).queued then 1 else 0
      {
        SettledHolds(s, run);
        PlacesAtMost(After(s, run), id);
      }
    } else {
      var run, id := StragglerLosesTask(s);
      assert Places(After(s, run), id) != if id in After(s, run).queued then 1 else 0;
    }
  }
}
