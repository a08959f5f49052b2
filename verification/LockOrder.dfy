/** Threads taking the platform's mutexes in one global order: no deadlock, and every schedule finishes. */
module LockOrder {

  datatype LockOp = Acquire(lock: nat) | Release(lock: nat)

  const HAL := 2       // hal_mutex

  function Dest(d: nat): nat {  // destination_arbitration_locks[d], d < 16
    3 + d
  }

  predicate IsDest(lock: nat) {
    Dest(0) <= lock <= Dest(15)
  }

  predicate NoDest(held: set<nat>) {
    forall h | h in held :: !IsDest(h)
  }

  /**
    From held set `held`, the operations take locks only in increasing order, a destination lock only under
    hal_mutex and one at a time, and end holding `final`.
  */
  ghost predicate Ordered(held: set<nat>, ops: seq<LockOp>, final: set<nat>)
    decreases |ops|
  {
    if ops == [] then held == final
    else
      match ops[0]
      case Acquire(l) =>
        && (forall h | h in held :: h < l) && (IsDest(l) ==> HAL in held && NoDest(held))
        && Ordered(held + {l}, ops[1..], final)
      case Release(l) => l in held && (l == HAL ==> NoDest(held)) && Ordered(held - {l}, ops[1..], final)
  }

  // ---- threads and schedules ----

  /** What each thread has still to do, and who holds each locked mutex. */
  datatype Threads = Threads(todo: seq<seq<LockOp>>, owner: map<nat, nat>)

  ghost function HeldBy(s: Threads, t: nat): set<nat> {
    set l | l in s.owner && s.owner[l] == t
  }

  /** At most one destination lock, and only together with hal_mutex. */
  ghost predicate OneUnderHal(held: set<nat>) {
    && (forall l | l in held && IsDest(l) :: HAL in held)
    && (forall l, k | l in held && k in held && IsDest(l) && IsDest(k) :: l == k)
  }

  /** Every thread follows the order and will have released everything; only threads hold locks. */
  ghost predicate Inv(s: Threads) {
    && (forall t | 0 <= t < |s.todo| :: Ordered(HeldBy(s, t), s.todo[t], {}))
    && (forall t | 0 <= t < |s.todo| :: OneUnderHal(HeldBy(s, t)))
    && (forall l | l in s.owner :: s.owner[l] < |s.todo|)
  }

  ghost predicate CanMove(s: Threads, t: nat) {
    && t < |s.todo| && s.todo[t] != []
    && (s.todo[t][0].Acquire? ==> s.todo[t][0].lock !in s.owner)
  }

  ghost function Move(s: Threads, t: nat): Threads
    requires CanMove(s, t)
  {
    Threads(
      s.todo[t := s.todo[t][1..]],
      match s.todo[t][0]
      case Acquire(l) => s.owner[l := t]
      case Release(l) => s.owner - {l})
  }

  ghost predicate Done(s: Threads) {
    forall t | 0 <= t < |s.todo| :: s.todo[t] == []
  }

  lemma MoveKeepsInv(s: Threads, t: nat)
    requires Inv(s) && CanMove(s, t)
    ensures Inv(Move(s, t))
  {
    var s' := Move(s, t);
    var l := s.todo[t][0].lock;
    forall u | 0 <= u < |s'.todo| ensures Ordered(HeldBy(s', u), s'.todo[u], {}) && OneUnderHal(HeldBy(s', u)) {
      if u != t {
        assert s.todo[t][0].Release? ==> l in HeldBy(s, t);
        assert HeldBy(s', u) == HeldBy(s, u);
      } else if s.todo[t][0].Acquire? {
        assert HeldBy(s', t) == HeldBy(s, t) + {l};
      } else {
        assert HeldBy(s', t) == HeldBy(s, t) - {l};
      }
    }
  }

  /** Following who waits for whom from a blocked thread climbs the lock order, so it reaches a thread that can move. */
  lemma {:induction false} SomeoneMoves(s: Threads, t: nat, bound: nat) returns (u: nat)
    requires Inv(s) && t < |s.todo| && s.todo[t] != []
    requires forall l | l in s.owner :: l < bound
    ensures CanMove(s, u)
    decreases if s.todo[t][0].Acquire? && s.todo[t][0].lock < bound then bound - s.todo[t][0].lock else 0
  {
    if CanMove(s, t) {
      u := t;
    } else {
      var l := s.todo[t][0].lock;
      var v := s.owner[l];
      assert l in HeldBy(s, v);
      assert s.todo[v] != [];
      u := SomeoneMoves(s, v, bound);
    }
  }

  lemma {:induction false} Bound(locks: set<nat>) returns (bound: nat)
    ensures forall l | l in locks :: l < bound
  {
    if locks == {} {
      bound := 0;
    } else {
      var l :| l in locks;
      var b := Bound(locks - {l});
      bound := if l < b then b else l + 1;
      assert forall l' | l' in locks :: l' == l || l' in locks - {l};
    }
  }

  /** No deadlock: as long as some thread is not done, some thread can move. */
  lemma NoDeadlock(s: Threads)
    requires Inv(s) && !Done(s)
    ensures exists u :: CanMove(s, u)
  {
    var t: nat :| t < |s.todo| && s.todo[t] != [];
    var bound := Bound(s.owner.Keys);
    var u := SomeoneMoves(s, t, bound);
  }

  function Remaining(todo: seq<seq<LockOp>>): nat {
    if todo == [] then 0 else |todo[0]| + Remaining(todo[1..])
  }

  lemma {:induction false} RemainingUpdate(todo: seq<seq<LockOp>>, t: nat, ops: seq<LockOp>)
    requires t < |todo|
    ensures Remaining(todo[t := ops]) == Remaining(todo) - |todo[t]| + |ops|
  {
    if t == 0 {
      assert todo[t := ops][1..] == todo[1..];
    } else {
      RemainingUpdate(todo[1..], t - 1, ops);
      assert todo[t := ops][1..] == todo[1..][t - 1 := ops];
    }
  }

  ghost predicate IsSchedule(s: Threads, order: seq<nat>)
    decreases |order|
  {
    order == [] || (CanMove(s, order[0]) && IsSchedule(Move(s, order[0]), order[1..]))
  }

  ghost function AfterSchedule(s: Threads, order: seq<nat>): Threads
    requires IsSchedule(s, order)
    decreases |order|
  {
    if order == [] then s else AfterSchedule(Move(s, order[0]), order[1..])
  }

  /** Every schedule is at most as long as the remaining work, and one that cannot be extended is finished. */
  lemma {:induction false} EveryScheduleFinishes(s: Threads, order: seq<nat>)
    requires Inv(s) && IsSchedule(s, order)
    ensures |order| <= Remaining(s.todo)
    ensures Done(AfterSchedule(s, order)) || exists u :: CanMove(AfterSchedule(s, order), u)
    ensures Inv(AfterSchedule(s, order))
    decreases |order|
  {
    if order == [] {
      if !Done(s) {
        NoDeadlock(s);
      }
    } else {
      MoveKeepsInv(s, order[0]);
      RemainingUpdate(s.todo, order[0], s.todo[order[0]][1..]);
      EveryScheduleFinishes(Move(s, order[0]), order[1..]);
    }
  }

  // ---- the platform's mutexes, outermost first ----

  const PRINT := 0     // print_session_lock
  const STATS := 1     // stats_lock
  // HAL and Dest(0) to Dest(15) are 2 to 18
  const TASK_ID := 19  // task_id_lock
  const STORE := 20    // hal_task_storage_lock
  const PLATFORM := 21 // platform_lock
  function State(t: nat): nat { 22 + 3 * t }      // nodes[t].state_lock
  function TaskLock(i: nat): nat { 23 + 3 * i }   // hal_task_storage[i].task_lock
  function Banner(f: nat): nat { 24 + 3 * f }     // print_mutex of the f-th file of tests

  /** What a test locks: a HAL call through the NoC to destination `d` or without one, or a banner it prints. */
  datatype HalCall = Local | Remote(d: nat) | PrintBanner(f: nat)

  /** lock(l); body; unlock(l) */
  function Section(l: nat, body: seq<LockOp>): seq<LockOp> {
    [Acquire(l)] + body + [Release(l)]
  }

  function CallOps(call: HalCall): seq<LockOp> {
    match call
    case Local => Section(HAL, [])
    case Remote(d) => Section(HAL, Section(Dest(d), []))
    case PrintBanner(f) => Section(Banner(f), [])
  }

  function CallsOps(calls: seq<HalCall>): seq<LockOp> {
    if calls == [] then [] else CallOps(calls[0]) + CallsOps(calls[1..])
  }

  /** What a tile does in one round of its main loop: poll in vain, or run one task from slot `i`. */
  datatype Round = Poll | Run(i: nat, calls: seq<HalCall>)

  /** The locks of one round of tile_processor_main. */
  function RoundOps(t: nat, round: Round): seq<LockOp> {
    Section(STORE, []) +
    (match round
     case Poll => Section(State(t), [])
     case Run(i, calls) =>
       Section(State(t), []) + (Section(STATS, []) +
       (Section(PRINT, Section(STATS, []) + CallsOps(calls)) +
       (Section(TaskLock(i), []) + (Section(State(t), []) + (Section(PLATFORM, []) + Section(State(t), [])))))))
    + Section(State(t), [])
  }

  function TileOps(t: nat, rounds: seq<Round>): seq<LockOp> {
    if rounds == [] then [] else RoundOps(t, rounds[0]) + TileOps(t, rounds[1..])
  }

  /** A tile thread: it records its state and its statistics, then goes round. */
  function TileThread(t: nat, rounds: seq<Round>): seq<LockOp> {
    Section(State(t), []) + (Section(STATS, []) + TileOps(t, rounds))
  }

  /**
    What C0 locks: calls of its own tests, printing, supervising or stopping a tile, the resets, creating,
    queueing, one poll of the wait, an interrupt handler that counts, and the final report.
  */
  datatype C0Action =
    | Call(call: HalCall) | PrintLine | VisitTile(t: nat) | Reset
    | CreateTask | QueueTask | PollWait | CountInterrupt | Report

  function C0ActionOps(a: C0Action): seq<LockOp> {
    match a
    case Call(call) => CallOps(call)
    case PrintLine => Section(PRINT, [])
    case CreateTask => Section(TASK_ID, []) + Section(STORE, [])
    case QueueTask => Section(PLATFORM, []) + Section(STORE, [])
    case PollWait => Section(PLATFORM, [])
    case VisitTile(t) => Section(State(t), [])
    case Reset => Section(STORE, []) + Section(PLATFORM, [])
    case CountInterrupt => Section(PLATFORM, [])
    case Report => Section(STATS, [])
  }

  function C0Ops(actions: seq<C0Action>): seq<LockOp> {
    if actions == [] then [] else C0ActionOps(actions[0]) + C0Ops(actions[1..])
  }

  lemma {:induction false} OrderedAppend(a: set<nat>, p: seq<LockOp>, b: set<nat>, q: seq<LockOp>, c: set<nat>)
    requires Ordered(a, p, b) && Ordered(b, q, c)
    ensures Ordered(a, p + q, c)
    decreases |p|
  {
    if p == [] {
      assert p + q == q;
    } else {
      assert (p + q)[0] == p[0] && (p + q)[1..] == p[1..] + q;
      match p[0] {
        case Acquire(l) => OrderedAppend(a + {l}, p[1..], b, q, c);
        case Release(l) => OrderedAppend(a - {l}, p[1..], b, q, c);
      }
    }
  }

  lemma SectionOrdered(held: set<nat>, l: nat, body: seq<LockOp>)
    requires (forall h | h in held :: h < l) && Ordered(held + {l}, body, held + {l})
    requires (IsDest(l) ==> HAL in held) && NoDest(held)
    ensures Ordered(held, Section(l, body), held)
  {
    assert [Release(l)][1..] == [];
    assert held + {l} - {l} == held;
    assert Ordered(held + {l}, [Release(l)], held);
    OrderedAppend(held + {l}, body, held + {l}, [Release(l)], held);
    assert Section(l, body)[1..] == body + [Release(l)];
  }

  lemma EmptySection(held: set<nat>, l: nat)
    requires forall h | h in held :: h < l
    requires (IsDest(l) ==> HAL in held) && NoDest(held)
    ensures Ordered(held, Section(l, []), held)
  {
  }

  lemma CallOrdered(held: set<nat>, call: HalCall)
    requires forall h | h in held :: h < HAL
    ensures Ordered(held, CallOps(call), held)
  {
    match call {
      case Local => EmptySection(held, HAL);
      case Remote(d) =>
        EmptySection(held + {HAL}, Dest(d));
        SectionOrdered(held, HAL, Section(Dest(d), []));
      case PrintBanner(f) => EmptySection(held, Banner(f));
    }
  }

  lemma {:induction false} CallsOrdered(held: set<nat>, calls: seq<HalCall>)
    requires forall h | h in held :: h < HAL
    ensures Ordered(held, CallsOps(calls), held)
  {
    if calls == [] {
    } else {
      CallOrdered(held, calls[0]);
      CallsOrdered(held, calls[1..]);
      OrderedAppend(held, CallOps(calls[0]), held, CallsOps(calls[1..]), held);
    }
  }

  lemma RoundOrdered(t: nat, round: Round)
    ensures Ordered({}, RoundOps(t, round), {})
  {
    hide Section, CallsOps, Ordered;
    var state := Section(State(t), []);
    EmptySection({}, STORE);
    EmptySection({}, State(t));
    if round.Run? {
      EmptySection({}, STATS);
      EmptySection({}, PLATFORM);
      EmptySection({}, TaskLock(round.i));
      var session := Section(STATS, []) + CallsOps(round.calls);
      assert {} + {PRINT} == {PRINT};
      EmptySection({PRINT}, STATS);
      CallsOrdered({PRINT}, round.calls);
      OrderedAppend({PRINT}, Section(STATS, []), {PRINT}, CallsOps(round.calls), {PRINT});
      SectionOrdered({}, PRINT, session);
      var r1 := Section(PLATFORM, []) + state;
      OrderedAppend({}, Section(PLATFORM, []), {}, state, {});
      var r2 := state + r1;
      OrderedAppend({}, state, {}, r1, {});
      var r3 := Section(TaskLock(round.i), []) + r2;
      OrderedAppend({}, Section(TaskLock(round.i), []), {}, r2, {});
      var r4 := Section(PRINT, session) + r3;
      OrderedAppend({}, Section(PRINT, session), {}, r3, {});
      var r5 := Section(STATS, []) + r4;
      OrderedAppend({}, Section(STATS, []), {}, r4, {});
      OrderedAppend({}, state, {}, r5, {});
      OrderedAppend({}, Section(STORE, []), {}, state + r5, {});
      OrderedAppend({}, Section(STORE, []) + (state + r5), {}, state, {});
    } else {
      OrderedAppend({}, Section(STORE, []), {}, state, {});
      OrderedAppend({}, Section(STORE, []) + state, {}, state, {});
    }
  }

  lemma {:induction false} TileOrdered(t: nat, rounds: seq<Round>)
    ensures Ordered({}, TileOps(t, rounds), {})
  {
    if rounds == [] {
    } else {
      RoundOrdered(t, rounds[0]);
      TileOrdered(t, rounds[1..]);
      OrderedAppend({}, RoundOps(t, rounds[0]), {}, TileOps(t, rounds[1..]), {});
    }
  }

  lemma ThreadOrdered(t: nat, rounds: seq<Round>)
    ensures Ordered({}, TileThread(t, rounds), {})
  {
    hide Section, Ordered, TileOps;
    EmptySection({}, State(t));
    EmptySection({}, STATS);
    TileOrdered(t, rounds);
    OrderedAppend({}, Section(STATS, []), {}, TileOps(t, rounds), {});
    OrderedAppend({}, Section(State(t), []), {}, Section(STATS, []) + TileOps(t, rounds), {});
  }

  lemma C0ActionOrdered(a: C0Action)
    ensures Ordered({}, C0ActionOps(a), {})
  {
    hide Section, Ordered;
    EmptySection({}, PRINT);
    EmptySection({}, STATS);
    EmptySection({}, TASK_ID);
    EmptySection({}, STORE);
    EmptySection({}, PLATFORM);
    match a {
      case Call(call) => CallOrdered({}, call);
      case CreateTask => OrderedAppend({}, Section(TASK_ID, []), {}, Section(STORE, []), {});
      case QueueTask => OrderedAppend({}, Section(PLATFORM, []), {}, Section(STORE, []), {});
      case VisitTile(t) => EmptySection({}, State(t));
      case Reset => OrderedAppend({}, Section(STORE, []), {}, Section(PLATFORM, []), {});
      case _ =>
    }
  }

  lemma {:induction false} C0Ordered(actions: seq<C0Action>)
    ensures Ordered({}, C0Ops(actions), {})
  {
    if actions == [] {
    } else {
      C0ActionOrdered(actions[0]);
      C0Ordered(actions[1..]);
      OrderedAppend({}, C0ActionOps(actions[0]), {}, C0Ops(actions[1..]), {});
    }
  }

  /** Thread 0 is C0, thread t > 0 is tile t; `rounds[t - 1]` is what tile t will do. */
  function PlatformThreads(actions: seq<C0Action>, rounds: seq<seq<Round>>): Threads {
    Threads([C0Ops(actions)] + seq(|rounds|, i requires 0 <= i < |rounds| => TileThread(i + 1, rounds[i])), map[])
  }

  /** C0 and any number of tiles, doing any amount of work, never deadlock and finish under every schedule. */
  lemma PlatformNeverDeadlocks(actions: seq<C0Action>, rounds: seq<seq<Round>>, order: seq<nat>)
    requires IsSchedule(PlatformThreads(actions, rounds), order)
    ensures
      var s := PlatformThreads(actions, rounds);
      && |order| <= Remaining(s.todo)
      && (Done(AfterSchedule(s, order)) || exists u :: CanMove(AfterSchedule(s, order), u))
  {
    PlatformStartsOrdered(actions, rounds);
    hide PlatformThreads;
    EveryScheduleFinishes(PlatformThreads(actions, rounds), order);
  }

  /**
    However C0 and the tiles are scheduled, at most one destination lock is held at any moment, by the thread that
    holds hal_mutex: under the HAL no two packets are ever in the router at once.
  */
  lemma OneDestinationAtATime(actions: seq<C0Action>, rounds: seq<seq<Round>>, order: seq<nat>, d: nat, e: nat)
    requires IsSchedule(PlatformThreads(actions, rounds), order) && d < 16 && e < 16
    requires
      var s := AfterSchedule(PlatformThreads(actions, rounds), order);
      Dest(d) in s.owner && Dest(e) in s.owner
    ensures
      var s := AfterSchedule(PlatformThreads(actions, rounds), order);
      d == e && HAL in s.owner && s.owner[HAL] == s.owner[Dest(d)]
  {
    PlatformStartsOrdered(actions, rounds);
    hide PlatformThreads;
    EveryScheduleFinishes(PlatformThreads(actions, rounds), order);
    hide IsSchedule, AfterSchedule, Ordered;
    var s := AfterSchedule(PlatformThreads(actions, rounds), order);
    assert Dest(d) in HeldBy(s, s.owner[Dest(d)]) && Dest(e) in HeldBy(s, s.owner[Dest(e)]);
    assert HAL in HeldBy(s, s.owner[Dest(d)]) && HAL in HeldBy(s, s.owner[Dest(e)]);
  }

  /** A remote call takes hal_mutex, then the lock of its destination. */
  lemma RemoteTakesBoth(d: nat)
    ensures CallOps(Remote(d)) == [Acquire(2), Acquire(3 + d), Release(3 + d), Release(2)]
  {
  }

  lemma PlatformStartsOrdered(actions: seq<C0Action>, rounds: seq<seq<Round>>)
    ensures Inv(PlatformThreads(actions, rounds))
  {
    hide Ordered, C0Ops, TileThread;
    var s := PlatformThreads(actions, rounds);
    forall t | 0 <= t < |s.todo| ensures Ordered(HeldBy(s, t), s.todo[t], {}) {
      assert HeldBy(s, t) == {};
      if t == 0 {
        C0Ordered(actions);
      } else {
        ThreadOrdered(t, rounds[t - 1]);
      }
    }
  }
}
