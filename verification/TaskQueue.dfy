/** The bounded ring of tasks: a FIFO sequence, and how long a popped slot pointer stays good. */
module TaskQueue {

  // ---- the ring as a value ----

  datatype Ring<T> = Ring(slots: seq<T>, head: nat, tail: nat, count: nat)
  {
    function Cap(): nat {
      |slots|
    }

    ghost predicate Valid() {
      && head < Cap() && count <= Cap()
      && tail == Wrap(head + count)
    }

    function Wrap(i: nat): nat {
      if i < Cap() then i else i - Cap()
    }

    /** `(i + 1) % MAX_PENDING_TASKS` */
    function Next(i: nat): (j: nat)
      requires i < Cap()
      ensures j == Wrap(i + 1)
    {
      assert i + 1 < Cap() ==> (i + 1) % Cap() == i + 1;
      (i + 1) % Cap()
    }

    /** The queued tasks, oldest first. */
    ghost function Items(): (items: seq<T>)
      requires Valid()
      ensures |items| == count && forall k | 0 <= k < count :: items[k] == slots[Wrap(head + k)]
    {
      seq(count, k requires 0 <= k < count => slots[Wrap(head + k)])
    }

    function Push(x: T): Ring<T>
      requires tail < Cap()
    {
      Ring(slots[tail := x], head, Next(tail), count + 1)
    }

    function Pop(): Ring<T>
      requires head < Cap() && count > 0
    {
      Ring(slots, Next(head), tail, count - 1)
    }
  }

  datatype Op<T> = PushOp(x: T) | PopOp

  /** A push waits while the ring is full, a pop while it is empty. */
  predicate CanRun<T>(n: nat, cap: nat, op: Op<T>) {
    match op
    case PushOp(_) => n < cap
    case PopOp => n > 0
  }

  ghost function Step<T>(r: Ring<T>, op: Op<T>): (r': Ring<T>)
    requires r.Valid() && CanRun(r.count, r.Cap(), op)
    ensures r'.Valid() && r'.Cap() == r.Cap()
  {
    hide Ring.Next;
    match op
    case PushOp(x) => r.Push(x)
    case PopOp => r.Pop()
  }

  ghost predicate CanRunAll<T>(r: Ring<T>, ops: seq<Op<T>>)
    requires r.Valid()
    decreases |ops|
  {
    ops == [] || (CanRun(r.count, r.Cap(), ops[0]) && CanRunAll(Step(r, ops[0]), ops[1..]))
  }

  ghost function RunAll<T>(r: Ring<T>, ops: seq<Op<T>>): (r': Ring<T>)
    requires r.Valid() && CanRunAll(r, ops)
    ensures r'.Valid() && r'.Cap() == r.Cap()
    decreases |ops|
  {
    if ops == [] then r else RunAll(Step(r, ops[0]), ops[1..])
  }

  // ---- refinement of a sequence ----

  /** What the operation means on the sequence of queued tasks. */
  function StepItems<T>(items: seq<T>, op: Op<T>): seq<T>
    requires op.PopOp? ==> items != []
  {
    match op
    case PushOp(x) => items + [x]
    case PopOp => items[1..]
  }

  lemma StepRefines<T>(r: Ring<T>, op: Op<T>)
    requires r.Valid() && CanRun(r.count, r.Cap(), op)
    ensures Step(r, op).Items() == StepItems(r.Items(), op)
    ensures op.PopOp? ==> r.slots[r.head] == r.Items()[0]
  {
    hide Ring.Next;
    var items, items' := r.Items(), Step(r, op).Items();
    match op {
      case PushOp(x) =>
        assert items' == items + [x];
      case PopOp =>
        assert items' == items[1..];
    }
  }

  ghost predicate CanRunItems<T>(items: seq<T>, cap: nat, ops: seq<Op<T>>)
    decreases |ops|
  {
    ops == [] || (CanRun(|items|, cap, ops[0]) && CanRunItems(StepItems(items, ops[0]), cap, ops[1..]))
  }

  ghost function RunItems<T>(items: seq<T>, cap: nat, ops: seq<Op<T>>): seq<T>
    requires CanRunItems(items, cap, ops)
    decreases |ops|
  {
    if ops == [] then items else RunItems(StepItems(items, ops[0]), cap, ops[1..])
  }

  /** Over every run the ring can do exactly what a bounded FIFO sequence can do, with the same contents. */
  lemma {:induction false} RunRefines<T>(r: Ring<T>, ops: seq<Op<T>>)
    requires r.Valid()
    ensures CanRunAll(r, ops) <==> CanRunItems(r.Items(), r.Cap(), ops)
    ensures CanRunAll(r, ops) ==> RunAll(r, ops).Items() == RunItems(r.Items(), r.Cap(), ops)
    decreases |ops|
  {
    if ops == [] || !CanRun(r.count, r.Cap(), ops[0]) {
    } else {
      StepRefines(r, ops[0]);
      RunRefines(Step(r, ops[0]), ops[1..]);
    }
  }

  // ---- the slot returned by a pop ----

  function Pushes<T>(ops: seq<Op<T>>): nat {
    if ops == [] then 0 else (if ops[0].PushOp? then 1 else 0) + Pushes(ops[1..])
  }

  /** The tail is `d` places after slot `h`, for 0 < d <= Cap. */
  ghost predicate TailAhead<T>(r: Ring<T>, h: nat, d: nat) {
    h < r.Cap() && 0 < d <= r.Cap() && r.tail == r.Wrap(h + d)
  }

  lemma {:induction false} SlotKept<T>(r: Ring<T>, ops: seq<Op<T>>, h: nat, d: nat)
    requires r.Valid() && CanRunAll(r, ops) && TailAhead(r, h, d) && d + Pushes(ops) <= r.Cap()
    ensures RunAll(r, ops).slots[h] == r.slots[h]
    ensures TailAhead(RunAll(r, ops), h, d + Pushes(ops))
    decreases |ops|
  {
    if ops == [] {
    } else {
      SlotKept(Step(r, ops[0]), ops[1..], h, if ops[0].PushOp? then d + 1 else d);
    }
  }

  /**
    The slot a pop returned keeps its task through the next Cap - 1 - c pushes, where c tasks were
    left behind by the pop, whatever pops happen meanwhile.
  */
  lemma PoppedSlotKept<T>(r: Ring<T>, ops: seq<Op<T>>)
    requires r.Valid() && r.count > 0 && CanRunAll(r.Pop(), ops)
    requires Pushes(ops) <= r.Cap() - 1 - r.Pop().count
    ensures RunAll(r.Pop(), ops).slots[r.head] == r.Items()[0]
  {
    SlotKept(r.Pop(), ops, r.head, r.count);
  }

  /** And the push after those overwrites it: the bound is sharp. */
  lemma PoppedSlotOverwritten<T>(r: Ring<T>, ops: seq<Op<T>>, x: T)
    requires r.Valid() && r.count > 0 && CanRunAll(r.Pop(), ops)
    requires Pushes(ops) == r.Cap() - 1 - r.Pop().count
    requires CanRun(RunAll(r.Pop(), ops).count, r.Cap(), PushOp(x))
    ensures Step(RunAll(r.Pop(), ops), PushOp(x)).slots[r.head] == x
  {
    SlotKept(r.Pop(), ops, r.head, r.count);
  }

  // ---- the queue in place ----

  class Queue<T> {
    const tasks: array<T>
    var head: nat
    var tail: nat
    var count: nat

    ghost function View(): Ring<T>
      reads this, tasks
    {
      Ring(tasks[..], head, tail, count)
    }

    ghost predicate Valid()
      reads this, tasks
    {
      View().Valid()
    }

    constructor (capacity: nat, zero: T)
      requires capacity > 0
      ensures Valid() && fresh(tasks) && tasks.Length == capacity && View().Items() == []
    {
      tasks := new T[capacity](_ => zero);
      head, tail, count := 0, 0, 0;
    }

    /** task_queue_push; `waits` when the queue is full and the caller blocks instead. */
    method Push(task: T) returns (waits: bool)
      requires Valid()
      modifies this, tasks
      ensures Valid()
      ensures waits <==> |old(View()).Items()| == tasks.Length
      ensures waits ==> View() == old(View())
      ensures !waits ==> View() == Step(old(View()), PushOp(task)) && View().Items() == old(View().Items()) + [task]
    {
      if count >= tasks.Length {
        return true;
      }
      StepRefines(View(), PushOp(task));
      tasks[tail] := task;
      tail := (tail + 1) % tasks.Length;
      count := count + 1;
      waits := false;
    }

    /** task_queue_pop, returning the slot whose address the source hands out; `waits` when empty. */
    method Pop() returns (waits: bool, slot: nat)
      requires Valid()
      modifies this`head, this`count
      ensures Valid()
      ensures waits <==> old(View()).Items() == []
      ensures waits ==> View() == old(View())
      ensures !waits ==> View() == Step(old(View()), PopOp) && View().Items() == old(View().Items())[1..]
      ensures !waits ==> slot == old(head) < tasks.Length && tasks[slot] == old(View().Items())[0]
    {
      if count == 0 {
        return true, 0;
      }
      StepRefines(View(), PopOp);
      slot := head;
      head := (head + 1) % tasks.Length;
      count := count - 1;
      waits := false;
    }

    /** task_queue_is_empty */
    method IsEmpty() returns (empty: bool)
      requires Valid()
      ensures empty <==> View().Items() == []
    {
      empty := count == 0;
    }
  }
}
