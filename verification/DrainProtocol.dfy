/** C0's two interrupt drain loops as runs of claim-and-handle steps. */
module DrainProtocol {
  import opened Finite
  import opened PlicBank
  import opened InterruptProtocol

  /** Which of the two drain loops runs: they differ in decoding and handling only. */
  datatype Loop = Enhanced | Legacy

  // ---- one step ----

  /** The handler bumps completed_tasks for this type. */
  predicate CountsAsCompletion(irqType: nat) {
    irqType != IRQ_ERROR_REPORT && irqType != IRQ_SYNC_REQUEST
    && irqType != IRQ_SHUTDOWN_REQUEST && irqType != IRQ_DMA_COMPLETE
  }

  /** handle_enhanced_plic_interrupt */
  ghost function HandleEnhanced(sys: Sys, hart: nat, irqType: nat): (r: Sys)
    requires sys.Valid()
    ensures r.Valid()
  {
    if irqType == IRQ_TASK_COMPLETE then
      sys.(completed := sys.completed + 1, active := if sys.active > 0 then sys.active - 1 else sys.active)
    else if irqType == IRQ_SYNC_REQUEST then
      Trigger(sys, 0, hart, IRQ_SYNC_RESPONSE).0
    else if CountsAsCompletion(irqType) then
      sys.(completed := sys.completed + 1)
    else
      sys
  }

  /** Decode a claimed id and run its handler. */
  ghost function Handle(loop: Loop, sys: Sys, id: nat): (r: Sys)
    requires sys.Valid()
    ensures r.Valid()
  {
    match loop
    case Enhanced =>
      if id >= SOURCE_BASE_ID && Decode(id).hart < sys.harts
      then HandleEnhanced(sys, Decode(id).hart, Decode(id).irqType)
      else sys
    case Legacy =>
      if LegacyDecode(id, sys.harts) >= 0 then sys.(completed := sys.completed + 1) else sys
  }

  /** Hart 0 claims `id`, handles it, and writes the completion. */
  ghost function Step(loop: Loop, sys: Sys, id: nat): (r: Sys)
    requires sys.Valid()
    ensures r.Valid()
  {
    var handled := Handle(loop, sys.(c0c1 := sys.c0c1.Claim(0, id)), id);
    handled.(c0c1 := handled.c0c1.(claimed := handled.c0c1.claimed[0 := id]))
  }

  // ---- runs ----

  ghost function Replay(loop: Loop, sys: Sys, log: seq<nat>): (r: Sys)
    requires sys.Valid()
    ensures r.Valid()
  {
    if log == [] then sys else Step(loop, Replay(loop, sys, log[..|log| - 1]), log[|log| - 1])
  }

  /** Every entry of the log is what a claim returned at that moment. */
  ghost predicate ClaimedInTurn(loop: Loop, sys: Sys, log: seq<nat>)
    requires sys.Valid()
  {
    log == [] || (
      && ClaimedInTurn(loop, sys, log[..|log| - 1])
      && Replay(loop, sys, log[..|log| - 1]).c0c1.IsWinner(0, log[|log| - 1]))
  }

  /** A complete run of a drain loop from `sys`: it stops when nothing is claimable. */
  ghost predicate IsDrain(loop: Loop, sys: Sys, log: seq<nat>, after: Sys)
    requires sys.Valid()
  {
    && ClaimedInTurn(loop, sys, log)
    && after == Replay(loop, sys, log)
    && after.c0c1.Claimable(0) == {}
  }

  lemma ReplayPrefix(loop: Loop, sys: Sys, log: seq<nat>, id: nat)
    requires sys.Valid()
    ensures Replay(loop, sys, log + [id]) == Step(loop, Replay(loop, sys, log), id)
    ensures ClaimedInTurn(loop, sys, log) && Replay(loop, sys, log).c0c1.IsWinner(0, id) ==>
      ClaimedInTurn(loop, sys, log + [id])
  {
  }

  // ---- termination, from any register contents ----

  predicate IsSyncRequest(id: nat) {
    id >= SOURCE_BASE_ID && Decode(id).irqType == IRQ_SYNC_REQUEST
  }

  ghost function SyncRequests(ids: set<nat>): set<nat> {
    set x | x in ids && IsSyncRequest(x)
  }

  /** Bounds the number of claims still to come. */
  ghost function Backlog(sys: Sys): nat
    requires sys.Valid()
  {
    |sys.c0c1.Claimable(0)| + |SyncRequests(sys.c0c1.Claimable(0))|
  }

  const RESPONSE_ID := 59   // hart 0's SYNC_RESPONSE

  /** A step keeps hart 0's table and adds at most the one response id to what hart 0 can claim. */
  lemma StepClaimable(loop: Loop, sys: Sys, id: nat)
    requires sys.Valid() && sys.c0c1.IsWinner(0, id)
    ensures
      var after := Step(loop, sys, id);
      && after.harts == sys.harts
      && after.c0c1.enabled == sys.c0c1.enabled
      && after.c0c1.prio == sys.c0c1.prio
      && after.c0c1.threshold == sys.c0c1.threshold
      && after.c0c1.pending <= sys.c0c1.pending - {id} + (if IsSyncRequest(id) then {RESPONSE_ID} else {})
  {
  }

  /** Nothing outside hart 0's own word is lost; the legacy loop loses nothing at all. */
  lemma StepKeepsOthers(loop: Loop, sys: Sys, id: nat)
    requires sys.Valid() && sys.c0c1.IsWinner(0, id)
    ensures
      var after := Step(loop, sys, id);
      && (loop == Legacy ==> after.c0c1.pending == sys.c0c1.pending - {id})
      && (forall x | x in sys.c0c1.pending && x != id && x / 32 != 1 :: x in after.c0c1.pending)
  {
  }

  /** Every claim shrinks the backlog, even when handling raises a new interrupt: the loops end. */
  lemma BacklogShrinks(loop: Loop, sys: Sys, id: nat)
    requires sys.Valid() && sys.c0c1.IsWinner(0, id)
    ensures Backlog(Step(loop, sys, id)) < Backlog(sys)
  {
    StepClaimable(loop, sys, id);
    ClaimableBounded(sys.c0c1, Step(loop, sys, id).c0c1, id);
    SetShrinks(sys.c0c1.Claimable(0), Step(loop, sys, id).c0c1.Claimable(0), id);
  }

  lemma ClaimableBounded(b: Bank, b': Bank, id: nat)
    requires b.Valid() && b'.Valid() && b.IsWinner(0, id)
    requires b'.enabled == b.enabled && b'.prio == b.prio && b'.threshold == b.threshold
    requires b'.pending <= b.pending - {id} + if IsSyncRequest(id) then {RESPONSE_ID} else {}
    ensures id in b.Claimable(0)
    ensures b'.Claimable(0) <= b.Claimable(0) - {id} + if IsSyncRequest(id) then {RESPONSE_ID} else {}
  {
  }

  lemma SetShrinks(c: set<nat>, c': set<nat>, id: nat)
    requires id in c && c' <= c - {id} + if IsSyncRequest(id) then {RESPONSE_ID} else {}
    ensures |c'| + |SyncRequests(c')| < |c| + |SyncRequests(c)|
  {
    assert !IsSyncRequest(RESPONSE_ID);
    if IsSyncRequest(id) {
      SubsetSize(c', c - {id} + {RESPONSE_ID});
      assert id in SyncRequests(c);
      SubsetSize(SyncRequests(c'), SyncRequests(c) - {id});
    } else {
      SubsetSize(c', c - {id});
      SubsetSize(SyncRequests(c'), SyncRequests(c));
    }
  }

  // ---- order and completeness ----

  /** Hart 0 does not listen to its own responses, and can claim no id of the word they would overwrite. */
  ghost predicate QuietOnOwnIds(sys: Sys)
    requires sys.Valid()
  {
    QuietBank(sys.c0c1)
  }

  ghost predicate QuietBank(b: Bank)
    requires b.Valid()
  {
    RESPONSE_ID !in b.enabled[0] && forall x | x in b.Claimable(0) :: x / 32 != 1
  }

  /** Setup enables hart 0 for none of its own ids: hart 0 is quiet unless one was enabled and pending already. */
  lemma SetupIsQuiet(sys: Sys)
    requires sys.Valid() && RESPONSE_ID !in sys.c0c1.enabled[0]
    requires forall x | x in sys.c0c1.enabled[0] && x in sys.c0c1.pending :: x / 32 != 1
    ensures QuietOnOwnIds(AfterSetup(sys))
  {
  }

  /** Whether what is raised while draining can never be claimed by hart 0 itself. */
  ghost predicate Undisturbed(loop: Loop, sys: Sys)
    requires sys.Valid()
  {
    loop == Legacy || QuietOnOwnIds(sys)
  }

  lemma StepRemovesOne(loop: Loop, sys: Sys, id: nat)
    requires sys.Valid() && Undisturbed(loop, sys) && sys.c0c1.IsWinner(0, id)
    ensures
      var after := Step(loop, sys, id);
      && Undisturbed(loop, after)
      && after.c0c1.Claimable(0) == sys.c0c1.Claimable(0) - {id}
      && after.c0c1.prio == sys.c0c1.prio
  {
    StepClaimable(loop, sys, id);
    StepKeepsOthers(loop, sys, id);
    ClaimableLosesOne(sys.c0c1, Step(loop, sys, id).c0c1, id, loop == Enhanced);
  }

  /** Bank-level core of the above; `guarded` means ids of word 1 may have come or gone but are not enabled. */
  lemma ClaimableLosesOne(b: Bank, b': Bank, id: nat, guarded: bool)
    requires b.Valid() && b'.Valid() && b.IsWinner(0, id)
    requires b'.enabled == b.enabled && b'.prio == b.prio && b'.threshold == b.threshold
    requires guarded ==> QuietBank(b)
    requires b'.pending <= b.pending - {id} + if guarded then {RESPONSE_ID} else {}
    requires forall x | x in b.pending && x != id && (!guarded || x / 32 != 1) :: x in b'.pending
    ensures b'.Claimable(0) == b.Claimable(0) - {id}
    ensures guarded ==> QuietBank(b')
  {
  }

  /** After any prefix of the run, exactly the entries of that prefix are gone. */
  lemma {:induction false} ReplayRemoves(loop: Loop, sys: Sys, log: seq<nat>)
    requires sys.Valid() && Undisturbed(loop, sys) && ClaimedInTurn(loop, sys, log)
    ensures
      var after := Replay(loop, sys, log);
      && Undisturbed(loop, after)
      && after.c0c1.Claimable(0) == sys.c0c1.Claimable(0) - Members(log)
      && after.c0c1.prio == sys.c0c1.prio
    ensures Members(log) <= sys.c0c1.Claimable(0)
  {
    if log == [] {
    } else {
      var n := |log| - 1;
      PrefixClaimed(loop, sys, log, n);
      ReplayRemoves(loop, sys, log[..n]);
      LastRemoved(loop, sys, Replay(loop, sys, log[..n]), log);
    }
  }

  lemma LastRemoved(loop: Loop, sys: Sys, mid: Sys, log: seq<nat>)
    requires sys.Valid() && mid.Valid() && log != [] && Undisturbed(loop, mid) && mid.c0c1.IsWinner(0, log[|log| - 1])
    requires mid.c0c1.Claimable(0) == sys.c0c1.Claimable(0) - Members(log[..|log| - 1])
    requires mid.c0c1.prio == sys.c0c1.prio
    requires Members(log[..|log| - 1]) <= sys.c0c1.Claimable(0)
    ensures
      var after := Step(loop, mid, log[|log| - 1]);
      && Undisturbed(loop, after)
      && after.c0c1.Claimable(0) == sys.c0c1.Claimable(0) - Members(log)
      && after.c0c1.prio == sys.c0c1.prio
    ensures Members(log) <= sys.c0c1.Claimable(0)
  {
    var last := log[|log| - 1];
    assert last in mid.c0c1.Claimable(0);
    StepRemovesOne(loop, mid, last);
    assert Members(log) == Members(log[..|log| - 1]) + {last};
  }

  /** A complete run delivers exactly what was claimable at its start. */
  lemma DrainDelivers(loop: Loop, sys: Sys, log: seq<nat>, after: Sys)
    requires sys.Valid() && Undisturbed(loop, sys) && IsDrain(loop, sys, log, after)
    ensures Members(log) == sys.c0c1.Claimable(0)
  {
    ReplayRemoves(loop, sys, log);
    forall x | x in sys.c0c1.Claimable(0) ensures x in Members(log) {
      assert x !in after.c0c1.Claimable(0);
    }
  }

  /** The log lists its entries in strictly descending delivery order. */
  ghost predicate InDeliveryOrder(b: Bank, log: seq<nat>)
    requires b.Valid()
  {
    && (forall i | 0 <= i < |log| :: IsSource(log[i]))
    && forall i, j | 0 <= i < j < |log| :: b.Before(log[i], log[j])
  }

  /**
    Draining is a priority sort: exactly the interrupts claimable at the start are delivered, each
    once, highest priority first and lowest id first on a tie, and nothing claimable is left.
  */
  lemma DrainSorts(loop: Loop, sys: Sys, log: seq<nat>, after: Sys)
    requires sys.Valid() && Undisturbed(loop, sys) && IsDrain(loop, sys, log, after)
    ensures Members(log) == sys.c0c1.Claimable(0)
    ensures InDeliveryOrder(sys.c0c1, log)
    ensures forall i, j | 0 <= i < j < |log| ::
      && 1 <= log[i] <= 1023 && 1 <= log[j] <= 1023
      && sys.c0c1.Priority(log[i]) >= sys.c0c1.Priority(log[j])
      && (sys.c0c1.Priority(log[i]) == sys.c0c1.Priority(log[j]) ==> log[i] < log[j])
    ensures after.c0c1.Claimable(0) == {}
  {
    DrainDelivers(loop, sys, log, after);
    forall i | 0 <= i < |log| ensures IsSource(log[i]) && log[i] in sys.c0c1.Claimable(0) {
      assert log[i] in Members(log);
    }
    forall i, j | 0 <= i < j < |log| ensures sys.c0c1.Before(log[i], log[j]) {
      LaterWasClaimable(loop, sys, log, i, j);
    }
  }

  /** An entry delivered later could already be claimed when an earlier one won. */
  lemma LaterWasClaimable(loop: Loop, sys: Sys, log: seq<nat>, i: nat, j: nat)
    requires sys.Valid() && Undisturbed(loop, sys) && ClaimedInTurn(loop, sys, log) && i < j < |log|
    requires forall k | 0 <= k < |log| :: IsSource(log[k]) && log[k] in sys.c0c1.Claimable(0)
    ensures sys.c0c1.Before(log[i], log[j])
  {
    hide Step, Replay, ClaimedInTurn, Undisturbed;
    PrefixClaimed(loop, sys, log, i);
    PrefixClaimed(loop, sys, log, j);
    ReplayRemoves(loop, sys, log[..i]);
    ReplayRemoves(loop, sys, log[..j]);
    var bi, bj := Replay(loop, sys, log[..i]).c0c1, Replay(loop, sys, log[..j]).c0c1;
    assert log[j] in bj.Claimable(0);
    assert log[i] == log[..j][i] && log[i] in Members(log[..j]);
    assert log[j] != log[i];
    assert log[j] !in Members(log[..i]) by {
      forall k | 0 <= k < i ensures log[k] != log[j] {
        assert log[k] == log[..j][k] && log[k] in Members(log[..j]);
      }
    }
    assert log[j] in bi.Claimable(0);
    assert bi.IsWinner(0, log[i]);
  }

  lemma {:induction false} PrefixClaimed(loop: Loop, sys: Sys, log: seq<nat>, n: nat)
    requires sys.Valid() && ClaimedInTurn(loop, sys, log) && n <= |log|
    ensures ClaimedInTurn(loop, sys, log[..n])
    ensures n < |log| ==> Replay(loop, sys, log[..n]).c0c1.IsWinner(0, log[n])
  {
    hide Step, Bank.IsWinner;
    if n < |log| - 1 {
      PrefixClaimed(loop, sys, log[..|log| - 1], n);
      assert log[..|log| - 1][..n] == log[..n];
    } else if n == |log| {
      assert log[..n] == log;
    }
  }

  /** A sorted log of a given set of interrupts is unique: the delivery order is determined. */
  lemma {:induction false} DeliveryOrderIsUnique(b: Bank, log: seq<nat>, log': seq<nat>)
    requires b.Valid() && InDeliveryOrder(b, log) && InDeliveryOrder(b, log') && Members(log) == Members(log')
    ensures log == log'
  {
    assert log' != [] ==> log'[0] in Members(log');
    if log == [] {
    } else {
      assert log[0] in Members(log');
      assert log' != [];
      assert log'[0] in Members(log') && log'[0] in Members(log);
      assert log[0] == log'[0];
      TailMembers(b, log);
      TailMembers(b, log');
      DeliveryOrderIsUnique(b, log[1..], log'[1..]);
    }
  }

  lemma TailMembers(b: Bank, log: seq<nat>)
    requires b.Valid() && InDeliveryOrder(b, log) && log != []
    ensures InDeliveryOrder(b, log[1..]) && Members(log[1..]) == Members(log) - {log[0]}
  {
  }

  // ---- what the handlers leave behind ----

  /** The entry is handled as a finished task. */
  predicate Counted(loop: Loop, harts: nat, id: nat) {
    match loop
    case Enhanced => id >= SOURCE_BASE_ID && Decode(id).hart < harts && CountsAsCompletion(Decode(id).irqType)
    case Legacy => LegacyDecode(id, harts) >= 0
  }

  ghost function CountedIds(loop: Loop, harts: nat, ids: set<nat>): set<nat> {
    set x | x in ids && Counted(loop, harts, x)
  }

  lemma StepCounts(loop: Loop, sys: Sys, id: nat)
    requires sys.Valid()
    ensures Step(loop, sys, id).completed == sys.completed + if Counted(loop, sys.harts, id) then 1 else 0
    ensures Step(loop, sys, id).harts == sys.harts
  {
  }

  lemma CountedIdsGrow(loop: Loop, harts: nat, log: seq<nat>)
    requires log != [] && log[|log| - 1] !in Members(log[..|log| - 1])
    ensures |CountedIds(loop, harts, Members(log))| ==
      |CountedIds(loop, harts, Members(log[..|log| - 1]))| + if Counted(loop, harts, log[|log| - 1]) then 1 else 0
  {
    var last := log[|log| - 1];
    assert Members(log) == Members(log[..|log| - 1]) + {last};
    var before := CountedIds(loop, harts, Members(log[..|log| - 1]));
    assert CountedIds(loop, harts, Members(log)) == if Counted(loop, harts, last) then before + {last} else before;
  }

  lemma {:induction false} ReplayCounts(loop: Loop, sys: Sys, log: seq<nat>)
    requires sys.Valid() && Undisturbed(loop, sys) && ClaimedInTurn(loop, sys, log)
    ensures Replay(loop, sys, log).harts == sys.harts
    ensures Replay(loop, sys, log).completed == sys.completed + |CountedIds(loop, sys.harts, Members(log))|
  {
    if log == [] {
      assert CountedIds(loop, sys.harts, Members(log)) == {};
    } else {
      var n := |log| - 1;
      PrefixClaimed(loop, sys, log, n);
      ReplayCounts(loop, sys, log[..n]);
      NotYetDelivered(loop, sys, log);
      CountedIdsGrow(loop, sys.harts, log);
      StepCounts(loop, Replay(loop, sys, log[..n]), log[n]);
    }
  }

  lemma NotYetDelivered(loop: Loop, sys: Sys, log: seq<nat>)
    requires sys.Valid() && Undisturbed(loop, sys) && log != [] && ClaimedInTurn(loop, sys, log)
    ensures log[|log| - 1] !in Members(log[..|log| - 1])
  {
    var n := |log| - 1;
    PrefixClaimed(loop, sys, log, n);
    ReplayRemoves(loop, sys, log[..n]);
    assert log[n] in Replay(loop, sys, log[..n]).c0c1.Claimable(0);
  }

  lemma CountedIff(harts: nat, x: nat)
    ensures Counted(Enhanced, harts, x) <==> x >= 32 && (x - 32) / 32 < harts && (x - 32) % 32 !in {24, 25, 26, 28}
    ensures Counted(Legacy, harts, x) <==> 32 <= x < 32 + harts
  {
  }

  /**
    completed_tasks grows by the number of claimable interrupts of the counted types: in the enhanced loop all but
    error reports, finished transfers, sync requests and shutdown requests of existing harts, in the legacy loop
    the ids 32 and up that stand for a hart.
  */
  lemma DrainCounts(loop: Loop, sys: Sys, log: seq<nat>, after: Sys)
    requires sys.Valid() && Undisturbed(loop, sys) && IsDrain(loop, sys, log, after)
    ensures after.completed == sys.completed + |CountedIds(loop, sys.harts, sys.c0c1.Claimable(0))|
    ensures forall x: nat :: Counted(Enhanced, sys.harts, x) <==>
      x >= 32 && (x - 32) / 32 < sys.harts && (x - 32) % 32 !in {24, 25, 26, 28}
    ensures forall x: nat :: Counted(Legacy, sys.harts, x) <==> 32 <= x < 32 + sys.harts
  {
    ReplayCounts(loop, sys, log);
    DrainDelivers(loop, sys, log, after);
    hide Counted, IsDrain, Undisturbed;
    forall x: nat
      ensures Counted(Enhanced, sys.harts, x) <==>
        x >= 32 && (x - 32) / 32 < sys.harts && (x - 32) % 32 !in {24, 25, 26, 28}
      ensures Counted(Legacy, sys.harts, x) <==> 32 <= x < 32 + sys.harts
    {
      CountedIff(sys.harts, x);
    }
  }

  /** The TASK_COMPLETE interrupts, type 22, of existing harts among the ids. */
  ghost function FinishedReports(harts: nat, ids: set<nat>): set<nat> {
    set x | x in ids && x >= 32 && (x - 32) / 32 < harts && (x - 32) % 32 == 22
  }

  lemma StepReports(sys: Sys, id: nat)
    requires sys.Valid()
    ensures Step(Enhanced, sys, id).active ==
      if id >= 32 && (id - 32) / 32 < sys.harts && (id - 32) % 32 == 22 && sys.active > 0 then sys.active - 1
      else sys.active
    ensures Step(Legacy, sys, id).active == sys.active
  {
  }

  lemma ReportsGrow(harts: nat, log: seq<nat>)
    requires log != [] && log[|log| - 1] !in Members(log[..|log| - 1])
    ensures
      var id := log[|log| - 1];
      |FinishedReports(harts, Members(log))| == |FinishedReports(harts, Members(log[..|log| - 1]))|
        + if id >= 32 && (id - 32) / 32 < harts && (id - 32) % 32 == 22 then 1 else 0
  {
    var last, before := log[|log| - 1], FinishedReports(harts, Members(log[..|log| - 1]));
    assert Members(log) == Members(log[..|log| - 1]) + {last};
    assert FinishedReports(harts, Members(log)) == before + FinishedReports(harts, {last});
    if last >= 32 && (last - 32) / 32 < harts && (last - 32) % 32 == 22 {
      assert FinishedReports(harts, {last}) == {last};
    } else {
      assert FinishedReports(harts, {last}) == {};
    }
  }

  /** What active_tasks is after `n` reports of a finished task: never below zero by their doing. */
  function LessReports(active: int, n: nat): int {
    if active <= 0 then active else if active >= n then active - n else 0
  }

  lemma {:induction false} ReplayReports(loop: Loop, sys: Sys, log: seq<nat>)
    requires sys.Valid() && Undisturbed(loop, sys) && ClaimedInTurn(loop, sys, log)
    ensures Replay(loop, sys, log).active ==
      if loop == Enhanced then LessReports(sys.active, |FinishedReports(sys.harts, Members(log))|) else sys.active
  {
    if log == [] {
      assert FinishedReports(sys.harts, Members(log)) == {};
    } else {
      hide Step, FinishedReports, Undisturbed, Bank.IsWinner;
      var n := |log| - 1;
      PrefixClaimed(loop, sys, log, n);
      ReplayReports(loop, sys, log[..n]);
      ReplayHarts(loop, sys, log[..n]);
      NotYetDelivered(loop, sys, log);
      ReportsGrow(sys.harts, log);
      StepReports(Replay(loop, sys, log[..n]), log[n]);
    }
  }

  /**
    A complete enhanced drain takes one from active_tasks for each claimable TASK_COMPLETE interrupt of an
    existing hart, but not below zero, and a count that was not positive stays; the legacy drain leaves it alone.
  */
  lemma DrainTakesActive(loop: Loop, sys: Sys, log: seq<nat>, after: Sys)
    requires sys.Valid() && Undisturbed(loop, sys) && IsDrain(loop, sys, log, after)
    ensures
      var n := |set x | x in sys.c0c1.Claimable(0) && x >= 32 && (x - 32) / 32 < sys.harts && (x - 32) % 32 == 22|;
      && (loop == Legacy || sys.active <= 0 ==> after.active == sys.active)
      && (loop == Enhanced && 0 < sys.active <= n ==> after.active == 0)
      && (loop == Enhanced && sys.active > n ==> after.active == sys.active - n)
  {
    ReplayReports(loop, sys, log);
    DrainDelivers(loop, sys, log, after);
    assert FinishedReports(sys.harts, sys.c0c1.Claimable(0)) ==
      set x | x in sys.c0c1.Claimable(0) && x >= 32 && (x - 32) / 32 < sys.harts && (x - 32) % 32 == 22;
  }

  /** On 8 harts the legacy loop swallows every interrupt the encoder can send without counting it. */
  lemma LegacyDrainCountsNothing(sys: Sys, log: seq<nat>, after: Sys)
    requires sys.Valid() && sys.harts == 8 && IsDrain(Legacy, sys, log, after)
    requires forall x | x in sys.c0c1.pending ::
      exists s: nat, t: nat, irqType: nat :: s < 8 && Supported(irqType) && x == SourceId(s, t, irqType)
    ensures after.completed == sys.completed
    ensures Members(log) == sys.c0c1.Claimable(0)
  {
    DrainCounts(Legacy, sys, log, after);
    DrainDelivers(Legacy, sys, log, after);
    forall x | x in sys.c0c1.Claimable(0) ensures !Counted(Legacy, 8, x) {
      var s: nat, t: nat, irqType: nat :| s < 8 && Supported(irqType) && x == SourceId(s, t, irqType);
      LegacyDecodeMissesSupported(s, t, irqType);
    }
    assert CountedIds(Legacy, sys.harts, sys.c0c1.Claimable(0)) == {};
  }

  /** The id a SYNC_REQUEST from `hart` arrives under. */
  predicate IsSyncRequestFrom(id: nat, hart: nat) {
    id >= SOURCE_BASE_ID && Decode(id) == Decoded(hart, IRQ_SYNC_REQUEST)
  }

  /** A pending response survives a claim of anything else and any handler. */
  lemma StepKeepsResponse(sys: Sys, id: nat, hart: nat)
    requires sys.Valid() && id != RESPONSE_ID && RESPONSE_ID in sys.On(hart).pending
    ensures RESPONSE_ID in Step(Enhanced, sys, id).On(hart).pending
  {
  }

  lemma StepAnswers(sys: Sys, id: nat, hart: nat)
    requires sys.Valid() && IsSyncRequestFrom(id, hart) && 0 < hart < sys.harts && hart < 8
    ensures RESPONSE_ID in Step(Enhanced, sys, id).On(hart).pending
  {
  }

  lemma {:induction false} ReplayAnswers(sys: Sys, log: seq<nat>, k: nat, hart: nat)
    requires sys.Valid() && RESPONSE_ID !in Members(log)
    requires k < |log| && IsSyncRequestFrom(log[k], hart) && 0 < hart < sys.harts && hart < 8
    ensures RESPONSE_ID in Replay(Enhanced, sys, log).On(hart).pending
  {
    var n := |log| - 1;
    var mid := Replay(Enhanced, sys, log[..n]);
    assert log[n] in Members(log);
    if k < n {
      assert Members(log[..n]) <= Members(log);
      ReplayAnswers(sys, log[..n], k, hart);
      StepKeepsResponse(mid, log[n], hart);
    } else {
      ReplayHarts(Enhanced, sys, log[..n]);
      StepAnswers(mid, log[n], hart);
    }
  }

  lemma {:induction false} ReplayHarts(loop: Loop, sys: Sys, log: seq<nat>)
    requires sys.Valid()
    ensures Replay(loop, sys, log).harts == sys.harts
  {
    if log == [] {
    } else {
      ReplayHarts(loop, sys, log[..|log| - 1]);
      StepCounts(loop, Replay(loop, sys, log[..|log| - 1]), log[|log| - 1]);
    }
  }

  lemma ResponseId(hart: nat)
    ensures SourceId(0, hart, IRQ_SYNC_RESPONSE) == RESPONSE_ID
  {
  }

  lemma DeliveredAt(loop: Loop, sys: Sys, log: seq<nat>, after: Sys, id: nat) returns (k: nat)
    requires sys.Valid() && Undisturbed(loop, sys) && IsDrain(loop, sys, log, after) && id in sys.c0c1.Claimable(0)
    ensures k < |log| && log[k] == id
  {
    DrainDelivers(loop, sys, log, after);
    assert id in Members(log);
    k :| k < |log| && log[k] == id;
  }

  lemma ResponseNotDelivered(sys: Sys, log: seq<nat>, after: Sys)
    requires sys.Valid() && QuietOnOwnIds(sys) && IsDrain(Enhanced, sys, log, after)
    ensures RESPONSE_ID !in Members(log)
  {
    DrainDelivers(Enhanced, sys, log, after);
    assert RESPONSE_ID !in sys.c0c1.enabled[0];
  }

  /** Every hart whose SYNC_REQUEST was claimable finds hart 0's SYNC_RESPONSE pending after the drain. */
  lemma DrainAnswersSyncRequests(sys: Sys, log: seq<nat>, after: Sys, id: nat, hart: nat)
    requires sys.Valid() && QuietOnOwnIds(sys) && IsDrain(Enhanced, sys, log, after)
    requires id in sys.c0c1.Claimable(0) && IsSyncRequestFrom(id, hart) && 0 < hart < sys.harts && hart < 8
    ensures SourceId(0, hart, IRQ_SYNC_RESPONSE) in after.On(hart).pending
  {
    var k := DeliveredAt(Enhanced, sys, log, after, id);
    ResponseNotDelivered(sys, log, after);
    ReplayAnswers(sys, log, k, hart);
    ResponseId(hart);
  }
}
