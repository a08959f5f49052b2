/** Interrupts over whole histories of triggers, claims and completions by any harts. */
module DeliveryRuns {
  import opened Finite
  import opened PlicBank
  import opened InterruptProtocol
  import opened Delivery
  import opened DrainProtocol

  // ---- histories ----

  /** A trigger, a claim that returned `id` (0 when there was nothing to claim), or a completion. */
  datatype Event =
    | Raise(source: nat, target: nat, irqType: nat)
    | Take(hart: nat, id: nat)
    | Complete(hart: nat, id: nat)

  ghost predicate Occurs(sys: Sys, e: Event)
    requires sys.Valid()
  {
    match e
    case Raise(_, _, _) => true
    case Take(h, id) =>
      h < sys.harts && h < 8 && if id == 0 then sys.On(h).Claimable(h) == {} else sys.On(h).IsWinner(h, id)
    case Complete(h, _) => h < sys.harts && h < 8
  }

  ghost function Next(sys: Sys, e: Event): (r: Sys)
    requires sys.Valid() && Occurs(sys, e)
    ensures r.Valid() && r.harts == sys.harts
  {
    match e
    case Raise(s, t, irqType) => Trigger(sys, s, t, irqType).0
    case Take(h, id) => if id == 0 then sys else sys.With(h, sys.On(h).Claim(h, id))
    case Complete(h, id) => sys.With(h, sys.On(h).(claimed := sys.On(h).claimed[h := id]))
  }

  ghost predicate IsHistory(sys: Sys, es: seq<Event>)
    requires sys.Valid()
    decreases |es|
  {
    es == [] || (Occurs(sys, es[0]) && IsHistory(Next(sys, es[0]), es[1..]))
  }

  ghost function AfterEvents(sys: Sys, es: seq<Event>): (r: Sys)
    requires sys.Valid() && IsHistory(sys, es)
    ensures r.Valid() && r.harts == sys.harts
    decreases |es|
  {
    if es == [] then sys else AfterEvents(Next(sys, es[0]), es[1..])
  }

  // ---- what one event does to one id ----

  /** The trigger is accepted and goes to the instance of hart `t`. */
  predicate Reaches(harts: nat, e: Event, t: nat) {
    && e.Raise?
    && e.source < harts && e.target < harts && e.source != e.target && e.target < 8
    && SourceId(e.source, e.target, e.irqType) != 0
    && InstanceOf(e.target) == InstanceOf(t)
  }

  predicate Raises(harts: nat, e: Event, t: nat, x: nat) {
    Reaches(harts, e, t) && SourceId(e.source, e.target, e.irqType) == x
  }

  /** A trigger of another id in the same register word. */
  predicate Dislodges(harts: nat, e: Event, t: nat, x: nat) {
    && Reaches(harts, e, t)
    && SourceId(e.source, e.target, e.irqType) != x && SourceId(e.source, e.target, e.irqType) / 32 == x / 32
  }

  predicate Takes(e: Event, t: nat, x: nat) {
    e.Take? && e.id == x && InstanceOf(e.hart) == InstanceOf(t)
  }

  predicate Removes(harts: nat, e: Event, t: nat, x: nat) {
    Takes(e, t, x) || Dislodges(harts, e, t, x)
  }

  lemma PendingAfterEvent(sys: Sys, e: Event, t: nat, x: nat)
    requires sys.Valid() && Occurs(sys, e) && IsSource(x)
    ensures x in Next(sys, e).On(t).pending <==>
      Raises(sys.harts, e, t, x) || (x in sys.On(t).pending && !Removes(sys.harts, e, t, x))
    ensures Takes(e, t, x) ==> x in sys.On(t).pending
  {
  }

  // ---- staying pending ----

  ghost predicate RaisedSince(harts: nat, es: seq<Event>, t: nat, x: nat) {
    exists i | 0 <= i < |es| :: Raises(harts, es[i], t, x) && NoneRemoves(harts, es[i + 1..], t, x)
  }

  ghost predicate NoneRemoves(harts: nat, es: seq<Event>, t: nat, x: nat) {
    forall i | 0 <= i < |es| :: !Removes(harts, es[i], t, x)
  }

  /**
    After any history an id is pending exactly when it was raised and not removed since, or was pending from
    the start and never removed: by a claim that returned it, or by a trigger of another id of its word.
  */
  lemma {:induction false} PendingIff(sys: Sys, es: seq<Event>, t: nat, x: nat)
    requires sys.Valid() && IsHistory(sys, es) && IsSource(x)
    ensures x in AfterEvents(sys, es).On(t).pending <==>
      RaisedSince(sys.harts, es, t, x) || (x in sys.On(t).pending && NoneRemoves(sys.harts, es, t, x))
    decreases |es|
  {
    if es == [] {
    } else {
      var sys', rest := Next(sys, es[0]), es[1..];
      PendingAfterEvent(sys, es[0], t, x);
      PendingIff(sys', rest, t, x);
      RaisedSinceStep(sys.harts, es, t, x);
      NoneRemovesStep(sys.harts, es, t, x);
    }
  }

  lemma NoneRemovesStep(harts: nat, es: seq<Event>, t: nat, x: nat)
    requires es != []
    ensures NoneRemoves(harts, es, t, x) <==> !Removes(harts, es[0], t, x) && NoneRemoves(harts, es[1..], t, x)
  {
    hide Removes;
    if !Removes(harts, es[0], t, x) && NoneRemoves(harts, es[1..], t, x) {
      forall i | 0 <= i < |es| ensures !Removes(harts, es[i], t, x) {
        assert i > 0 ==> es[i] == es[1..][i - 1];
      }
    }
  }

  lemma RaisedSinceStep(harts: nat, es: seq<Event>, t: nat, x: nat)
    requires es != []
    ensures RaisedSince(harts, es, t, x) <==>
      RaisedSince(harts, es[1..], t, x) || (Raises(harts, es[0], t, x) && NoneRemoves(harts, es[1..], t, x))
  {
    hide Raises, NoneRemoves;
    var rest := es[1..];
    if RaisedSince(harts, es, t, x) {
      var i :| 0 <= i < |es| && Raises(harts, es[i], t, x) && NoneRemoves(harts, es[i + 1..], t, x);
      assert i > 0 ==> es[i] == rest[i - 1] && es[i + 1..] == rest[i..];
    }
    if RaisedSince(harts, rest, t, x) {
      var i :| 0 <= i < |rest| && Raises(harts, rest[i], t, x) && NoneRemoves(harts, rest[i + 1..], t, x);
      assert es[i + 1] == rest[i] && es[i + 2..] == rest[i + 1..];
    }
  }

  // ---- claims ----

  function ClaimsOf(es: seq<Event>, t: nat, x: nat): nat {
    if es == [] then 0 else (if Takes(es[0], t, x) then 1 else 0) + ClaimsOf(es[1..], t, x)
  }

  function RaisesOf(harts: nat, es: seq<Event>, t: nat, x: nat): nat {
    if es == [] then 0 else (if Raises(harts, es[0], t, x) then 1 else 0) + RaisesOf(harts, es[1..], t, x)
  }

  /** Every raise is returned by at most one claim, by whichever hart, in any history. */
  lemma {:induction false} OneClaimPerRaise(sys: Sys, es: seq<Event>, t: nat, x: nat)
    requires sys.Valid() && IsHistory(sys, es) && IsSource(x)
    ensures
      var before, after := x in sys.On(t).pending, x in AfterEvents(sys, es).On(t).pending;
      ClaimsOf(es, t, x) + (if after then 1 else 0) <= RaisesOf(sys.harts, es, t, x) + if before then 1 else 0
    decreases |es|
  {
    if es == [] {
    } else {
      PendingAfterEvent(sys, es[0], t, x);
      OneClaimPerRaise(Next(sys, es[0]), es[1..], t, x);
    }
  }

  ghost predicate Undislodged(harts: nat, es: seq<Event>, t: nat, x: nat) {
    forall i | 0 <= i < |es| :: !Dislodges(harts, es[i], t, x)
  }

  /** And by exactly one, or it is still pending, unless a trigger of its word dislodged it or raised it again. */
  lemma {:induction false} ClaimedOrPending(sys: Sys, es: seq<Event>, t: nat, x: nat)
    requires sys.Valid() && IsHistory(sys, es) && IsSource(x)
    requires RaisesOf(sys.harts, es, t, x) == 0 && Undislodged(sys.harts, es, t, x)
    ensures
      var before, after := x in sys.On(t).pending, x in AfterEvents(sys, es).On(t).pending;
      ClaimsOf(es, t, x) + (if after then 1 else 0) == if before then 1 else 0
    decreases |es|
  {
    if es == [] {
    } else {
      PendingAfterEvent(sys, es[0], t, x);
      assert !Dislodges(sys.harts, es[0], t, x);
      forall i | 0 <= i < |es[1..]| ensures !Dislodges(sys.harts, es[1..][i], t, x) {
        assert es[1..][i] == es[i + 1];
      }
      ClaimedOrPending(Next(sys, es[0]), es[1..], t, x);
    }
  }

  /** No event changes the tables. */
  lemma TableKept(sys: Sys, base: Sys, e: Event)
    requires SetUp(sys, base) && Occurs(sys, e)
    ensures SetUp(Next(sys, e), base)
  {
    hide AfterSetup;
  }

  lemma {:induction false} TablesKept(sys: Sys, base: Sys, es: seq<Event>)
    requires SetUp(sys, base) && IsHistory(sys, es)
    ensures SetUp(AfterEvents(sys, es), base)
    decreases |es|
  {
    hide SetUp, Occurs, Next;
    assert sys.Valid() by { SetUpIsValid(sys, base); }
    if es == [] {
    } else {
      TableKept(sys, base, es[0]);
      TablesKept(Next(sys, es[0]), base, es[1..]);
    }
  }

  /** Only harts other than the sender ever claim a supported id. */
  lemma {:induction false} TakersAreOthers(sys: Sys, base: Sys, es: seq<Event>, s: nat, t: nat, irqType: nat)
    requires SetUp(sys, base) && IsHistory(sys, es)
    requires s < sys.harts && t < sys.harts && s != t && Supported(irqType)
    ensures forall e | e in es && Takes(e, t, SourceId(s, t, irqType)) :: e.hart != s
    decreases |es|
  {
    if es == [] {
    } else {
      var e := es[0];
      TableKept(sys, base, e);
      TakersAreOthers(Next(sys, e), base, es[1..], s, t, irqType);
      if Takes(e, t, SourceId(s, t, irqType)) {
        ClaimableByOthers(sys, base, s, t, irqType, e.hart);
      }
      assert forall e' | e' in es :: e' == e || e' in es[1..];
    }
  }

  /**
    End to end, from any state with setup's tables and over any history after the trigger: the interrupt is
    pending, and every hart of the target's instance but the sender can claim it, as long as no claim returned
    it and its sender raised no other type there. Until it is raised again at most one claim returns it, and
    exactly one unless it is still pending or was dislodged; that claim is not the sender's, and the id decodes
    to sender and type.
  */
  lemma DeliveredOnce(sys: Sys, base: Sys, s: nat, t: nat, irqType: nat, es: seq<Event>)
    requires SetUp(sys, base) && s < sys.harts && t < sys.harts && s != t && Supported(irqType)
    requires IsHistory(Trigger(sys, s, t, irqType).0, es)
    ensures
      var id, end := SourceId(s, t, irqType), AfterEvents(Trigger(sys, s, t, irqType).0, es);
      && Trigger(sys, s, t, irqType).1 == 1
      && Decode(id) == Decoded(s, irqType)
      && (NoneRemoves(sys.harts, es, t, id) ==>
            && id in end.On(t).pending
            && forall u: nat | u < sys.harts && InstanceOf(u) == InstanceOf(t) :: end.On(t).CanClaim(u, id) <==> u != s)
      && (RaisesOf(sys.harts, es, t, id) == 0 ==> ClaimsOf(es, t, id) + (if id in end.On(t).pending then 1 else 0) <= 1)
      && (RaisesOf(sys.harts, es, t, id) == 0 && Undislodged(sys.harts, es, t, id) ==>
            ClaimsOf(es, t, id) == if id in end.On(t).pending then 0 else 1)
      && (forall e | e in es && Takes(e, t, id) :: e.hart != s)
  {
    var id, raised := SourceId(s, t, irqType), Trigger(sys, s, t, irqType).0;
    TriggerIsDeliverable(sys, base, s, t, irqType, t);
    TableKept(sys, base, Raise(s, t, irqType));
    TablesKept(raised, base, es);
    TakersAreOthers(raised, base, es, s, t, irqType);
    OneClaimPerRaise(raised, es, t, id);
    PendingIff(raised, es, t, id);
    if RaisesOf(sys.harts, es, t, id) == 0 && Undislodged(sys.harts, es, t, id) {
      ClaimedOrPending(raised, es, t, id);
    }
    var end := AfterEvents(raised, es);
    forall u: nat | u < sys.harts && InstanceOf(u) == InstanceOf(t) && id in end.On(t).pending
      ensures end.On(t).CanClaim(u, id) <==> u != s
    {
      ClaimableByOthers(end, base, s, t, irqType, u);
    }
  }

  lemma SetUpIsValid(sys: Sys, base: Sys)
    requires SetUp(sys, base)
    ensures sys.Valid()
  {
  }

  /** With types of the enumeration, only another type of the same sender shares the word. */
  lemma DislodgesIff(harts: nat, e: Event, s: nat, t: nat, irqType: nat)
    requires s < harts <= 31 && irqType < 32 && (e.Raise? ==> e.irqType < 32)
    ensures Dislodges(harts, e, t, SourceId(s, t, irqType)) <==>
      Reaches(harts, e, t) && e.source == s && e.irqType != irqType
  {
    if Reaches(harts, e, t) {
      SourceIdParts(s, t, irqType);
      SourceIdParts(e.source, e.target, e.irqType);
      hide SourceId;
    }
  }

  lemma SourceIdParts(s: nat, t: nat, irqType: nat)
    requires s < 31 && irqType < 32
    ensures SourceId(s, t, irqType) == 32 * (s + 1) + irqType
    ensures SourceId(s, t, irqType) / 32 == s + 1
  {
  }

  // ---- C0's drain as a history ----

  /** What one round of the enhanced drain loop does to the banks. */
  function DrainEvents(harts: nat, id: nat): seq<Event> {
    [Take(0, id)]
    + (if IsSyncRequest(id) && Decode(id).hart < harts then [Raise(0, Decode(id).hart, IRQ_SYNC_RESPONSE)] else [])
    + [Complete(0, id)]
  }

  /** So everything above also holds of histories in which C0 drains. */
  lemma DrainStepIsHistory(sys: Sys, id: nat)
    requires sys.Valid() && sys.harts > 0 && sys.c0c1.IsWinner(0, id)
    ensures IsHistory(sys, DrainEvents(sys.harts, id))
    ensures
      var step, after := Step(Enhanced, sys, id), AfterEvents(sys, DrainEvents(sys.harts, id));
      step.c0c1 == after.c0c1 && step.nxy == after.nxy
  {
    if IsSyncRequest(id) && Decode(id).hart < sys.harts {
      AnsweringStep(sys, id);
    } else {
      SilentStep(sys, id);
    }
  }

  lemma AnsweringStep(sys: Sys, id: nat)
    requires sys.Valid() && sys.harts > 0 && sys.c0c1.IsWinner(0, id)
    requires IsSyncRequest(id) && Decode(id).hart < sys.harts
    ensures IsHistory(sys, DrainEvents(sys.harts, id))
    ensures Step(Enhanced, sys, id) == AfterEvents(sys, DrainEvents(sys.harts, id))
  {
    var response, end := Raise(0, Decode(id).hart, IRQ_SYNC_RESPONSE), [Complete(0, id)];
    WinnerIsTaken(sys, id);
    hide Trigger, Bank.IsWinner;
    var claimed := Next(sys, Take(0, id));
    var answered := Next(claimed, response);
    ConsEvent(answered, Complete(0, id), []);
    assert end + [] == end;
    ConsEvent(claimed, response, end);
    ConsEvent(sys, Take(0, id), [response] + end);
    assert DrainEvents(sys.harts, id) == [Take(0, id)] + ([response] + end);
  }

  lemma SilentStep(sys: Sys, id: nat)
    requires sys.Valid() && sys.harts > 0 && sys.c0c1.IsWinner(0, id)
    requires !(IsSyncRequest(id) && Decode(id).hart < sys.harts)
    ensures IsHistory(sys, DrainEvents(sys.harts, id))
    ensures
      var step, after := Step(Enhanced, sys, id), AfterEvents(sys, DrainEvents(sys.harts, id));
      step.c0c1 == after.c0c1 && step.nxy == after.nxy
  {
    var end := [Complete(0, id)];
    WinnerIsTaken(sys, id);
    hide Trigger, Bank.IsWinner;
    ConsEvent(Next(sys, Take(0, id)), Complete(0, id), []);
    assert end + [] == end;
    ConsEvent(sys, Take(0, id), end);
    assert DrainEvents(sys.harts, id) == [Take(0, id)] + end;
  }

  lemma WinnerIsTaken(sys: Sys, id: nat)
    requires sys.Valid() && sys.harts > 0 && sys.c0c1.IsWinner(0, id)
    ensures Occurs(sys, Take(0, id)) && Next(sys, Take(0, id)) == sys.(c0c1 := sys.c0c1.Claim(0, id))
  {
    assert id in sys.c0c1.pending;
  }

  lemma ConsEvent(sys: Sys, e: Event, rest: seq<Event>)
    requires sys.Valid() && Occurs(sys, e) && IsHistory(Next(sys, e), rest)
    ensures IsHistory(sys, [e] + rest) && AfterEvents(sys, [e] + rest) == AfterEvents(Next(sys, e), rest)
  {
    hide Occurs, Next;
    assert ([e] + rest)[1..] == rest;
  }

  // ---- draining with setup's tables ----

  /** With setup's tables hart 0 is quiet on its own ids, whatever is pending. */
  lemma SetUpIsQuiet(sys: Sys, base: Sys)
    requires SetUp(sys, base)
    ensures QuietOnOwnIds(sys)
  {
    SetupIsQuiet(base.(c0c1 := base.c0c1.(pending := sys.c0c1.pending)));
  }

  /**
    From any state with setup's tables the enhanced drain sorts what is claimable, leaves nothing, and answers
    every claimable sync request.
  */
  lemma DrainSortsAfterSetup(sys: Sys, base: Sys, log: seq<nat>, after: Sys)
    requires SetUp(sys, base) && IsDrain(Enhanced, sys, log, after)
    ensures Members(log) == sys.c0c1.Claimable(0) && InDeliveryOrder(sys.c0c1, log)
    ensures after.c0c1.Claimable(0) == {}
    ensures forall id: nat, hart: nat |
      id in sys.c0c1.Claimable(0) && IsSyncRequestFrom(id, hart) && 0 < hart < sys.harts ::
      SourceId(0, hart, IRQ_SYNC_RESPONSE) in after.On(hart).pending
  {
    SetUpIsQuiet(sys, base);
    DrainSorts(Enhanced, sys, log, after);
    hide SetUp, IsDrain, QuietOnOwnIds;
    assert sys.harts <= 8 by {
      SetUpIsSmall(sys, base);
    }
    forall id: nat, hart: nat | id in sys.c0c1.Claimable(0) && IsSyncRequestFrom(id, hart) && 0 < hart < sys.harts
      ensures SourceId(0, hart, IRQ_SYNC_RESPONSE) in after.On(hart).pending
    {
      DrainAnswersSyncRequests(sys, log, after, id, hart);
    }
  }

  lemma SetUpIsSmall(sys: Sys, base: Sys)
    requires SetUp(sys, base)
    ensures sys.harts <= 8
  {
  }
}
