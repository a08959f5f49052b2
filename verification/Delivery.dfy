/** From a trigger to the hart that claims it, on a platform whose table was built by setup. */
module Delivery {
  import opened Words
  import opened PlicBank
  import opened InterruptProtocol
  import opened SetupTable

  /** Freshly allocated register banks. */
  ghost predicate Zeroed(b: Bank)
    requires b.Valid()
  {
    && b.pending == {}
    && (forall t | 0 <= t < TARGETS :: b.enabled[t] == {})
    && (forall s | IsSource(s) :: b.prio[s - 1] == ZERO)
  }

  ghost predicate Fresh(sys: Sys) {
    sys.Valid() && sys.harts <= 8 && Zeroed(sys.c0c1) && Zeroed(sys.nxy)
  }

  /** On a fresh platform setup enables the ids of hart `s` for exactly the other harts. */
  lemma EnabledForOthers(sys: Sys, s: nat, t: nat, irqType: nat, u: nat)
    requires Fresh(sys) && s < sys.harts && s != t && Supported(irqType) && u < sys.harts
    ensures SourceId(s, t, irqType) in AfterSetup(sys).On(u).enabled[u] <==> u != s
  {
  }

  /**
    The finished tables on a fresh platform, in numbers: hart t < 2 on the first bank and any other on the second
    listens to id 32 + 32 s + k for exactly the harts s other than itself and the types k = 20 and 22 to 28, with
    threshold 1; on the other bank it listens to nothing.
  */
  lemma FreshTable(sys: Sys, t: nat, x: nat)
    requires Fresh(sys) && t < sys.harts
    ensures
      var after := AfterSetup(sys);
      var wanted := 32 <= x <= 1023 && (x - 32) / 32 < sys.harts && (x - 32) / 32 != t
        && (x - 32) % 32 in {20, 22, 23, 24, 25, 26, 27, 28};
      && (x in after.c0c1.enabled[t] <==> t < 2 && wanted)
      && (x in after.nxy.enabled[t] <==> t >= 2 && wanted)
      && (if t < 2 then after.c0c1 else after.nxy).Threshold(t) == 1
  {
    SetupLeavesTheRest(sys, t);
    if x >= 32 {
      SupportedTypes((x - 32) % 32, 0);
    }
  }

  /** Setup gives every supported id a priority above the threshold it sets. */
  lemma AboveThreshold(sys: Sys, s: nat, t: nat, irqType: nat, u: nat)
    requires Fresh(sys) && s < sys.harts && t < sys.harts && s != t && Supported(irqType)
    requires u < sys.harts && InstanceOf(u) == InstanceOf(t)
    ensures
      var b := AfterSetup(sys).On(t);
      && IsSource(SourceId(s, t, irqType))
      && b.Priority(SourceId(s, t, irqType)) > b.Threshold(u)
  {
    DecodeInvertsSourceIdIff(s, t, irqType);
    assert IsSource(SourceId(s, t, irqType));
    SetupLeavesTheRest(sys, u);
    SetupPriorityNumbers(sys, s, t, irqType);
  }

  ghost predicate SameTable(a: Bank, b: Bank) {
    a.enabled == b.enabled && a.prio == b.prio && a.threshold == b.threshold
  }

  /** The tables are those that setup made of fresh banks; anything may be pending or claimed. */
  ghost predicate SetUp(sys: Sys, base: Sys) {
    && Fresh(base) && sys.Valid() && sys.harts == base.harts
    && SameTable(sys.c0c1, AfterSetup(base).c0c1) && SameTable(sys.nxy, AfterSetup(base).nxy)
  }

  /**
    A supported trigger is accepted whatever is pending or claimed, becomes pending at the target's instance,
    decodes back to its sender and type, and can be claimed by every hart of that instance except the sender.
  */
  lemma TriggerIsDeliverable(sys: Sys, base: Sys, s: nat, t: nat, irqType: nat, u: nat)
    requires SetUp(sys, base) && s < sys.harts && t < sys.harts && s != t && Supported(irqType)
    requires u < sys.harts && InstanceOf(u) == InstanceOf(t)
    ensures
      var id := SourceId(s, t, irqType);
      var (after, r) := Trigger(sys, s, t, irqType);
      && r == 1
      && id >= SOURCE_BASE_ID && Decode(id) == Decoded(s, irqType)
      && id in after.On(t).pending
      && (after.On(t).CanClaim(u, id) <==> u != s)
  {
    DecodeInvertsSourceIdIff(s, t, irqType);
    ClaimableByOthers(sys, base, s, t, irqType, u);
    TriggerRaises(sys, s, t, irqType, u);
  }

  /** On such tables a pending supported id can be claimed by exactly the harts other than its sender. */
  lemma ClaimableByOthers(sys: Sys, base: Sys, s: nat, t: nat, irqType: nat, u: nat)
    requires SetUp(sys, base) && s < sys.harts && t < sys.harts && s != t && Supported(irqType)
    requires u < sys.harts && InstanceOf(u) == InstanceOf(t)
    ensures IsSource(SourceId(s, t, irqType))
    ensures SourceId(s, t, irqType) in sys.On(t).enabled[u] <==> u != s
    ensures sys.On(t).Priority(SourceId(s, t, irqType)) > sys.On(t).Threshold(u)
  {
    EnabledForOthers(base, s, t, irqType, u);
    AboveThreshold(base, s, t, irqType, u);
    hide AfterSetup;
  }

  lemma TriggerRaises(sys: Sys, s: nat, t: nat, irqType: nat, u: nat)
    requires sys.Valid() && s < sys.harts && t < sys.harts <= 8 && s != t && irqType < 32 && u < TARGETS
    requires IsSource(SourceId(s, t, irqType))
    ensures
      var id := SourceId(s, t, irqType);
      var (after, r) := Trigger(sys, s, t, irqType);
      && r == 1
      && id in after.On(t).pending
      && (after.On(t).CanClaim(u, id) <==>
            id in sys.On(t).enabled[u] && sys.On(t).Priority(id) > sys.On(t).Threshold(u))
  {
  }

  /** The meant claim, "only the target can take it", holds exactly when no third hart shares its instance. */
  lemma OnlyTargetClaimsIff(sys: Sys, base: Sys, s: nat, t: nat, irqType: nat)
    requires SetUp(sys, base) && s < sys.harts && t < sys.harts && s != t && Supported(irqType)
    ensures
      var id := SourceId(s, t, irqType);
      var after := Trigger(sys, s, t, irqType).0;
      (forall u: nat | u < sys.harts && InstanceOf(u) == InstanceOf(t) && after.On(t).CanClaim(u, id) :: u == t) <==>
      (forall u: nat | u < sys.harts && InstanceOf(u) == InstanceOf(t) :: u == t || u == s)
  {
    forall u: nat | u < sys.harts && InstanceOf(u) == InstanceOf(t)
      ensures Trigger(sys, s, t, irqType).0.On(t).CanClaim(u, SourceId(s, t, irqType)) <==> u != s
    {
      TriggerIsDeliverable(sys, base, s, t, irqType, u);
    }
  }

  /**
    The result of a trigger: harts that do not exist, a hart to itself, an id that does not fit, a target without a
    bank, or success, in this order; only success changes anything, and then only the target's pending word.
  */
  lemma TriggerCodes(sys: Sys, s: nat, t: nat, irqType: nat)
    requires sys.Valid()
    ensures
      var (after, r) := Trigger(sys, s, t, irqType);
      var id := (32 + 32 * s + irqType) % 0x1_0000_0000;
      && (r == -1 <==> s >= sys.harts || t >= sys.harts)
      && (r == -2 <==> s < sys.harts && t < sys.harts && s == t)
      && (r == -3 <==> s < sys.harts && t < sys.harts && s != t && (id == 0 || id > 1023))
      && (r == -4 <==> s < sys.harts && t < sys.harts && s != t && 0 < id <= 1023 && t >= 8)
      && (r == 1 <==> s < sys.harts && t < sys.harts && s != t && 0 < id <= 1023 && t < 8)
      && (r != 1 ==> after == sys)
      && (r == 1 ==> after == sys.With(t, sys.On(t).(
            pending := (set x | x in sys.On(t).pending && x / 32 != id / 32) + {id})))
  {
  }

  /** Harts 0 and 1 share one bank and harts 2 to 7 the other: a trigger changes the target's bank only. */
  lemma TriggerStaysOnBank(sys: Sys, s: nat, t: nat, irqType: nat)
    requires sys.Valid()
    ensures
      var (after, r) := Trigger(sys, s, t, irqType);
      && (t < 2 ==> after.nxy == sys.nxy)
      && (t >= 2 ==> after.c0c1 == sys.c0c1)
      && (r == 1 && t < 2 ==> SourceId(s, t, irqType) in after.c0c1.pending)
      && (r == 1 && t >= 2 ==> SourceId(s, t, irqType) in after.nxy.pending)
  {
  }

  /**
    So on the full platform a trigger of hart t can be claimed by hart 0 or 1 (but not its sender) for t < 2 and by
    harts 2 to 7 otherwise, and only the target can take it exactly between harts 0 and 1.
  */
  lemma ClaimantsOnEightHarts(sys: Sys, base: Sys, s: nat, t: nat, irqType: nat)
    requires SetUp(sys, base) && sys.harts == 8 && s < 8 && t < 8 && s != t && Supported(irqType)
    ensures
      var id, after := SourceId(s, t, irqType), Trigger(sys, s, t, irqType).0;
      && (t < 2 ==> forall u: nat | u < 2 :: after.c0c1.CanClaim(u, id) <==> u != s)
      && (t >= 2 ==> forall u: nat | 2 <= u < 8 :: after.nxy.CanClaim(u, id) <==> u != s)
      && ((forall u: nat | u < 8 && InstanceOf(u) == InstanceOf(t) && after.On(t).CanClaim(u, id) :: u == t) <==>
          {s, t} == {0, 1})
  {
    OnlyTargetClaimsIff(sys, base, s, t, irqType);
    forall u: nat | u < 8 && InstanceOf(u) == InstanceOf(t)
      ensures Trigger(sys, s, t, irqType).0.On(t).CanClaim(u, SourceId(s, t, irqType)) <==> u != s
    {
      TriggerIsDeliverable(sys, base, s, t, irqType, u);
    }
    ThirdHartOnBank(s, t);
  }

  lemma ThirdHartOnBank(s: nat, t: nat)
    requires s < 8 && t < 8 && s != t
    ensures (forall u: nat | u < 8 && InstanceOf(u) == InstanceOf(t) :: u == t || u == s) <==> {s, t} == {0, 1}
  {
    if t < 2 {
      assert InstanceOf(0) == InstanceOf(1) == InstanceOf(t);
      assert {s, t} == {0, 1} ==> s in {0, 1};
      assert 0 in {s, t} && 1 in {s, t} ==> {s, t} == {0, 1};
    } else {
      assert t in {s, t} && t !in {0, 1};
      var u := if t != 2 && s != 2 then 2 else if t != 3 && s != 3 then 3 else 4;
      assert InstanceOf(u) == InstanceOf(t);
    }
  }

  /** On the full platform a trigger from hart 2 to hart 0 can be taken by hart 1 instead. */
  lemma WrongHartCanClaim(sys: Sys)
    requires Fresh(sys) && sys.harts == 8
    ensures Trigger(AfterSetup(sys), 2, 0, IRQ_TASK_COMPLETE).0.c0c1.CanClaim(1, SourceId(2, 0, IRQ_TASK_COMPLETE))
  {
    TriggerIsDeliverable(AfterSetup(sys), sys, 2, 0, IRQ_TASK_COMPLETE, 1);
  }

  /** A pending interrupt survives another trigger unless its own sender raises another type there. */
  lemma PendingSurvivesTriggerIff(sys: Sys, s: nat, t: nat, irqType: nat, s': nat, t': nat, irqType': nat)
    requires sys.Valid() && s < 31 && s' < 31 && irqType < 32 && irqType' < 32
    requires SourceId(s, t, irqType) in sys.On(t).pending
    requires Trigger(sys, s', t', irqType').1 == 1
    ensures
      SourceId(s, t, irqType) in Trigger(sys, s', t', irqType').0.On(t).pending <==>
        !(s' == s && InstanceOf(t') == InstanceOf(t) && irqType' != irqType)
  {
    DecodeInvertsSourceIdIff(s, t, irqType);
    DecodeInvertsSourceIdIff(s', t', irqType');
    var id, id' := SourceId(s, t, irqType), SourceId(s', t', irqType');
    assert id / 32 == s + 1 && id' / 32 == s' + 1;
  }

  /** A claim takes the interrupt away from every hart, and takes no other interrupt away. */
  lemma ClaimIsExclusive(b: Bank, u: nat, w: nat, v: nat, x: nat)
    requires b.Valid() && u < TARGETS && v < TARGETS && b.IsWinner(u, w)
    ensures b.Claim(u, w).CanClaim(v, x) <==> x != w && b.CanClaim(v, x)
  {
  }

  // ---- inputs on which single-id updates lose others ----

  /** After setup hart 1 reports a finished task and then an error to hart 0: the first report is lost unclaimed. */
  lemma SecondTriggerDropsFirst(base: Sys)
    requires Fresh(base) && base.harts == 8
    ensures
      var id := SourceId(1, 0, IRQ_TASK_COMPLETE);
      var (first, r1) := Trigger(AfterSetup(base), 1, 0, IRQ_TASK_COMPLETE);
      var (second, r2) := Trigger(first, 1, 0, IRQ_ERROR_REPORT);
      && r1 == r2 == 1
      && id in first.c0c1.pending && first.c0c1.CanClaim(0, id)
      && id !in second.c0c1.pending
  {
    TriggerIsDeliverable(AfterSetup(base), base, 1, 0, IRQ_TASK_COMPLETE, 0);
    var first := Trigger(AfterSetup(base), 1, 0, IRQ_TASK_COMPLETE).0;
    hide AfterSetup;
    PendingSurvivesTriggerIff(first, 1, 0, IRQ_TASK_COMPLETE, 1, 0, IRQ_ERROR_REPORT);
  }

  /** After setup hart 0 listens to all eight types of hart 1; disabling one of them disables all. */
  lemma DisablingOneDisablesAll(base: Sys, irqType: nat)
    requires Fresh(base) && base.harts == 8 && Supported(irqType)
    ensures
      var b := AfterSetup(base).c0c1;
      && SourceId(1, 0, irqType) in b.enabled[0]
      && SourceId(1, 0, irqType) !in b.ClearEnables(0, SourceId(1, 0, IRQ_TASK_COMPLETE)).enabled[0]
  {
    EnabledForOthers(base, 1, 0, irqType, 0);
    hide AfterSetup;
  }
}
