/** The register banks of the platform and C0's use of them, updated in place. */
module InterruptSystem {
  import opened Words
  import opened PlicBank
  import opened PlicRegisters
  import opened InterruptProtocol
  import opened SetupTable
  import opened DrainProtocol

  class Platform {
    const harts: nat            // NR_HARTS
    const c0c1: PlicRegs        // PLIC_INST[0]
    const nxy: PlicRegs         // PLIC_INST[1]
    var active: int             // active_tasks
    var completed: int          // completed_tasks

    ghost predicate Valid() {
      && c0c1.Valid() && nxy.Valid()
      && c0c1.Footprint() !! nxy.Footprint()
    }

    ghost function Registers(): set<object> {
      c0c1.Footprint() + nxy.Footprint()
    }

    ghost function View(): (sys: Sys)
      requires Valid()
      reads this, Registers()
      ensures sys.Valid()
    {
      Sys(harts, c0c1.View(), nxy.View(), active, completed)
    }

    constructor (harts: nat)
      ensures Valid() && fresh(Registers()) && this.harts == harts
      ensures View().completed == 0 && View().active == 0
      ensures View().c0c1.pending == View().nxy.pending == {}
      ensures forall t | 0 <= t < TARGETS :: View().c0c1.enabled[t] == View().nxy.enabled[t] == {}
      ensures forall s | IsSource(s) :: View().c0c1.prio[s - 1] == View().nxy.prio[s - 1] == ZERO
    {
      this.harts := harts;
      c0c1 := new PlicRegs();
      nxy := new PlicRegs();
      active, completed := 0, 0;
    }

    /** plic_select */
    method Select(hart: nat) returns (plic: PlicRegs?, local: nat)
      requires Valid()
      ensures hart < 2 ==> plic == c0c1 && local == hart
      ensures 2 <= hart < 8 ==> plic == nxy && local == hart
      ensures hart >= 8 ==> plic == null && local == 0
    {
      if hart < 8 {
        plic := if hart < 2 then c0c1 else nxy;
        local := hart;
      } else {
        plic, local := null, 0;
      }
    }

    /** PLIC_set_threshold, PLIC_enable_interrupt and PLIC_set_priority use the selected bank unchecked. */
    method SetThreshold(hart: nat, value: Word)
      requires Valid() && hart < 8
      modifies c0c1.threshold, nxy.threshold
      ensures
        var b := old(View()).On(hart);
        View() == old(View()).With(hart, b.SetThreshold(hart, value))
    {
      hide Ids;
      var plic, local := Select(hart);
      var _ := plic.ThresholdWrite(local, value);
    }

    method EnableInterrupt(id: nat, hart: nat)
      requires Valid() && hart < 8
      modifies c0c1.enables, nxy.enables
      ensures
        var b := old(View()).On(hart);
        View() == old(View()).With(hart, b.Enable(hart, id))
    {
      var plic, local := Select(hart);
      var _ := plic.Enable(local, id);
    }

    method SetPriority(id: nat, hart: nat, priority: Word)
      requires Valid() && hart < 8
      modifies c0c1.sprio, nxy.sprio
      ensures
        var b := old(View()).On(hart);
        View() == old(View()).With(hart, if IsSource(id) then b.AddPriority(id, priority) else b)
    {
      var plic, local := Select(hart);
      var _ := plic.PrioritySet(id, priority);
    }

    /** PLIC_setup_bidirectional_interrupts */
    method Setup()
      requires Valid() && harts <= 8
      modifies Registers()
      ensures View() == AfterSetup(old(View()))
    {
      ghost var was := View();
      BankUpToStart(was.c0c1, 0, harts);
      BankUpToStart(was.nxy, 1, harts);
      for target := 0 to harts
        invariant View() == SetupUpTo(was, target, target, 0, 0)
      {
        ConfigureTarget(was, target);
      }
    }

    /** One round of setup's outer loop. */
    method ConfigureTarget(ghost was: Sys, target: nat)
      requires Valid() && was.Valid() && was.harts == harts <= 8 && target < harts
      requires View() == SetupUpTo(was, target, target, 0, 0)
      modifies Registers()
      ensures View() == SetupUpTo(was, target + 1, target + 1, 0, 0)
    {
      hide View, SetupUpTo;
      ThresholdAdvances(was, target);
      SetThreshold(target, Mask(0));
      for source := 0 to harts
        invariant View() == SetupUpTo(was, target + 1, target, source, 0)
      {
        SetupMovesOn(was, target + 1, target, source);
        if source == target {
          continue;
        }
        for k := 0 to 8
          invariant View() == SetupUpTo(was, target + 1, target, source, k)
        {
          ConfigureType(was, target, source, k);
        }
      }
      SetupMovesOn(was, target + 1, target, harts);
    }

    /** One round of setup's innermost loop. */
    method ConfigureType(ghost was: Sys, target: nat, source: nat, k: nat)
      requires Valid() && was.Valid() && was.harts == harts <= 8
      requires target < harts && source < harts && source != target && k < 8
      requires View() == SetupUpTo(was, target + 1, target, source, k)
      modifies Registers()
      ensures View() == SetupUpTo(was, target + 1, target, source, k + 1)
    {
      BankAdvances(was.c0c1, 0, harts, target + 1, target, source, k);
      BankAdvances(was.nxy, 1, harts, target + 1, target, source, k);
      ReachedAdvances(harts, target, source, k, target, 0);
      PrioritiesFit(TypeAt(k));
      var irqType := TypeAt(k);
      var id := SourceId(source, target, irqType);
      if id > 0 {
        EnableInterrupt(id, target);
        SetPriority(id, target, TypePriority(irqType));
      }
    }

    /** PLIC_trigger_typed_interrupt */
    method TriggerTyped(source: nat, target: nat, irqType: nat) returns (r: int)
      requires Valid()
      modifies c0c1.pending, nxy.pending
      ensures (View(), r) == Trigger(old(View()), source, target, irqType)
      ensures source >= harts || target >= harts <==> r == -1
      ensures r != -1 ==> (source == target <==> r == -2)
      ensures r == 1 ==> target < 8 && source != target
      ensures r != 1 ==> View() == old(View())
      ensures target < 2 ==> nxy.View() == old(nxy.View())
      ensures target >= 2 ==> c0c1.View() == old(c0c1.View())
    {
      if source >= harts || target >= harts {
        return -1;
      }
      if source == target {
        return -2;
      }
      var id := SourceId(source, target, irqType);
      if id == 0 {
        return -3;
      }
      if target >= 8 {
        return -4;
      }
      var plic, _ := Select(target);
      r := plic.PendingWrite(id);
    }

    /** handle_enhanced_plic_interrupt */
    method HandleTyped(hart: nat, irqType: nat)
      requires Valid()
      modifies this, c0c1.pending, nxy.pending
      ensures View() == HandleEnhanced(old(View()), hart, irqType)
      ensures completed == old(completed) + if irqType in {24, 25, 26, 28} then 0 else 1
      ensures active == old(active) - if irqType == 22 && old(active) > 0 then 1 else 0
      ensures irqType != 26 ==> c0c1.View() == old(c0c1.View()) && nxy.View() == old(nxy.View())
      ensures irqType == 26 ==>
        View() == Trigger(old(View()), 0, hart, 27).0.(active := old(active), completed := old(completed))
    {
      if irqType == IRQ_TASK_COMPLETE {
        completed := completed + 1;
        if active > 0 {
          active := active - 1;
        }
      } else if irqType == IRQ_ERROR_REPORT {
      } else if irqType == IRQ_SYNC_REQUEST {
        var _ := TriggerTyped(0, hart, IRQ_SYNC_RESPONSE);
      } else if irqType == IRQ_SHUTDOWN_REQUEST {
      } else if irqType == IRQ_DMA_COMPLETE {
      } else {
        completed := completed + 1;
      }
    }

    /** The decoding and handling part of a drain loop's body. */
    method DecodeAndHandle(loop: Loop, id: nat)
      requires Valid()
      modifies this, c0c1.pending, nxy.pending
      ensures View() == Handle(loop, old(View()), id)
    {
      match loop {
        case Enhanced =>
          if id >= SOURCE_BASE_ID {
            var decoded := Decode(id);
            if decoded.hart < harts {
              HandleTyped(decoded.hart, decoded.irqType);
            }
          }
        case Legacy =>
          if LegacyDecode(id, harts) >= 0 {
            completed := completed + 1;
          }
      }
    }

    /** The body of a drain loop, from a claimed interrupt to its completion. */
    method Serve(loop: Loop, ghost now: Sys, id: nat)
      requires Valid() && now.Valid() && View() == now.(c0c1 := now.c0c1.Claim(0, id))
      modifies this, c0c1.pending, nxy.pending, c0c1.claimComp
      ensures View() == Step(loop, now, id)
    {
      DecodeAndHandle(loop, id);
      var _ := c0c1.CompleteWrite(0, id);
    }

    /** The claim at the start and the end of a drain loop's body. */
    method NextClaim() returns (id: nat)
      requires Valid()
      modifies c0c1.pending, c0c1.claimComp
      ensures ClaimOutcome(old(View()), View(), id)
    {
      id := c0c1.ClaimRead(0);
    }

    /** c0_process_enhanced_plic_interrupts and c0_process_plic_interrupts; the log records the claims. */
    method ProcessInterrupts(loop: Loop) returns (processed: nat, ghost log: seq<nat>)
      requires Valid()
      modifies this, c0c1.pending, nxy.pending, c0c1.claimComp
      ensures IsDrain(loop, old(View()), log, View())
      ensures processed == |log|
    {
      hide View, Step;
      ghost var was := View();
      ghost var now := was;
      log, processed := [], 0;
      var id := NextClaim();
      while id > 0
        invariant now.Valid() && ClaimedInTurn(loop, was, log) && now == Replay(loop, was, log)
        invariant ClaimOutcome(now, View(), id)
        invariant processed == |log|
        decreases Backlog(now)
      {
        Serve(loop, now, id);
        BacklogShrinks(loop, now, id);
        ReplayPrefix(loop, was, log, id);
        now, log := Step(loop, now, id), log + [id];
        processed := processed + 1;
        id := NextClaim();
      }
    }
  }

  /** Hart 0's claim in state `now` returned `id` and left `after`. */
  ghost predicate ClaimOutcome(now: Sys, after: Sys, id: nat)
    requires now.Valid()
  {
    if id == 0 then
      after == now && now.c0c1.Claimable(0) == {}
    else
      now.c0c1.IsWinner(0, id) && after == now.(c0c1 := now.c0c1.Claim(0, id))
  }
}
