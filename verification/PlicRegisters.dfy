/** One memory-mapped bank of interrupt-controller registers and the accessors that update it. */
module PlicRegisters {
  import opened Words
  import opened PlicBank

  class PlicRegs {
    const sprio: array<Word>        // sprio_regs
    const pending: array<Word>      // pending_regs
    const enables: array2<Word>     // teregs[target].regs[index]
    const threshold: array<Word>    // tpcregs[target].tar_prio_thres
    const claimComp: array<nat>     // tpcregs[target].tar_claim_comp

    ghost predicate Valid() {
      && sprio.Length == LAST_SOURCE
      && pending.Length == 32
      && enables.Length0 == TARGETS && enables.Length1 == 32
      && threshold.Length == TARGETS
      && claimComp.Length == TARGETS
      && sprio != pending && sprio != threshold && pending != threshold
    }

    ghost function Footprint(): set<object> {
      {sprio, pending, enables, threshold, claimComp}
    }

    ghost function EnableRow(target: nat): (row: seq<Word>)
      requires Valid() && target < TARGETS
      reads enables
      ensures |row| == 32 && forall i | 0 <= i < 32 :: row[i] == enables[target, i]
    {
      seq(32, i requires 0 <= i < 32 reads enables => enables[target, i])
    }

    ghost function EnabledIds(): (e: seq<set<nat>>)
      requires Valid()
      reads enables
      ensures |e| == TARGETS && forall t | 0 <= t < TARGETS :: e[t] == Ids(EnableRow(t))
    {
      seq(TARGETS, t requires 0 <= t < TARGETS reads enables => Ids(EnableRow(t)))
    }

    /** The bank these registers stand for. */
    ghost function View(): (b: Bank)
      requires Valid()
      reads Footprint()
      ensures b.Valid()
    {
      Bank(Ids(pending[..]), EnabledIds(), sprio[..], threshold[..], claimComp[..])
    }

    /** Freshly allocated, zeroed registers. */
    constructor ()
      ensures Valid() && fresh(Footprint())
      ensures View().pending == {}
      ensures forall t | 0 <= t < TARGETS :: View().enabled[t] == {}
      ensures forall s | IsSource(s) :: View().prio[s - 1] == ZERO
      ensures forall t | 0 <= t < TARGETS :: View().threshold[t] == ZERO && View().claimed[t] == 0
    {
      sprio := new Word[LAST_SOURCE](_ => ZERO);
      pending := new Word[32](_ => ZERO);
      enables := new Word[TARGETS, 32]((_, _) => ZERO);
      threshold := new Word[TARGETS](_ => ZERO);
      claimComp := new nat[TARGETS](_ => 0);
    }

    /** PLIC_N_priority_set: the register accumulates the low eight bits, it is not assigned. */
    method PrioritySet(source: nat, priority: Word) returns (r: int)
      requires Valid()
      modifies sprio
      ensures !IsSource(source) ==> r == -1 && View() == old(View())
      ensures IsSource(source) ==>
        r == 1 && View() == old(View()).AddPriority(source, priority)
      ensures 1 <= source <= 1023 ==>
        forall bit: nat :: bit in sprio[source - 1] <==> bit in old(sprio[source - 1]) || (bit < 8 && bit in priority)
      ensures forall i | 0 <= i < sprio.Length && i != source - 1 :: sprio[i] == old(sprio[i])
    {
      if source <= 0 || source > 1023 {
        return -1;
      }
      sprio[source - 1] := Or(sprio[source - 1], And(priority, LowBits(8)));
      return 1;
    }

    /** PLIC_N_source_pending_read, whose non-zero value is the pending bit. */
    method PendingRead(source: nat) returns (r: int)
      requires Valid()
      ensures r == -1 <==> !IsSource(source)
      ensures IsSource(source) ==> (r != 0 <==> source in View().pending)
    {
      if source <= 0 || source > 1023 {
        return -1;
      }
      var word := And(pending[source / 32], Mask(source % 32));
      r := Value(word);
      ValueOfOneBit(word, source % 32);
    }

    /** PLIC_N_source_pending_write: the whole word is assigned. */
    method PendingWrite(source: nat) returns (r: int)
      requires Valid()
      modifies pending
      ensures !IsSource(source) ==> r == -1 && View() == old(View())
      ensures IsSource(source) ==> r == 1 && View() == old(View()).AssignPending(source)
      ensures 1 <= source <= 1023 ==> pending[..] == old(pending[..])[source / 32 := {source % 32}]
    {
      if source <= 0 || source > 1023 {
        return -1;
      }
      AssignReplacesWord(pending[..], source);
      ghost var words := pending[..];
      pending[source / 32] := Mask(source % 32);
      assert pending[..] == words[source / 32 := Mask(source % 32)];
      return 1;
    }

    /** PLIC_M_TAR_enable */
    method Enable(target: nat, source: nat) returns (r: int)
      requires Valid()
      modifies enables
      ensures target >= TARGETS || !IsSource(source) ==> r == -1 && View() == old(View())
      ensures target < TARGETS && IsSource(source) ==> r == 1 && View() == old(View()).Enable(target, source)
      ensures target < 16 && 1 <= source <= 1023 ==>
        enables[target, source / 32] == old(enables[target, source / 32]) + {source % 32}
    {
      if target > 15 || source <= 0 || source > 1023 {
        return -1;
      }
      ghost var was := View();
      ghost var row := EnableRow(target);
      OrInserts(row, source);
      label before:
      enables[target, source / 32] := Or(enables[target, source / 32], Mask(source % 32));
      assert EnableRow(target) == row[source / 32 := Or(row[source / 32], Mask(source % 32))];
      OtherRowsKept@before(target);
      assert View().enabled == was.enabled[target := was.enabled[target] + {source}];
      return 1;
    }

    /** PLIC_M_TAR_disable: the mask is negated logically, so the whole word is cleared. */
    method Disable(target: nat, source: nat) returns (r: int)
      requires Valid()
      modifies enables
      ensures target >= TARGETS || !IsSource(source) ==> r == -1 && View() == old(View())
      ensures target < TARGETS && IsSource(source) ==>
        r == 1 && View() == old(View()).ClearEnables(target, source)
      ensures target < 16 && 1 <= source <= 1023 ==> enables[target, source / 32] == {}
    {
      if target > 15 || source <= 0 || source > 1023 {
        return -1;
      }
      ghost var was := View();
      ghost var row := EnableRow(target);
      AndLogicalNotClearsWord(row, source);
      label before:
      enables[target, source / 32] := And(enables[target, source / 32], LogicalNot(Mask(source % 32)));
      assert EnableRow(target) == row[source / 32 := And(row[source / 32], LogicalNot(Mask(source % 32)))];
      OtherRowsKept@before(target);
      assert View().enabled == was.enabled[target := was.enabled[target] - WordMates(source)];
      return 1;
    }

    twostate lemma OtherRowsKept(target: nat)
      requires Valid() && target < TARGETS
      requires forall t, i | 0 <= t < TARGETS && t != target && 0 <= i < 32 :: enables[t, i] == old(enables[t, i])
      ensures forall t | 0 <= t < TARGETS && t != target :: EnableRow(t) == old(EnableRow(t))
    {
    }

    /** PLIC_M_TAR_thre_write, whose target parameter has eight bits. */
    method ThresholdWrite(target: nat, value: Word) returns (r: int)
      requires Valid()
      modifies threshold
      ensures target % 256 >= TARGETS ==> r == -1 && View() == old(View())
      ensures target % 256 < TARGETS ==> r == 1 && View() == old(View()).SetThreshold(target % 256, value)
      ensures target % 256 < 16 ==> forall bit: nat :: bit in threshold[target % 256] <==> bit < 16 && bit in value
    {
      var tar := target % 256;
      if tar > 15 {
        return -1;
      }
      threshold[tar] := And(value, LowBits(16));
      return 1;
    }

    /** PLIC_M_TAR_comp_write */
    method CompleteWrite(target: nat, id: nat) returns (r: int)
      requires Valid()
      modifies claimComp
      ensures target >= TARGETS ==> r == -1 && View() == old(View())
      ensures target < TARGETS ==>
        r == 1 && View() == old(View()).(claimed := old(View()).claimed[target := id])
      ensures target < 16 ==> claimComp[..] == old(claimComp[..])[target := id]
    {
      if target > 15 {
        return -1;
      }
      claimComp[target] := id;
      return 1;
    }

    lemma CanClaimBits(target: nat, source: nat)
      requires Valid() && target < TARGETS && IsSource(source)
      ensures View().CanClaim(target, source) <==>
        && source % 32 in pending[source / 32]
        && source % 32 in enables[target, source / 32]
        && Value(And(sprio[source - 1], LowBits(8))) > Value(And(threshold[target], LowBits(16)))
    {
    }

    /** The scan of PLIC_M_TAR_claim_read over every source; 0 when nothing can be claimed. */
    method ScanForWinner(target: nat) returns (best: nat)
      requires Valid() && target < TARGETS
      ensures best == 0 <==> View().Claimable(target) == {}
      ensures best > 0 ==> View().IsWinner(target, best)
    {
      ghost var b := View();
      var limit := Value(And(threshold[target], LowBits(16)));
      best := 0;
      var bestPriority := 0;
      for source := 1 to 1024
        invariant b.BestBelow(target, source, best)
        invariant bestPriority == if best == 0 then 0 else b.Priority(best)
      {
        CanClaimBits(target, source);
        BestBelowStep(b, target, source, best);
        if source % 32 !in pending[source / 32] {
          continue;
        }
        if source % 32 !in enables[target, source / 32] {
          continue;
        }
        var priority := Value(And(sprio[source - 1], LowBits(8)));
        if priority > limit && priority > bestPriority {
          best := source;
          bestPriority := priority;
        }
      }
      BestBelowAll(b, target, best);
    }

    /** The step of PLIC_M_TAR_claim_read that clears the winner's pending bit. */
    method ClearPending(source: nat)
      requires Valid() && IsSource(source)
      modifies pending
      ensures View() == old(View()).(pending := old(View()).pending - {source})
    {
      AndComplementRemoves(pending[..], source);
      ghost var words := pending[..];
      pending[source / 32] := And(pending[source / 32], Complement(Mask(source % 32)));
      assert pending[..] == words[source / 32 := And(words[source / 32], Complement(Mask(source % 32)))];
    }

    /** PLIC_M_TAR_claim_read: finds the winner and clears its pending bit. */
    method ClaimRead(target: nat) returns (best: int)
      requires Valid()
      modifies pending, claimComp
      ensures target >= TARGETS ==> best == -1 && View() == old(View())
      ensures target < TARGETS ==> best >= 0 && (best == 0 <==> old(View()).Claimable(target) == {})
      ensures target < TARGETS && best == 0 ==> View() == old(View())
      ensures target < TARGETS && best > 0 ==>
        old(View()).IsWinner(target, best) && View() == old(View()).Claim(target, best)
      ensures target < 16 && best > 0 ==>
        var b := old(View());
        && b.CanClaim(target, best)
        && (forall s: nat | b.CanClaim(target, s) && s != best ::
              b.Priority(s) < b.Priority(best) || (b.Priority(s) == b.Priority(best) && best < s))
        && best !in View().pending && claimComp[..] == old(claimComp[..])[target := best]
    {
      if target > 15 {
        return -1;
      }
      best := ScanForWinner(target);
      if best > 0 {
        ClearPending(best);
        claimComp[target] := best;
      }
    }
  }
}
