/** What one bank of interrupt-controller registers means: sets of source ids. */
module PlicBank {
  import opened Words

  const LAST_SOURCE := 1023
  const TARGETS := 16

  /** The source ids 1..1023 whose bit is one in a bank of 32 words. */
  ghost function Ids(words: seq<Word>): set<nat>
    requires |words| == 32
  {
    set s: nat | 1 <= s <= LAST_SOURCE && s % 32 in words[s / 32]
  }

  /** The source ids that share a register word with `source`. */
  ghost function WordMates(source: nat): set<nat> {
    set s: nat | 1 <= s <= LAST_SOURCE && s / 32 == source / 32
  }

  predicate IsSource(source: nat) {
    1 <= source <= LAST_SOURCE
  }

  /** An abstract register bank. `claimed` is the claim/complete register of each target. */
  datatype Bank = Bank(
    pending: set<nat>,
    enabled: seq<set<nat>>,
    prio: seq<Word>,
    threshold: seq<Word>,
    claimed: seq<nat>)
  {
    ghost predicate Valid() {
      && |enabled| == |threshold| == |claimed| == TARGETS
      && |prio| == LAST_SOURCE
      && (forall s | s in pending :: IsSource(s))
    }

    ghost function Priority(source: nat): nat
      requires Valid() && IsSource(source)
    {
      Value(And(prio[source - 1], LowBits(8)))
    }

    ghost function Threshold(target: nat): nat
      requires Valid() && target < TARGETS
    {
      Value(And(threshold[target], LowBits(16)))
    }

    ghost predicate CanClaim(target: nat, source: nat)
      requires Valid() && target < TARGETS
    {
      source in pending && source in enabled[target] && Priority(source) > Threshold(target)
    }

    ghost function Claimable(target: nat): set<nat>
      requires Valid() && target < TARGETS
    {
      set s | s in pending && CanClaim(target, s)
    }

    /** Interrupt `a` is delivered before `b`: higher priority, lower id on a tie. */
    ghost predicate Before(a: nat, b: nat)
      requires Valid() && IsSource(a) && IsSource(b)
    {
      Priority(a) > Priority(b) || (Priority(a) == Priority(b) && a < b)
    }

    ghost predicate IsWinner(target: nat, w: nat)
      requires Valid() && target < TARGETS
    {
      && CanClaim(target, w)
      && forall s | CanClaim(target, s) && s != w :: Before(w, s)
    }

    /** `best` is the winner among the sources below `k`, or 0 if none of them can be claimed. */
    ghost predicate BestBelow(target: nat, k: nat, best: nat)
      requires Valid() && target < TARGETS
    {
      if best == 0 then
        forall s: nat | s < k :: !CanClaim(target, s)
      else
        && best < k && CanClaim(target, best)
        && forall s: nat | s < k && s != best && CanClaim(target, s) :: Before(best, s)
    }

    /** The bank after `target` claims `source`. */
    ghost function Claim(target: nat, source: nat): Bank
      requires Valid() && target < TARGETS
    {
      this.(pending := pending - {source}, claimed := claimed[target := source])
    }

    /** The bank after the pending word of `source` is assigned `1 << source % 32`. */
    ghost function AssignPending(source: nat): Bank
      requires Valid() && IsSource(source)
    {
      this.(pending := pending - WordMates(source) + {source})
    }

    /** The bank after the low eight bits of `priority` are or-ed into the register of `source`. */
    ghost function AddPriority(source: nat, priority: Word): Bank
      requires Valid() && IsSource(source)
    {
      this.(prio := prio[source - 1 := Or(prio[source - 1], And(priority, LowBits(8)))])
    }

    /** The bank after the low sixteen bits of `value` become `target`'s threshold. */
    ghost function SetThreshold(target: nat, value: Word): Bank
      requires Valid() && target < TARGETS
    {
      this.(threshold := threshold[target := And(value, LowBits(16))])
    }

    /** The bank after `source` is enabled for `target`; an invalid source changes nothing. */
    ghost function Enable(target: nat, source: nat): Bank
      requires Valid() && target < TARGETS
    {
      if IsSource(source) then this.(enabled := enabled[target := enabled[target] + {source}]) else this
    }

    /** The bank after `target`'s enable word of `source` is masked with `!mask`. */
    ghost function ClearEnables(target: nat, source: nat): Bank
      requires Valid() && target < TARGETS
    {
      this.(enabled := enabled[target := enabled[target] - WordMates(source)])
    }
  }

  /**
    A target can claim exactly the pending sources enabled for it whose low eight priority bits are strictly above
    the low sixteen bits of its threshold; a source at the threshold is masked.
  */
  lemma CanClaimIff(b: Bank, target: nat, source: nat)
    requires b.Valid() && target < TARGETS && IsSource(source)
    ensures b.CanClaim(target, source) <==>
      && source in b.pending && source in b.enabled[target]
      && Value(b.prio[source - 1]) % 0x100 > Value(b.threshold[target]) % 0x1_0000
  {
    Powers();
    ValueOfAnd(b.prio[source - 1], 8);
    LowValueMod(b.prio[source - 1], 8, 32);
    ValueOfAnd(b.threshold[target], 16);
    LowValueMod(b.threshold[target], 16, 32);
  }

  lemma Powers()
    ensures Pow2(8) == 0x100 && Pow2(16) == 0x1_0000
  {
    assert Pow2(4) == 16;
    assert Pow2(8) == 256;
    assert Pow2(12) == 4096;
  }

  /** Two claims of the same target in the same state name the same source. */
  lemma WinnerIsUnique(b: Bank, target: nat, v: nat, w: nat)
    requires b.Valid() && target < TARGETS
    requires b.IsWinner(target, v) && b.IsWinner(target, w)
    ensures v == w
  {
  }

  /** One step of the scan: a later source replaces the best one only with a higher priority. */
  lemma BestBelowStep(b: Bank, target: nat, k: nat, best: nat)
    requires b.Valid() && target < TARGETS && IsSource(k) && b.BestBelow(target, k, best)
    ensures
      var better := b.CanClaim(target, k) && (best == 0 || b.Priority(k) > b.Priority(best));
      b.BestBelow(target, k + 1, if better then k else best)
  {
  }

  lemma BestBelowAll(b: Bank, target: nat, best: nat)
    requires b.Valid() && target < TARGETS && b.BestBelow(target, LAST_SOURCE + 1, best)
    ensures best == 0 <==> b.Claimable(target) == {}
    ensures best > 0 ==> b.IsWinner(target, best)
  {
  }

  /** Setting one bit of a bank inserts exactly one id (`regs[i] |= mask`). */
  lemma OrInserts(words: seq<Word>, s: nat)
    requires |words| == 32 && IsSource(s)
    ensures Ids(words[s / 32 := Or(words[s / 32], Mask(s % 32))]) == Ids(words) + {s}
  {
    var after := words[s / 32 := Or(words[s / 32], Mask(s % 32))];
    forall x: nat | IsSource(x) ensures x in Ids(after) <==> x in Ids(words) || x == s {
      assert x == x / 32 * 32 + x % 32 && s == s / 32 * 32 + s % 32;
    }
  }

  /** Clearing one bit removes exactly one id (`regs[i] &= ~mask`). */
  lemma AndComplementRemoves(words: seq<Word>, s: nat)
    requires |words| == 32 && IsSource(s)
    ensures Ids(words[s / 32 := And(words[s / 32], Complement(Mask(s % 32)))]) == Ids(words) - {s}
  {
    var after := words[s / 32 := And(words[s / 32], Complement(Mask(s % 32)))];
    forall x: nat | IsSource(x) ensures x in Ids(after) <==> x in Ids(words) && x != s {
      assert x == x / 32 * 32 + x % 32 && s == s / 32 * 32 + s % 32;
      assert x % 32 < 32;
    }
  }

  /** Assigning the mask drops every other id of the word (`regs[i] = mask`). */
  lemma AssignReplacesWord(words: seq<Word>, s: nat)
    requires |words| == 32 && IsSource(s)
    ensures Ids(words[s / 32 := Mask(s % 32)]) == Ids(words) - WordMates(s) + {s}
  {
    var after := words[s / 32 := Mask(s % 32)];
    forall x: nat | IsSource(x)
      ensures x in Ids(after) <==> (x in Ids(words) && x / 32 != s / 32) || x == s
    {
      assert x == x / 32 * 32 + x % 32 && s == s / 32 * 32 + s % 32;
    }
  }

  /** Masking with the logical negation clears the whole word (`regs[i] &= !mask`). */
  lemma AndLogicalNotClearsWord(words: seq<Word>, s: nat)
    requires |words| == 32 && IsSource(s)
    ensures Ids(words[s / 32 := And(words[s / 32], LogicalNot(Mask(s % 32)))]) == Ids(words) - WordMates(s)
  {
    var after := words[s / 32 := And(words[s / 32], LogicalNot(Mask(s % 32)))];
    assert s % 32 in Mask(s % 32);
    assert LogicalNot(Mask(s % 32)) == {};
    forall x: nat | IsSource(x) ensures x in Ids(after) <==> x in Ids(words) && x / 32 != s / 32 {
    }
  }

  /** Raising a source inserts just its id exactly when no other id of its word was pending. */
  lemma AssignInsertsIff(b: Bank, s: nat)
    requires b.Valid() && IsSource(s)
    ensures b.AssignPending(s).pending == b.pending + {s} <==> b.pending * WordMates(s) <= {s}
  {
  }

  /** Disabling a source removes just its id exactly when no other id of its word was enabled. */
  lemma DisableRemovesIff(enabled: set<nat>, s: nat)
    requires IsSource(s) && (forall x | x in enabled :: IsSource(x))
    ensures enabled - WordMates(s) == enabled - {s} <==> enabled * WordMates(s) <= {s}
  {
  }
}
