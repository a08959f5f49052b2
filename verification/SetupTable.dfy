/** What the triple loop of PLIC_setup_bidirectional_interrupts builds, step by step and in the end. */
module SetupTable {
  import opened Words
  import opened PlicBank
  import opened InterruptProtocol

  // ---- the loop steps ----

  lemma BankUpToStart(b: Bank, p: nat, harts: nat)
    requires b.Valid()
    ensures BankUpTo(b, p, harts, 0, 0, 0, 0) == b
  {
    var r := BankUpTo(b, p, harts, 0, 0, 0, 0);
    forall u | 0 <= u < TARGETS ensures r.enabled[u] == b.enabled[u] {
      assert forall x: nat :: !Reached(harts, u, x, 0, 0, 0);
    }
    assert r.enabled == b.enabled && r.prio == b.prio && r.threshold == b.threshold;
  }

  /** Two loop positions that have reached the same sources give the same bank. */
  lemma BankUpToSame(b: Bank, p: nat, harts: nat, th: nat, t: nat, s: nat, k: nat, t': nat, s': nat, k': nat)
    requires b.Valid()
    requires forall u: nat, x: nat | u < harts && x <= LAST_SOURCE ::
      Reached(harts, u, x, t, s, k) == Reached(harts, u, x, t', s', k')
    ensures BankUpTo(b, p, harts, th, t, s, k) == BankUpTo(b, p, harts, th, t', s', k')
  {
    var r, r' := BankUpTo(b, p, harts, th, t, s, k), BankUpTo(b, p, harts, th, t', s', k');
    forall u | 0 <= u < TARGETS ensures r.enabled[u] == r'.enabled[u] {
      if u < harts && InstanceOf(u) == p {
        assert (set x: nat | x <= LAST_SOURCE && Reached(harts, u, x, t, s, k))
            == (set x: nat | x <= LAST_SOURCE && Reached(harts, u, x, t', s', k'));
      }
    }
    assert r.enabled == r'.enabled;
    forall i | 0 <= i < LAST_SOURCE ensures r.prio[i] == r'.prio[i] {
      assert PriorityReached(p, harts, i + 1, t, s, k) == PriorityReached(p, harts, i + 1, t', s', k');
    }
    assert r.prio == r'.prio;
    assert r.threshold == r'.threshold;
  }

  /** Moving on after the last type of a source, after the target itself, and after the last source. */
  lemma SetupMovesOn(sys: Sys, th: nat, t: nat, s: nat)
    requires sys.Valid()
    ensures SetupUpTo(sys, th, t, s, 8) == SetupUpTo(sys, th, t, s + 1, 0)
    ensures s == t ==> SetupUpTo(sys, th, t, s, 0) == SetupUpTo(sys, th, t, s + 1, 0)
    ensures s == sys.harts ==> SetupUpTo(sys, th, t, s, 0) == SetupUpTo(sys, th, t + 1, 0, 0)
  {
    BankUpToSame(sys.c0c1, 0, sys.harts, th, t, s, 8, t, s + 1, 0);
    BankUpToSame(sys.nxy, 1, sys.harts, th, t, s, 8, t, s + 1, 0);
    if s == t {
      BankUpToSame(sys.c0c1, 0, sys.harts, th, t, s, 0, t, s + 1, 0);
      BankUpToSame(sys.nxy, 1, sys.harts, th, t, s, 0, t, s + 1, 0);
    }
    if s == sys.harts {
      BankUpToSame(sys.c0c1, 0, sys.harts, th, t, s, 0, t + 1, 0, 0);
      BankUpToSame(sys.nxy, 1, sys.harts, th, t, s, 0, t + 1, 0, 0);
    }
  }

  /** Writing one threshold advances the threshold frontier. */
  lemma ThresholdAdvances(sys: Sys, t: nat)
    requires sys.Valid() && t < sys.harts <= 8
    ensures
      var b := SetupUpTo(sys, t, t, 0, 0).On(t);
      SetupUpTo(sys, t, t, 0, 0).With(t, b.(threshold := b.threshold[t := And(Mask(0), LowBits(16))]))
        == SetupUpTo(sys, t + 1, t, 0, 0)
  {
    var from, to := SetupUpTo(sys, t, t, 0, 0), SetupUpTo(sys, t + 1, t, 0, 0);
    assert And(Mask(0), LowBits(16)) == Mask(0);
    assert from.On(t).threshold[t := Mask(0)] == to.On(t).threshold;
    if InstanceOf(t) == 0 {
      assert from.nxy.threshold == to.nxy.threshold;
    } else {
      assert from.c0c1.threshold == to.c0c1.threshold;
    }
  }

  /** The source id the loop computes at (t, s, k), and what it reaches next. */
  lemma ReachedAdvances(harts: nat, t: nat, s: nat, k: nat, u: nat, x: nat)
    requires s < harts <= 8 && s != t && k < 8 && x <= LAST_SOURCE
    ensures SourceId(s, t, TypeAt(k)) == SOURCE_BASE_ID + s * 32 + TypeAt(k) <= LAST_SOURCE
    ensures Decode(SourceId(s, t, TypeAt(k))) == Decoded(s, TypeAt(k))
    ensures Reached(harts, u, x, t, s, k + 1) <==>
      Reached(harts, u, x, t, s, k) || (u == t && x == SourceId(s, t, TypeAt(k)))
  {
  }

  /** Enabling one source and setting its priority advances the loop by one type. */
  lemma BankAdvances(b: Bank, p: nat, harts: nat, th: nat, t: nat, s: nat, k: nat)
    requires b.Valid() && t < harts <= 8 && s < harts && s != t && k < 8
    ensures
      var id := SourceId(s, t, TypeAt(k));
      var from := BankUpTo(b, p, harts, th, t, s, k);
      BankUpTo(b, p, harts, th, t, s, k + 1) ==
        if InstanceOf(t) != p then from
        else from.(
          enabled := from.enabled[t := from.enabled[t] + {id}],
          prio := from.prio[id - 1 := Or(from.prio[id - 1], TypePriority(TypeAt(k)))])
  {
    var id := SourceId(s, t, TypeAt(k));
    ReachedAdvances(harts, t, s, k, t, id);
    var from, to := BankUpTo(b, p, harts, th, t, s, k), BankUpTo(b, p, harts, th, t, s, k + 1);
    forall u | 0 <= u < TARGETS
      ensures to.enabled[u] == if u == t && InstanceOf(t) == p then from.enabled[u] + {id} else from.enabled[u]
    {
      forall x: nat | x <= LAST_SOURCE
        ensures Reached(harts, u, x, t, s, k + 1) <==> Reached(harts, u, x, t, s, k) || (u == t && x == id)
      {
        ReachedAdvances(harts, t, s, k, u, x);
      }
    }
    forall i | 0 <= i < LAST_SOURCE
      ensures to.prio[i] ==
        if i + 1 == id && InstanceOf(t) == p then Or(from.prio[i], TypePriority(TypeAt(k))) else from.prio[i]
    {
      PriorityAdvances(b, p, harts, t, s, k, i + 1);
    }
    if InstanceOf(t) == p {
      assert to.enabled == from.enabled[t := from.enabled[t] + {id}];
      assert to.prio == from.prio[id - 1 := Or(from.prio[id - 1], TypePriority(TypeAt(k)))];
    } else {
      assert to.enabled == from.enabled;
      assert to.prio == from.prio;
    }
    assert to.threshold == from.threshold;
  }

  /** The priorities setup writes fit the eight bits of the parameter. */
  lemma PrioritiesFit(irqType: nat)
    ensures And(TypePriority(irqType), LowBits(8)) == TypePriority(irqType)
  {
  }

  lemma PriorityAdvances(b: Bank, p: nat, harts: nat, t: nat, s: nat, k: nat, x: nat)
    requires b.Valid() && t < harts <= 8 && s < harts && s != t && k < 8 && IsSource(x)
    ensures
      var from := PriorityUpTo(b.prio[x - 1], p, harts, x, t, s, k);
      PriorityUpTo(b.prio[x - 1], p, harts, x, t, s, k + 1) ==
        if x == SourceId(s, t, TypeAt(k)) && InstanceOf(t) == p then Or(from, TypePriority(TypeAt(k))) else from
  {
    var id := SourceId(s, t, TypeAt(k));
    ReachedAdvances(harts, t, s, k, t, x);
    if PriorityReached(p, harts, x, t, s, k) {
      var u: nat :| u < harts && InstanceOf(u) == p && Reached(harts, u, x, t, s, k);
      ReachedAdvances(harts, t, s, k, u, x);
      assert PriorityReached(p, harts, x, t, s, k + 1);
    }
    if PriorityReached(p, harts, x, t, s, k + 1) {
      var u: nat :| u < harts && InstanceOf(u) == p && Reached(harts, u, x, t, s, k + 1);
      ReachedAdvances(harts, t, s, k, u, x);
    }
  }

  // ---- what the finished table says ----

  /** MESH_NODE and the seven types from TASK_COMPLETE to SHUTDOWN_REQUEST, in the order of supported_types. */
  lemma SupportedTypes(irqType: nat, k: nat)
    ensures Supported(irqType) <==> irqType in {20, 22, 23, 24, 25, 26, 27, 28}
    ensures k < 8 ==> TypeAt(k) == [20, 22, 23, 24, 25, 26, 27, 28][k]
  {
  }

  /** For each target, exactly the supported ids of the other harts are added to its enables. */
  lemma SetupEnables(sys: Sys, t: nat, x: nat)
    requires sys.Valid() && t < sys.harts <= 8
    ensures x in AfterSetup(sys).On(t).enabled[t] <==>
      || x in sys.On(t).enabled[t]
      || exists s: nat, irqType: nat :: s < sys.harts && s != t && Supported(irqType) && x == SourceId(s, t, irqType)
  {
    if Wanted(sys.harts, t, x) {
      var d := Decode(x);
      assert x == SourceId(d.hart, t, d.irqType);
      assert Reached(sys.harts, t, x, sys.harts, 0, 0);
    }
    if s: nat, irqType: nat :| s < sys.harts && s != t && Supported(irqType) && x == SourceId(s, t, irqType) {
      DecodeInvertsSourceIdIff(s, t, irqType);
      assert Wanted(sys.harts, t, x);
    }
  }

  /** Setup touches no pending or claimed state, and no enables or thresholds of other targets. */
  lemma SetupLeavesTheRest(sys: Sys, t: nat)
    requires sys.Valid() && sys.harts <= 8 && t < TARGETS
    ensures
      var after := AfterSetup(sys);
      && after.c0c1.pending == sys.c0c1.pending && after.nxy.pending == sys.nxy.pending
      && after.c0c1.claimed == sys.c0c1.claimed && after.nxy.claimed == sys.nxy.claimed
      && (t >= sys.harts || InstanceOf(t) == 1 ==>
            after.c0c1.enabled[t] == sys.c0c1.enabled[t] && after.c0c1.threshold[t] == sys.c0c1.threshold[t])
      && (t >= sys.harts || InstanceOf(t) == 0 ==>
            after.nxy.enabled[t] == sys.nxy.enabled[t] && after.nxy.threshold[t] == sys.nxy.threshold[t])
      && (t < sys.harts ==> after.On(t).Threshold(t) == 1)
  {
    ConstantValues();
  }

  /** On each instance the type priority is OR-ed into exactly the sources some hart there was enabled for. */
  lemma SetupPriorities(sys: Sys, h: nat, x: nat)
    requires sys.Valid() && sys.harts <= 8 && IsSource(x)
    ensures AfterSetup(sys).On(h).prio[x - 1] ==
      if exists t: nat :: t < sys.harts && InstanceOf(t) == InstanceOf(h) && Wanted(sys.harts, t, x)
      then Or(sys.On(h).prio[x - 1], TypePriority(Decode(x).irqType))
      else sys.On(h).prio[x - 1]
  {
  }

  /** On zeroed priority registers every enabled source ends with the number of its type. */
  lemma SetupPriorityNumbers(sys: Sys, s: nat, t: nat, irqType: nat)
    requires sys.Valid() && s < sys.harts && t < sys.harts <= 8 && s != t && Supported(irqType)
    requires sys.On(t).prio[SourceId(s, t, irqType) - 1] == ZERO
    ensures AfterSetup(sys).On(t).Priority(SourceId(s, t, irqType)) == PriorityNumber(irqType)
    ensures PriorityNumber(irqType) ==
      if irqType in {24, 28} then 7 else if irqType in {23, 26} then 5 else if irqType in {22, 25} then 3 else 2
  {
    var x := SourceId(s, t, irqType);
    DecodeInvertsSourceIdIff(s, t, irqType);
    assert Wanted(sys.harts, t, x);
    SetupPriorities(sys, t, x);
    ConstantValues();
  }

  /** The numbers 7, 5, 3 and 2 the setup loop chooses among. */
  function PriorityNumber(irqType: nat): nat {
    if irqType == IRQ_ERROR_REPORT || irqType == IRQ_SHUTDOWN_REQUEST then 7
    else if irqType == IRQ_TASK_ASSIGN || irqType == IRQ_SYNC_REQUEST then 5
    else if irqType == IRQ_TASK_COMPLETE || irqType == IRQ_DMA_COMPLETE then 3
    else 2
  }

  /** The words setup writes mean the numbers in the source. */
  lemma ConstantValues()
    ensures forall irqType: nat :: Value(And(Or(ZERO, TypePriority(irqType)), LowBits(8))) == PriorityNumber(irqType)
    ensures Value(And(Mask(0), LowBits(16))) == 1
  {
    forall irqType: nat
      ensures Value(And(Or(ZERO, TypePriority(irqType)), LowBits(8))) == PriorityNumber(irqType)
    {
      var w := TypePriority(irqType);
      assert Or(ZERO, w) == w;
      ValueOfAnd(w, 8);
      LowValueAbove(w, 3, 8);
      LowValueOfThree(w);
    }
    ValueOfAnd(Mask(0), 16);
    LowValueAbove(Mask(0), 3, 16);
    LowValueOfThree(Mask(0));
  }

  lemma LowValueOfThree(w: Word)
    ensures LowValue(w, 3) == (if 0 in w then 1 else 0) + (if 1 in w then 2 else 0) + if 2 in w then 4 else 0
  {
    assert LowValue(w, 2) == LowValue(w, 1) + if 1 in w then 2 else 0;
    assert Pow2(2) == 4;
  }

  lemma {:induction false} LowValueAbove(w: Word, j: nat, k: nat)
    requires j <= k && forall b | b in w :: b < j
    ensures LowValue(w, k) == LowValue(w, j)
  {
    if j == k {
    } else {
      LowValueAbove(w, j, k - 1);
    }
  }

  /** Running setup twice leaves what running it once leaves. */
  lemma SetupIsIdempotent(sys: Sys)
    requires sys.Valid() && sys.harts <= 8
    ensures AfterSetup(AfterSetup(sys)) == AfterSetup(sys)
  {
  }
}
