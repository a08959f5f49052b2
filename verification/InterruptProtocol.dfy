/** The interrupt system as values: source ids, triggering, table setup, and C0's drain loops. */
module InterruptProtocol {
  import opened Words
  import opened PlicBank

  const SOURCE_BASE_ID := 32
  const UINT32 := 0x1_0000_0000

  const IRQ_MESH_NODE := 20
  const IRQ_TASK_COMPLETE := 22
  const IRQ_TASK_ASSIGN := 23
  const IRQ_ERROR_REPORT := 24
  const IRQ_DMA_COMPLETE := 25
  const IRQ_SYNC_REQUEST := 26
  const IRQ_SYNC_RESPONSE := 27
  const IRQ_SHUTDOWN_REQUEST := 28

  // ---- source ids ----

  /** PLIC_calculate_source_id: the target plays no part, and 0 stands for "no valid id". */
  function SourceId(source: nat, target: nat, irqType: nat): nat {
    var id := (SOURCE_BASE_ID + source * 32 + irqType) % UINT32;
    if id > LAST_SOURCE then 0 else id
  }

  datatype Decoded = Decoded(hart: nat, irqType: nat)

  /** The decoding in c0_process_enhanced_plic_interrupts. */
  function Decode(id: nat): Decoded
    requires id >= SOURCE_BASE_ID
  {
    Decoded((id - SOURCE_BASE_ID) / 32, (id - SOURCE_BASE_ID) % 32)
  }

  /** The encoder and the enhanced decoder are inverse exactly for the first 31 harts. */
  lemma DecodeInvertsSourceIdIff(source: nat, target: nat, irqType: nat)
    requires source < UINT32 && irqType < 32
    ensures
      var id := SourceId(source, target, irqType);
      (id >= SOURCE_BASE_ID && Decode(id) == Decoded(source, irqType)) <==> source < 31
  {
  }

  /** The decoding in c0_process_plic_interrupts: a hart, or none for an unknown id. */
  function LegacyDecode(id: nat, harts: nat): (hart: int)
    ensures hart >= 0 <==> SOURCE_BASE_ID <= id < SOURCE_BASE_ID + harts
    ensures hart >= 0 ==> id == SOURCE_BASE_ID + hart
    ensures hart < 0 ==> hart == -1
  {
    if SOURCE_BASE_ID <= id < SOURCE_BASE_ID + harts then id - SOURCE_BASE_ID else -1
  }

  /** The legacy decoder names the sender of an encoded interrupt only for hart 0, type 0. */
  lemma LegacyDecodeInvertsSourceIdIff(source: nat, target: nat, irqType: nat, harts: nat)
    requires source < harts <= 31 && irqType < 32
    ensures LegacyDecode(SourceId(source, target, irqType), harts) == source <==> source == 0 && irqType == 0
  {
  }

  /** On the 8-hart platform no supported type is recognised by the legacy decoder at all. */
  lemma LegacyDecodeMissesSupported(source: nat, target: nat, irqType: nat)
    requires source < 8 && Supported(irqType)
    ensures LegacyDecode(SourceId(source, target, irqType), 8) == -1
  {
  }

  // ---- state ----

  /** plic_select: harts 0 and 1 use one register bank, harts 2 to 7 the other. */
  function InstanceOf(hart: nat): nat {
    if hart < 2 then 0 else 1
  }

  datatype Sys = Sys(harts: nat, c0c1: Bank, nxy: Bank, active: int, completed: int)
  {
    ghost predicate Valid() {
      c0c1.Valid() && nxy.Valid()
    }

    ghost function On(hart: nat): Bank {
      if InstanceOf(hart) == 0 then c0c1 else nxy
    }

    ghost function With(hart: nat, b: Bank): Sys {
      if InstanceOf(hart) == 0 then this.(c0c1 := b) else this.(nxy := b)
    }
  }

  // ---- triggering ----

  /** PLIC_trigger_typed_interrupt: the error code, or the new state and 1. */
  ghost function Trigger(sys: Sys, source: nat, target: nat, irqType: nat): (res: (Sys, int))
    requires sys.Valid()
    ensures res.0.Valid()
  {
    var id := SourceId(source, target, irqType);
    if source >= sys.harts || target >= sys.harts then (sys, -1)
    else if source == target then (sys, -2)
    else if id == 0 then (sys, -3)
    else if target >= 8 then (sys, -4)
    else (sys.With(target, sys.On(target).AssignPending(id)), 1)
  }

  // ---- the setup table ----

  predicate Supported(irqType: nat) {
    irqType == IRQ_MESH_NODE || IRQ_TASK_COMPLETE <= irqType <= IRQ_SHUTDOWN_REQUEST
  }

  /** supported_types[k] */
  function TypeAt(k: nat): (irqType: nat)
    requires k < 8
    ensures Supported(irqType)
  {
    if k == 0 then IRQ_MESH_NODE else IRQ_TASK_COMPLETE + k - 1
  }

  /** The position of a type in supported_types. */
  function TypeIndex(irqType: nat): (k: nat)
    requires Supported(irqType)
    ensures k < 8 && TypeAt(k) == irqType
  {
    if irqType == IRQ_MESH_NODE then 0 else irqType - IRQ_TASK_COMPLETE + 1
  }

  /** The priority of a type, as the bits of 7, 5, 3 and 2. */
  function TypePriority(irqType: nat): Word {
    if irqType == IRQ_ERROR_REPORT || irqType == IRQ_SHUTDOWN_REQUEST then {0, 1, 2}
    else if irqType == IRQ_TASK_ASSIGN || irqType == IRQ_SYNC_REQUEST then {0, 2}
    else if irqType == IRQ_TASK_COMPLETE || irqType == IRQ_DMA_COMPLETE then {0, 1}
    else {1}
  }

  /** Source `x` is one that setup enables for `target`: another hart's supported type. */
  predicate Wanted(harts: nat, target: nat, x: nat) {
    && SOURCE_BASE_ID <= x <= LAST_SOURCE
    && Decode(x).hart < harts
    && Decode(x).hart != target
    && Supported(Decode(x).irqType)
  }

  /** The nested loops at (t, s, k) have already handled source `x` for target `u`. */
  predicate Reached(harts: nat, u: nat, x: nat, t: nat, s: nat, k: nat) {
    && Wanted(harts, u, x)
    && (u < t || (u == t && (Decode(x).hart < s || (Decode(x).hart == s && TypeIndex(Decode(x).irqType) < k))))
  }

  ghost function EnabledUpTo(before: set<nat>, p: nat, harts: nat, u: nat, t: nat, s: nat, k: nat): set<nat> {
    if u < harts && InstanceOf(u) == p then
      before + set x: nat | x <= LAST_SOURCE && Reached(harts, u, x, t, s, k)
    else
      before
  }

  ghost predicate PriorityReached(p: nat, harts: nat, x: nat, t: nat, s: nat, k: nat) {
    exists u: nat :: u < harts && InstanceOf(u) == p && Reached(harts, u, x, t, s, k)
  }

  ghost function PriorityUpTo(before: Word, p: nat, harts: nat, x: nat, t: nat, s: nat, k: nat): Word {
    if PriorityReached(p, harts, x, t, s, k) then Or(before, TypePriority(Decode(x).irqType)) else before
  }

  /** Bank `p` when the loops of setup are at (t, s, k) and thresholds below `th` are written. */
  ghost function BankUpTo(b: Bank, p: nat, harts: nat, th: nat, t: nat, s: nat, k: nat): (r: Bank)
    requires b.Valid()
    ensures r.Valid()
  {
    b.(
      enabled := seq(TARGETS, u requires 0 <= u < TARGETS => EnabledUpTo(b.enabled[u], p, harts, u, t, s, k)),
      prio := seq(LAST_SOURCE, i requires 0 <= i < LAST_SOURCE => PriorityUpTo(b.prio[i], p, harts, i + 1, t, s, k)),
      threshold := seq(TARGETS, u requires 0 <= u < TARGETS =>
        if u < th && InstanceOf(u) == p then Mask(0) else b.threshold[u]))
  }

  ghost function SetupUpTo(sys: Sys, th: nat, t: nat, s: nat, k: nat): (r: Sys)
    requires sys.Valid()
    ensures r.Valid()
  {
    sys.(c0c1 := BankUpTo(sys.c0c1, 0, sys.harts, th, t, s, k), nxy := BankUpTo(sys.nxy, 1, sys.harts, th, t, s, k))
  }

  /** What PLIC_setup_bidirectional_interrupts leaves behind. */
  ghost function AfterSetup(sys: Sys): (r: Sys)
    requires sys.Valid()
    ensures r.Valid()
  {
    SetupUpTo(sys, sys.harts, sys.harts, 0, 0)
  }
}
