/** The DMA engine of a tile and its driver: configure, start, complete. */
module DmaEngine {
  import opened DmaRegisters

  /** DMAC512_InitTypdef */
  datatype Setup = Setup(dobBeat: nat, dfbBeat: nat, mode: nat, src: nat, dst: nat, count: nat)

  const AXI_TRANS_8 := 2
  const NORMAL_MODE := 0
  const MAX_TRANSFER := 0xFF_FFFF

  predicate Legal(s: Setup) {
    && s.dobBeat < 8 && s.dfbBeat < 8 && s.mode < 4
    && s.src < LONG && s.dst < LONG && s.count <= MAX_TRANSFER
  }

  // ---- the engine on its register values ----

  /** HAL_DMAC512InitTile pulses the reset bit and clears status and interrupt. */
  function Reset(r: Regs): Regs {
    r.(control := Set(Set(r.control, CTRL_RST, 1), CTRL_RST, 0), status := 0, intr := 0)
  }

  function Configured(r: Regs, s: Setup): Regs
    requires Legal(s)
  {
    r.(control := Set(Set(Set(r.control, CTRL_DOB, s.dobBeat), CTRL_DFB, s.dfbBeat), CTRL_MODE, s.mode),
       src := s.src, dst := s.dst, count := Set(r.count, XFER_COUNT, s.count))
  }

  function Busy(r: Regs): Regs {
    r.(status := Set(r.status, STATUS_BUSY, 1))
  }

  function Enabled(r: Regs): Regs {
    r.(count := Set(r.count, XFER_EN, 1))
  }

  function Completed(r: Regs): Regs {
    r.(status := Set(r.status, STATUS_BUSY, 0), intr := Set(r.intr, INTR_FLAG, 1))
  }

  /** The registers when the copy begins. */
  function Armed(r: Regs, s: Setup): Regs
    requires Legal(s)
  {
    Enabled(Busy(Configured(r, s)))
  }

  /** Every step leaves registers that fit their width. */
  lemma StepsStaySized(r: Regs, s: Setup)
    requires WellSized(r) && Legal(s)
    ensures WellSized(Reset(r)) && WellSized(Configured(r, s)) && WellSized(Busy(r))
    ensures WellSized(Enabled(r)) && WellSized(Completed(r))
  {
    hide Set, Get;
    SetThenGet(r.control, CTRL_RST, 1);
    SetThenGet(Set(r.control, CTRL_RST, 1), CTRL_RST, 0);
    SetThenGet(r.control, CTRL_DOB, s.dobBeat);
    SetThenGet(Set(r.control, CTRL_DOB, s.dobBeat), CTRL_DFB, s.dfbBeat);
    SetThenGet(Set(Set(r.control, CTRL_DOB, s.dobBeat), CTRL_DFB, s.dfbBeat), CTRL_MODE, s.mode);
    SetThenGet(r.count, XFER_COUNT, s.count);
    SetThenGet(r.count, XFER_EN, 1);
    SetThenGet(r.status, STATUS_BUSY, 1);
    SetThenGet(r.status, STATUS_BUSY, 0);
    SetThenGet(r.intr, INTR_FLAG, 1);
  }

  /** What software reads back after a transfer. */
  lemma CompletedReads(r: Regs, s: Setup)
    requires WellSized(r) && Legal(s)
    ensures
      var done := Completed(Armed(r, s));
      && Get(done.status, STATUS_BUSY) == 0 && Get(done.intr, INTR_FLAG) == 1
      && done.src == s.src && done.dst == s.dst
      && Get(done.count, XFER_COUNT) == s.count && Get(done.count, XFER_EN) == 1
      && Get(done.control, CTRL_DOB) == s.dobBeat && Get(done.control, CTRL_DFB) == s.dfbBeat
      && Get(done.control, CTRL_MODE) == s.mode
  {
    hide Set, Get;
    var c1 := Set(r.control, CTRL_DOB, s.dobBeat);
    var c2 := Set(c1, CTRL_DFB, s.dfbBeat);
    SetThenGet(r.control, CTRL_DOB, s.dobBeat);
    SetThenGet(c1, CTRL_DFB, s.dfbBeat);
    SetThenGet(c2, CTRL_MODE, s.mode);
    HigherFieldKept(c1, CTRL_DFB, s.dfbBeat, CTRL_DOB, 2);
    HigherFieldKept(c2, CTRL_MODE, s.mode, CTRL_DOB, 0x400);
    HigherFieldKept(c2, CTRL_MODE, s.mode, CTRL_DFB, 0x40);
    SetThenGet(r.count, XFER_COUNT, s.count);
    SetThenGet(Set(r.count, XFER_COUNT, s.count), XFER_EN, 1);
    LowerFieldKept(Set(r.count, XFER_COUNT, s.count), XFER_EN, 1, XFER_COUNT, 0x80);
    SetThenGet(Busy(r).status, STATUS_BUSY, 0);
    SetThenGet(r.intr, INTR_FLAG, 1);
  }
}
