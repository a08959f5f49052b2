/** What the reset of a DMA engine does to memory, byte by byte, and what its busy bit is. */
module DmaReset {
  import opened FlatMemory
  import opened DmaRegisters
  import opened DmaEngine
  import opened DmaTransfer
  import opened DmaTheorems

  /** What a reset leaves in the byte `offset` of the block that held `b`. */
  function ResetByte(b: Byte, offset: int): Byte {
    if offset == 0 then b - b % 2
    else if 4 <= offset < 8 || 0x10 <= offset < 0x14 then 0
    else b
  }

  /** The reset bit is pulsed and left clear, status and interrupt are zeroed, and no other byte changes. */
  lemma ResetAt(m: Mem, after: Mem, base: nat, x: nat)
    requires Mapped(m, base, BLOCK) && Overlaid(m, after, base, Reset(RegsAt(m, base))) && x in m
    ensures x in after && after[x] == ResetByte(m[x], x - base)
  {
    hide FromBytes, ToBytes, Set, Reset, RegsAt, WellSized;
    if k: Name :| Within(x, base, k) {
      var i := x - (base + Offset(k));
      var old', new' := Read(m, base + Offset(k), Width(k)), Read(after, base + Offset(k), Width(k));
      assert m[x] == old'[i] && after[x] == new'[i];
      ResetBytes(old', new', k, RegsAt(m, base));
    } else {
      assert !Within(x, base, Control) && !Within(x, base, Status) && !Within(x, base, Intr);
    }
  }

  lemma ResetBytes(b: seq<Byte>, c: seq<Byte>, k: Name, r: Regs)
    requires |b| == |c| == Width(k) && FromBytes(b) == Of(r, k) && FromBytes(c) == Of(Reset(r), k)
    ensures forall i | 0 <= i < |b| :: c[i] == ResetByte(b[i], Offset(k) + i)
  {
    hide FromBytes, ToBytes, Set;
    LoadThenStore(b);
    LoadThenStore(c);
    match k {
      case Control => ResetPulsed(b, c);
      case Status => ZeroBytes(c);
      case Intr => ZeroBytes(c);
      case _ =>
    }
  }

  lemma ResetPulsed(b: seq<Byte>, c: seq<Byte>)
    requires |b| == |c| == 4 && FromBytes(c) == Set(Set(FromBytes(b), CTRL_RST, 1), CTRL_RST, 0)
    ensures c == [b[0] - b[0] % 2, b[1], b[2], b[3]]
  {
    hide Set, FromBytes, ToBytes, Word4;
    var c' := [b[0] - b[0] % 2, b[1], b[2], b[3]];
    FourBytes(b);
    FourBytes(c');
    PulseBit(b[0], b[1], b[2], b[3]);
    LoadThenStore(c);
    LoadThenStore(c');
  }

  lemma PulseBit(b0: Byte, b1: Byte, b2: Byte, b3: Byte)
    ensures Set(Set(Word4(b0, b1, b2, b3), CTRL_RST, 1), CTRL_RST, 0) == Word4(b0 - b0 % 2, b1, b2, b3)
  {
  }

  lemma ZeroBytes(c: seq<Byte>)
    requires |c| == 4 && FromBytes(c) == 0
    ensures c == [0, 0, 0, 0]
  {
    FourBytes(c);
  }

  /** A transfer on a tile that is reset first ends with the reset bit clear, unless it was copied over. */
  lemma ResetBitStaysClear(m: Mem, prepared: Mem, after: Mem, base: nat, s: Setup)
    requires Mapped(m, base, BLOCK) && Overlaid(m, prepared, base, Reset(RegsAt(m, base))) && Legal(s)
    requires Mapped(prepared, base, BLOCK) && Transferred(prepared, after, base, s) && !InDst(base, s)
    ensures base in after && after[base] % 2 == 0
  {
    hide Reset, RegsAt, Transferred, Legal;
    ResetAt(m, prepared, base, base);
    hide Overlaid;
    TransferAt(prepared, after, base, s, base);
  }

  /** The busy bit is the lowest of the second status byte. */
  lemma BusyBit(m: Mem, base: nat)
    requires Mapped(m, base, BLOCK)
    ensures Get(RegsAt(m, base).status, STATUS_BUSY) == m[base + 5] % 2
  {
    var s := Read(m, base + 4, 4);
    FourBytes(s);
    hide FromBytes, RegsAt;
    assert RegsAt(m, base).status == Of(RegsAt(m, base), Status) == Peek(m, base, Status) == FromBytes(s);
    BusyOf(s[0], s[1], s[2], s[3]);
  }

  lemma BusyOf(b0: Byte, b1: Byte, b2: Byte, b3: Byte)
    ensures Get(Word4(b0, b1, b2, b3), STATUS_BUSY) == b1 % 2
  {
  }

  /** A setup that is not accepted leaves the engine marked busy, its transfer enabled. */
  lemma RefusedStaysBusy(m: Mem, after: Mem, base: nat)
    requires Mapped(m, base, BLOCK) && Overlaid(m, after, base, Busy(Enabled(RegsAt(m, base))))
    ensures after[base + 5] % 2 == 1 && Get(RegsAt(after, base).count, XFER_EN) == 1
  {
    BusyBit(after, base);
    hide Set, Get;
    SetThenGet(RegsAt(m, base).status, STATUS_BUSY, 1);
    SetThenGet(RegsAt(m, base).count, XFER_EN, 1);
  }
}
