/** A DMA transfer at every address, and when it delivers what it promises. */
module DmaTheorems {
  import opened FlatMemory
  import opened DmaRegisters
  import opened DmaEngine
  import opened DmaTransfer

  /** The block and both ranges are there. */
  ghost predicate Ready(m: Mem, base: nat, s: Setup) {
    Mapped(m, base, BLOCK) && Mapped(m, s.src, s.count) && Mapped(m, s.dst, s.count)
  }

  predicate InDst(x: nat, s: Setup) {
    s.dst <= x < s.dst + s.count
  }

  /** Where the byte that a transfer leaves at `x` comes from. */
  function Origin(x: nat, s: Setup): nat {
    if InDst(x, s) then s.src + (x - s.dst) else x
  }

  /** The whole effect of a transfer, byte by byte, wherever the ranges and the registers lie. */
  lemma TransferAt(m: Mem, after: Mem, base: nat, s: Setup, x: nat)
    requires Mapped(m, base, BLOCK) && Legal(s) && Transferred(m, after, base, s) && x in m
    ensures x in after && Origin(x, s) in m
    ensures after[x] == Touched(ArmedByte(m[Origin(x, s)], Origin(x, s) - base, s), x - base)
  {
    hide RegsAt, Armed, Completed, Overlaid, Legal, ArmedByte, Touched, Copy;
    var r := Armed(RegsAt(m, base), s);
    var armed: Mem, moved: Mem :| Stages(m, armed, moved, after, base, r, s);
    StageKeys(m, armed, moved, after, base, r, s);
    CopyAt(armed, s.src, s.dst, s.count, x);
    ArmedAt(m, armed, base, s, Origin(x, s));
    CompletedAt(moved, after, base, x);
  }

  lemma StageKeys(m: Mem, armed: Mem, moved: Mem, after: Mem, base: nat, r: Regs, s: Setup)
    requires Stages(m, armed, moved, after, base, r, s)
    ensures armed.Keys == moved.Keys == after.Keys == m.Keys
  {
    hide RegsAt, Completed;
  }

  /** A transfer can always be carried out. */
  lemma TransferExists(m: Mem, base: nat, s: Setup) returns (after: Mem)
    requires Mapped(m, base, BLOCK) && Legal(s) && Mapped(m, s.src, s.count)
    ensures Transferred(m, after, base, s)
  {
    hide Overlaid, RegsAt, WithRegs, Armed, Completed, Legal;
    var r := Armed(RegsAt(m, base), s);
    ArmedIsSized(RegsAt(m, base), s);
    var armed := WithRegs(m, base, r);
    WithRegsOverlays(m, base, r);
    OverlaidKeys(m, armed, base, r);
    var moved := Copy(armed, s.src, s.dst, s.count);
    CompletedIsSized(RegsAt(moved, base));
    after := WithRegs(moved, base, Completed(RegsAt(moved, base)));
    WithRegsOverlays(moved, base, Completed(RegsAt(moved, base)));
    assert Stages(m, armed, moved, after, base, r, s);
  }

  lemma ArmedIsSized(r: Regs, s: Setup)
    requires WellSized(r) && Legal(s)
    ensures WellSized(Armed(r, s))
  {
    StepsStaySized(r, s);
    StepsStaySized(Configured(r, s), s);
    StepsStaySized(Busy(Configured(r, s)), s);
  }

  lemma CompletedIsSized(r: Regs)
    requires WellSized(r)
    ensures WellSized(Completed(r))
  {
    StepsStaySized(r, Setup(0, 0, 0, 0, 0, 0));
  }

  lemma OverlaidKeys(m: Mem, m1: Mem, base: nat, r: Regs)
    requires Overlaid(m, m1, base, r)
    ensures m1.Keys == m.Keys
  {
  }

  // ---- ranges that keep clear of the registers ----

  predicate ClearOf(a: nat, n: nat, base: nat) {
    Disjoint(a, n, base, BLOCK)
  }

  predicate InRegister(x: nat, base: nat) {
    || Within(x, base, Control) || Within(x, base, Status) || Within(x, base, Intr)
    || Within(x, base, SrcAddr) || Within(x, base, DstAddr) || Within(x, base, XferCount)
  }

  /**
   * A transfer between ranges that keep clear of the engine's registers delivers the old source, leaves
   * every other byte outside the six registers alone, and leaves the engine idle, its interrupt raised.
   */
  lemma TransferIsCorrect(m: Mem, after: Mem, base: nat, s: Setup)
    requires Ready(m, base, s) && Legal(s) && Transferred(m, after, base, s)
    requires ClearOf(s.src, s.count, base) && ClearOf(s.dst, s.count, base)
    ensures Ready(after, base, s)
    ensures Read(after, s.dst, s.count) == Read(m, s.src, s.count)
    ensures forall x | x in m && !InDst(x, s) && !InRegister(x, base) :: x in after && after[x] == m[x]
    ensures RegsAt(after, base) == Completed(Armed(RegsAt(m, base), s))
  {
    hide RegsAt, Armed, Completed, Transferred, Legal, InRegister, ClearOf;
    RegistersAfter(m, after, base, s);
    forall x | x in m ensures x in after {
      TransferAt(m, after, base, s, x);
    }
    forall x: nat | s.dst <= x < s.dst + s.count ensures x in after && after[x] == m[s.src + (x - s.dst)] {
      ClearByte(m, after, base, s, x);
    }
    assert Read(after, s.dst, s.count) == Read(m, s.src, s.count);
    forall x | x in m && !InDst(x, s) && !InRegister(x, base) ensures after[x] == m[x] {
      ClearByte(m, after, base, s, x);
    }
  }

  lemma ClearByte(m: Mem, after: Mem, base: nat, s: Setup, x: nat)
    requires Mapped(m, base, BLOCK) && Legal(s) && Transferred(m, after, base, s) && x in m
    requires ClearOf(s.src, s.count, base) && ClearOf(s.dst, s.count, base)
    requires InDst(x, s) || !InRegister(x, base)
    ensures x in after && Origin(x, s) in m && after[x] == m[Origin(x, s)]
  {
    TransferAt(m, after, base, s, x);
    hide Transferred, Legal;
    ArmedByteKept(m[Origin(x, s)], Origin(x, s) - base, s);
    hide ArmedByte;
  }

  lemma RegistersAfter(m: Mem, after: Mem, base: nat, s: Setup)
    requires Mapped(m, base, BLOCK) && Legal(s) && Transferred(m, after, base, s)
    requires ClearOf(s.dst, s.count, base)
    ensures Mapped(after, base, BLOCK) && RegsAt(after, base) == Completed(Armed(RegsAt(m, base), s))
  {
    hide Armed, Completed, Legal, RegsAt;
    var armed: Mem, moved: Mem :| Stages(m, armed, moved, after, base, Armed(RegsAt(m, base), s), s);
    SameRegs(armed, moved, base, s);
  }

  /** A copy that stays clear of the block does not change what the registers read. */
  lemma SameRegs(m: Mem, moved: Mem, base: nat, s: Setup)
    requires Mapped(m, base, BLOCK) && Copied(m, moved, s) && ClearOf(s.dst, s.count, base)
    ensures Mapped(moved, base, BLOCK) && RegsAt(moved, base) == RegsAt(m, base)
  {
    hide FromBytes;
    assert Mapped(moved, base, BLOCK);
    forall k: Name ensures Peek(moved, base, k) == Peek(m, base, k) {
      assert Read(moved, base + Offset(k), Width(k)) == Read(m, base + Offset(k), Width(k));
    }
  }

  // ---- ranges that run into them ----

  ghost predicate Delivers(m: Mem, base: nat, s: Setup)
    requires Ready(m, base, s) && Legal(s)
  {
    forall after: Mem | Transferred(m, after, base, s) ::
      Mapped(after, s.dst, s.count) && Read(after, s.dst, s.count) == Read(m, s.src, s.count)
  }

  /** The bytes of the block that arming may change before the copy. */
  predicate Rewritten(offset: int) {
    || offset == MODE_BYTE || offset == BEAT_BYTE || offset == BUSY_BYTE
    || 0x20 <= offset < 0x28 || 0x30 <= offset < 0x38 || 0x40 <= offset < 0x44
  }

  predicate Holds(a: nat, n: nat, base: nat, offset: nat) {
    a <= base + offset < a + n
  }

  lemma DeliversWhenClear(m: Mem, base: nat, s: Setup)
    requires Legal(s) && Ready(m, base, s)
    requires forall offset: nat | Rewritten(offset) :: !Holds(s.src, s.count, base, offset)
    requires !Holds(s.dst, s.count, base, BUSY_BYTE) && !Holds(s.dst, s.count, base, FLAG_BYTE)
    ensures Delivers(m, base, s)
  {
    hide Transferred, Legal, ArmedByte, Rewritten;
    forall after: Mem | Transferred(m, after, base, s)
      ensures Mapped(after, s.dst, s.count) && Read(after, s.dst, s.count) == Read(m, s.src, s.count)
    {
      forall x: nat | s.dst <= x < s.dst + s.count ensures x in after && after[x] == m[s.src + (x - s.dst)] {
        TransferAt(m, after, base, s, x);
        var y := Origin(x, s);
        if y >= base {
          assert Holds(s.src, s.count, base, y - base);
        }
        ArmedByteKept(m[y], y - base, s);
      }
      assert Read(after, s.dst, s.count) == Read(m, s.src, s.count);
    }
  }

  lemma ArmedByteKept(b: Byte, offset: int, s: Setup)
    requires Legal(s)
    ensures offset < 0 || !Rewritten(offset) ==> ArmedByte(b, offset, s) == b
  {
  }

  /** A byte read from a rewritten register, or stored over a touched one, is lost for one of two values. */
  lemma LosesOn(m: Mem, base: nat, s: Setup, i: nat)
    requires Legal(s) && Ready(m, base, s) && i < s.count && s.src + i in m
    requires Touched(ArmedByte(m[s.src + i], s.src + i - base, s), s.dst + i - base) != m[s.src + i]
    ensures !Delivers(m, base, s)
  {
    hide Transferred, Legal, ArmedByte, Touched, Delivers;
    var after := TransferExists(m, base, s);
    TransferAt(m, after, base, s, s.dst + i);
    ByteIsLost(m, after, base, s, i);
  }

  lemma ByteIsLost(m: Mem, after: Mem, base: nat, s: Setup, i: nat)
    requires Legal(s) && Ready(m, base, s) && Transferred(m, after, base, s) && i < s.count
    requires s.dst + i in after ==> after[s.dst + i] != m[s.src + i]
    ensures !Delivers(m, base, s)
  {
    hide Transferred, Legal;
    if Mapped(after, s.dst, s.count) {
      assert Read(after, s.dst, s.count)[i] != Read(m, s.src, s.count)[i];
    }
  }

  lemma NotIdentity(s: Setup, from: int, to: int)
    requires Legal(s) && (Rewritten(from) || to == BUSY_BYTE || to == FLAG_BYTE)
    ensures Touched(ArmedByte(0, from, s), to) != 0 || Touched(ArmedByte(1, from, s), to) != 1
  {
    hide ToBytes;
  }
}
