/** What a DMA transfer does to memory, with the engine's own registers inside the memory it moves. */
module DmaTransfer {
  import opened Arithmetic
  import opened FlatMemory
  import opened DmaRegisters
  import opened DmaEngine

  /** `m1` is `m` with the copy that `s` asks for carried out. */
  ghost predicate Copied(m: Mem, m1: Mem, s: Setup) {
    Mapped(m, s.src, s.count) && m1 == Copy(m, s.src, s.dst, s.count)
  }

  /** The memories that a transfer goes through: registers read `r`, bytes moved, completion recorded. */
  ghost predicate Stages(m: Mem, armed: Mem, moved: Mem, after: Mem, base: nat, r: Regs, s: Setup) {
    && Overlaid(m, armed, base, r)
    && Copied(armed, moved, s)
    && Mapped(moved, base, BLOCK)
    && Overlaid(moved, after, base, Completed(RegsAt(moved, base)))
  }

  /** The copy was made while the registers read `r`, and was completed. */
  ghost predicate Ran(m: Mem, after: Mem, base: nat, r: Regs, s: Setup) {
    exists armed: Mem, moved: Mem :: Stages(m, armed, moved, after, base, r, s)
  }

  /** A whole transfer: arm the registers, copy, complete. */
  ghost predicate Transferred(m: Mem, after: Mem, base: nat, s: Setup)
    requires Mapped(m, base, BLOCK) && Legal(s)
  {
    Ran(m, after, base, Armed(RegsAt(m, base), s), s)
  }

  /** A transfer has exactly one outcome. */
  lemma TransferIsDetermined(m: Mem, a1: Mem, a2: Mem, base: nat, s: Setup)
    requires Mapped(m, base, BLOCK) && Legal(s)
    requires Transferred(m, a1, base, s) && Transferred(m, a2, base, s)
    ensures a1 == a2
  {
    hide Overlaid, RegsAt, Armed, Completed;
    var r := Armed(RegsAt(m, base), s);
    var armed1: Mem, moved1: Mem :| Stages(m, armed1, moved1, a1, base, r, s);
    var armed2: Mem, moved2: Mem :| Stages(m, armed2, moved2, a2, base, r, s);
    OverlaidIsUnique(m, armed1, armed2, base, r);
    OverlaidIsUnique(moved1, a1, a2, base, Completed(RegsAt(moved1, base)));
  }

  /** Register stores before a run can be counted as part of it. */
  lemma RanAfterStores(m: Mem, m1: Mem, after: Mem, base: nat, r1: Regs, r: Regs, s: Setup)
    requires Overlaid(m, m1, base, r1) && Ran(m1, after, base, r, s)
    ensures Ran(m, after, base, r, s)
  {
    hide Overlaid;
    var armed: Mem, moved: Mem :| Stages(m1, armed, moved, after, base, r, s);
    OverlaidTwice(m, m1, armed, base, r1, r);
    assert Stages(m, armed, moved, after, base, r, s);
  }

  // ---- completion, byte by byte ----

  const BUSY_BYTE := 5
  const FLAG_BYTE := 0x10

  /** Completion touches two bits of the block: busy and the interrupt flag. */
  function Touched(b: Byte, offset: int): Byte {
    if offset == BUSY_BYTE then b - b % 2 else if offset == FLAG_BYTE then b - b % 2 + 1 else b
  }

  lemma CompletedAt(m: Mem, after: Mem, base: nat, x: nat)
    requires Mapped(m, base, BLOCK) && Overlaid(m, after, base, Completed(RegsAt(m, base))) && x in m
    ensures after[x] == Touched(m[x], x - base)
  {
    hide FromBytes, ToBytes, Set, Completed, RegsAt, WellSized;
    if k: Name :| Within(x, base, k) {
      var i := x - (base + Offset(k));
      var s, t := Read(m, base + Offset(k), Width(k)), Read(after, base + Offset(k), Width(k));
      assert m[x] == s[i] && after[x] == t[i];
      CompletedBytes(s, t, k, RegsAt(m, base));
    } else {
      assert !Within(x, base, Status) && !Within(x, base, Intr);
    }
  }

  lemma CompletedBytes(s: seq<Byte>, t: seq<Byte>, k: Name, r: Regs)
    requires |s| == |t| == Width(k) && FromBytes(s) == Of(r, k) && FromBytes(t) == Of(Completed(r), k)
    ensures forall i | 0 <= i < |s| :: t[i] == Touched(s[i], Offset(k) + i)
  {
    hide FromBytes, ToBytes, Set;
    LoadThenStore(s);
    LoadThenStore(t);
    if k == Status {
      BusyCleared(s);
    } else if k == Intr {
      FlagRaised(s);
    }
  }

  lemma BusyCleared(s: seq<Byte>)
    requires |s| == 4
    ensures ToBytes(Set(FromBytes(s), STATUS_BUSY, 0), 4) == [s[0], Touched(s[1], BUSY_BYTE), s[2], s[3]]
  {
    var t := [s[0], Touched(s[1], BUSY_BYTE), s[2], s[3]];
    FourBytes(s);
    FourBytes(t);
    SetBusyBit(s[0], s[1], s[2], s[3]);
    LoadThenStore(t);
  }

  lemma FlagRaised(s: seq<Byte>)
    requires |s| == 4
    ensures ToBytes(Set(FromBytes(s), INTR_FLAG, 1), 4) == [Touched(s[0], FLAG_BYTE), s[1], s[2], s[3]]
  {
    var t := [Touched(s[0], FLAG_BYTE), s[1], s[2], s[3]];
    FourBytes(s);
    FourBytes(t);
    SetFlagBit(s[0], s[1], s[2], s[3]);
    LoadThenStore(t);
  }

  function Word4(b0: int, b1: int, b2: int, b3: int): int {
    b0 + 0x100 * b1 + 0x1_0000 * b2 + 0x100_0000 * b3
  }

  lemma FourBytes(s: seq<Byte>)
    requires |s| == 4
    ensures FromBytes(s) == Word4(s[0], s[1], s[2], s[3])
  {
    assert s[1..][1..] == s[2..] && s[2..][1..] == s[3..] && s[3..][1..] == [];
    assert FromBytes(s[3..]) == s[3] as int + 0x100 * FromBytes(s[3..][1..]);
    assert FromBytes(s[2..]) == s[2] as int + 0x100 * FromBytes(s[3..]);
    assert FromBytes(s[1..]) == s[1] as int + 0x100 * FromBytes(s[2..]);
  }

  lemma SetBusyBit(b0: Byte, b1: Byte, b2: Byte, b3: Byte)
    ensures Set(Word4(b0, b1, b2, b3), STATUS_BUSY, 0) == Word4(b0, Touched(b1, BUSY_BYTE), b2, b3)
  {
    var w := Word4(b0, b1, b2, b3);
    var high := 0x80 * b2 + 0x8000 * b3 + b1 / 2;
    assert w == 0x200 * high + (0x100 * (b1 % 2) + b0);
    DivModUnique(w, high, 0x200, 0x100 * (b1 % 2) + b0);
    DivModUnique(w, 2 * high + b1 % 2, 0x100, b0);
  }

  lemma SetFlagBit(b0: Byte, b1: Byte, b2: Byte, b3: Byte)
    ensures Set(Word4(b0, b1, b2, b3), INTR_FLAG, 1) == Word4(Touched(b0, FLAG_BYTE), b1, b2, b3)
  {
  }

  // ---- arming, byte by byte ----

  const MODE_BYTE := 1
  const BEAT_BYTE := 2
  const ENABLE_BYTE := 0x43

  /** What arming leaves in the byte `offset` of the block that held `b`. */
  function ArmedByte(b: Byte, offset: int, s: Setup): Byte
    requires Legal(s)
  {
    if offset == MODE_BYTE then b - b % 4 + s.mode
    else if offset == BEAT_BYTE then b / 0x80 * 0x80 + s.dobBeat * 0x10 + b / 8 % 2 * 8 + s.dfbBeat
    else if offset == BUSY_BYTE then b - b % 2 + 1
    else if 0x20 <= offset < 0x28 then ToBytes(s.src, 8)[offset - 0x20]
    else if 0x30 <= offset < 0x38 then ToBytes(s.dst, 8)[offset - 0x30]
    else if 0x40 <= offset < ENABLE_BYTE then ToBytes(s.count, 4)[offset - 0x40]
    else if offset == ENABLE_BYTE then b % 0x80 + 0x80
    else b
  }

  lemma ArmedAt(m: Mem, armed: Mem, base: nat, s: Setup, x: nat)
    requires Mapped(m, base, BLOCK) && Legal(s) && Overlaid(m, armed, base, Armed(RegsAt(m, base), s)) && x in m
    ensures armed[x] == ArmedByte(m[x], x - base, s)
  {
    hide FromBytes, ToBytes, Set, Armed, RegsAt, WellSized, Legal;
    if k: Name :| Within(x, base, k) {
      var i := x - (base + Offset(k));
      var old', new' := Read(m, base + Offset(k), Width(k)), Read(armed, base + Offset(k), Width(k));
      assert m[x] == old'[i] && armed[x] == new'[i];
      ArmedBytes(old', new', k, RegsAt(m, base), s);
    } else {
      assert forall k :: !Within(x, base, k);
      assert !Within(x, base, Control) && !Within(x, base, Status) && !Within(x, base, SrcAddr);
      assert !Within(x, base, DstAddr) && !Within(x, base, XferCount);
    }
  }

  lemma ArmedBytes(old': seq<Byte>, new': seq<Byte>, k: Name, r: Regs, s: Setup)
    requires Legal(s) && |old'| == |new'| == Width(k)
    requires FromBytes(old') == Of(r, k) && FromBytes(new') == Of(Armed(r, s), k)
    ensures forall i | 0 <= i < |old'| :: new'[i] == ArmedByte(old'[i], Offset(k) + i, s)
  {
    hide FromBytes, ToBytes, Set;
    LoadThenStore(old');
    LoadThenStore(new');
    match k {
      case Control => ControlArmed(old', new', s);
      case Status => BusySet(old', new', s);
      case XferCount => CountArmed(old', new', s);
      case _ =>
    }
  }

  lemma ControlArmed(b: seq<Byte>, c: seq<Byte>, s: Setup)
    requires Legal(s) && |b| == |c| == 4
    requires FromBytes(c) == Set(Set(Set(FromBytes(b), CTRL_DOB, s.dobBeat), CTRL_DFB, s.dfbBeat), CTRL_MODE, s.mode)
    ensures c == [b[0], ArmedByte(b[1], MODE_BYTE, s), ArmedByte(b[2], BEAT_BYTE, s), b[3]]
  {
    var c' := [b[0], ArmedByte(b[1], MODE_BYTE, s), ArmedByte(b[2], BEAT_BYTE, s), b[3]];
    FourBytes(b);
    FourBytes(c');
    ControlWord(b[0], b[1], b[2], b[3], s);
    hide Set, FromBytes, ToBytes, Word4, ArmedByte;
    LoadThenStore(c);
    LoadThenStore(c');
  }

  lemma BusySet(b: seq<Byte>, c: seq<Byte>, s: Setup)
    requires Legal(s) && |b| == |c| == 4 && FromBytes(c) == Set(FromBytes(b), STATUS_BUSY, 1)
    ensures c == [b[0], ArmedByte(b[1], BUSY_BYTE, s), b[2], b[3]]
  {
    var c' := [b[0], ArmedByte(b[1], BUSY_BYTE, s), b[2], b[3]];
    FourBytes(b);
    FourBytes(c');
    hide Set, FromBytes, ToBytes, Word4;
    SetBusy(b[0], b[1], b[2], b[3]);
    LoadThenStore(c);
    LoadThenStore(c');
  }

  lemma CountArmed(b: seq<Byte>, c: seq<Byte>, s: Setup)
    requires Legal(s) && |b| == |c| == 4
    requires FromBytes(c) == Set(Set(FromBytes(b), XFER_COUNT, s.count), XFER_EN, 1)
    ensures c == ToBytes(s.count, 4)[..3] + [ArmedByte(b[3], ENABLE_BYTE, s)]
  {
    var n := ToBytes(s.count, 4);
    var c' := n[..3] + [ArmedByte(b[3], ENABLE_BYTE, s)];
    FourBytes(b);
    FourBytes(c');
    CountBytes(s.count);
    hide Set, FromBytes, ToBytes, Word4;
    SetCount(b[0], b[1], b[2], b[3], n[0], n[1], n[2]);
    SetEnable(n[0], n[1], n[2], b[3]);
    LoadThenStore(c);
    LoadThenStore(c');
  }

  lemma ControlWord(b0: Byte, b1: Byte, b2: Byte, b3: Byte, s: Setup)
    requires Legal(s)
    ensures
      Set(Set(Set(Word4(b0, b1, b2, b3), CTRL_DOB, s.dobBeat), CTRL_DFB, s.dfbBeat), CTRL_MODE, s.mode) ==
      Word4(b0, ArmedByte(b1, MODE_BYTE, s), ArmedByte(b2, BEAT_BYTE, s), b3)
  {
    hide Set, Word4;
    var b2' := b2 / 0x80 * 0x80 + s.dobBeat * 0x10 + b2 % 0x10;
    BeatByte(b2, s.dobBeat, s.dfbBeat);
    SetDob(b0, b1, b2, b3, s.dobBeat);
    SetDfb(b0, b1, b2', b3, s.dfbBeat);
    SetMode(b0, b1, b2' / 8 * 8 + s.dfbBeat, b3, s.mode);
  }

  lemma BeatByte(b: Byte, dob: nat, dfb: nat)
    requires dob < 8 && dfb < 8
    ensures (b / 0x80 * 0x80 + dob * 0x10 + b % 0x10) / 8 * 8 + dfb ==
            b / 0x80 * 0x80 + dob * 0x10 + b / 8 % 2 * 8 + dfb
  {
  }

  lemma CountBytes(n: nat)
    requires n <= MAX_TRANSFER
    ensures n == Word4(ToBytes(n, 4)[0], ToBytes(n, 4)[1], ToBytes(n, 4)[2], 0)
  {
    Widths();
    StoreThenLoad(n, 4);
    FourBytes(ToBytes(n, 4));
  }

  lemma SetDob(b0: Byte, b1: Byte, b2: Byte, b3: Byte, v: nat)
    requires v < 8
    ensures Set(Word4(b0, b1, b2, b3), CTRL_DOB, v) == Word4(b0, b1, b2 / 0x80 * 0x80 + v * 0x10 + b2 % 0x10, b3)
  {
    SetBits(Word4(b0, b1, b2, b3), b0 + 0x100 * b1 + 0x1_0000 * (b2 % 0x10), b2 / 0x10 % 8, b2 / 0x80 + 2 * b3,
            CTRL_DOB, v);
  }

  lemma SetDfb(b0: Byte, b1: Byte, b2: Byte, b3: Byte, v: nat)
    requires v < 8
    ensures Set(Word4(b0, b1, b2, b3), CTRL_DFB, v) == Word4(b0, b1, b2 / 8 * 8 + v, b3)
  {
    SetBits(Word4(b0, b1, b2, b3), b0 + 0x100 * b1, b2 % 8, b2 / 8 + 0x20 * b3, CTRL_DFB, v);
  }

  lemma SetMode(b0: Byte, b1: Byte, b2: Byte, b3: Byte, v: nat)
    requires v < 4
    ensures Set(Word4(b0, b1, b2, b3), CTRL_MODE, v) == Word4(b0, b1 - b1 % 4 + v, b2, b3)
  {
    SetBits(Word4(b0, b1, b2, b3), b0, b1 % 4, b1 / 4 + 0x40 * b2 + 0x4000 * b3, CTRL_MODE, v);
  }

  lemma SetBusy(b0: Byte, b1: Byte, b2: Byte, b3: Byte)
    ensures Set(Word4(b0, b1, b2, b3), STATUS_BUSY, 1) == Word4(b0, b1 - b1 % 2 + 1, b2, b3)
  {
  }

  lemma SetCount(b0: Byte, b1: Byte, b2: Byte, b3: Byte, c0: Byte, c1: Byte, c2: Byte)
    ensures Set(Word4(b0, b1, b2, b3), XFER_COUNT, Word4(c0, c1, c2, 0)) == Word4(c0, c1, c2, b3)
  {
  }

  lemma SetEnable(b0: Byte, b1: Byte, b2: Byte, b3: Byte)
    ensures Set(Word4(b0, b1, b2, b3), XFER_EN, 1) == Word4(b0, b1, b2, b3 % 0x80 + 0x80)
  {
    SetBits(Word4(b0, b1, b2, b3), Word4(b0, b1, b2, b3 % 0x80), b3 / 0x80, 0, XFER_EN, 1);
  }

  /** Storing into a field of a word given by its three parts. */
  lemma SetBits(w: nat, low: nat, mid: nat, high: nat, f: BitField, v: nat)
    requires f.unit > 0 && low < f.unit && mid < f.range && v < f.range
    requires w == high * (f.unit * f.range) + mid * f.unit + low
    ensures Set(w, f, v) == high * (f.unit * f.range) + v * f.unit + low
  {
    FieldsRecovered(w, high, mid, low, f.unit, f.range, f.unit * f.range);
  }
}
