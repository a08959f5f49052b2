/** The register block of a tile's DMA engine: bit fields, byte order, and how the block overlays memory. */
module DmaRegisters {
  import opened Arithmetic
  import opened FlatMemory

  // ---- bit fields ----

  const WORD := 0x1_0000_0000
  const LONG := 0x1_0000_0000_0000_0000

  /** The bits from `unit` up to, and not including, `unit * range`. */
  datatype BitField = BitField(unit: nat, range: nat)

  const CTRL_DOB := BitField(0x10_0000, 8)
  const CTRL_DFB := BitField(0x1_0000, 8)
  const CTRL_MODE := BitField(0x100, 4)
  const CTRL_RST := BitField(1, 2)
  const STATUS_BUSY := BitField(0x100, 2)  // the mask is built with the shift of the mode field
  const INTR_FLAG := BitField(1, 2)
  const XFER_COUNT := BitField(1, 0x100_0000)
  const XFER_EN := BitField(0x8000_0000, 2)

  ghost predicate Fits(f: BitField) {
    f.unit > 0 && f.range > 0 && WORD % (f.unit * f.range) == 0
  }

  /** (REG & MASK) >> SHIFT */
  function Get(w: nat, f: BitField): nat
    requires f.unit > 0 && f.range > 0
  {
    w / f.unit % f.range
  }

  /** (REG & ~MASK) | (VAL << SHIFT): the bits above and below stay. */
  function Set(w: nat, f: BitField, v: nat): nat
    requires f.unit > 0 && f.range > 0 && v < f.range
  {
    w / (f.unit * f.range) * (f.unit * f.range) + v * f.unit + w % f.unit
  }

  /** A field holds what was stored in it, the bits on either side keep their value, and the word stays a word. */
  lemma SetThenGet(w: nat, f: BitField, v: nat)
    requires Fits(f) && v < f.range
    ensures Get(Set(w, f, v), f) == v
    ensures Set(w, f, v) % f.unit == w % f.unit
    ensures Set(w, f, v) / (f.unit * f.range) == w / (f.unit * f.range)
    ensures w < WORD ==> Set(w, f, v) < WORD
  {
    var s := f.unit * f.range;
    FieldsRecovered(Set(w, f, v), w / s, v, w % f.unit, f.unit, f.range, s);
    if w < WORD {
      var top := WORD / s;
      assert w == w / s * s + w % s;
      assert WORD == top * s;
      if w / s >= top {
        MulMonotone(top, w / s, s);
      }
      MulMonotone(w / s + 1, top, s);
      assert (w / s + 1) * s == w / s * s + s;
    }
  }

  lemma FieldsRecovered(r: nat, high: nat, v: nat, low: nat, unit: nat, range: nat, s: nat)
    requires r == high * s + v * unit + low && s == unit * range && low < unit && v < range
    ensures r / unit % range == v && r % unit == low
    ensures s > 0 && r / s == high && r < high * s + s
  {
    InnerFits(v, low, unit, range);
    DivModUnique(r, high, s, v * unit + low);
    Distribute(high, v, unit, range);
    DivModUnique(r, high * range + v, unit, low);
    DivModUnique(high * range + v, high, range, v);
  }

  lemma InnerFits(v: nat, low: nat, unit: nat, range: nat)
    requires v < range && low < unit
    ensures v * unit + low < unit * range
  {
    MulMonotone(v + 1, range, unit);
    assert (v + 1) * unit == v * unit + unit;
  }

  lemma Distribute(high: nat, v: nat, unit: nat, range: nat)
    ensures high * (unit * range) + v * unit == (high * range + v) * unit
  {
  }

  lemma HigherFieldKept(w: nat, f: BitField, v: nat, g: BitField, gap: nat)
    requires Fits(f) && v < f.range && g.range > 0 && gap > 0 && g.unit == f.unit * f.range * gap
    ensures g.unit > 0 && Get(Set(w, f, v), g) == Get(w, g)
  {
    SetThenGet(w, f, v);
    DivDiv(w, f.unit * f.range, gap);
    DivDiv(Set(w, f, v), f.unit * f.range, gap);
  }

  lemma LowerFieldKept(w: nat, f: BitField, v: nat, g: BitField, gap: nat)
    requires Fits(f) && v < f.range && g.unit > 0 && g.range > 0 && gap > 0 && f.unit == g.unit * g.range * gap
    ensures Get(Set(w, f, v), g) == Get(w, g)
  {
    SetThenGet(w, f, v);
    LowField(w, f.unit, g, gap);
    LowField(Set(w, f, v), f.unit, g, gap);
  }

  /** A field below `unit` is decided by the remainder modulo `unit`. */
  lemma LowField(w: nat, unit: nat, g: BitField, gap: nat)
    requires g.unit > 0 && g.range > 0 && gap > 0 && unit == g.unit * g.range * gap
    ensures unit > 0 && Get(w, g) == Get(w % unit, g)
  {
    var q, low := w / unit, w % unit;
    assert w == q * unit + low;
    var k := low / g.unit;
    assert w == (q * gap * g.range + k) * g.unit + low % g.unit;
    DivModUnique(w, q * gap * g.range + k, g.unit, low % g.unit);
    DivModUnique(q * gap * g.range + k, q * gap + k / g.range, g.range, k % g.range);
  }

  // ---- byte order ----

  function Pow256(n: nat): (p: nat)
    ensures p > 0
  {
    if n == 0 then 1 else 256 * Pow256(n - 1)
  }

  /** Little-endian. */
  function ToBytes(w: nat, n: nat): (s: seq<Byte>)
    ensures |s| == n
  {
    if n == 0 then [] else [w % 256] + ToBytes(w / 256, n - 1)
  }

  function FromBytes(s: seq<Byte>): (w: nat)
    ensures w < Pow256(|s|)
  {
    if s == [] then 0 else s[0] + 256 * FromBytes(s[1..])
  }

  lemma {:induction false} StoreThenLoad(w: nat, n: nat)
    requires w < Pow256(n)
    ensures FromBytes(ToBytes(w, n)) == w
  {
    if n == 0 {
    } else {
      StoreThenLoad(w / 256, n - 1);
      assert ToBytes(w, n)[1..] == ToBytes(w / 256, n - 1);
    }
  }

  lemma {:induction false} LoadThenStore(s: seq<Byte>)
    ensures ToBytes(FromBytes(s), |s|) == s
  {
    if s == [] {
    } else {
      LoadThenStore(s[1..]);
      assert FromBytes(s) % 256 == s[0] && FromBytes(s) / 256 == FromBytes(s[1..]);
    }
  }

  lemma Widths()
    ensures Pow256(4) == WORD && Pow256(8) == LONG
  {
  }

  // ---- the register file ----

  const BLOCK := 0x50

  datatype Name = Control | Status | Intr | SrcAddr | DstAddr | XferCount

  function Offset(k: Name): nat {
    match k
    case Control => 0x00
    case Status => 0x04
    case Intr => 0x10
    case SrcAddr => 0x20
    case DstAddr => 0x30
    case XferCount => 0x40
  }

  function Width(k: Name): nat {
    if k == SrcAddr || k == DstAddr then 8 else 4
  }

  /** What the engine's registers hold. */
  datatype Regs = Regs(control: nat, status: nat, intr: nat, src: nat, dst: nat, count: nat)

  function Of(r: Regs, k: Name): nat {
    match k
    case Control => r.control
    case Status => r.status
    case Intr => r.intr
    case SrcAddr => r.src
    case DstAddr => r.dst
    case XferCount => r.count
  }

  function Put(r: Regs, k: Name, w: nat): Regs {
    match k
    case Control => r.(control := w)
    case Status => r.(status := w)
    case Intr => r.(intr := w)
    case SrcAddr => r.(src := w)
    case DstAddr => r.(dst := w)
    case XferCount => r.(count := w)
  }

  ghost predicate WellSized(r: Regs) {
    && r.control < WORD && r.status < WORD && r.intr < WORD && r.count < WORD
    && r.src < LONG && r.dst < LONG
  }

  lemma SizedIff(r: Regs)
    ensures WellSized(r) <==> forall k :: Of(r, k) < Pow256(Width(k))
  {
    Widths();
    hide Pow256;
    if forall k :: Of(r, k) < Pow256(Width(k)) {
      assert Of(r, Control) < WORD && Of(r, Status) < WORD && Of(r, Intr) < WORD;
      assert Of(r, SrcAddr) < LONG && Of(r, DstAddr) < LONG && Of(r, XferCount) < WORD;
    }
  }

  ghost function Peek(m: Mem, base: nat, k: Name): (w: nat)
    requires Mapped(m, base + Offset(k), Width(k))
    ensures w < Pow256(Width(k))
  {
    FromBytes(Read(m, base + Offset(k), Width(k)))
  }

  ghost function Poke(m: Mem, base: nat, k: Name, w: nat): Mem {
    Write(m, base + Offset(k), ToBytes(w, Width(k)))
  }

  /** The register file that the block at `base` of a memory shows. */
  ghost function RegsAt(m: Mem, base: nat): (r: Regs)
    requires Mapped(m, base, BLOCK)
    ensures WellSized(r) && forall k :: Of(r, k) == Peek(m, base, k)
  {
    var r := Regs(Peek(m, base, Control), Peek(m, base, Status), Peek(m, base, Intr),
                  Peek(m, base, SrcAddr), Peek(m, base, DstAddr), Peek(m, base, XferCount));
    SizedIff(r);
    r
  }

  predicate Within(x: nat, base: nat, k: Name) {
    base + Offset(k) <= x < base + Offset(k) + Width(k)
  }

  /** `m'` is `m` except that its registers read `r`. */
  ghost predicate Overlaid(m: Mem, m': Mem, base: nat, r: Regs) {
    && Mapped(m, base, BLOCK)
    && m'.Keys == m.Keys
    && Mapped(m', base, BLOCK)
    && RegsAt(m', base) == r
    && forall x | x in m :: (forall k :: !Within(x, base, k)) ==> m'[x] == m[x]
  }

  lemma PeekAfterPoke(m: Mem, base: nat, k: Name, w: nat, j: Name)
    requires Mapped(m, base, BLOCK) && w < Pow256(Width(k))
    ensures Mapped(Poke(m, base, k, w), base + Offset(j), Width(j))
    ensures Peek(Poke(m, base, k, w), base, j) == if j == k then w else Peek(m, base, j)
  {
    hide Pow256, ToBytes, FromBytes, Write, Read;
    StoreThenLoad(w, Width(k));
    ReadAfterWrite(m, base + Offset(k), ToBytes(w, Width(k)), base + Offset(j), Width(j));
  }

  lemma PokeIsPut(m: Mem, base: nat, k: Name, w: nat)
    requires Mapped(m, base, BLOCK) && w < Pow256(Width(k))
    ensures Overlaid(m, Poke(m, base, k, w), base, Put(RegsAt(m, base), k, w))
  {
    hide Pow256, ToBytes, FromBytes;
    var m' := Poke(m, base, k, w);
    assert Mapped(m', base, BLOCK);
    forall j: Name ensures Peek(m', base, j) == if j == k then w else Peek(m, base, j) {
      PeekAfterPoke(m, base, k, w, j);
    }
    hide Peek;
    forall x | x in m && !Within(x, base, k) ensures m'[x] == m[x] {
    }
  }

  lemma OverlaidTwice(m0: Mem, m1: Mem, m2: Mem, base: nat, r1: Regs, r2: Regs)
    requires Overlaid(m0, m1, base, r1) && Overlaid(m1, m2, base, r2)
    ensures Overlaid(m0, m2, base, r2)
  {
  }

  /** There is only one such memory. */
  lemma OverlaidIsUnique(m: Mem, m1: Mem, m2: Mem, base: nat, r: Regs)
    requires Overlaid(m, m1, base, r) && Overlaid(m, m2, base, r)
    ensures m1 == m2
  {
    hide Pow256, FromBytes, ToBytes;
    forall x | x in m ensures m1[x] == m2[x] {
      if k: Name :| Within(x, base, k) {
        var s1, s2 := Read(m1, base + Offset(k), Width(k)), Read(m2, base + Offset(k), Width(k));
        assert FromBytes(s1) == Of(RegsAt(m1, base), k) && FromBytes(s2) == Of(RegsAt(m2, base), k);
        LoadThenStore(s1);
        LoadThenStore(s2);
        assert s1[x - (base + Offset(k))] == s2[x - (base + Offset(k))];
      }
    }
  }

  /** The memory whose register block reads `r`. */
  ghost function WithRegs(m: Mem, base: nat, r: Regs): Mem {
    var m1 := Poke(Poke(m, base, Control, r.control), base, Status, r.status);
    var m2 := Poke(Poke(m1, base, Intr, r.intr), base, SrcAddr, r.src);
    Poke(Poke(m2, base, DstAddr, r.dst), base, XferCount, r.count)
  }

  lemma OverlaidAlready(m: Mem, base: nat)
    requires Mapped(m, base, BLOCK)
    ensures Overlaid(m, m, base, RegsAt(m, base))
  {
  }

  /** One more register store. */
  lemma PokeOn(m: Mem, m1: Mem, base: nat, r: Regs, k: Name, w: nat)
    requires Overlaid(m, m1, base, r) && w < Pow256(Width(k))
    ensures Overlaid(m, Poke(m1, base, k, w), base, Put(r, k, w))
  {
    PokeIsPut(m1, base, k, w);
    OverlaidTwice(m, m1, Poke(m1, base, k, w), base, r, Put(r, k, w));
  }

  lemma WithRegsOverlays(m: Mem, base: nat, r: Regs)
    requires Mapped(m, base, BLOCK) && WellSized(r)
    ensures Overlaid(m, WithRegs(m, base, r), base, r)
  {
    hide Pow256, Poke, Overlaid, RegsAt, Mapped;
    OverlaidAlready(m, base);
    var r0 := RegsAt(m, base);
    SizedIff(r);
    PokeOn(m, m, base, r0, Control, Of(r, Control));
    var m1, r1 := Poke(m, base, Control, r.control), Put(r0, Control, r.control);
    PokeOn(m, m1, base, r1, Status, Of(r, Status));
    var m2, r2 := Poke(m1, base, Status, r.status), Put(r1, Status, r.status);
    PokeOn(m, m2, base, r2, Intr, Of(r, Intr));
    var m3, r3 := Poke(m2, base, Intr, r.intr), Put(r2, Intr, r.intr);
    PokeOn(m, m3, base, r3, SrcAddr, Of(r, SrcAddr));
    var m4, r4 := Poke(m3, base, SrcAddr, r.src), Put(r3, SrcAddr, r.src);
    PokeOn(m, m4, base, r4, DstAddr, Of(r, DstAddr));
    var m5, r5 := Poke(m4, base, DstAddr, r.dst), Put(r4, DstAddr, r.dst);
    PokeOn(m, m5, base, r5, XferCount, Of(r, XferCount));
  }
}
