/** The tile DMA driver: eight engine handles over the platform's memory. */
module TileDma {
  import opened AddressMap
  import opened FlatMemory
  import opened PlatformMemory
  import opened DmaRegisters
  import opened DmaEngine
  import opened DmaTransfer
  import opened DmaTheorems
  import opened DmaReset

  /** DMAC512_HandleTypeDef */
  datatype Handle = Handle(instance: Ptr, init: Setup)

  function Base(tile: nat): nat {
    tile * TILE_STRIDE + DMA_REG_OFFSET
  }

  const DEFAULTS := Setup(AXI_TRANS_8, AXI_TRANS_8, NORMAL_MODE, 0, 0, 0)

  /** The setup a handle holds once a transfer has been asked of it. */
  function Aimed(init: Setup, src: nat, dst: nat, size: nat): Setup {
    init.(src := src, dst := dst, count := size)
  }

  function ForTransfer(src: nat, dst: nat, size: nat): Setup {
    Aimed(DEFAULTS, src, dst, size)
  }

  /** The whole block lies in the tile's DLM1 window. */
  lemma BlockIsMapped(m: Mem, tile: nat)
    requires Shaped(m) && tile < NUM_TILES
    ensures RegionOf(Base(tile)) == TileDlm1 && BLOCK <= Room(Base(tile))
    ensures Mapped(m, Base(tile), BLOCK)
  {
  }

  lemma RegisterLocated(tile: nat, k: Name)
    requires tile < NUM_TILES
    ensures RegionOf(Base(tile) + Offset(k)) == TileDlm1 && Width(k) <= Room(Base(tile) + Offset(k))
    ensures Locate(Base(tile)).At?
    ensures Locate(Base(tile) + Offset(k)) == At(Locate(Base(tile)).buf, Locate(Base(tile)).offset + Offset(k))
  {
  }

  /** What the copy needs so that it stays inside two buffers and the ranges do not overlap. */
  ghost predicate Movable(s: Setup) {
    Accepted(s) ==> InBounds(s.src, s.count) && InBounds(s.dst, s.count) && Disjoint(s.src, s.count, s.dst, s.count)
  }

  predicate Accepted(s: Setup) {
    Validate(s.src, s.count) && Validate(s.dst, s.count)
  }

  lemma CopyIsShaped(m: Mem, moved: Mem, s: Setup)
    requires Shaped(m) && Mapped(m, s.src, s.count) && moved == Copy(m, s.src, s.dst, s.count)
    ensures Shaped(moved)
  {
    hide Locate;
  }

  predicate Local(tile: int, src: nat, dst: nat) {
    0 <= tile < NUM_TILES && TileOf(src) == TileOf(dst) == tile
  }

  lemma LocalIff(tile: int, src: nat, dst: nat)
    ensures Local(tile, src, dst) <==>
      && 0 <= tile < 8
      && tile * 0x10_0000 <= src < (tile + 1) * 0x10_0000 && tile * 0x10_0000 <= dst < (tile + 1) * 0x10_0000
  {
  }

  /** What a successful transfer leaves behind. */
  ghost predicate Promised(m: Mem, after: Mem, base: nat, s: Setup) {
    && Ready(m, base, s) && Ready(after, base, s)
    && Read(after, s.dst, s.count) == Read(m, s.src, s.count)
    && (forall x | x in m && !InDst(x, s) && !InRegister(x, base) :: x in after && after[x] == m[x])
    && Idle(RegsAt(after, base), s)
  }

  ghost predicate Idle(r: Regs, s: Setup) {
    && Get(r.status, STATUS_BUSY) == 0 && Get(r.intr, INTR_FLAG) == 1
    && r.src == s.src && r.dst == s.dst && Get(r.count, XFER_COUNT) == s.count
  }

  lemma TransferKeepsPromise(m: Mem, prepared: Mem, after: Mem, base: nat, r: Regs, s: Setup)
    requires Overlaid(m, prepared, base, r) && Ready(m, base, s) && Legal(s)
    requires Transferred(prepared, after, base, s)
    requires ClearOf(s.src, s.count, base) && ClearOf(s.dst, s.count, base)
    ensures Promised(m, after, base, s)
  {
    hide RegsAt, Legal, Transferred, Armed, Completed, Set, Get;
    TransferIsCorrect(prepared, after, base, s);
    CompletedReads(RegsAt(prepared, base), s);
    assert Read(prepared, s.src, s.count) == Read(m, s.src, s.count);
  }

  // ---- registers through a handle's pointer ----

  method ReadRegister(memory: Memory, p: Ptr, ghost t: nat, k: Name) returns (w: nat)
    requires memory.Valid() && Shaped(memory.Flat()) && t < NUM_TILES && p == Locate(Base(t))
    ensures Mapped(memory.Flat(), Base(t), BLOCK)
    ensures w == Of(RegsAt(memory.Flat(), Base(t)), k)
    ensures memory.Flat() == old(memory.Flat())
  {
    hide Locate, RegionOf, Room, Shaped, FromBytes, Read, Memory.Flat, Memory.Contents, Memory.Valid, WellSized, Base;
    BlockIsMapped(memory.Flat(), t);
    RegisterLocated(t, k);
    var bytes := memory.LoadBytes(At(p.buf, p.offset + Offset(k)), Base(t) + Offset(k), Width(k));
    w := FromBytes(bytes);
  }

  /** A register store; `r` is what the registers read before it, relative to the memory `m`. */
  method WriteRegister(memory: Memory, p: Ptr, ghost t: nat, k: Name, w: nat, ghost m: Mem, ghost r: Regs)
    requires memory.Valid() && Shaped(memory.Flat()) && t < NUM_TILES && p == Locate(Base(t))
    requires w < Pow256(Width(k)) && Overlaid(m, memory.Flat(), Base(t), r)
    modifies memory.Buffers()
    ensures Shaped(memory.Flat()) && Overlaid(m, memory.Flat(), Base(t), Put(r, k, w))
  {
    hide Memory.Flat, Memory.Contents, Memory.Valid;
    hide Locate, RegionOf, Room, ToBytes, Write, Base, Pow256, Overlaid, RegsAt;
    BlockIsMapped(memory.Flat(), t);
    RegisterLocated(t, k);
    PokeOn(m, memory.Flat(), Base(t), r, k, w);
    memory.StoreBytes(At(p.buf, p.offset + Offset(k)), Base(t) + Offset(k), ToBytes(w, Width(k)));
  }

  /** A SET_ macro: read the register, replace one field, write it back. */
  method SetField(memory: Memory, p: Ptr, ghost t: nat, k: Name, f: BitField, v: nat, ghost m: Mem, ghost r: Regs)
    requires memory.Valid() && Shaped(memory.Flat()) && t < NUM_TILES && p == Locate(Base(t))
    requires Width(k) == 4 && Fits(f) && v < f.range && WellSized(r) && Overlaid(m, memory.Flat(), Base(t), r)
    modifies memory.Buffers()
    ensures Shaped(memory.Flat()) && WellSized(Put(r, k, Set(Of(r, k), f, v)))
    ensures Overlaid(m, memory.Flat(), Base(t), Put(r, k, Set(Of(r, k), f, v)))
  {
    SetThenGet(Of(r, k), f, v);
    Widths();
    OverlaidReads(m, memory.Flat(), Base(t), r);
    hide Memory.Flat, Memory.Contents, Memory.Valid;
    hide Locate, RegionOf, Room, Base, Pow256, Overlaid, Set, RegsAt, Shaped;
    var w := ReadRegister(memory, p, t, k);
    WriteRegister(memory, p, t, k, Set(w, f, v), m, r);
  }

  // ---- what the tile's own registers show, in bytes ----

  /** Bit 0 of the tile's control register is 0. */
  ghost predicate ResetBitClear(m: Mem, t: nat) {
    var block := t * 0x10_0000 + 0xF000;
    block in m && m[block] % 2 == 0
  }

  /** Bit 8 of the tile's status register is 1. */
  ghost predicate StillBusy(m: Mem, t: nat) {
    var block := t * 0x10_0000 + 0xF000;
    block + 5 in m && m[block + 5] % 2 == 1
  }

  /** The tile's reset bit is clear, its status and interrupt registers are 0, and no other bit has changed. */
  ghost predicate IsReset(m: Mem, after: Mem, t: nat) {
    var block := t * 0x10_0000 + 0xF000;
    && after.Keys == m.Keys
    && (block in m ==> after[block] == m[block] - m[block] % 2)
    && (forall x | x in m && (block + 4 <= x < block + 8 || block + 0x10 <= x < block + 0x14) :: after[x] == 0)
    && (forall x | x in m && x != block && !(block + 4 <= x < block + 8 || block + 0x10 <= x < block + 0x14) ::
          after[x] == m[x])
  }

  lemma ResetIsReset(m: Mem, after: Mem, t: nat)
    requires Mapped(m, Base(t), BLOCK) && Overlaid(m, after, Base(t), Reset(RegsAt(m, Base(t))))
    ensures IsReset(m, after, t)
  {
    hide RegsAt, Reset;
    forall x | x in m ensures x in after && after[x] == ResetByte(m[x], x - Base(t)) {
      ResetAt(m, after, Base(t), x);
    }
    OverlaidKeys(m, after, Base(t), Reset(RegsAt(m, Base(t))));
    hide Overlaid;
  }

  lemma OverlaidMaps(m: Mem, after: Mem, base: nat, r: Regs)
    requires Overlaid(m, after, base, r)
    ensures Mapped(after, base, BLOCK) && base + 5 in after
  {
    hide RegsAt;
  }

  lemma RefusedIsBusy(m: Mem, after: Mem, t: nat)
    requires Mapped(m, Base(t), BLOCK) && Overlaid(m, after, Base(t), Busy(Enabled(RegsAt(m, Base(t)))))
    ensures StillBusy(after, t)
  {
    hide Busy, Enabled, RegsAt, Overlaid, Mapped;
    OverlaidMaps(m, after, Base(t), Busy(Enabled(RegsAt(m, Base(t)))));
    RefusedStaysBusy(m, after, Base(t));
  }

  lemma FirstUseClearsReset(m: Mem, prepared: Mem, after: Mem, t: nat, s: Setup)
    requires Mapped(m, Base(t), BLOCK) && Overlaid(m, prepared, Base(t), Reset(RegsAt(m, Base(t))))
    requires Mapped(prepared, Base(t), BLOCK) && Legal(s) && Transferred(prepared, after, Base(t), s)
    requires !(s.dst <= t * 0x10_0000 + 0xF000 < s.dst + s.count)
    ensures ResetBitClear(after, t)
  {
    hide Transferred, Overlaid, Legal, RegsAt, Reset, Mapped;
    ResetBitStaysClear(m, prepared, after, Base(t), s);
  }

  /** [a, a + n) keeps clear of the tile's register block. */
  predicate OffRegisters(t: nat, a: nat, n: nat) {
    a + n <= t * 0x10_0000 + 0xF000 || t * 0x10_0000 + 0xF050 <= a
  }

  /** The destination holds the old source, and nothing else has changed but the tile's registers. */
  ghost predicate Carried(m: Mem, after: Mem, t: nat, src: nat, dst: nat, n: nat) {
    var block := t * 0x10_0000 + 0xF000;
    && Mapped(m, src, n) && Mapped(after, dst, n)
    && (forall x | dst <= x < dst + n :: after[x] == m[src + (x - dst)])
    && (forall x | x in m && !(dst <= x < dst + n) && !(block <= x < block + 0x50) :: x in after && after[x] == m[x])
  }

  lemma ClearMeans(src: nat, dst: nat, n: nat, t: nat)
    requires OffRegisters(t, src, n) && OffRegisters(t, dst, n)
    ensures ClearOf(src, n, Base(t)) && ClearOf(dst, n, Base(t))
  {
  }

  lemma PromiseMeans(m: Mem, after: Mem, t: nat, s: Setup)
    requires Promised(m, after, Base(t), s)
    ensures Carried(m, after, t, s.src, s.dst, s.count)
  {
    hide RegsAt, Idle;
    forall x | s.dst <= x < s.dst + s.count ensures after[x] == m[s.src + (x - s.dst)] {
      assert Read(after, s.dst, s.count)[x - s.dst] == Read(m, s.src, s.count)[x - s.dst];
    }
  }

  class Driver {
    const memory: Memory
    var handles: seq<Handle>      // g_dmac512_handles
    var initialized: seq<bool>    // g_dmac512_initialized

    ghost predicate Valid()
      reads this, memory.Buffers()
    {
      && memory.Valid() && Shaped(memory.Flat())
      && |handles| == |initialized| == NUM_TILES
      && forall t | 0 <= t < NUM_TILES && initialized[t] :: Attached(handles[t], t)
    }

    constructor (memory: Memory)
      requires memory.Valid() && Shaped(memory.Flat())
      ensures Valid() && this.memory == memory
      ensures initialized == seq(NUM_TILES, _ => false)
    {
      this.memory := memory;
      handles := seq(NUM_TILES, _ => Handle(Null, DEFAULTS));
      initialized := seq(NUM_TILES, _ => false);
    }

    /** HAL_DMAC512ConfigureChannel */
    method ConfigureChannel(t: nat)
      requires Valid() && t < NUM_TILES && Attached(handles[t], t)
      modifies memory.Buffers()
      ensures Valid() && Mapped(old(memory.Flat()), Base(t), BLOCK)
      ensures
        var m := old(memory.Flat());
        Overlaid(m, memory.Flat(), Base(t), Configured(RegsAt(m, Base(t)), handles[t].init))
    {
      hide Memory.Flat, Memory.Contents, Memory.Valid;
      hide Locate, RegionOf, Room, Base, Overlaid, Set, RegsAt, Shaped, Pow256;
      var p, s := handles[t].instance, handles[t].init;
      ghost var m := memory.Flat();
      BlockIsMapped(m, t);
      OverlaidAlready(m, Base(t));
      Widths();
      ghost var r0 := RegsAt(m, Base(t));
      SetField(memory, p, t, Control, CTRL_DOB, s.dobBeat, m, r0);
      ghost var r1 := r0.(control := Set(r0.control, CTRL_DOB, s.dobBeat));
      SetField(memory, p, t, Control, CTRL_DFB, s.dfbBeat, m, r1);
      ghost var r2 := r1.(control := Set(r1.control, CTRL_DFB, s.dfbBeat));
      SetField(memory, p, t, Control, CTRL_MODE, s.mode, m, r2);
      ghost var r3 := r2.(control := Set(r2.control, CTRL_MODE, s.mode));
      WriteRegister(memory, p, t, SrcAddr, s.src, m, r3);
      WriteRegister(memory, p, t, DstAddr, s.dst, m, r3.(src := s.src));
      SetField(memory, p, t, XferCount, XFER_COUNT, s.count, m, r3.(src := s.src, dst := s.dst));
    }

    /** HAL_DMAC512StartTransfers: when the setup is not accepted, the busy bit stays set as an error mark. */
    method StartTransfers(t: nat)
      requires Valid() && t < NUM_TILES && Attached(handles[t], t) && Movable(handles[t].init)
      modifies memory.Buffers()
      ensures Valid() && Mapped(old(memory.Flat()), Base(t), BLOCK)
      ensures
        var m, s := old(memory.Flat()), handles[t].init;
        if Accepted(s) then Ran(m, memory.Flat(), Base(t), Enabled(RegsAt(m, Base(t))), s)
        else Overlaid(m, memory.Flat(), Base(t), Busy(Enabled(RegsAt(m, Base(t)))))
      ensures !Accepted(handles[t].init) ==> StillBusy(memory.Flat(), t)
    {
      hide Memory.Flat, Memory.Contents, Memory.Valid;
      hide Locate, RegionOf, Room, Base, Overlaid, Set, RegsAt, Shaped, Pow256,
        Validate, Copy, Mapped;
      var h, s := handles[t].instance, handles[t].init;
      ghost var m := memory.Flat();
      BlockIsMapped(m, t);
      OverlaidAlready(m, Base(t));
      ghost var r := RegsAt(m, Base(t));
      SetField(memory, h, t, XferCount, XFER_EN, 1, m, r);
      ghost var enabled := memory.Flat();
      var p := memory.AddrToPtr(s.src);
      var q := memory.AddrToPtr(s.dst);
      var okSrc := Memory.ValidateAddress(s.src, s.count);
      var okDst := Memory.ValidateAddress(s.dst, s.count);
      AcceptedIsLocated(s.src, s.count);
      AcceptedIsLocated(s.dst, s.count);
      if p != Null && q != Null && okSrc && okDst {
        AcceptedSpan(s.src, s.count);
        AcceptedSpan(s.dst, s.count);
        memory.MoveBytes(p, q, s.src, s.dst, s.count);
        ghost var moved := memory.Flat();
        CopyIsShaped(enabled, moved, s);
        BlockIsMapped(moved, t);
        OverlaidAlready(moved, Base(t));
        ghost var r1 := RegsAt(moved, Base(t));
        SetField(memory, h, t, Status, STATUS_BUSY, 0, moved, r1);
        SetField(memory, h, t, Intr, INTR_FLAG, 1, moved, r1.(status := Set(r1.status, STATUS_BUSY, 0)));
        assert Stages(m, enabled, moved, memory.Flat(), Base(t), Enabled(r), s);
      } else {
        SetField(memory, h, t, Status, STATUS_BUSY, 1, m, Enabled(r));
        RefusedIsBusy(m, memory.Flat(), t);
      }
    }

    /** HAL_DMAC512IsBusy */
    method IsBusy(t: nat) returns (busy: bool)
      requires Valid() && t < NUM_TILES && Attached(handles[t], t)
      ensures Mapped(memory.Flat(), Base(t), BLOCK)
      ensures busy <==> Get(RegsAt(memory.Flat(), Base(t)).status, STATUS_BUSY) == 1
      ensures busy <==> memory.Flat()[t * 0x10_0000 + 0xF005] % 2 == 1
    {
      hide Locate, RegionOf, Room, Memory.Flat, Memory.Contents, Memory.Valid, RegsAt, Shaped;
      BlockIsMapped(memory.Flat(), t);
      BusyBit(memory.Flat(), Base(t));
      var status := ReadRegister(memory, handles[t].instance, t, Status);
      busy := Get(status, STATUS_BUSY) != 0;
    }

    /** HAL_DMAC512Transfer */
    method Transfer(t: nat, src: nat, dst: nat, size: nat) returns (r: int)
      requires Valid() && t < NUM_TILES && Attached(handles[t], t) && src < LONG && dst < LONG
      requires size <= MAX_TRANSFER ==> Movable(ForTransfer(src, dst, size))
      modifies this`handles, memory.Buffers()
      ensures Valid() && Attached(handles[t], t)
      ensures r > 0 ==> handles[t].init.src == src && handles[t].init.dst == dst && handles[t].init.count == size
      ensures r == if size <= 0xFF_FFFF && Accepted(ForTransfer(src, dst, size)) then size else -1
      ensures old(|handles|) == NUM_TILES
      ensures r > 0 ==>
        && Mapped(old(memory.Flat()), Base(t), BLOCK)
        && Transferred(old(memory.Flat()), memory.Flat(), Base(t), Aimed(old(handles)[t].init, src, dst, size))
        && handles == old(handles)[t := old(handles)[t].(init := Aimed(old(handles)[t].init, src, dst, size))]
      ensures r < 0 ==> memory.Flat() == old(memory.Flat()) && handles == old(handles)
    {
      hide Memory.Flat, Memory.Contents, Memory.Valid;
      hide Locate, RegionOf, Room, Base, Overlaid, Set, RegsAt, Shaped, Pow256,
        Validate, Copy, Mapped, Ran;
      AcceptedIsLocated(src, size);
      if size == 0 || size > MAX_TRANSFER {
        return -1;
      }
      var okSrc := Memory.ValidateAddress(src, size);
      var okDst := Memory.ValidateAddress(dst, size);
      if !okSrc || !okDst {
        return -1;
      }
      handles := handles[t := handles[t].(init := Aimed(handles[t].init, src, dst, size))];
      var s := handles[t].init;
      ghost var m := memory.Flat();
      ConfigureChannel(t);
      ghost var configured := Configured(RegsAt(m, Base(t)), s);
      OverlaidReads(m, memory.Flat(), Base(t), configured);
      SetField(memory, handles[t].instance, t, Status, STATUS_BUSY, 1, m, configured);
      ghost var busy := memory.Flat();
      OverlaidReads(m, busy, Base(t), Busy(configured));
      StartTransfers(t);
      RanAfterStores(m, busy, memory.Flat(), Base(t), Busy(configured), Enabled(Busy(configured)), s);
      r := size;
    }

    /** HAL_DMAC512InitTile */
    method InitTile(t: int) returns (r: int)
      requires Valid()
      modifies this`handles, memory.Buffers()
      ensures Valid() && r == if 0 <= t < NUM_TILES then 0 else -1
      ensures r == 0 ==>
        && handles == old(handles)[t := Handle(Locate(Base(t)), DEFAULTS)]
        && Mapped(old(memory.Flat()), Base(t), BLOCK)
        && Overlaid(old(memory.Flat()), memory.Flat(), Base(t), Reset(RegsAt(old(memory.Flat()), Base(t))))
      ensures r == 0 ==> |handles| == 8 && handles[t].init == Setup(2, 2, 0, 0, 0, 0)
      ensures r == 0 ==> IsReset(old(memory.Flat()), memory.Flat(), t)
      ensures r < 0 ==> memory.Flat() == old(memory.Flat()) && handles == old(handles)
    {
      hide IsReset;
      hide Locate, RegionOf, Room, Memory.Flat, Memory.Contents, Memory.Valid, Base, Overlaid, Set, RegsAt, Shaped;
      if t < 0 || t >= 8 {
        return -1;
      }
      var p := memory.AddrToPtr(Base(t));
      RegisterLocated(t, Control);
      if p == Null {
        return -1;
      }
      handles := handles[t := Handle(p, DEFAULTS)];
      ghost var m := memory.Flat();
      BlockIsMapped(m, t);
      OverlaidAlready(m, Base(t));
      ghost var r0 := RegsAt(m, Base(t));
      SetField(memory, p, t, Control, CTRL_RST, 1, m, r0);
      ghost var r1 := r0.(control := Set(r0.control, CTRL_RST, 1));
      SetField(memory, p, t, Control, CTRL_RST, 0, m, r1);
      ghost var r2 := r1.(control := Set(r1.control, CTRL_RST, 0));
      WriteRegister(memory, p, t, Status, 0, m, r2);
      WriteRegister(memory, p, t, Intr, 0, m, r2.(status := 0));
      ResetIsReset(m, memory.Flat(), t);
      r := 0;
    }

    /** dma_tile_init */
    method TileInit(t: int) returns (r: int)
      requires Valid()
      modifies this, memory.Buffers()
      ensures Valid() && r == if 0 <= t < NUM_TILES then 0 else -1
      ensures r == 0 ==> initialized == old(initialized)[t := true] && Attached(handles[t], t)
      ensures r == 0 && old(initialized[t]) ==> memory.Flat() == old(memory.Flat()) && handles == old(handles)
      ensures r == 0 && !old(initialized[t]) ==>
        && handles == old(handles)[t := Handle(Locate(Base(t)), DEFAULTS)]
        && Mapped(old(memory.Flat()), Base(t), BLOCK)
        && Overlaid(old(memory.Flat()), memory.Flat(), Base(t), Reset(RegsAt(old(memory.Flat()), Base(t))))
      ensures r == 0 && !old(initialized[t]) ==> IsReset(old(memory.Flat()), memory.Flat(), t)
      ensures r < 0 ==>
        memory.Flat() == old(memory.Flat()) && handles == old(handles) && initialized == old(initialized)
    {
      hide IsReset;
      hide Locate, RegionOf, Room, Memory.Flat, Memory.Contents, Memory.Valid, Base, Overlaid, RegsAt, Shaped;
      if t < 0 || t >= 8 {
        return -1;
      }
      if initialized[t] {
        return 0;
      }
      r := InitTile(t);
      if r == 0 {
        initialized := initialized[t := true];
      }
    }

    /** dma_tile_get_handle; the handle is named by its index. */
    method GetHandle(t: int) returns (r: int, index: nat)
      requires Valid()
      modifies this, memory.Buffers()
      ensures Valid() && r == if 0 <= t < NUM_TILES then 0 else -1
      ensures r == 0 ==> index == t && initialized == old(initialized)[t := true] && Attached(handles[t], t)
      ensures r == 0 && old(initialized[t]) ==> memory.Flat() == old(memory.Flat()) && handles == old(handles)
      ensures r == 0 && !old(initialized[t]) ==>
        && handles == old(handles)[t := Handle(Locate(Base(t)), DEFAULTS)]
        && Mapped(old(memory.Flat()), Base(t), BLOCK)
        && Overlaid(old(memory.Flat()), memory.Flat(), Base(t), Reset(RegsAt(old(memory.Flat()), Base(t))))
      ensures r == 0 && !old(initialized[t]) ==> IsReset(old(memory.Flat()), memory.Flat(), t)
      ensures r < 0 ==>
        memory.Flat() == old(memory.Flat()) && handles == old(handles) && initialized == old(initialized)
    {
      hide IsReset;
      hide Locate, RegionOf, Room, Memory.Flat, Memory.Contents, Memory.Valid, Base, Overlaid, RegsAt, Shaped;
      index := 0;
      if t < 0 || t >= 8 {
        return -1, 0;
      }
      r := 0;
      if !initialized[t] {
        r := TileInit(t);
        if r != 0 {
          r := -1;
          return;
        }
      }
      index := t;
    }

    /**
     * dma_local_transfer. Ranges that keep clear of the tile's registers end with the destination holding the
     * old source, nothing else changed but the registers, and the engine idle with its interrupt raised.
     */
    method LocalTransfer(tile: int, src: nat, dst: nat, size: nat) returns (r: int)
      requires Valid() && src < LONG && dst < LONG
      requires size <= MAX_TRANSFER ==> Movable(ForTransfer(src, dst, size))
      modifies this, memory.Buffers()
      ensures Valid()
      ensures r ==
        if Local(tile, src, dst) && size <= 0xFF_FFFF && Accepted(ForTransfer(src, dst, size)) then size else -1
      ensures r > 0 <==>
        && 0 <= tile < 8 && size <= 0xFF_FFFF && Validate(src, size) && Validate(dst, size)
        && tile * 0x10_0000 <= src < (tile + 1) * 0x10_0000 && tile * 0x10_0000 <= dst < (tile + 1) * 0x10_0000
      ensures old(|initialized|) == NUM_TILES
      ensures old(|handles|) == NUM_TILES
      ensures r > 0 ==>
        var h := HandleFor(old(handles), old(initialized), tile);
        var s := Aimed(h.init, src, dst, size);
        && initialized == old(initialized)[tile := true] && handles == old(handles)[tile := h.(init := s)]
        && Legal(s) && Mapped(old(memory.Flat()), Base(tile), BLOCK)
        && CarriedOut(old(memory.Flat()), memory.Flat(), Base(tile), !old(initialized)[tile], s)
        && (ClearOf(src, size, Base(tile)) && ClearOf(dst, size, Base(tile)) ==>
              Promised(old(memory.Flat()), memory.Flat(), Base(tile), s))
      ensures r > 0 ==> |handles| == 8 && handles[tile].init.src == src && handles[tile].init.dst == dst
      ensures r > 0 && OffRegisters(tile, src, size) && OffRegisters(tile, dst, size) ==>
        Carried(old(memory.Flat()), memory.Flat(), tile, src, dst, size)
      ensures r > 0 && !old(initialized)[tile] && !(dst <= tile * 0x10_0000 + 0xF000 < dst + size) ==>
        ResetBitClear(memory.Flat(), tile)
      ensures r < 0 && (!Local(tile, src, dst) || !Accepted(ForTransfer(src, dst, size)) || old(initialized)[tile]) ==>
        memory.Flat() == old(memory.Flat()) && handles == old(handles) && initialized == old(initialized)
      ensures r < 0 && Local(tile, src, dst) && Accepted(ForTransfer(src, dst, size)) && !old(initialized)[tile] ==>
        && Mapped(old(memory.Flat()), Base(tile), BLOCK)
        && Overlaid(old(memory.Flat()), memory.Flat(), Base(tile), Reset(RegsAt(old(memory.Flat()), Base(tile))))
        && initialized == old(initialized)[tile := true]
        && handles == old(handles)[tile := HandleFor(old(handles), old(initialized), tile)]
    {
      LocalIff(tile, src, dst);
      AcceptedIsLocated(src, size);
      hide IsReset, ResetBitClear, Carried;
      hide Memory.Flat, Memory.Contents, Memory.Valid;
      hide Locate, RegionOf, Room, Base, Overlaid, Set, RegsAt, Shaped, Pow256,
        Validate, Transferred, Promised, TileOf, ClearOf;
      var srcTile := Memory.GetTileId(src);
      var dstTile := Memory.GetTileId(dst);
      if srcTile != tile || dstTile != tile {
        return -1;
      }
      var okSrc := Memory.ValidateAddress(src, size);
      var okDst := Memory.ValidateAddress(dst, size);
      if !okSrc || !okDst {
        return -1;
      }
      ghost var m := memory.Flat();
      var ok, h := GetHandle(tile);
      if ok != 0 {
        return -1;
      }
      ghost var prepared := memory.Flat();
      PreparedOverlays(m, prepared, tile, old(initialized)[tile]);
      r := Transfer(h, src, dst, size);
      if r > 0 {
        ghost var s := handles[tile].init;
        CarriedOutBy(m, prepared, memory.Flat(), Base(tile), !old(initialized)[tile], s);
        if !old(initialized)[tile] && !(dst <= tile * 0x10_0000 + 0xF000 < dst + size) {
          FirstUseClearsReset(m, prepared, memory.Flat(), tile, s);
        }
        if ClearOf(src, size, Base(tile)) && ClearOf(dst, size, Base(tile)) {
          RangesAreReady(m, tile, s);
          TransferKeepsPromise(m, prepared, memory.Flat(), Base(tile), RegsAt(prepared, Base(tile)), s);
        }
        if OffRegisters(tile, src, size) && OffRegisters(tile, dst, size) {
          ClearMeans(src, dst, size, tile);
          PromiseMeans(m, memory.Flat(), tile, s);
        }
      }
    }
  }

  /** The handle a transfer uses: the tile's own, or a fresh one on the first use of the tile. */
  ghost function HandleFor(handles: seq<Handle>, initialized: seq<bool>, tile: nat): Handle
    requires tile < |handles| == |initialized|
  {
    if initialized[tile] then handles[tile] else Handle(Locate(Base(tile)), DEFAULTS)
  }

  /** A whole transfer, after the reset that the first use of a tile brings. */
  ghost predicate CarriedOut(m: Mem, after: Mem, base: nat, first: bool, s: Setup)
    requires Mapped(m, base, BLOCK) && Legal(s)
  {
    if first then
      exists prepared: Mem ::
        Overlaid(m, prepared, base, Reset(RegsAt(m, base))) && Transferred(prepared, after, base, s)
    else
      Transferred(m, after, base, s)
  }

  lemma CarriedOutBy(m: Mem, prepared: Mem, after: Mem, base: nat, first: bool, s: Setup)
    requires Mapped(m, base, BLOCK) && Legal(s) && Mapped(prepared, base, BLOCK)
    requires if first then Overlaid(m, prepared, base, Reset(RegsAt(m, base))) else prepared == m
    requires Transferred(prepared, after, base, s)
    ensures CarriedOut(m, after, base, first, s)
  {
    hide Transferred, Overlaid, RegsAt, Legal;
  }

  lemma PreparedOverlays(m: Mem, prepared: Mem, tile: nat, initialized: bool)
    requires Shaped(m) && tile < NUM_TILES && (initialized ==> prepared == m)
    requires !initialized ==>
      Mapped(m, Base(tile), BLOCK) && Overlaid(m, prepared, Base(tile), Reset(RegsAt(m, Base(tile))))
    ensures Mapped(prepared, Base(tile), BLOCK) && Overlaid(m, prepared, Base(tile), RegsAt(prepared, Base(tile)))
  {
    BlockIsMapped(m, tile);
    hide Base;
    if initialized {
      OverlaidAlready(m, Base(tile));
    }
  }

  lemma RangesAreReady(m: Mem, tile: nat, s: Setup)
    requires Shaped(m) && tile < NUM_TILES && Movable(s) && Accepted(s)
    ensures Ready(m, Base(tile), s)
  {
    BlockIsMapped(m, tile);
    AcceptedSpan(s.src, s.count);
    AcceptedSpan(s.dst, s.count);
    RoomIsMapped(m, s.src, s.count);
    RoomIsMapped(m, s.dst, s.count);
  }

  /** The handle points at the tile's own registers and holds a legal setup. */
  ghost predicate Attached(h: Handle, t: nat) {
    && h.instance == Locate(Base(t))
    && Legal(h.init)
  }

  lemma OverlaidReads(m: Mem, m1: Mem, base: nat, r: Regs)
    requires Overlaid(m, m1, base, r)
    ensures Mapped(m1, base, BLOCK) && RegsAt(m1, base) == r
  {
  }
}
