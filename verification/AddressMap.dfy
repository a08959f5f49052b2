/** The platform's address map: regions, the range check, and where each address is stored. */
module AddressMap {

  const UINT64 := 0x1_0000_0000_0000_0000

  const NUM_TILES := 8
  const NUM_DMEMS := 8
  const TILE_STRIDE := 0x10_0000
  const DLM_64_OFFSET := 0
  const DLM_64_SIZE := 0x8000
  const DLM1_512_OFFSET := 0x8000
  const DLM1_512_SIZE := 0x2_0000
  const DMA_REG_OFFSET := 0xF000
  const DMA_REG_SIZE := 0x1000
  const DMEM_512_SIZE := 0x4_0000
  const C0_MASTER_BASE := 0x8000_0000
  const C0_MASTER_SIZE := 0x1_0000
  const PLIC_BASE := 0x9000_0000
  const PLIC_SIZE := 0x40_0000
  const POOL_C0_OFFSET := 0x2500_0000
  const POOL_SIZE := 0x3000_0000

  /** The eight entries of dmem_bases. */
  function DmemBase(j: nat): nat
    requires j < NUM_DMEMS
  {
    if j < 4 then 0x1000_0000 + j * 0x40_0000 else 0x2000_0000 + (j - 4) * 0x40_0000
  }

  /** ADDR_TILE_DMA_REG and the ADDR_PLIC kinds are missing: get_address_region never answers them. */
  datatype Region = TileDlm64 | TileDlm1 | Dmem512 | C0Master | Invalid

  // ---- the lookups in closed form ----

  function TileOf(a: nat): int {
    if a < NUM_TILES * TILE_STRIDE then a / TILE_STRIDE else -1
  }

  predicate InDmem(a: nat, j: nat)
    requires j < NUM_DMEMS
  {
    DmemBase(j) <= a < DmemBase(j) + DMEM_512_SIZE
  }

  function DmemOf(a: nat): int {
    if 0x1000_0000 <= a < 0x1100_0000 && a % 0x40_0000 < DMEM_512_SIZE then (a - 0x1000_0000) / 0x40_0000
    else if 0x2000_0000 <= a < 0x2100_0000 && a % 0x40_0000 < DMEM_512_SIZE then 4 + (a - 0x2000_0000) / 0x40_0000
    else -1
  }

  lemma DmemOfIs(a: nat, j: nat)
    requires j < NUM_DMEMS
    ensures InDmem(a, j) <==> DmemOf(a) == j
  {
  }

  function RegionOf(a: nat): Region {
    if TileOf(a) >= 0 then
      var offset := a % TILE_STRIDE;
      if offset < DLM_64_SIZE then TileDlm64
      else if offset < DLM1_512_OFFSET + DLM1_512_SIZE then TileDlm1
      else Invalid
    else if DmemOf(a) >= 0 then Dmem512
    else if C0_MASTER_BASE <= a < C0_MASTER_BASE + C0_MASTER_SIZE then C0Master
    else Invalid
  }

  /** Buffers of the simulated platform, by number: DLM64, DLM1, DMA registers, DMEMs, and the pool. */
  const BUFFERS := 33
  function Dlm64Buf(tile: nat): nat { tile }
  function Dlm1Buf(tile: nat): nat { 8 + tile }
  function DmaRegsBuf(tile: nat): nat { 16 + tile }
  function DmemBuf(j: nat): nat { 24 + j }
  const POOL_BUF := 32

  function BufSize(buf: nat): nat {
    if buf < 8 then DLM_64_SIZE
    else if buf < 16 then DLM1_512_SIZE
    else if buf < 24 then DMA_REG_SIZE
    else if buf < 32 then DMEM_512_SIZE
    else POOL_SIZE
  }

  /** A C pointer as the buffer it points into and the offset; the interrupt banks are kept apart. */
  datatype Ptr = Null | At(buf: nat, offset: nat) | Plic(bank: nat, offset: nat)

  /** addr_to_ptr after platform_setup. */
  function Locate(a: nat): (p: Ptr)
    ensures p.At? ==> p.buf < BUFFERS && p.offset < BufSize(p.buf)
  {
    if TileOf(a) >= 0 then
      var offset := a % TILE_STRIDE;
      if offset < DLM_64_SIZE then At(Dlm64Buf(TileOf(a)), offset)
      else if offset < DLM1_512_OFFSET + DLM1_512_SIZE then At(Dlm1Buf(TileOf(a)), offset - DLM1_512_OFFSET)
      else Null
    else if DmemOf(a) >= 0 then At(DmemBuf(DmemOf(a)), a - DmemBase(DmemOf(a)))
    else if PLIC_BASE <= a < PLIC_BASE + 4 * PLIC_SIZE then
      Plic((a - PLIC_BASE) / PLIC_SIZE, (a - PLIC_BASE) % PLIC_SIZE)
    else if C0_MASTER_BASE <= a < C0_MASTER_BASE + C0_MASTER_SIZE then
      At(POOL_BUF, POOL_C0_OFFSET + (a - C0_MASTER_BASE))
    else Null
  }

  /** validate_address, with the end address computed in 64 bits. */
  function Validate(a: nat, size: nat): bool {
    if size == 0 || RegionOf(a) == Invalid then false
    else RegionOf(a) == RegionOf((a + size - 1) % UINT64)
  }

  // ---- what the map guarantees ----

  /** An address has memory behind it exactly when it lies in a valid region (the interrupt banks aside). */
  lemma LocatedIffValid(a: nat)
    ensures Locate(a).At? <==> RegionOf(a) != Invalid
  {
  }

  /** Different addresses never share a byte. */
  lemma LocateInjective(a: nat, b: nat)
    requires Locate(a).At? && Locate(a) == Locate(b)
    ensures a == b
  {
  }

  /** No address reaches a tile's separate DMA register buffer: its window lies inside DLM1. */
  lemma DmaRegistersAreDlm1(tile: nat, k: nat)
    requires tile < NUM_TILES && k < DMA_REG_SIZE
    ensures Locate(tile * TILE_STRIDE + DMA_REG_OFFSET + k) == At(Dlm1Buf(tile), DMA_REG_OFFSET - DLM1_512_OFFSET + k)
    ensures RegionOf(tile * TILE_STRIDE + DMA_REG_OFFSET + k) == TileDlm1
  {
  }

  lemma DmaRegBufferUnreachable(a: nat)
    ensures Locate(a).At? ==> forall tile: nat | tile < NUM_TILES :: Locate(a).buf != DmaRegsBuf(tile)
  {
  }

  /** Every byte of the range is stored in one and the same buffer, at consecutive offsets. */
  ghost predicate OneInstance(a: nat, size: nat) {
    Locate(a).At? && forall b: nat | a <= b < a + size :: Locate(b) == At(Locate(a).buf, Locate(a).offset + (b - a))
  }

  /** Bytes left in the window of `a`, from `a` on. */
  function Room(a: nat): nat
    requires RegionOf(a) != Invalid
  {
    match RegionOf(a)
    case TileDlm64 => DLM_64_SIZE - a % TILE_STRIDE
    case TileDlm1 => DLM1_512_OFFSET + DLM1_512_SIZE - a % TILE_STRIDE
    case Dmem512 => DMEM_512_SIZE - a % 0x40_0000
    case C0Master => C0_MASTER_BASE + C0_MASTER_SIZE - a
  }

  lemma LocateWithin(a: nat, b: nat)
    requires RegionOf(a) != Invalid && a <= b < a + Room(a)
    ensures Locate(b) == At(Locate(a).buf, Locate(a).offset + (b - a))
  {
    if TileOf(a) >= 0 {
      assert a == TileOf(a) * TILE_STRIDE + a % TILE_STRIDE;
      assert TileOf(b) == TileOf(a);
    }
  }

  lemma LocateBeyond(a: nat)
    requires RegionOf(a) != Invalid
    ensures Locate(a + Room(a)) != At(Locate(a).buf, Locate(a).offset + Room(a))
  {
  }

  lemma RoomIsOneInstance(a: nat, size: nat)
    requires RegionOf(a) != Invalid
    ensures OneInstance(a, size) <==> size <= Room(a)
  {
    LocatedIffValid(a);
    hide Locate, RegionOf;
    if size > Room(a) {
      LocateBeyond(a);
      assert a <= a + Room(a) < a + size;
    } else {
      forall b: nat | a <= b < a + size ensures Locate(b) == At(Locate(a).buf, Locate(a).offset + (b - a)) {
        LocateWithin(a, b);
      }
    }
  }

  lemma RoomIsSmall(a: nat)
    requires RegionOf(a) != Invalid
    ensures Room(a) <= 0x4_0000 && a < 0x9000_0000
  {
  }

  const SAFE_SIZE := 0xE_0001

  /** A range the check accepts lies in one buffer exactly when it has at most 0xE0001 bytes. */
  lemma AcceptedIsOneInstanceIff(a: nat, size: nat)
    requires a < UINT64 && size < UINT64 && Validate(a, size)
    ensures OneInstance(a, size) <==> size <= SAFE_SIZE
  {
    RoomIsOneInstance(a, size);
    RoomIsSmall(a);
    hide RegionOf, Room, OneInstance;
    if size <= SAFE_SIZE {
      assert (a + size - 1) % UINT64 == a + size - 1;
      SameKindNearby(a, a + size - 1);
    }
  }

  /** Two addresses of the same kind less than 0xE0001 apart are in the same window. */
  lemma SameKindNearby(a: nat, b: nat)
    requires RegionOf(a) != Invalid && RegionOf(b) == RegionOf(a) && a <= b < a + SAFE_SIZE
    ensures b - a < Room(a)
  {
  }

  /** What the C code needs so that no access leaves a buffer: an accepted range is not over-long. */
  ghost predicate InBounds(a: nat, size: nat) {
    a < UINT64 && size < UINT64 && (Validate(a, size) ==> size <= SAFE_SIZE)
  }

  lemma AcceptedSpan(a: nat, size: nat)
    requires InBounds(a, size) && Validate(a, size)
    ensures RegionOf(a) != Invalid && size <= Room(a)
  {
    AcceptedIsOneInstanceIff(a, size);
    RoomIsOneInstance(a, size);
  }

  lemma AcceptedIsLocated(a: nat, size: nat)
    ensures Validate(a, size) ==> size > 0 && Locate(a).At?
  {
  }

  /** 0xE0001 is the largest bound under which the check is sound: "accepted" then means "entirely in one place". */
  lemma SafeSizeIsSharp(n: nat)
    requires n < UINT64
    ensures
      (forall a: nat, size: nat | a < UINT64 && size <= n && Validate(a, size) :: OneInstance(a, size)) <==>
      n <= SAFE_SIZE
  {
    if n <= SAFE_SIZE {
      forall a: nat, size: nat | a < UINT64 && size <= n && Validate(a, size) ensures OneInstance(a, size) {
        AcceptedIsOneInstanceIff(a, size);
      }
    } else {
      var a, size := 0x2_7FFF, SAFE_SIZE + 1;
      assert Validate(a, size);
      AcceptedIsOneInstanceIff(a, size);
    }
  }
}
