/** The simulated buffers behind the address map, and the memory operations of the HAL on them. */
module PlatformMemory {
  import opened AddressMap
  import opened FlatMemory

  class Memory {
    const bufs: seq<array<Byte>>      // dlm64_ptr, dlm1_512_ptr, dma_regs_ptr, dmem_ptr, memory_pool
    const dlm64Base: seq<nat>         // nodes[i].dlm64_base_addr
    const dlm1Base: seq<nat>          // nodes[i].dlm1_512_base_addr
    const dmaBase: seq<nat>           // nodes[i].dma_reg_base_addr
    const dmemBase: seq<nat>          // dmems[j].dmem_base_addr

    ghost predicate Valid() {
      && |bufs| == BUFFERS
      && (forall i | 0 <= i < BUFFERS :: bufs[i].Length == BufSize(i))
      && (forall i, j | 0 <= i < j < BUFFERS :: bufs[i] != bufs[j])
      && |dlm64Base| == |dlm1Base| == |dmaBase| == NUM_TILES && |dmemBase| == NUM_DMEMS
      && (forall i | 0 <= i < NUM_TILES ::
            && dlm64Base[i] == i * TILE_STRIDE + DLM_64_OFFSET
            && dlm1Base[i] == i * TILE_STRIDE + DLM1_512_OFFSET
            && dmaBase[i] == i * TILE_STRIDE + DMA_REG_OFFSET)
      && (forall j | 0 <= j < NUM_DMEMS :: dmemBase[j] == DmemBase(j))
    }

    ghost function Buffers(): set<object> {
      set i | 0 <= i < |bufs| :: bufs[i]
    }

    ghost function Contents(): (c: seq<seq<Byte>>)
      requires Valid()
      reads Buffers()
      ensures Sized(c) && forall i | 0 <= i < BUFFERS :: c[i] == bufs[i][..]
    {
      seq(BUFFERS, i requires 0 <= i < BUFFERS reads Buffers() => bufs[i][..])
    }

    /** What the platform looks like from outside: one byte per address of a valid region. */
    ghost function Flat(): (m: Mem)
      requires Valid()
      reads Buffers()
    {
      FlatOf(Contents())
    }

    /** platform_setup: the address tables and the zeroed buffers. */
    constructor ()
      ensures Valid() && fresh(Buffers())
      ensures forall a | a in Flat() :: Flat()[a] == 0
    {
      dlm64Base := seq(NUM_TILES, i => i * TILE_STRIDE + DLM_64_OFFSET);
      dlm1Base := seq(NUM_TILES, i => i * TILE_STRIDE + DLM1_512_OFFSET);
      dmaBase := seq(NUM_TILES, i => i * TILE_STRIDE + DMA_REG_OFFSET);
      dmemBase := seq(NUM_DMEMS, j requires 0 <= j < NUM_DMEMS => DmemBase(j));
      var all: seq<array<Byte>> := [];
      for i := 0 to BUFFERS
        invariant |all| == i
        invariant forall j | 0 <= j < i :: fresh(all[j]) && all[j].Length == BufSize(j)
        invariant forall j, k | 0 <= j < k < i :: all[j] != all[k]
        invariant forall j, k | 0 <= j < i && 0 <= k < BufSize(j) :: all[j][k] == 0
      {
        var buf := new Byte[BufSize(i)](_ => 0);
        all := all + [buf];
      }
      bufs := all;
    }

    // ---- lookups ----

    /** get_tile_id_from_address */
    static method GetTileId(address: nat) returns (tile: int)
      ensures tile == TileOf(address)
    {
      for t := 0 to NUM_TILES
        invariant t * TILE_STRIDE <= address
      {
        if t * TILE_STRIDE <= address < t * TILE_STRIDE + TILE_STRIDE {
          return t;
        }
      }
      tile := -1;
    }

    /** get_dmem_id_from_address */
    static method GetDmemId(address: nat) returns (dmem: int)
      ensures dmem == DmemOf(address)
    {
      for j := 0 to NUM_DMEMS
        invariant forall k | 0 <= k < j :: !InDmem(address, k)
      {
        if InDmem(address, j) {
          DmemOfIs(address, j);
          return j;
        }
      }
      NotInAnyDmem(address);
      dmem := -1;
    }

    /** get_address_region, whose DMA-register test can never be reached inside a tile. */
    static method GetRegion(address: nat) returns (region: Region)
      ensures region == RegionOf(address)
    {
      for t := 0 to NUM_TILES
        invariant t * TILE_STRIDE <= address
      {
        var tileBase := t * TILE_STRIDE;
        if tileBase <= address < tileBase + TILE_STRIDE {
          var offset := address - tileBase;
          if DLM_64_OFFSET <= offset < DLM_64_OFFSET + DLM_64_SIZE {
            return TileDlm64;
          } else if DLM1_512_OFFSET <= offset < DLM1_512_OFFSET + DLM1_512_SIZE {
            return TileDlm1;
          } else if DMA_REG_OFFSET <= offset < DMA_REG_OFFSET + DMA_REG_SIZE {
            assert false;  // the window lies inside DLM1
          }
          return Invalid;
        }
      }
      for j := 0 to NUM_DMEMS
        invariant forall k | 0 <= k < j :: !InDmem(address, k)
      {
        if InDmem(address, j) {
          DmemOfIs(address, j);
          return Dmem512;
        }
      }
      NotInAnyDmem(address);
      if C0_MASTER_BASE <= address < C0_MASTER_BASE + C0_MASTER_SIZE {
        return C0Master;
      }
      region := Invalid;
    }

    /** validate_address */
    static method ValidateAddress(address: nat, size: nat) returns (ok: bool)
      ensures ok == Validate(address, size)
    {
      if size == 0 {
        return false;
      }
      var region := GetRegion(address);
      if region == Invalid {
        return false;
      }
      var endRegion := GetRegion((address + size - 1) % UINT64);
      ok := region == endRegion;
    }

    /** addr_to_ptr; the window of a second controller's C0C1 bank is the first one's NXY bank. */
    method AddrToPtr(address: nat) returns (p: Ptr)
      requires Valid()
      ensures p == Locate(address)
    {
      for t := 0 to NUM_TILES
        invariant forall k | 0 <= k < t :: !(dlm64Base[k] <= address < dlm64Base[k] + DLM_64_SIZE)
      {
        if dlm64Base[t] <= address < dlm64Base[t] + DLM_64_SIZE {
          return At(Dlm64Buf(t), address - dlm64Base[t]);
        }
      }
      for t := 0 to NUM_TILES
        invariant forall k | 0 <= k < t :: !(dlm1Base[k] <= address < dlm1Base[k] + DLM1_512_SIZE)
      {
        if dlm1Base[t] <= address < dlm1Base[t] + DLM1_512_SIZE {
          return At(Dlm1Buf(t), address - dlm1Base[t]);
        }
      }
      NoTileWindow(address);
      for t := 0 to NUM_TILES {
        if dmaBase[t] <= address < dmaBase[t] + DMA_REG_SIZE {
          assert false;  // the window lies inside DLM1, which was found above
        }
      }
      for j := 0 to NUM_DMEMS
        invariant forall k | 0 <= k < j :: !InDmem(address, k)
      {
        if dmemBase[j] <= address < dmemBase[j] + DMEM_512_SIZE {
          DmemOfIs(address, j);
          return At(DmemBuf(j), address - dmemBase[j]);
        }
      }
      NotInAnyDmem(address);
      for plic := 0 to 3
        invariant plic > 0 ==> !(PLIC_BASE <= address < PLIC_BASE + (plic + 1) * PLIC_SIZE)
      {
        var c0c1Base := PLIC_BASE + plic * PLIC_SIZE;
        if c0c1Base <= address < c0c1Base + PLIC_SIZE {
          return Plic(plic, address - c0c1Base);
        }
        var nxyBase := PLIC_BASE + PLIC_SIZE + plic * PLIC_SIZE;
        if nxyBase <= address < nxyBase + PLIC_SIZE {
          return Plic(plic + 1, address - nxyBase);
        }
      }
      if C0_MASTER_BASE <= address < C0_MASTER_BASE + C0_MASTER_SIZE {
        return At(POOL_BUF, POOL_C0_OFFSET + (address - C0_MASTER_BASE));
      }
      p := Null;
    }

    lemma NoTileWindow(address: nat)
      requires Valid()
      requires forall k | 0 <= k < NUM_TILES :: !(dlm64Base[k] <= address < dlm64Base[k] + DLM_64_SIZE)
      requires forall k | 0 <= k < NUM_TILES :: !(dlm1Base[k] <= address < dlm1Base[k] + DLM1_512_SIZE)
      ensures !Locate(address).At? || Locate(address).buf >= 16
    {
      if TileOf(address) >= 0 {
        var t := TileOf(address);
        assert address == t * TILE_STRIDE + address % TILE_STRIDE;
        assert !(dlm64Base[t] <= address < dlm64Base[t] + DLM_64_SIZE);
        assert !(dlm1Base[t] <= address < dlm1Base[t] + DLM1_512_SIZE);
      }
    }

    // ---- bytes ----

    /** memcpy from a buffer. */
    method LoadBytes(p: Ptr, ghost a: nat, n: nat) returns (data: seq<Byte>)
      requires Valid() && RegionOf(a) != Invalid && n <= Room(a) && p == Locate(a)
      ensures Mapped(Flat(), a, n) && data == Read(Flat(), a, n)
      ensures Flat() == old(Flat())
    {
      LocatedIffValid(a);
      SpanLocated(a, n);
      data := bufs[p.buf][p.offset..p.offset + n];
      assert data == Read(Flat(), a, n);
    }

    lemma SpanLocated(a: nat, n: nat)
      requires Valid() && RegionOf(a) != Invalid && n <= Room(a)
      ensures Locate(a).At? && Locate(a).offset + n <= BufSize(Locate(a).buf)
      ensures OneInstance(a, n)
      ensures Mapped(Flat(), a, n)
    {
      RoomIsOneInstance(a, n);
      LocatedIffValid(a);
      RoomFits(a);
      RoomIsMapped(Flat(), a, n);
    }

    /** A store of `data` through a pointer to `a`. */
    method StoreBytes(p: Ptr, ghost a: nat, data: seq<Byte>)
      requires Valid() && RegionOf(a) != Invalid && |data| <= Room(a) && p == Locate(a)
      modifies Buffers()
      ensures Mapped(old(Flat()), a, |data|) && Flat() == Write(old(Flat()), a, data)
    {
      SpanLocated(a, |data|);
      ghost var was := Contents();
      Splice(bufs[p.buf], p.offset, data);
      StoredIsWritten(was, p, a, data);
    }

    /** The byte loop of memory_fill. */
    method FillBytes(p: Ptr, ghost a: nat, value: Byte, n: nat)
      requires Valid() && RegionOf(a) != Invalid && n <= Room(a) && p == Locate(a)
      modifies Buffers()
      ensures Mapped(old(Flat()), a, n) && Flat() == Write(old(Flat()), a, Pattern(value, n))
    {
      SpanLocated(a, n);
      ghost var was := Contents();
      FillPattern(bufs[p.buf], p.offset, value, n);
      StoredIsWritten(was, p, a, Pattern(value, n));
    }

    /** One buffer spliced and the others left alone make a write to flat memory. */
    lemma StoredIsWritten(was: seq<seq<Byte>>, p: Ptr, a: nat, data: seq<Byte>)
      requires Valid() && Sized(was) && p == Locate(a) && p.At? && OneInstance(a, |data|)
      requires p.offset + |data| <= BufSize(p.buf)
      requires bufs[p.buf][..] == Spliced(was[p.buf], p.offset, data)
      requires forall k | 0 <= k < BUFFERS && k != p.buf :: bufs[k][..] == was[k]
      ensures Flat() == Write(FlatOf(was), a, data)
    {
      hide OneInstance, Locate, BufSize, FlatOf;
      assert Contents() == was[p.buf := Spliced(was[p.buf], p.offset, data)];
      SplicedIsWritten(was, p, a, data);
    }

    // ---- the HAL's memory operations (hal_mutex makes each one atomic) ----

    /** ref_memory_read */
    method MemoryRead(address: nat, size: nat) returns (r: int, data: seq<Byte>)
      requires Valid() && InBounds(address, size)
      ensures r == if Validate(address, size) then size else -1
      ensures r >= 0 ==> Mapped(Flat(), address, size) && data == Read(Flat(), address, size)
    {
      hide Locate, RegionOf, Room, Validate, FlatOf, Write, Read, Mapped, Copy, Valid, Contents, Flat;
      r, data := -1, [];
      AcceptedIsLocated(address, size);
      if size == 0 {
        return;
      }
      var ok := ValidateAddress(address, size);
      if !ok {
        return;
      }
      AcceptedSpan(address, size);
      var p := AddrToPtr(address);
      data := LoadBytes(p, address, size);
      r := size;
    }

    /** ref_memory_write */
    method MemoryWrite(address: nat, data: seq<Byte>) returns (r: int)
      requires Valid() && InBounds(address, |data|)
      modifies Buffers()
      ensures r == if Validate(address, |data|) then |data| else -1
      ensures r >= 0 ==> Flat() == Write(old(Flat()), address, data)
      ensures r < 0 ==> Flat() == old(Flat())
    {
      hide Locate, RegionOf, Room, Validate, FlatOf, Write, Read, Mapped, Copy, Valid, Contents, Flat;
      r := -1;
      AcceptedIsLocated(address, |data|);
      if |data| == 0 {
        return;
      }
      var ok := ValidateAddress(address, |data|);
      if !ok {
        return;
      }
      AcceptedSpan(address, |data|);
      var p := AddrToPtr(address);
      StoreBytes(p, address, data);
      r := |data|;
    }

    /** ref_memory_fill */
    method MemoryFill(address: nat, value: Byte, size: nat) returns (r: int)
      requires Valid() && InBounds(address, size)
      modifies Buffers()
      ensures r == if Validate(address, size) then size else -1
      ensures r >= 0 ==> Flat() == Write(old(Flat()), address, Pattern(value, size))
      ensures r < 0 ==> Flat() == old(Flat())
    {
      hide Locate, RegionOf, Room, Validate, FlatOf, Write, Read, Mapped, Copy, Valid, Contents, Flat;
      r := -1;
      AcceptedIsLocated(address, size);
      if size == 0 {
        return;
      }
      var ok := ValidateAddress(address, size);
      if !ok {
        return;
      }
      AcceptedSpan(address, size);
      var p := AddrToPtr(address);
      FillBytes(p, address, value, size);
      r := size;
    }

    /** ref_memory_set */
    method MemorySet(address: nat, value: Byte, size: nat) returns (r: int)
      requires Valid() && InBounds(address, size)
      modifies Buffers()
      ensures r == if Validate(address, size) then size else -1
      ensures r >= 0 ==> Flat() == Write(old(Flat()), address, Constant(value, size))
      ensures r < 0 ==> Flat() == old(Flat())
    {
      hide Locate, RegionOf, Room, Validate, FlatOf, Write, Read, Mapped, Copy, Valid, Contents, Flat;
      r := MemoryWrite(address, Constant(value, size));
    }

    /** memmove or memcpy between two accepted ranges. */
    method MoveBytes(p: Ptr, q: Ptr, ghost src: nat, ghost dst: nat, size: nat)
      requires Valid() && RegionOf(src) != Invalid && RegionOf(dst) != Invalid && size <= Room(src) && size <= Room(dst)
      requires p == Locate(src) && q == Locate(dst)
      modifies Buffers()
      ensures Mapped(old(Flat()), src, size) && Flat() == Copy(old(Flat()), src, dst, size)
    {
      var data := LoadBytes(p, src, size);
      StoreBytes(q, dst, data);
    }

    /** ref_cpu_local_move: a memmove, so the ranges may overlap. */
    method CpuLocalMove(src: nat, dst: nat, size: nat) returns (r: int)
      requires Valid() && InBounds(src, size) && InBounds(dst, size)
      modifies Buffers()
      ensures r == if Validate(src, size) && Validate(dst, size) then 0 else -1
      ensures r == 0 ==> Mapped(old(Flat()), src, size) && Flat() == Copy(old(Flat()), src, dst, size)
      ensures r < 0 ==> Flat() == old(Flat())
    {
      hide Locate, RegionOf, Room, Validate, FlatOf, Write, Read, Mapped, Copy, Valid, Contents, Flat;
      AcceptedIsLocated(src, size);
      AcceptedIsLocated(dst, size);
      var p := AddrToPtr(src);
      var q := AddrToPtr(dst);
      if p == Null || q == Null {
        return -1;
      }
      var okSrc := ValidateAddress(src, size);
      var okDst := ValidateAddress(dst, size);
      if !okSrc || !okDst {
        return -1;
      }
      AcceptedSpan(src, size);
      AcceptedSpan(dst, size);
      MoveBytes(p, q, src, dst, size);
      r := 0;
    }

    /** dmem_copy, and ref_dmem_to_dmem_transfer around it: a memcpy, so the ranges must not overlap. */
    method DmemCopy(src: nat, dst: nat, size: nat) returns (r: int)
      requires Valid() && InBounds(src, size) && InBounds(dst, size)
      requires Validate(src, size) && Validate(dst, size) ==> Disjoint(src, size, dst, size)
      modifies Buffers()
      ensures r == 0 <==> RegionOf(src) == RegionOf(dst) == Dmem512 && Validate(src, size) && Validate(dst, size)
      ensures r == 0 || r == -1
      ensures r == 0 ==> Mapped(old(Flat()), src, size) && Flat() == Copy(old(Flat()), src, dst, size)
      ensures r < 0 ==> Flat() == old(Flat())
    {
      hide Locate, RegionOf, Room, Validate, FlatOf, Write, Read, Mapped, Copy, Valid, Contents, Flat;
      var srcRegion := GetRegion(src);
      var dstRegion := GetRegion(dst);
      if srcRegion != Dmem512 || dstRegion != Dmem512 {
        return -1;
      }
      var okSrc := ValidateAddress(src, size);
      var okDst := ValidateAddress(dst, size);
      if !okSrc || !okDst {
        return -1;
      }
      var p := AddrToPtr(src);
      var q := AddrToPtr(dst);
      AcceptedSpan(src, size);
      AcceptedSpan(dst, size);
      MoveBytes(p, q, src, dst, size);
      r := 0;
    }

    /** dmem_read; the offset is not checked against the DMEM, only the address it leads to. */
    method DmemRead(dmem: int, offset: nat, size: nat) returns (r: int, data: seq<Byte>)
      requires Valid() && (0 <= dmem < NUM_DMEMS ==> InBounds((DmemBase(dmem) + offset) % UINT64, size))
      ensures r == if 0 <= dmem < NUM_DMEMS && Validate((DmemBase(dmem) + offset) % UINT64, size) then size else -1
      ensures r >= 0 ==>
        var a := (DmemBase(dmem) + offset) % UINT64;
        Mapped(Flat(), a, size) && data == Read(Flat(), a, size)
    {
      if dmem < 0 || dmem >= NUM_DMEMS {
        return -1, [];
      }
      r, data := MemoryRead((DmemBase(dmem) + offset) % UINT64, size);
    }

    /** dmem_write */
    method DmemWrite(dmem: int, offset: nat, data: seq<Byte>) returns (r: int)
      requires Valid() && (0 <= dmem < NUM_DMEMS ==> InBounds((DmemBase(dmem) + offset) % UINT64, |data|))
      modifies Buffers()
      ensures r == if 0 <= dmem < NUM_DMEMS && Validate((DmemBase(dmem) + offset) % UINT64, |data|) then |data| else -1
      ensures r >= 0 ==> Flat() == Write(old(Flat()), (DmemBase(dmem) + offset) % UINT64, data)
      ensures r < 0 ==> Flat() == old(Flat())
    {
      if dmem < 0 || dmem >= NUM_DMEMS {
        return -1;
      }
      r := MemoryWrite((DmemBase(dmem) + offset) % UINT64, data);
    }
  }

  // ---- buffers and flat memory as values ----

  ghost predicate Sized(c: seq<seq<Byte>>) {
    |c| == BUFFERS && forall i | 0 <= i < BUFFERS :: |c[i]| == BufSize(i)
  }

  /** The flat memory that the buffers' contents amount to through the address map. */
  ghost function FlatOf(c: seq<seq<Byte>>): (m: Mem)
    requires Sized(c)
    ensures forall a: nat :: a in m <==> a < PLIC_BASE && Locate(a).At?
    ensures forall a | a in m :: m[a] == c[Locate(a).buf][Locate(a).offset]
  {
    map a: nat | a < PLIC_BASE && Locate(a).At? :: c[Locate(a).buf][Locate(a).offset]
  }

  /** The memories the platform can hold: one byte at every address of a valid region. */
  ghost predicate Shaped(m: Mem) {
    forall a: nat :: a in m <==> a < PLIC_BASE && Locate(a).At?
  }

  lemma RoomIsMapped(m: Mem, a: nat, n: nat)
    requires Shaped(m) && RegionOf(a) != Invalid && n <= Room(a)
    ensures Mapped(m, a, n)
  {
    forall x: nat | a <= x < a + n ensures x in m {
      LocateWithin(a, x);
      RoomIsSmall(a);
      LocatedIffValid(a);
      LocatedBelowPlic(x);
    }
  }

  /** A memory that tells the addresses [a, a + n) from the others. */
  ghost function MarkedMemory(a: nat, n: nat): (m: Mem)
    ensures Shaped(m) && forall x | x in m :: m[x] == if a <= x < a + n then 1 else 0
  {
    map x: nat | x < PLIC_BASE && Locate(x).At? :: if a <= x < a + n then 1 else 0
  }

  ghost function Spliced(buf: seq<Byte>, offset: nat, data: seq<Byte>): (r: seq<Byte>)
    requires offset + |data| <= |buf|
    ensures |r| == |buf|
    ensures forall k | 0 <= k < |r| :: r[k] == if offset <= k < offset + |data| then data[k - offset] else buf[k]
  {
    buf[..offset] + data + buf[offset + |data|..]
  }

  /** memcpy into a buffer, byte by byte. */
  method Splice(buf: array<Byte>, offset: nat, data: seq<Byte>)
    requires offset + |data| <= buf.Length
    modifies buf
    ensures buf[..] == Spliced(old(buf[..]), offset, data)
  {
    for i := 0 to |data|
      invariant buf[..] == Spliced(old(buf[..]), offset, data[..i])
    {
      buf[offset + i] := data[i];
    }
    assert data[..|data|] == data;
  }

  method FillPattern(buf: array<Byte>, offset: nat, value: Byte, n: nat)
    requires offset + n <= buf.Length
    modifies buf
    ensures buf[..] == Spliced(old(buf[..]), offset, Pattern(value, n))
  {
    for i := 0 to n
      invariant forall k | 0 <= k < buf.Length ::
        buf[k] == if offset <= k < offset + i then (value + (k - offset)) % 256 else old(buf[k])
    {
      buf[offset + i] := (value + i) % 256;
    }
  }

  /** Changing the bytes behind [a, a + |data|) of one buffer is a write to flat memory. */
  lemma SplicedIsWritten(c: seq<seq<Byte>>, p: Ptr, a: nat, data: seq<Byte>)
    requires Sized(c) && p == Locate(a) && p.At? && OneInstance(a, |data|) && p.offset + |data| <= BufSize(p.buf)
    ensures
      var c' := c[p.buf := Spliced(c[p.buf], p.offset, data)];
      Sized(c') && FlatOf(c') == Write(FlatOf(c), a, data)
  {
    var c' := c[p.buf := Spliced(c[p.buf], p.offset, data)];
    assert Sized(c');
    forall x: nat | x in FlatOf(c) ensures FlatOf(c')[x] == Write(FlatOf(c), a, data)[x] {
      SplicedAt(c, c', p, a, data, x);
    }
    assert FlatOf(c').Keys == FlatOf(c).Keys;
  }

  lemma SplicedAt(c: seq<seq<Byte>>, c': seq<seq<Byte>>, p: Ptr, a: nat, data: seq<Byte>, x: nat)
    requires Sized(c) && Sized(c') && p == Locate(a) && p.At? && OneInstance(a, |data|)
    requires p.offset + |data| <= BufSize(p.buf) && c' == c[p.buf := Spliced(c[p.buf], p.offset, data)]
    requires x in FlatOf(c)
    ensures x in FlatOf(c') && FlatOf(c')[x] == Write(FlatOf(c), a, data)[x]
  {
    hide BufSize, Locate;
    var q := Locate(x);
    if a <= x < a + |data| {
      assert q == At(p.buf, p.offset + (x - a));
    } else if q.buf == p.buf && p.offset <= q.offset < p.offset + |data| {
      var y := a + (q.offset - p.offset);
      assert Locate(y) == q;
      LocateInjective(x, y);
      assert false;
    }
  }

  lemma RoomFits(a: nat)
    requires RegionOf(a) != Invalid
    ensures Locate(a).At? && Locate(a).offset + Room(a) <= BufSize(Locate(a).buf)
  {
  }

  lemma LocatedBelowPlic(a: nat)
    requires Locate(a).At?
    ensures a < PLIC_BASE
  {
  }

  lemma NotInAnyDmem(a: nat)
    requires forall k | 0 <= k < NUM_DMEMS :: !InDmem(a, k)
    ensures DmemOf(a) == -1
  {
    if DmemOf(a) >= 0 {
      DmemOfIs(a, DmemOf(a));
    }
  }
}
