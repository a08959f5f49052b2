/** The mesh router: per-destination arbitration, packet delivery, and remote transfers on top of it. */
module NocRouter {
  import opened AddressMap
  import opened AddressWindows
  import opened FlatMemory
  import opened PlatformMemory

  const MAX_DESTINATIONS := 16
  const LENGTH_RANGE := 0x1_0000  // hdr.length has sixteen bits

  datatype PacketType = ReadReq | ReadResp | WriteReq | WriteAck | DmaTransfer

  datatype Packet = Packet(kind: PacketType, length: nat, srcAddr: nat, dstAddr: nat)

  function LockIndex(a: nat): int {
    if TileOf(a) >= 0 then TileOf(a) else if DmemOf(a) >= 0 then NUM_TILES + DmemOf(a) else -1
  }

  predicate InTile(a: nat, t: nat) {
    t * TILE_STRIDE <= a < (t + 1) * TILE_STRIDE
  }

  ghost predicate SamePlace(a: nat, b: nat) {
    || (exists t | 0 <= t < NUM_TILES :: InTile(a, t) && InTile(b, t))
    || (exists j | 0 <= j < NUM_DMEMS :: InDmem(a, j) && InDmem(b, j))
  }

  /** Two destinations share an arbitration lock exactly when they are in the same tile or the same DMEM. */
  lemma SameLockIff(a: nat, b: nat)
    ensures LockIndex(a) >= 0 && LockIndex(a) == LockIndex(b) <==> SamePlace(a, b)
    ensures LockIndex(a) < MAX_DESTINATIONS
  {
    if LockIndex(a) >= 0 && LockIndex(a) == LockIndex(b) {
      if TileOf(a) >= 0 {
        assert InTile(a, TileOf(a)) && InTile(b, TileOf(a));
      } else {
        DmemOfIs(a, DmemOf(a));
        DmemOfIs(b, DmemOf(a));
      }
    }
    if SamePlace(a, b) && TileOf(a) < 0 {
      var j :| 0 <= j < NUM_DMEMS && InDmem(a, j) && InDmem(b, j);
      DmemOfIs(a, j);
      DmemOfIs(b, j);
    }
  }

  /** Tile t has lock t wherever in the tile the address lies, DMEM j has lock 8 + j, and other addresses have none. */
  lemma LockNumbers(a: nat, t: nat, j: nat)
    ensures t < 8 && t * 0x10_0000 <= a < (t + 1) * 0x10_0000 ==> LockIndex(a) == t
    ensures InDmem512(a, 1, j) ==> LockIndex(a) == 8 + j
    ensures LockIndex(a) == -1 <==> a >= 0x80_0000 && forall k :: !InDmem512(a, 1, k)
  {
    DmemWindows(a);
    if a >= 0x80_0000 && DmemOf(a) >= 0 {
      KindIff(a, Dmem512);
    }
    if k :| InDmem512(a, 1, k) {
      KindIff(a, Dmem512);
    }
    hide DmemStart;
  }

  /** A window never crosses from one lock to another. */
  lemma WindowHasOneLock(a: nat, x: nat)
    requires RegionOf(a) != Invalid && a <= x < a + Room(a)
    ensures LockIndex(x) == LockIndex(a)
  {
  }

  /** The packet reaches the copy in noc_send_packet. */
  predicate Moves(pkt: Packet) {
    && pkt.kind == DmaTransfer
    && pkt.srcAddr != 0 && pkt.dstAddr != 0
    && Locate(pkt.srcAddr) != Null && Locate(pkt.dstAddr) != Null
    && pkt.length > 0
  }

  /** An address the router finds memory behind: in a window, or in one of four interrupt-controller windows. */
  ghost predicate Backed(a: nat) {
    0x9000_0000 <= a < 0x9100_0000 || exists kind | kind != Invalid :: InWindow(a, 1, kind)
  }

  /** The first byte of tile 0 is mapped, but its address is 0, which the router takes for none. */
  lemma MovesIff(pkt: Packet)
    ensures Moves(pkt) <==>
      && pkt.kind == DmaTransfer && pkt.length > 0
      && pkt.srcAddr != 0 && pkt.dstAddr != 0 && Backed(pkt.srcAddr) && Backed(pkt.dstAddr)
  {
    BackedIff(pkt.srcAddr);
    BackedIff(pkt.dstAddr);
    hide Locate, Backed;
  }

  lemma BackedIff(a: nat)
    ensures Backed(a) <==> Locate(a) != Null
  {
    if RegionOf(a) != Invalid {
      KindIff(a, RegionOf(a));
    }
    forall kind | kind != Invalid && InWindow(a, 1, kind) ensures RegionOf(a) == kind {
      KindIff(a, kind);
    }
    hide InWindow;
    LocatedIffValid(a);
    assert RegionOf(a) == Invalid ==> (Locate(a) != Null <==> 0x9000_0000 <= a < 0x9100_0000);
  }

  /** The copy stays inside two buffers and does not overlap itself, which the router does not check. */
  predicate Deliverable(pkt: Packet) {
    Moves(pkt) ==>
      && RegionOf(pkt.srcAddr) != Invalid && pkt.length <= Room(pkt.srcAddr)
      && RegionOf(pkt.dstAddr) != Invalid && pkt.length <= Room(pkt.dstAddr)
      && Disjoint(pkt.srcAddr, pkt.length, pkt.dstAddr, pkt.length)
  }

  ghost function Delivered(m: Mem, pkt: Packet): (r: Mem)
    requires Deliverable(pkt) && Shaped(m)
    ensures Shaped(r)
  {
    if Moves(pkt) then
      RoomIsMapped(m, pkt.srcAddr, pkt.length);
      var r := Copy(m, pkt.srcAddr, pkt.dstAddr, pkt.length);
      assert r.Keys == m.Keys;
      r
    else m
  }

  lemma DeliveredIs(m: Mem, pkt: Packet)
    requires Deliverable(pkt) && Shaped(m)
    ensures Moves(pkt) ==>
      Mapped(m, pkt.srcAddr, pkt.length) && Delivered(m, pkt) == Copy(m, pkt.srcAddr, pkt.dstAddr, pkt.length)
    ensures !Moves(pkt) ==> Delivered(m, pkt) == m
  {
    hide RegionOf, Room, Locate, Copy, Shaped, Mapped;
    if Moves(pkt) {
      RoomIsMapped(m, pkt.srcAddr, pkt.length);
    }
  }

  /** The lock whose counter a packet advances. */
  function LockTaken(pkt: Packet): int {
    if Moves(pkt) then LockIndex(pkt.dstAddr) else -1
  }

  class Router {
    const memory: Memory
    const counters: array<nat>
    var initialized: bool

    ghost predicate Valid()
      reads this, counters
    {
      && memory.Valid()
      && counters.Length == MAX_DESTINATIONS
      && counters !in memory.Buffers()
      && (!initialized ==> forall i | 0 <= i < MAX_DESTINATIONS :: counters[i] == 0)
    }

    ghost predicate Ready()
      reads this, counters, memory.Buffers()
    {
      Valid() && Shaped(memory.Flat())
    }

    constructor (memory: Memory)
      requires memory.Valid()
      ensures Ready() && this.memory == memory && fresh(counters) && !initialized
    {
      this.memory := memory;
      counters := new nat[MAX_DESTINATIONS](_ => 0);
      initialized := false;
    }

    /** noc_init_arbitration */
    method InitArbitration()
      requires Valid()
      modifies this`initialized, counters
      ensures Valid() && initialized && counters[..] == old(counters[..])
      ensures memory.Flat() == old(memory.Flat())
    {
      if !initialized {
        for i := 0 to MAX_DESTINATIONS
          invariant counters[..] == old(counters[..])
        {
          counters[i] := 0;
        }
        initialized := true;
      }
    }

    /** get_destination_lock_index */
    static method GetDestinationLockIndex(dst: nat) returns (lock: int)
      ensures lock == LockIndex(dst)
    {
      var tile := Memory.GetTileId(dst);
      if 0 <= tile < 8 {
        return tile;
      }
      var dmem := Memory.GetDmemId(dst);
      if 0 <= dmem < 8 {
        return 8 + dmem;
      }
      lock := -1;
    }

    /** noc_send_packet; `access` is the access number it wins, 0 when there is no arbitration. */
    method SendPacket(pkt: Packet) returns (access: nat)
      requires Ready() && Deliverable(pkt)
      modifies this`initialized, counters, memory.Buffers()
      ensures Ready() && initialized
      ensures memory.Flat() == Delivered(old(memory.Flat()), pkt)
      ensures counters[..] == Advanced(old(counters[..]), pkt)
      ensures access == if LockTaken(pkt) >= 0 then counters[LockTaken(pkt)] else 0
      ensures access > 0 ==> 0 <= LockIndex(pkt.dstAddr) < 16 && access == old(counters[..])[LockIndex(pkt.dstAddr)] + 1
      ensures pkt.kind != DmaTransfer || pkt.length == 0 || pkt.srcAddr == 0 || pkt.dstAddr == 0 ==>
        memory.Flat() == old(memory.Flat()) && counters[..] == old(counters[..])
    {
      hide LockIndex, Locate, RegionOf, Room, Shaped, Copy, Mapped, SamePlace, FlatOf, Delivered;
      hide Memory.Valid, Memory.Contents, Memory.Flat;
      SameLockIff(pkt.dstAddr, pkt.dstAddr);
      DeliveredIs(memory.Flat(), pkt);
      InitArbitration();
      access := 0;
      var lock := GetDestinationLockIndex(pkt.dstAddr);
      if pkt.kind == DmaTransfer && pkt.srcAddr != 0 && pkt.dstAddr != 0 {
        var src := memory.AddrToPtr(pkt.srcAddr);
        var dst := memory.AddrToPtr(pkt.dstAddr);
        if src != Null && dst != Null && pkt.length > 0 {
          if lock >= 0 {
            access := Arbitrate(lock);
            memory.MoveBytes(src, dst, pkt.srcAddr, pkt.dstAddr, pkt.length);
          } else {
            memory.MoveBytes(src, dst, pkt.srcAddr, pkt.dstAddr, pkt.length);
          }
        }
      }
    }

    /** The lock is held for the copy, so the counter numbers the copies in the order they happen. */
    method Arbitrate(lock: nat) returns (access: nat)
      requires Valid() && initialized && lock < MAX_DESTINATIONS
      modifies counters
      ensures Valid() && access == counters[lock]
      ensures counters[..] == old(counters[..])[lock := old(counters[lock]) + 1]
      ensures memory.Flat() == old(memory.Flat())
    {
      counters[lock] := counters[lock] + 1;
      access := counters[lock];
    }

    /** ref_dma_remote_transfer, whose packet length is the low sixteen bits of the size. */
    method RemoteTransfer(src: nat, dst: nat, size: nat) returns (r: int)
      requires Ready() && InBounds(src, size) && InBounds(dst, size)
      modifies this`initialized, counters, memory.Buffers()
      ensures Ready()
      ensures r == if RemoteAllowed(src, dst, size) then size else -1
      ensures r > 0 ==>
        && Mapped(old(memory.Flat()), src, size % LENGTH_RANGE)
        && memory.Flat() == Copy(old(memory.Flat()), src, dst, size % LENGTH_RANGE)
      ensures r > 0 ==>
        counters[..] == Advanced(old(counters[..]), Packet(DmaTransfer, size % LENGTH_RANGE, src, dst))
      ensures r < 0 ==> memory.Flat() == old(memory.Flat()) && counters[..] == old(counters[..])
    {
      hide LockIndex, Locate, RegionOf, Room, Shaped, Copy, Mapped, FlatOf, Validate, Delivered;
      var okSrc := Memory.ValidateAddress(src, size);
      var okDst := Memory.ValidateAddress(dst, size);
      if !okSrc || !okDst {
        return -1;
      }
      var srcRegion := Memory.GetRegion(src);
      var dstRegion := Memory.GetRegion(dst);
      if !((srcRegion == TileDlm1 && dstRegion == Dmem512) || (srcRegion == Dmem512 && dstRegion == TileDlm1)) {
        return -1;
      }
      var pkt := Packet(DmaTransfer, size % LENGTH_RANGE, src, dst);
      RemoteIsDeliverable(src, dst, size);
      DeliveredIs(memory.Flat(), pkt);
      CopyNothing(memory.Flat(), src, dst);
      hide Moves, Deliverable, RemoteAllowed;
      var _ := SendPacket(pkt);
      r := size;
    }
  }

  function Advanced(counters: seq<nat>, pkt: Packet): (r: seq<nat>)
    requires |counters| == MAX_DESTINATIONS
    ensures |r| == MAX_DESTINATIONS
  {
    SameLockIff(pkt.dstAddr, pkt.dstAddr);
    var lock := LockTaken(pkt);
    if lock >= 0 then counters[lock := counters[lock] + 1] else counters
  }

  predicate RemoteAllowed(src: nat, dst: nat, size: nat) {
    && Validate(src, size) && Validate(dst, size)
    && (|| (RegionOf(src) == TileDlm1 && RegionOf(dst) == Dmem512)
        || (RegionOf(src) == Dmem512 && RegionOf(dst) == TileDlm1))
  }

  /**
   * Of ranges of a usable size, exactly those that are not empty and lead from the 512-bit buffer of one tile to
   * one DMEM, or the other way, may be transferred.
   */
  lemma RemoteAllowedIff(src: nat, dst: nat, size: nat)
    requires InBounds(src, size) && InBounds(dst, size)
    ensures RemoteAllowed(src, dst, size) <==>
      && size > 0
      && exists t, j ::
        || (InDlm1(src, size, t) && InDmem512(dst, size, j))
        || (InDmem512(src, size, j) && InDlm1(dst, size, t))
  {
    hide Validate, RegionOf, InBounds, InDlm1, InDmem512;
    if RemoteAllowed(src, dst, size) {
      assert size > 0 by { AcceptedIsLocated(src, size); }
      AcceptedIffInWindow(src, size);
      AcceptedIffInWindow(dst, size);
      if RegionOf(src) == TileDlm1 {
        var t :| InDlm1(src, size, t);
        var j :| InDmem512(dst, size, j);
      } else {
        var j :| InDmem512(src, size, j);
        var t :| InDlm1(dst, size, t);
      }
    }
    if t, j :| size > 0 && InDlm1(src, size, t) && InDmem512(dst, size, j) {
      RemoteBothWays(src, dst, size, t, j);
    }
    if t, j :| size > 0 && InDmem512(src, size, j) && InDlm1(dst, size, t) {
      RemoteBothWays(dst, src, size, t, j);
    }
  }

  /** Every tile and every DMEM, in both directions. */
  lemma RemoteBothWays(a: nat, b: nat, n: nat, t: nat, j: nat)
    requires n > 0 && InDlm1(a, n, t) && InDmem512(b, n, j)
    ensures InBounds(a, n) && InBounds(b, n) && RemoteAllowed(a, b, n) && RemoteAllowed(b, a, n)
  {
    hide Validate, RegionOf, InBounds, InDlm1, InDmem512;
    WindowAccepted(a, n, TileDlm1);
    WindowAccepted(b, n, Dmem512);
  }

  lemma RemoteIsDeliverable(src: nat, dst: nat, size: nat)
    requires InBounds(src, size) && InBounds(dst, size) && RemoteAllowed(src, dst, size)
    ensures RegionOf(src) != Invalid && size <= Room(src) && RegionOf(dst) != Invalid && size <= Room(dst)
    ensures Disjoint(src, size, dst, size)
    ensures
      var pkt := Packet(DmaTransfer, size % LENGTH_RANGE, src, dst);
      Deliverable(pkt) && (Moves(pkt) <==> size % LENGTH_RANGE > 0)
  {
    AcceptedSpan(src, size);
    AcceptedSpan(dst, size);
    if RegionOf(src) == TileDlm1 {
      KindsApart(src, dst);
    } else {
      KindsApart(dst, src);
    }
    hide RegionOf, Room, Validate, Locate;
  }

  lemma KindsApart(a: nat, b: nat)
    requires RegionOf(a) == TileDlm1 && RegionOf(b) == Dmem512
    ensures Disjoint(a, Room(a), b, Room(b))
    ensures a != 0 && b != 0 && Locate(a).At? && Locate(b).At?
  {
  }

  /**
   * A remote transfer that reports `size` bytes has moved all of them, whatever the memory held,
   * exactly when the size fits in the sixteen bits of a packet's length.
   */
  lemma RemoteTransferHonestIff(src: nat, dst: nat, size: nat)
    requires InBounds(src, size) && InBounds(dst, size) && RemoteAllowed(src, dst, size)
    ensures
      (forall m: Mem | Shaped(m) ::
         && Mapped(m, src, size)
         && Copy(m, src, dst, size % LENGTH_RANGE) == Copy(m, src, dst, size)) <==>
      size <= 0xFFFF
  {
    hide RegionOf, Room, RemoteAllowed, InBounds, Deliverable, Moves, Shaped, Copy;
    RemoteIsDeliverable(src, dst, size);
    forall m: Mem | Shaped(m) ensures Mapped(m, src, size) {
      RoomIsMapped(m, src, size);
    }
    if size >= LENGTH_RANGE {
      var m := MarkedMemory(src, size);
      RoomIsMapped(m, src, size);
      RoomIsMapped(m, dst, size);
      var last := dst + size - 1;
      CopyAt(m, src, dst, size, last);
      CopyAt(m, src, dst, size % LENGTH_RANGE, last);
    }
  }

  /** The access numbers a lock hands out while the packets are sent one after the other. */
  function Accesses(counters: seq<nat>, pkts: seq<Packet>, lock: nat): seq<nat>
    requires |counters| == MAX_DESTINATIONS && lock < MAX_DESTINATIONS
    decreases |pkts|
  {
    if pkts == [] then []
    else
      var next := Advanced(counters, pkts[0]);
      (if LockTaken(pkts[0]) == lock then [next[lock]] else []) + Accesses(next, pkts[1..], lock)
  }

  predicate CountsUpFrom(numbers: seq<nat>, first: nat) {
    forall i | 0 <= i < |numbers| :: numbers[i] == first + i
  }

  /** They are consecutive, whatever the other locks do in between. */
  lemma {:induction false} AccessesAreConsecutive(counters: seq<nat>, pkts: seq<Packet>, lock: nat)
    requires |counters| == MAX_DESTINATIONS && lock < MAX_DESTINATIONS
    ensures CountsUpFrom(Accesses(counters, pkts, lock), counters[lock] + 1)
    decreases |pkts|
  {
    hide LockTaken;
    if pkts == [] {
    } else {
      var next := Advanced(counters, pkts[0]);
      AccessesAreConsecutive(next, pkts[1..], lock);
      var rest := Accesses(next, pkts[1..], lock);
      assert Accesses(counters, pkts, lock) == if LockTaken(pkts[0]) == lock then [next[lock]] + rest else rest;
    }
  }

  /** Packets won by different locks never write the same byte. */
  lemma LocksSeparateWrites(p: Packet, q: Packet)
    requires Deliverable(p) && Moves(p) && Deliverable(q) && Moves(q)
    requires LockIndex(p.dstAddr) != LockIndex(q.dstAddr)
    ensures Disjoint(p.dstAddr, p.length, q.dstAddr, q.length)
  {
    if !Disjoint(p.dstAddr, p.length, q.dstAddr, q.length) {
      var x := if p.dstAddr < q.dstAddr then q.dstAddr else p.dstAddr;
      WindowHasOneLock(p.dstAddr, x);
      WindowHasOneLock(q.dstAddr, x);
      assert false;
    }
  }

  ghost predicate Commute(p: Packet, q: Packet)
    requires Deliverable(p) && Deliverable(q)
  {
    forall m: Mem | Shaped(m) :: Delivered(Delivered(m, p), q) == Delivered(Delivered(m, q), p)
  }

  /**
   * Two packets under different locks may be delivered in either order exactly when neither writes what
   * the other reads: the destination locks do not protect the sources.
   */
  lemma DifferentLocksCommuteIff(p: Packet, q: Packet)
    requires Deliverable(p) && Moves(p) && Deliverable(q) && Moves(q)
    requires LockIndex(p.dstAddr) != LockIndex(q.dstAddr)
    ensures Commute(p, q) <==>
      && Disjoint(p.dstAddr, p.length, q.srcAddr, q.length)
      && Disjoint(q.dstAddr, q.length, p.srcAddr, p.length)
  {
    LocksSeparateWrites(p, q);
    hide RegionOf, Room, LockIndex;
    if !Disjoint(p.dstAddr, p.length, q.srcAddr, q.length) {
      OrderShows(p, q);
    } else if !Disjoint(q.dstAddr, q.length, p.srcAddr, p.length) {
      OrderShows(q, p);
    } else {
      forall m: Mem | Shaped(m) ensures Delivered(Delivered(m, p), q) == Delivered(Delivered(m, q), p) {
        RoomIsMapped(m, p.srcAddr, p.length);
        RoomIsMapped(m, q.srcAddr, q.length);
        CopiesCommute(m, p.srcAddr, p.dstAddr, p.length, q.srcAddr, q.dstAddr, q.length);
      }
    }
  }

  /** A memory on which the order of two packets can be seen, when the first writes what the second reads. */
  lemma OrderShows(p: Packet, q: Packet)
    requires Deliverable(p) && Moves(p) && Deliverable(q) && Moves(q)
    requires Disjoint(p.dstAddr, p.length, q.dstAddr, q.length)
    requires !Disjoint(p.dstAddr, p.length, q.srcAddr, q.length)
    ensures !Commute(p, q)
  {
    hide RegionOf, Room, Copy, Shaped, Delivered, Locate;
    var x := if p.dstAddr < q.srcAddr then q.srcAddr else p.dstAddr;
    var y, z := q.dstAddr + (x - q.srcAddr), p.srcAddr + (x - p.dstAddr);
    var m := MarkedMemory(x, 1);
    RoomIsMapped(m, p.dstAddr, p.length);
    RoomIsMapped(m, q.dstAddr, q.length);
    DeliveredAt(m, p, x);
    DeliveredAt(m, q, y);
    DeliveredAt(Delivered(m, p), q, y);
    DeliveredAt(Delivered(m, q), p, y);
    assert Delivered(Delivered(m, p), q)[y] == m[z] == 0;
    assert Delivered(Delivered(m, q), p)[y] == m[x] == 1;
  }

  lemma DeliveredAt(m: Mem, pkt: Packet, x: nat)
    requires Shaped(m) && Deliverable(pkt) && Moves(pkt) && x in m
    ensures Delivered(m, pkt).Keys == m.Keys
    ensures pkt.dstAddr <= x < pkt.dstAddr + pkt.length ==> pkt.srcAddr + (x - pkt.dstAddr) in m
    ensures Delivered(m, pkt)[x] ==
      if pkt.dstAddr <= x < pkt.dstAddr + pkt.length then m[pkt.srcAddr + (x - pkt.dstAddr)] else m[x]
  {
    hide RegionOf, Room, Locate, Copy, Shaped;
    RoomIsMapped(m, pkt.srcAddr, pkt.length);
    CopyAt(m, pkt.srcAddr, pkt.dstAddr, pkt.length, x);
  }

  // ---- inputs on which the meant claims fail ----

  /** 64 KiB from tile 0 to DMEM 0: allowed, reported as 65536 bytes moved, and nothing is. */
  lemma WholePacketIsLost()
    ensures
      var src, dst, size := 0x8000, 0x1000_0000, 0x1_0000;
      && InBounds(src, size) && InBounds(dst, size) && RemoteAllowed(src, dst, size)
      && (forall m: Mem :: Mapped(m, src, size % LENGTH_RANGE) && Copy(m, src, dst, size % LENGTH_RANGE) == m)
      && exists m: Mem :: Shaped(m) && Mapped(m, src, size) && Copy(m, src, dst, size) != m
  {
    var src, dst, size := 0x8000, 0x1000_0000, 0x1_0000;
    assert InBounds(src, size) && InBounds(dst, size) && RemoteAllowed(src, dst, size);
    hide Shaped, Copy;
    forall m: Mem ensures Mapped(m, src, 0) && Copy(m, src, dst, 0) == m {
      CopyNothing(m, src, dst);
    }
    var m := MarkedMemory(src, size);
    RoomIsMapped(m, src, size);
    RoomIsMapped(m, dst, 1);
    CopyAt(m, src, dst, size, dst);
  }

  /** DMEM 0 to tile 0 and tile 0 to DMEM 1, under locks 0 and 9: the order of the two packets shows. */
  lemma LocksDoNotOrderReads()
    ensures
      var p, q := Packet(DmaTransfer, 64, 0x1000_0000, 0x8000), Packet(DmaTransfer, 64, 0x8000, 0x1040_0000);
      && Deliverable(p) && Moves(p) && Deliverable(q) && Moves(q)
      && LockIndex(p.dstAddr) == 0 && LockIndex(q.dstAddr) == 9
      && !Commute(p, q)
  {
    var p, q := Packet(DmaTransfer, 64, 0x1000_0000, 0x8000), Packet(DmaTransfer, 64, 0x8000, 0x1040_0000);
    assert Deliverable(p) && Moves(p) && Deliverable(q) && Moves(q);
    DifferentLocksCommuteIff(p, q);
  }
}
