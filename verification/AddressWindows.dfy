/** The memory map in numbers: the windows that exist, and that exactly ranges inside one of them are usable. */
module AddressWindows {
  import opened AddressMap

  // ---- the windows ----

  /** [a, a + n) lies in the 64-bit scratchpad of tile `t`. */
  predicate InDlm64(a: nat, n: nat, t: nat) {
    t < 8 && t * 0x10_0000 <= a && a + n <= t * 0x10_0000 + 0x8000
  }

  /** [a, a + n) lies in the 512-bit buffer of tile `t`. */
  predicate InDlm1(a: nat, n: nat, t: nat) {
    t < 8 && t * 0x10_0000 + 0x8000 <= a && a + n <= t * 0x10_0000 + 0x2_8000
  }

  /** The base address of DMEM `j`. */
  function DmemStart(j: nat): nat
    requires j < 8
  {
    [0x1000_0000, 0x1040_0000, 0x1080_0000, 0x10C0_0000, 0x2000_0000, 0x2040_0000, 0x2080_0000, 0x20C0_0000][j]
  }

  predicate InDmem512(a: nat, n: nat, j: nat) {
    j < 8 && DmemStart(j) <= a && a + n <= DmemStart(j) + 0x4_0000
  }

  predicate InC0Master(a: nat, n: nat) {
    0x8000_0000 <= a && a + n <= 0x8001_0000
  }

  ghost predicate InWindow(a: nat, n: nat, kind: Region) {
    match kind
    case TileDlm64 => exists t :: InDlm64(a, n, t)
    case TileDlm1 => exists t :: InDlm1(a, n, t)
    case Dmem512 => exists j :: InDmem512(a, n, j)
    case C0Master => InC0Master(a, n)
    case Invalid => false
  }

  // ---- addresses and ranges ----

  lemma TileWindows(a: nat)
    ensures RegionOf(a) == TileDlm64 <==> InDlm64(a, 1, a / 0x10_0000)
    ensures RegionOf(a) == TileDlm1 <==> InDlm1(a, 1, a / 0x10_0000)
    ensures forall t, n: nat | n > 0 && InDlm64(a, n, t) :: t == a / 0x10_0000
    ensures forall t, n: nat | n > 0 && InDlm1(a, n, t) :: t == a / 0x10_0000
  {
  }

  lemma DmemWindows(a: nat)
    ensures RegionOf(a) == Dmem512 <==> exists j :: InDmem512(a, 1, j)
    ensures forall j, n: nat | n > 0 && InDmem512(a, n, j) :: DmemOf(a) == j && TileOf(a) < 0
    ensures DmemOf(a) >= 0 ==> DmemBase(DmemOf(a)) == DmemStart(DmemOf(a))
  {
    if RegionOf(a) == Dmem512 {
      assert InDmem512(a, 1, DmemOf(a));
    }
  }

  /** An address is of a kind exactly when it lies in a window of that kind. */
  lemma KindIff(a: nat, kind: Region)
    requires kind != Invalid
    ensures RegionOf(a) == kind <==> InWindow(a, 1, kind)
  {
    TileWindows(a);
    DmemWindows(a);
    hide DmemOf, DmemStart;
    assert RegionOf(a) == C0Master <==> InC0Master(a, 1);
  }

  /** A range that fits the room of its kind lies in one window, and conversely. */
  lemma FitsIff(a: nat, n: nat, kind: Region)
    requires n > 0 && kind != Invalid
    ensures InWindow(a, n, kind) <==> RegionOf(a) == kind && n <= Room(a)
  {
    TileWindows(a);
    DmemWindows(a);
    match kind {
      case TileDlm64 =>
        assert InDlm64(a, n, a / 0x10_0000) <==> RegionOf(a) == kind && n <= Room(a);
      case TileDlm1 =>
        assert InDlm1(a, n, a / 0x10_0000) <==> RegionOf(a) == kind && n <= Room(a);
      case Dmem512 =>
        if RegionOf(a) == kind && n <= Room(a) {
          assert InDmem512(a, n, DmemOf(a));
        }
        if j :| InDmem512(a, n, j) {
          assert InDmem512(a, 1, j);
        }
      case C0Master =>
    }
  }

  /** Up to 0xE0001 bytes, a range is accepted exactly when it is not empty and lies in one window. */
  lemma AcceptedIffInWindow(a: nat, n: nat)
    requires InBounds(a, n)
    ensures Validate(a, n) <==> n > 0 && RegionOf(a) != Invalid && InWindow(a, n, RegionOf(a))
  {
    hide InWindow, Room;
    if Validate(a, n) {
      AcceptedSpan(a, n);
      FitsIff(a, n, RegionOf(a));
    }
    if n > 0 && RegionOf(a) != Invalid && InWindow(a, n, RegionOf(a)) {
      FitsIff(a, n, RegionOf(a));
      RoomAccepted(a, n);
    }
  }

  lemma RoomAccepted(a: nat, n: nat)
    requires RegionOf(a) != Invalid && 0 < n <= Room(a) && a < UINT64
    ensures Validate(a, n)
  {
    RoomIsSmall(a);
    SameKindWithin(a, a + n - 1);
    hide RegionOf, Room;
    assert (a + n - 1) % UINT64 == a + n - 1;
  }

  lemma SameKindWithin(a: nat, b: nat)
    requires RegionOf(a) != Invalid && a <= b < a + Room(a)
    ensures RegionOf(b) == RegionOf(a)
  {
    if TileOf(a) >= 0 {
      assert TileOf(b) == TileOf(a);
    }
  }

  /** Every window is accepted whole. */
  lemma WholeWindowsAccepted(t: nat, j: nat)
    requires t < 8 && j < 8
    ensures Validate(t * 0x10_0000, 0x8000) && Validate(t * 0x10_0000 + 0x8000, 0x2_0000)
    ensures Validate(DmemStart(j), 0x4_0000) && Validate(0x8000_0000, 0x1_0000)
  {
    WindowAccepted(t * 0x10_0000, 0x8000, TileDlm64) by {
      assert InDlm64(t * 0x10_0000, 0x8000, t);
    }
    WindowAccepted(t * 0x10_0000 + 0x8000, 0x2_0000, TileDlm1) by {
      assert InDlm1(t * 0x10_0000 + 0x8000, 0x2_0000, t);
    }
    WindowAccepted(DmemStart(j), 0x4_0000, Dmem512) by {
      assert InDmem512(DmemStart(j), 0x4_0000, j);
    }
    WindowAccepted(0x8000_0000, 0x1_0000, C0Master) by {
      assert InC0Master(0x8000_0000, 0x1_0000);
    }
  }

  /** Any non-empty range inside a window is accepted. */
  lemma WindowAccepted(a: nat, n: nat, kind: Region)
    requires n > 0 && kind != Invalid && InWindow(a, n, kind)
    ensures RegionOf(a) == kind && Validate(a, n) && InBounds(a, n)
  {
    FitsIff(a, n, kind);
    RoomIsSmall(a);
    hide InWindow, Room;
    RoomAccepted(a, n);
  }

  /** The end of a range is computed in 64 bits: one that wraps round to its own window is accepted. */
  lemma WrappedRangeAccepted()
    ensures Validate(0x8002, 0xFFFF_FFFF_FFFF_FFFF) && !Validate(0x8001, 0x1_0000_0000)
    ensures !Validate(0x8000, 0)
  {
  }

  // ---- where the bytes are ----

  /** Each window has its own buffer: scratchpads 0 to 7, tile buffers 8 to 15, DMEMs 24 to 31, and the pool. */
  lemma WindowsAreStored(t: nat, j: nat, k: nat)
    requires t < 8 && j < 8
    ensures k < 0x8000 ==> Locate(t * 0x10_0000 + k) == At(t, k)
    ensures k < 0x2_0000 ==> Locate(t * 0x10_0000 + 0x8000 + k) == At(8 + t, k)
    ensures k < 0x4_0000 ==> Locate(DmemStart(j) + k) == At(24 + j, k)
    ensures k < 0x1_0000 ==> Locate(0x8000_0000 + k) == At(32, 0x2500_0000 + k)
    ensures k < 0x40_0000 ==> Locate(0x9000_0000 + k) == Plic(0, k) && Locate(0x9040_0000 + k) == Plic(1, k)
  {
    TileStored(t, k);
    DmemStored(j, k);
  }

  lemma TileStored(t: nat, k: nat)
    requires t < 8
    ensures k < 0x8000 ==> Locate(t * 0x10_0000 + k) == At(t, k)
    ensures k < 0x2_0000 ==> Locate(t * 0x10_0000 + 0x8000 + k) == At(8 + t, k)
  {
    hide DmemOf;
  }

  lemma DmemStored(j: nat, k: nat)
    requires j < 8
    ensures k < 0x4_0000 ==> Locate(DmemStart(j) + k) == At(24 + j, k)
  {
    if k < 0x4_0000 {
      DmemOfIs(DmemStart(j) + k, j);
    }
  }
}
