/** When the ranges of an accepted transfer run into the tile's own DMA registers. */
module DmaOverlap {
  import opened AddressMap
  import opened FlatMemory
  import opened PlatformMemory
  import opened DmaEngine
  import opened DmaTransfer
  import opened DmaTheorems
  import opened TileDma

  /** The setups for which the driver starts a copy that has a meaning in C. */
  ghost predicate Startable(s: Setup) {
    Legal(s) && Accepted(s) && Movable(s)
  }

  /** Whatever the platform's memory holds, a transfer on this tile delivers its source. */
  ghost predicate AlwaysDelivers(tile: nat, s: Setup)
    requires Legal(s)
  {
    forall m: Mem | Shaped(m) :: Ready(m, Base(tile), s) && Delivers(m, Base(tile), s)
  }

  /**
   * An accepted transfer delivers its source on every memory of the platform exactly when the source keeps
   * clear of the register bytes that arming rewrites and the destination of the two that completion touches.
   */
  lemma DeliversIff(tile: nat, s: Setup)
    requires tile < NUM_TILES && Startable(s)
    ensures AlwaysDelivers(tile, s) <==>
      && (forall offset: nat | Rewritten(offset) :: !Holds(s.src, s.count, Base(tile), offset))
      && !Holds(s.dst, s.count, Base(tile), BUSY_BYTE) && !Holds(s.dst, s.count, Base(tile), FLAG_BYTE)
  {
    hide Ready, Delivers, Legal, Accepted, Movable, Rewritten, Base;
    var base := Base(tile);
    if offset: nat :| Rewritten(offset) && Holds(s.src, s.count, base, offset) {
      LosesByte(tile, s, base + offset - s.src);
    } else if Holds(s.dst, s.count, base, BUSY_BYTE) {
      LosesByte(tile, s, base + BUSY_BYTE - s.dst);
    } else if Holds(s.dst, s.count, base, FLAG_BYTE) {
      LosesByte(tile, s, base + FLAG_BYTE - s.dst);
    } else {
      forall m: Mem | Shaped(m) ensures Ready(m, base, s) && Delivers(m, base, s) {
        StartableIsReady(m, tile, s);
        DeliversWhenClear(m, base, s);
      }
    }
  }

  lemma StartableIsReady(m: Mem, tile: nat, s: Setup)
    requires tile < NUM_TILES && Startable(s) && Shaped(m)
    ensures Legal(s) && Ready(m, Base(tile), s)
  {
    RangesAreReady(m, tile, s);
  }

  /** The platform's memory with the same value, 0 or 1, in every byte. */
  ghost function Uniform(v: nat): (m: Mem)
    requires v < 2
    ensures Shaped(m) && forall x | x in m :: m[x] == v
  {
    MarkedMemory(0, v * PLIC_BASE)
  }

  lemma LosesByte(tile: nat, s: Setup, i: nat)
    requires tile < NUM_TILES && Startable(s) && i < s.count
    requires
      var from, to := s.src + i - Base(tile), s.dst + i - Base(tile);
      (from >= 0 && Rewritten(from)) || to == BUSY_BYTE || to == FLAG_BYTE
    ensures !AlwaysDelivers(tile, s)
  {
    var from, to := s.src + i - Base(tile), s.dst + i - Base(tile);
    NotIdentity(s, from, to);
    hide Transferred, Legal, ArmedByte, Touched, Rewritten, Delivers, Uniform, Base, Shaped;
    var v := if Touched(ArmedByte(0, from, s), to) != 0 then 0 else 1;
    StartableIsReady(Uniform(v), tile, s);
    LosesOn(Uniform(v), Base(tile), s, i);
  }

  /** Thirty-two bytes moved from the start of tile 0 onto its registers: accepted by the driver, and not delivered. */
  lemma RegisterOverlapLosesData()
    ensures
      var s := ForTransfer(0, 0xF000, 0x20);
      Local(0, s.src, s.dst) && Startable(s) && !AlwaysDelivers(0, s)
  {
    var s := ForTransfer(0, 0xF000, 0x20);
    assert Startable(s);
    assert Base(0) == 0xF000;
    LosesByte(0, s, BUSY_BYTE);
  }
}
