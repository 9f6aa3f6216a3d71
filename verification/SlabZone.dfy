/** Where new slabs come from: the block that the slab zone hands out is no slab yet. */
module SlabZone {
  import opened EntryBits
  import opened BlockBits
  import opened BlockZone
  import opened BlockAlloc
  import opened SlabModel

  predicate SlabAt(z: ZoneInfo, st: ZoneState, a: nat, i: nat) {
    Live(st, i) && a == Addr(z, i)
  }

  /** Every slab in use is a live block of the zone. */
  ghost predicate InZoneBlocks(z: ZoneInfo, st: ZoneState, slabs: set<nat>) {
    forall a :: a in slabs ==> exists i: nat :: SlabAt(z, st, a, i)
  }

  /** The zone's blocks are as large as slabs, and it starts at a multiple of that, past zero. */
  predicate SlabSized(z: ZoneInfo) {
    AsNumber(Bytes(z.pages)) == SLAB_SIZE && z.start > 0 && z.start % SLAB_SIZE == 0
  }

  lemma AddrIs(z: ZoneInfo, i: nat)
    requires SlabSized(z)
    ensures Addr(z, i) == z.start + i * SLAB_SIZE && Addr(z, i) % SLAB_SIZE == 0
  {
    hide Bytes, AsNumber;
  }

  lemma PoppedLive(st: ZoneState, i: nat)
    requires Live(st, i)
    ensures Live(Popped(st), i)
  {
  }

  /** The block that vm_alloc_block hands out for a slab is new to every cache whose slabs are among those in use, and
      is in use afterwards. */
  lemma NewSlab(z: ZoneInfo, st: ZoneState, slabs: set<nat>, s: Slabs)
    requires SlabSized(z) && StateOk(z, st) && InZone(z, Cursor(st)) && InZoneBlocks(z, st, slabs) &&
             s.chains.Keys <= slabs
    ensures var a := Addr(z, Cursor(st));
      a !in slabs && Fresh(s, a) && SpareOk(s, a) && InZoneBlocks(z, Popped(st), slabs + {a})
  {
    hide Addr, SlabSized, Live, Popped, Cursor;
    var c := Cursor(st);
    var a := Addr(z, c);
    PoppedState(z, st);
    AddrIs(z, c);
    assert a > 0 by {
      Positive(z, c);
    }
    forall b | b in slabs
      ensures b != a && exists i: nat :: SlabAt(z, Popped(st), b, i)
    {
      var i: nat :| SlabAt(z, st, b, i);
      AddrIs(z, i);
      PoppedLive(st, i);
      assert SlabAt(z, Popped(st), b, i);
    }
    assert SlabAt(z, Popped(st), a, c);
  }

  lemma Positive(z: ZoneInfo, i: nat)
    requires SlabSized(z)
    ensures Addr(z, i) > 0
  {
    AddrIs(z, i);
  }
}
