/** Addresses of blocks in a zone, and the free list threaded through their page table entries (mm.h:60-103,
    vm.c:559-575). */
module BlockBits {
  import opened EntryBits
  import opened PageRanges

  // ----- blocks

  /** The number of pages of a block, a power of two that fits in eight bits. */
  predicate BlockPages(s: Word) {
    s == 1 || s == 2 || s == 4 || s == 8 || s == 16 || s == 32 || s == 64 || s == 128
  }

  lemma BlockPagesAre(s: Word)
    ensures BlockPages(s) <==> s != 0 && s <= 0x80 && s & (s - 1) == 0
  {
  }

  function Bytes(s: Word): Word {
    s << 12
  }

  lemma SmallBytes(s: Word)
    requires s == 1 || s == 2 || s == 4 || s == 8
    ensures AsNumber(Bytes(s)) == 4096 * AsNumber(s)
  {
  }

  lemma LargeBytes(s: Word)
    requires s == 16 || s == 32 || s == 64 || s == 128
    ensures AsNumber(Bytes(s)) == 4096 * AsNumber(s)
  {
  }

  /** A block has the bytes of its pages. */
  lemma BytesOfPages(s: Word)
    requires BlockPages(s)
    ensures AsNumber(Bytes(s)) == 4096 * AsNumber(s)
  {
    hide AsNumber, Bytes;
    if s == 1 || s == 2 || s == 4 || s == 8 {
      SmallBytes(s);
    } else {
      LargeBytes(s);
    }
  }

  predicate BlockAligned(a: Word, s: Word) {
    a & (Bytes(s) - 1) == 0
  }

  predicate UnitAligned(x: Word, s: Word) {
    x & (s - 1) == 0
  }

  /** aligndown to the block. */
  function BlockOf(a: Word, s: Word): Word {
    a & !(Bytes(s) - 1)
  }

  /** Where in its block an address is. */
  function OffsetInBlock(b: Word, s: Word): Word {
    b & (Bytes(s) - 1)
  }

  /** Every address of a block, and no other, rounds down to its base. */
  lemma BlockOfAddress(a: Word, o: Word, s: Word)
    requires BlockPages(s) && BlockAligned(a, s)
    ensures o < Bytes(s) ==> BlockOf(a | o, s) == a
    ensures BlockOf(o, s) == a ==> o == a | OffsetInBlock(o, s) && OffsetInBlock(o, s) < Bytes(s)
  {
  }

  lemma OwnBase(a: Word, s: Word)
    ensures BlockAligned(a, s) ==> BlockOf(a, s) == a
  {
  }

  lemma AlignedOffset(a: Word, s: Word)
    requires BlockPages(s) && BlockAligned(a, s)
    ensures UnitAligned(PtOffset(a), s) && OffsetIn(a) == 0
  {
  }

  lemma UnitsApart(x: Word, y: Word, s: Word)
    requires BlockPages(s) && UnitAligned(x, s) && UnitAligned(y, s) && x < 512 && y < 512 && x < y
    ensures x + s <= y
  {
  }

  lemma UnitEnds(x: Word, s: Word)
    requires BlockPages(s) && UnitAligned(x, s) && x < 512
    ensures Small(x, Less(s)) && s != 0 && s < 512
  {
  }

  /** The entries of a block are inside one page table. */
  lemma RunEnd(a: Word, s: Word)
    requires BlockPages(s) && BlockAligned(a, s)
    ensures Index(a, 0) + AsNumber(s) <= 512 && AsNumber(s) > 0
  {
    hide *;
    AlignedOffset(a, s);
    OffsetBounds(a);
    UnitEnds(PtOffset(a), s);
    SumNumber(PtOffset(a), Less(s));
    LessIs(s);
    FourIndices(a);
    SumBound(PtOffset(a), Less(s));
  }

  lemma SumBound(x: Word, k: Word)
    requires Small(x, k)
    ensures AsNumber(Sum(x, k)) < 512
  {
    SmallNumber(Sum(x, k));
    hide AsNumber;
  }

  lemma BoundedOrder(x: Word, y: Word)
    requires x < 512 && y < 512 && x != y && !Under(x, y)
    ensures Under(y, x)
  {
  }

  /** Different blocks in one page table have different entries. */
  lemma RunsApart(a: Word, b: Word, s: Word)
    requires BlockPages(s) && BlockAligned(a, s) && BlockAligned(b, s) && Under(PtOffset(a), PtOffset(b))
    ensures Index(a, 0) + AsNumber(s) <= Index(b, 0)
  {
    hide *;
    AlignedOffset(a, s);
    AlignedOffset(b, s);
    OffsetBounds(a);
    OffsetBounds(b);
    UnderUnits(PtOffset(a), PtOffset(b), s);
    SumNumber(PtOffset(a), s);
    FourIndices(a);
    FourIndices(b);
    SumOrder(PtOffset(a), s, PtOffset(b));
  }

  lemma UnderUnits(x: Word, y: Word, s: Word)
    requires BlockPages(s) && UnitAligned(x, s) && UnitAligned(y, s) && x < 512 && y < 512 && Under(x, y)
    ensures Small(x, s) && Sum(x, s) <= y
  {
    UnitsApart(x, y, s);
    hide UnitAligned;
  }

  lemma SumOrder(x: Word, k: Word, y: Word)
    requires Small(x, k) && Sum(x, k) <= y && y < 512
    ensures AsNumber(Sum(x, k)) <= AsNumber(y)
  {
    if Sum(x, k) != y {
      StrictlyUnder(Sum(x, k), y);
      hide AsNumber, Sum;
      NumberOrder(Sum(x, k), y);
    }
  }

  lemma StrictlyUnder(x: Word, y: Word)
    requires x <= y && y < 512 && x != y
    ensures Under(x, y) && AtMost(x, y)
  {
  }

  // ----- the next free block, from an entry that is not in use

  /** The sign bit of the distance, PT_OFFSET_NEGATIVE. */
  predicate IsBack(e: Word) {
    e & 0x400_0000_0000_0000 != 0
  }

  /** next_free_entry: a distance in the address bits, and its sign in bit 58. */
  function NextFree(e: Word, at: nat): int {
    if IsBack(e) then at - AsNumber(FrameOf(e)) else at + AsNumber(FrameOf(e))
  }

  /** vm.c:562-563: the address bits replaced by a distance. */
  function WithDistance(e: Word, d: Word): Word {
    (e & !(0x000F_FFFF_FFFF_F000)) | d
  }

  /** vm.c:565-569: the sign of the distance. */
  function WithSign(e: Word, back: bool): Word {
    if back then e | 0x400_0000_0000_0000 else e & !0x400_0000_0000_0000
  }

  /** vm.c:573-575, for the entry of one page. */
  function Cleared(e: Word): Word {
    e & !1
  }

  lemma ClearedAbsent(e: Word)
    ensures !Present(Cleared(e))
  {
  }

  function Distance(at: nat, next: nat): nat {
    if next > at then next - at else at - next
  }

  /** The address bits of an entry can hold the distance. */
  predicate EntryHolds(d: nat) {
    d < 0x1_0000_0000_0000_0000 && FrameOf(AsWord(d)) == AsWord(d) && AsNumber(AsWord(d)) == d
  }

  /** vm.c:559-569 for the first entry of the block at `at`, when `next` is the block to come after it. */
  function Linked(e: Word, at: nat, next: nat): Word
    requires Distance(at, next) < 0x1_0000_0000_0000_0000
  {
    WithSign(WithDistance(e, AsWord(Distance(at, next))), next < at)
  }

  /** The first entry once it is cleared too. */
  function FreeEntry(e: Word, at: nat, next: nat): Word
    requires Distance(at, next) < 0x1_0000_0000_0000_0000
  {
    Cleared(Linked(e, at, next))
  }

  lemma BackIs(e: Word, d: Word)
    requires FrameOf(d) == d
    ensures FrameOf(Cleared(WithSign(WithDistance(e, d), true))) == d
    ensures IsBack(Cleared(WithSign(WithDistance(e, d), true)))
  {
  }

  lemma ForthIs(e: Word, d: Word)
    requires FrameOf(d) == d
    ensures FrameOf(Cleared(WithSign(WithDistance(e, d), false))) == d
    ensures !IsBack(Cleared(WithSign(WithDistance(e, d), false)))
  {
  }

  /** The entry of a freed block leads to the block that was next when it was freed, in either direction, and maps
      nothing. */
  lemma FreeEntryLeads(e: Word, at: nat, next: nat)
    requires EntryHolds(Distance(at, next))
    ensures NextFree(FreeEntry(e, at, next), at) == next && !Present(FreeEntry(e, at, next))
  {
    hide *;
    HoldsGives(Distance(at, next));
    ClearedAbsent(Linked(e, at, next));
    var d := AsWord(Distance(at, next));
    BackIs(e, d);
    ForthIs(e, d);
    FreeEntryIs(e, at, next);
    NextFreeIs(FreeEntry(e, at, next), at);
    DistanceFacts(at, next);
  }

  lemma HoldsGives(d: nat)
    requires EntryHolds(d)
    ensures d < 0x1_0000_0000_0000_0000 && FrameOf(AsWord(d)) == AsWord(d) && AsNumber(AsWord(d)) == d
  {
    hide FrameOf, AsWord, AsNumber;
  }

  lemma FreeEntryIs(e: Word, at: nat, next: nat)
    requires Distance(at, next) < 0x1_0000_0000_0000_0000
    ensures FreeEntry(e, at, next) == Cleared(Linked(e, at, next))
    ensures next < at ==> FreeEntry(e, at, next) == Cleared(WithSign(WithDistance(e, AsWord(Distance(at, next))), true))
    ensures next >= at ==>
            FreeEntry(e, at, next) == Cleared(WithSign(WithDistance(e, AsWord(Distance(at, next))), false))
  {
    hide Cleared, WithSign, WithDistance, AsWord, Distance;
  }

  lemma NextFreeIs(e: Word, at: nat)
    ensures NextFree(e, at) == if IsBack(e) then at - AsNumber(FrameOf(e)) else at + AsNumber(FrameOf(e))
  {
    hide IsBack, FrameOf, AsNumber;
  }

  lemma DistanceFacts(at: nat, next: nat)
    ensures next < at ==> at - Distance(at, next) == next
    ensures next >= at ==> at + Distance(at, next) == next
  {
  }

  /** _prepare_block_pt: a block never used leads to the one after it. */
  function PreparedEntry(e: Word, s: Word): Word {
    e | Bytes(s)
  }

  /** An entry of a page table just made: nothing but a record of how the table was allocated. */
  predicate Untouched(e: Word) {
    e & 0xE00 == e
  }

  lemma PreparedIs(e: Word, s: Word)
    requires BlockPages(s) && Untouched(e)
    ensures FrameOf(PreparedEntry(e, s)) == Bytes(s)
    ensures !IsBack(PreparedEntry(e, s)) && !Present(PreparedEntry(e, s))
  {
  }

  lemma PreparedLeads(e: Word, at: nat, s: Word)
    requires BlockPages(s) && Untouched(e)
    ensures NextFree(PreparedEntry(e, s), at) == at + AsNumber(Bytes(s)) && !Present(PreparedEntry(e, s))
  {
    PreparedIs(e, s);
    hide PreparedEntry, FrameOf, IsBack, Present, AsNumber, Bytes;
  }

  // ----- the entries of an allocated block

  /** __data_alloc_flags, where a size cut to eight bits may be zero. */
  function DataFlags(index: nat, size: nat, flags: Word): Word {
    (if Asks(flags, 0x10) then 0x100_0000_0000_0000 else 0) | (if index > 0 then 0x80_0000_0000_0000 else 0)
    | (if size == 0 || index < size - 1 then 0x40_0000_0000_0000 else 0)
  }

  function WithFlags(e: Word, d: Word, first: Word): Word {
    e | d | (first & 0xE00)
  }

  /** vm.c:528-530: entry `index` of a block of `size` pages, whose first entry was `first`. */
  function BlockEntry(phys: Word, flags: Word, index: nat, size: nat, first: Word): Word {
    WithFlags(EntryFor(phys, flags), DataFlags(index, size, flags), first)
  }

  predicate Ahead(e: Word) {
    e & 0x40_0000_0000_0000 != 0
  }

  predicate Behind(e: Word) {
    e & 0x80_0000_0000_0000 != 0
  }

  /** Bits 54 to 56 only. */
  predicate OnlyData(d: Word) {
    d & 0x1C0_0000_0000_0000 == d
  }

  lemma EntryForIs(phys: Word, flags: Word)
    ensures var e := EntryFor(phys, flags); Present(e) && FrameOf(e) == FrameOf(phys) && !Ahead(e) && !Behind(e)
  {
  }

  lemma WithFlagsIs(e: Word, d: Word, first: Word)
    requires OnlyData(d)
    ensures var w := WithFlags(e, d, first);
      (Present(e) ==> Present(w)) && FrameOf(w) == FrameOf(e)
      && (!Ahead(e) ==> (Ahead(w) <==> Ahead(d))) && (!Behind(e) ==> (Behind(w) <==> Behind(d)))
  {
  }

  lemma DataFlagsAre(index: nat, size: nat, flags: Word)
    ensures var d := DataFlags(index, size, flags);
      OnlyData(d) && (Ahead(d) <==> size == 0 || index < size - 1) && (Behind(d) <==> index > 0)
  {
  }

  /** Every page of the block is mapped, and marked by whether there are pages of the block before and after it. */
  lemma BlockEntryIs(phys: Word, flags: Word, index: nat, size: nat, first: Word)
    ensures var e := BlockEntry(phys, flags, index, size, first);
      Present(e) && FrameOf(e) == FrameOf(phys) && (Ahead(e) <==> size == 0 || index < size - 1) &&
        (Behind(e) <==> index > 0)
  {
    hide *;
    EntryForIs(phys, flags);
    DataFlagsAre(index, size, flags);
    WithFlagsIs(EntryFor(phys, flags), DataFlags(index, size, flags), first);
    BlockEntryParts(phys, flags, index, size, first);
  }

  lemma BlockEntryParts(phys: Word, flags: Word, index: nat, size: nat, first: Word)
    ensures BlockEntry(phys, flags, index, size, first) ==
            WithFlags(EntryFor(phys, flags), DataFlags(index, size, flags), first)
  {
    hide EntryFor, DataFlags, WithFlags;
  }

  /** As written the size passed is the low byte of a page-aligned address, that is zero: the mark on the last page is
      then wrong, and on that page only. */
  lemma AheadAsWrittenIff(phys: Word, flags: Word, index: nat, size: nat, first: Word)
    requires index < size
    ensures Ahead(BlockEntry(phys, flags, index, 0, first)) == Ahead(BlockEntry(phys, flags, index, size, first)) <==>
            index < size - 1
  {
    BlockEntryIs(phys, flags, index, 0, first);
    BlockEntryIs(phys, flags, index, size, first);
    hide BlockEntry, Ahead, Behind, Present, FrameOf;
  }
}
