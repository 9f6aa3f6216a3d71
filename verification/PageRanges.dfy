/** Ranges of pages in one page table: the boundary check and the loop of vm_map_pages. */
module PageRanges {
  import opened Options
  import opened EntryBits
  import opened PageTables
  import opened PageMapping

  // ----- ranges of pages

  /** Address of page `k` of a range. */
  function Page(base: Word, k: Word): Word {
    base + (k << 12)
  }

  /** __check_vm_region_boundary: `pages` is a 16-bit count, to which a guard page is added in 16 bits. */
  function Counted(pages: Word, flags: Word): Word {
    if Asks(flags, VM_WRITE_GUARD) then (pages + 1) & 0xFFFF else pages & 0xFFFF
  }

  /** vm.c:104: bits 21 to 44 and 48. A range of at most 512 pages changes bits from 21 on only by a carry, which
      changes bit 21, so the bits left out do no harm. */
  predicate SameTable(a: Word, b: Word) {
    a & 0x0001_1FFF_FFE0_0000 == b & 0x0001_1FFF_FFE0_0000
  }

  /** The count that was meant: no wrap. */
  function FullCount(pages: Word, flags: Word): Word {
    if Asks(flags, VM_WRITE_GUARD) then pages + 1 else pages
  }

  predicate SixteenBits(pages: Word) {
    pages <= 0xFFFF
  }

  predicate PassesCheck(va: Word, n: Word) {
    n <= 512 && SameTable(va, Page(va, n))
  }

  predicate InOneTable(va: Word, pages: Word, flags: Word) {
    PassesCheck(va, Counted(pages, flags))
  }

  /** The range ends before the last entry of its page table. */
  predicate EndsBefore(va: Word, n: Word) {
    n <= 512 && PtOffset(va) < 512 && PtOffset(va) + n < 512
  }

  lemma SameTableEnds(va: Word, n: Word)
    requires n <= 512 && SameTable(va, Page(va, n))
    ensures EndsBefore(va, n)
  {
  }

  lemma EndsSameTable(va: Word, n: Word)
    requires EndsBefore(va, n)
    ensures SameTable(va, Page(va, n))
  {
  }

  /** The check accepts exactly the ranges that end before the last entry of their page table: 512 pages never pass,
      however they are aligned. */
  lemma InOneTableIff(va: Word, n: Word)
    ensures PassesCheck(va, n) <==> EndsBefore(va, n)
  {
    if PassesCheck(va, n) {
      SameTableEnds(va, n);
    } else if EndsBefore(va, n) {
      EndsSameTable(va, n);
    }
    hide SameTable, Page, PtOffset;
  }

  /** The guard page is lost in 16 bits. */
  predicate Wraps(pages: Word, flags: Word) {
    pages == 0xFFFF && Asks(flags, VM_WRITE_GUARD)
  }

  lemma CountedWrapped(pages: Word, flags: Word)
    requires SixteenBits(pages) && Wraps(pages, flags)
    ensures Counted(pages, flags) == 0 && FullCount(pages, flags) == 0x1_0000
  {
  }

  lemma CountedWhole(pages: Word, flags: Word)
    requires SixteenBits(pages) && !Wraps(pages, flags)
    ensures Counted(pages, flags) == FullCount(pages, flags)
  {
  }

  lemma EndOfNone(va: Word)
    ensures EndsBefore(va, 0) && !EndsBefore(va, 0x1_0000)
  {
  }

  /** The check as written, in 16 bits, accepts what it should except when it wraps. */
  lemma WrittenCheckIff(va: Word, pages: Word, flags: Word)
    requires SixteenBits(pages)
    ensures (InOneTable(va, pages, flags) <==> EndsBefore(va, FullCount(pages, flags))) <==> !Wraps(pages, flags)
    ensures Wraps(pages, flags) ==> InOneTable(va, pages, flags)
  {
    hide *;
    InOneTableIs(va, pages, flags);
    InOneTableIff(va, Counted(pages, flags));
    if Wraps(pages, flags) {
      CountedWrapped(pages, flags);
      EndOfNone(va);
    } else {
      CountedWhole(pages, flags);
    }
  }

  lemma InOneTableIs(va: Word, pages: Word, flags: Word)
    ensures InOneTable(va, pages, flags) <==> PassesCheck(va, Counted(pages, flags))
  {
    hide PassesCheck, Counted;
  }

  lemma NoFullTable(va: Word, n: Word)
    requires EndsBefore(va, n)
    ensures n < 512
  {
  }

  /** Page `k` of such a range goes through the same tables, `k` entries on. */
  lemma PageInTable(va: Word, n: Word, k: Word)
    requires EndsBefore(va, n) && k <= n
    ensures PtOffset(Page(va, k)) == PtOffset(va) + k && PtOffset(va) + k < 512
  {
  }

  lemma PageSameTables(va: Word, n: Word, k: Word)
    requires EndsBefore(va, n) && k <= n
    ensures PdtOffset(Page(va, k)) == PdtOffset(va) && PdptOffset(Page(va, k)) == PdptOffset(va) &&
            Pml4Offset(Page(va, k)) == Pml4Offset(va)
  {
  }

  lemma PagesDiffer(va: Word, n: Word, j: Word, k: Word)
    requires EndsBefore(va, n) && j <= n && k <= n && j != k
    ensures PageOf(Page(va, j)) != PageOf(Page(va, k))
  {
    hide PtOffset, Page, PageOf, EndsBefore;
    PageSum(va, n, j);
    PageSum(va, n, k);
    if PageOf(Page(va, j)) == PageOf(Page(va, k)) {
      SamePageOffsets(Page(va, j), Page(va, k));
      SumCancels(PtOffset(va), j, k);
    }
  }

  lemma SumCancels(x: Word, j: Word, k: Word)
    requires Small(x, j) && Small(x, k) && Sum(x, j) == Sum(x, k)
    ensures j == k
  {
  }

  lemma NextNumber(w: Word)
    requires w < 511
    ensures AsNumber(w + 1) == AsNumber(w) + 1
  {
  }

  predicate Small(x: Word, k: Word) {
    x < 512 && k < 512 && x + k < 512
  }

  function Sum(x: Word, k: Word): Word {
    x + k
  }

  function Less(k: Word): Word {
    k - 1
  }

  lemma SumNumber(x: Word, k: Word)
    requires Small(x, k)
    ensures AsNumber(Sum(x, k)) == AsNumber(x) + AsNumber(k)
    decreases AsNumber(k)
  {
    hide *;
    if k == 0 {
      ZeroNumber(x);
    } else {
      SumStep(x, k);
      SumNumber(x, Less(k));
    }
  }

  lemma ZeroNumber(x: Word)
    ensures Sum(x, 0) == x && AsNumber(0) == 0
  {
  }

  lemma SumStep(x: Word, k: Word)
    requires Small(x, k) && k != 0
    ensures Small(x, Less(k)) && AsNumber(k) == AsNumber(Less(k)) + 1 &&
            AsNumber(Sum(x, k)) == AsNumber(Sum(x, Less(k))) + 1
  {
    hide *;
    Before(x, k);
    NextNumber(Less(k));
    NextNumber(Sum(x, Less(k)));
  }

  lemma Before(x: Word, k: Word)
    requires Small(x, k) && k != 0
    ensures Small(x, Less(k)) && Less(k) < 511 && Sum(x, Less(k)) < 511
    ensures Less(k) + 1 == k && Sum(x, Less(k)) + 1 == Sum(x, k)
  {
  }

  predicate SameTables(a: Word, b: Word) {
    Index(a, 1) == Index(b, 1) && Index(a, 2) == Index(b, 2) && Index(a, 3) == Index(b, 3)
  }

  lemma SameTablesIs(a: Word, b: Word)
    requires PdtOffset(a) == PdtOffset(b) && PdptOffset(a) == PdptOffset(b) && Pml4Offset(a) == Pml4Offset(b)
    ensures SameTables(a, b)
  {
    hide PtOffset, PdtOffset, PdptOffset, Pml4Offset, AsNumber;
  }

  lemma PageIndex(va: Word, n: Word, k: Word)
    requires EndsBefore(va, n) && k <= n
    ensures Index(Page(va, k), 0) == Index(va, 0) + AsNumber(k) && Index(va, 0) + AsNumber(k) < 512
    ensures SameTables(Page(va, k), va)
  {
    hide *;
    PageSum(va, n, k);
    PageSameTables(va, n, k);
    SumNumber(PtOffset(va), k);
    FourIndices(va);
    FourIndices(Page(va, k));
    IndexBound(Page(va, k), 0);
    SameTablesIs(Page(va, k), va);
  }

  lemma PageSum(va: Word, n: Word, k: Word)
    requires EndsBefore(va, n) && k <= n
    ensures PtOffset(Page(va, k)) == Sum(PtOffset(va), k)
    ensures Small(PtOffset(va), k)
  {
    hide PtOffset, Page;
    PageInTable(va, n, k);
    RangeSmall(PtOffset(va), n, k);
  }

  lemma RangeSmall(x: Word, n: Word, k: Word)
    requires x + n < 512 && n <= 512 && k <= n && x < 512
    ensures Small(x, k)
  {
  }

  // ----- mapping a range

  /** One round of the loop of vm_map_pages: page `k` of the range. */
  function MapOne(m: Memory, pt: nat, va: Word, phys: Word, flags: Word, k: Word): Memory
    requires pt in m && |m[pt]| == 512
  {
    IndexBound(Page(va, k), 0);
    SetEntry(m, pt, Index(Page(va, k), 0), Mapped(Entry(m, pt, Index(Page(va, k), 0)), Page(phys, k), flags))
  }

  /** The first `k` rounds. */
  ghost function MapRange(m: Memory, pt: nat, va: Word, phys: Word, flags: Word, k: Word): (n: Memory)
    requires pt in m && |m[pt]| == 512 && k < 512
    ensures pt in n && |n[pt]| == 512 && n.Keys == m.Keys
    decreases AsNumber(k)
  {
    if k == 0 then m
    else
      LessIs(k);
      MapOne(MapRange(m, pt, va, phys, flags, Less(k)), pt, va, phys, flags, Less(k))
  }

  lemma LessIs(k: Word)
    requires 0 < k < 512
    ensures Less(k) < 512 && Less(k) < k && AsNumber(k) == AsNumber(Less(k)) + 1
  {
    Before(0, k);
    NextNumber(Less(k));
    hide AsNumber;
  }

  function WithoutWrite(flags: Word): Word {
    flags & !VM_ALLOW_WRITE
  }

  /** vm.c:258-271: the pages, and then the guard page, which cannot be written. */
  ghost function MapAll(m: Memory, pt: nat, va: Word, phys: Word, flags: Word, pages: Word): (n: Memory)
    requires pt in m && |m[pt]| == 512 && pages < 512
    ensures pt in n && |n[pt]| == 512 && n.Keys == m.Keys
  {
    var n := MapRange(m, pt, va, phys, flags, pages);
    if Asks(flags, VM_WRITE_GUARD) then MapOne(n, pt, va, phys, WithoutWrite(flags), pages) else n
  }

  lemma MapAllIs(m: Memory, pt: nat, va: Word, phys: Word, flags: Word, pages: Word)
    requires pt in m && |m[pt]| == 512 && pages < 512
    ensures var n := MapRange(m, pt, va, phys, flags, pages);
      && (!Asks(flags, VM_WRITE_GUARD) ==> MapAll(m, pt, va, phys, flags, pages) == n)
      && (Asks(flags, VM_WRITE_GUARD) ==>
         MapAll(m, pt, va, phys, flags, pages) == MapOne(n, pt, va, phys, WithoutWrite(flags), pages))
  {
    hide MapRange, MapOne, Asks, WithoutWrite;
  }

  predicate Under(j: Word, k: Word) {
    j < k
  }

  ghost predicate InRange(b: Word, va: Word, k: Word) {
    exists j: Word :: Under(j, k) && PageOf(b) == PageOf(Page(va, j))
  }

  /** The first `k` pages of the range go to consecutive frames, and no other address is touched. */
  ghost predicate RangeMapped(m: Memory, n: Memory, root: nat, va: Word, phys: Word, k: Word) {
    && (forall j: Word, b: Word :: Under(j, k) && PageOf(b) == PageOf(Page(va, j)) ==>
       Translate(n, root, b) == Some(AddressIn(Page(phys, j), b)))
    && (forall b: Word :: !InRange(b, va, k) ==> Translate(n, root, b) == Translate(m, root, b))
  }

  lemma MapOneTranslates(m: Memory, root: nat, height: map<nat, nat>, pt: nat, va: Word, phys: Word, flags: Word,
          n: Word, k: Word, b: Word)
    requires Tree(m, root, height) && TableAt(m, root, va, 0) == Some(pt) && EndsBefore(va, n) && k <= n
    ensures pt in m && |m[pt]| == 512
    ensures var o := MapOne(m, pt, va, phys, flags, k);
      && Tree(o, root, height) && TableAt(o, root, va, 0) == Some(pt) && SameMeta(m, o)
      && Translate(o, root, b) == if PageOf(b) ==
         PageOf(Page(va, k)) then Some(AddressIn(Page(phys, k), b)) else Translate(m, root, b)
  {
    hide *;
    var a := Page(va, k);
    PageIndex(va, n, k);
    PathSameTables(m, root, a, va);
    TableAtHeight(m, root, height, a, 0);
    var e := Mapped(Entry(m, pt, Index(a, 0)), Page(phys, k), flags);
    MapOneIs(m, pt, va, phys, flags, k);
    var o := SetEntry(m, pt, Index(a, 0), e);
    EntryTranslates(m, root, height, a, e, b);
    MeaningOfMapped(Entry(m, pt, Index(a, 0)), Page(phys, k), flags, b);
    PathSameTables(o, root, a, va);
    MappedTable(Entry(m, pt, Index(a, 0)), Page(phys, k), flags);
    SameOnce(m, root);
    SetMeta(m, m, pt, Index(a, 0), e);
  }

  lemma MapOneIs(m: Memory, pt: nat, va: Word, phys: Word, flags: Word, k: Word)
    requires pt in m && |m[pt]| == 512
    ensures Index(Page(va, k), 0) < 512
    ensures MapOne(m, pt, va, phys, flags, k) ==
      SetEntry(m, pt, Index(Page(va, k), 0), Mapped(Entry(m, pt, Index(Page(va, k), 0)), Page(phys, k), flags))
  {
    IndexBound(Page(va, k), 0);
  }

  lemma PathSameTables(m: Memory, root: nat, a: Word, b: Word)
    requires SameTables(a, b)
    ensures TableAt(m, root, a, 0) == TableAt(m, root, b, 0)
  {
    hide Index;
    PathSame(m, root, a, b, 0);
  }

  /** A number of pages up to `end`. */
  predicate Fits(k: Word, end: Word) {
    k <= end && k < 512
  }

  lemma NotLast(j: Word, k: Word)
    requires j < k && j != k - 1 && k < 512
    ensures j < k - 1
  {
  }

  lemma UnderLess(j: Word, k: Word)
    requires Under(j, k) && j != Less(k) && k < 512
    ensures Under(j, Less(k))
  {
    NotLast(j, k);
  }

  lemma LessUnder(j: Word, k: Word)
    requires k != 0 && Under(j, Less(k))
    ensures Under(j, k)
  {
  }

  lemma FitsLess(k: Word, end: Word)
    requires Fits(k, end) && k != 0
    ensures Fits(Less(k), end) && Under(Less(k), k) && AsNumber(k) == AsNumber(Less(k)) + 1
  {
    LessIs(k);
  }

  lemma UnderFits(j: Word, k: Word, end: Word)
    requires Fits(k, end) && Under(j, k)
    ensures Fits(j, end)
  {
  }

  lemma PagesApart(va: Word, end: Word, j: Word, k: Word)
    requires EndsBefore(va, end) && Fits(j, end) && Fits(k, end) && j != k
    ensures PageOf(Page(va, j)) != PageOf(Page(va, k))
  {
    PagesDiffer(va, end, j, k);
  }

  /** Translation after one more page is mapped. */
  ghost predicate OneMoreMapped(o: Memory, n: Memory, root: nat, va: Word, phys: Word, k: Word) {
    forall b: Word :: Translate(n, root, b)
      == (if PageOf(b) == PageOf(Page(va, k)) then Some(AddressIn(Page(phys, k), b)) else Translate(o, root, b))
  }

  lemma RangeMore(m: Memory, o: Memory, n: Memory, root: nat, va: Word, phys: Word, end: Word, k: Word)
    requires EndsBefore(va, end) && Fits(k, end) && k != 0 && RangeMapped(m, o, root, va, phys, Less(k))
    requires OneMoreMapped(o, n, root, va, phys, Less(k))
    ensures RangeMapped(m, n, root, va, phys, k)
  {
    hide PageOf, Page, Translate, AddressIn, EndsBefore, Less, AsNumber, Under, Fits;
    FitsLess(k, end);
    FitsSmall(k, end);
    forall j: Word, b: Word | Under(j, k) && PageOf(b) == PageOf(Page(va, j))
      ensures Translate(n, root, b) == Some(AddressIn(Page(phys, j), b))
    {
      if j != Less(k) {
        UnderLess(j, k);
        UnderFits(j, k, end);
        PagesApart(va, end, j, Less(k));
      }
    }
    forall b: Word | !InRange(b, va, k)
      ensures Translate(n, root, b) == Translate(m, root, b)
    {
      forall j: Word | Under(j, Less(k))
        ensures Under(j, k)
      {
        LessUnder(j, k);
      }
    }
  }

  /** After the loop, page k of the range translates to frame k of the block, for all k; nothing else changed. */
  lemma {:induction false} RangeKeeps(m: Memory, root: nat, height: map<nat, nat>, pt: nat, va: Word, phys: Word,
          flags: Word, end: Word, k: Word)
    requires Tree(m, root, height) && TableAt(m, root, va, 0) == Some(pt) && EndsBefore(va, end) && Fits(k, end)
    ensures pt in m && |m[pt]| == 512 && k < 512
    ensures var n := MapRange(m, pt, va, phys, flags, k);
      && Tree(n, root, height) && TableAt(n, root, va, 0) == Some(pt) && SameMeta(m, n) &&
         RangeMapped(m, n, root, va, phys, k)
    decreases AsNumber(k)
  {
    hide *;
    TableAtHeight(m, root, height, va, 0);
    FitsSmall(k, end);
    if k == 0 {
      RangeNone(m, root, pt, va, phys, flags);
    } else {
      FitsLess(k, end);
      FitsSmall(Less(k), end);
      RangeKeeps(m, root, height, pt, va, phys, flags, end, Less(k));
      RangeStep(m, pt, va, phys, flags, k);
      RangeNext(m, MapRange(m, pt, va, phys, flags, Less(k)), root, height, pt, va, phys, flags, end, k);
    }
  }

  lemma RangeNext(m: Memory, o: Memory, root: nat, height: map<nat, nat>, pt: nat, va: Word, phys: Word, flags: Word,
          end: Word, k: Word)
    requires Tree(o, root, height) && TableAt(o, root, va, 0) == Some(pt) && SameMeta(m, o) &&
             RangeMapped(m, o, root, va, phys, Less(k))
    requires EndsBefore(va, end) && Fits(k, end) && k != 0 && o.Keys == m.Keys && pt in o && |o[pt]| == 512
    ensures var n := MapOne(o, pt, va, phys, flags, Less(k));
      Tree(n, root, height) && TableAt(n, root, va, 0) == Some(pt) && SameMeta(m, n) &&
        RangeMapped(m, n, root, va, phys, k)
  {
    hide *;
    FitsLess(k, end);
    FitsSmall(Less(k), end);
    var n := MapOne(o, pt, va, phys, flags, Less(k));
    OneMore(o, root, height, pt, va, phys, flags, end, Less(k));
    MapOneTranslates(o, root, height, pt, va, phys, flags, end, Less(k), va);
    RangeMore(m, o, n, root, va, phys, end, k);
    MetaTwice(m, o, n);
  }

  lemma OneMore(o: Memory, root: nat, height: map<nat, nat>, pt: nat, va: Word, phys: Word, flags: Word, end: Word,
          k: Word)
    requires Tree(o, root, height) && TableAt(o, root, va, 0) == Some(pt) && EndsBefore(va, end) && k <= end
    requires pt in o && |o[pt]| == 512
    ensures OneMoreMapped(o, MapOne(o, pt, va, phys, flags, k), root, va, phys, k)
  {
    hide Translate, PageOf, Page, AddressIn, MapOne, Tree, TableAt, EndsBefore, SameMeta;
    forall b: Word
      ensures Translate(MapOne(o, pt, va, phys, flags, k), root, b)
        == (if PageOf(b) == PageOf(Page(va, k)) then Some(AddressIn(Page(phys, k), b)) else Translate(o, root, b))
    {
      MapOneTranslates(o, root, height, pt, va, phys, flags, end, k, b);
    }
  }

  lemma FitsSmall(k: Word, end: Word)
    requires Fits(k, end)
    ensures k < 512 && k <= end
  {
  }

  lemma RangeNone(m: Memory, root: nat, pt: nat, va: Word, phys: Word, flags: Word)
    requires pt in m && |m[pt]| == 512
    ensures MapRange(m, pt, va, phys, flags, 0) == m && SameMeta(m, m) && RangeMapped(m, m, root, va, phys, 0)
  {
    NothingUnder();
    hide Under, PageOf, Page, Translate, AddressIn, MetaOf, Entry;
  }

  lemma NothingUnder()
    ensures forall j: Word :: !Under(j, 0)
  {
  }

  lemma RangeStep(m: Memory, pt: nat, va: Word, phys: Word, flags: Word, k: Word)
    requires pt in m && |m[pt]| == 512 && k < 512 && Less(k) < 512 && k != 0
    ensures MapRange(m, pt, va, phys, flags, k) ==
            MapOne(MapRange(m, pt, va, phys, flags, Less(k)), pt, va, phys, flags, Less(k))
  {
  }

  lemma MetaTwice(m: Memory, o: Memory, n: Memory)
    requires SameMeta(m, o) && SameMeta(o, n) && o.Keys == m.Keys
    ensures SameMeta(m, n)
  {
    hide MetaOf, Entry;
  }

  // ----- counting pages

  function Next(k: Word): Word {
    k + 1
  }

  predicate AtMost(k: Word, n: Word) {
    k <= n && n < 512 && k < 512
  }

  lemma LastReached(k: Word, n: Word)
    requires AtMost(k, n) && !Under(k, n)
    ensures k == n
  {
  }

  lemma NextIs(k: Word, n: Word)
    requires AtMost(k, n) && Under(k, n)
    ensures AtMost(Next(k), n) && Less(Next(k)) == k && Next(k) != 0 && k < 511 && Next(k) < 512
  {
  }

  lemma NumberOrder(k: Word, n: Word)
    requires AtMost(k, n) && Under(k, n)
    ensures AsNumber(k) < AsNumber(n)
    decreases AsNumber(n)
  {
    hide *;
    Predecessor(k, n);
    if Less(n) != k {
      UnderLess(k, n);
      NumberOrder(k, Less(n));
    }
  }

  lemma Predecessor(k: Word, n: Word)
    requires AtMost(k, n) && Under(k, n)
    ensures n < 512 && AsNumber(n) == AsNumber(Less(n)) + 1 && (Under(k, Less(n)) ==> AtMost(k, Less(n)))
  {
    LessIs(n);
    hide AsNumber;
  }

  lemma NextNumberIs(k: Word)
    requires k < 511
    ensures AsNumber(Next(k)) == AsNumber(k) + 1
  {
    NextNumber(k);
    hide AsNumber;
  }
}
