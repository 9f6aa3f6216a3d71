/** Where the text of vm_map_pages and virt_to_phys departs from what they are meant to do, and exactly when it does
    not. */
module VmAsWritten {
  import opened Options
  import opened EntryBits
  import opened PageTables
  import opened PageMapping
  import opened PageRanges
  import opened VirtualMemory

  // ----- vm_map_pages

  /** `Past`: an entry past the end of a table is written, or one of a page that is no table. */
  datatype MapOutcome = Wrote(tables: Memory, status: Status) | Past

  /** The entries from that of `va` on are inside a table. */
  predicate InsideTable(va: Word, n: Word) {
    n < 512 && PtOffset(va) < 512 && PtOffset(va) + n <= 512
  }

  /** vm_map_pages as written: past the check it writes into whatever table the traversal stopped at, and reports
      success. */
  ghost function MapPagesAsWritten(m: Memory, root: nat, phys: Word, pages: Word, va: Word, flags: Word): MapOutcome {
    var t := Traverse(m, root, va, flags, 3).table;
    if !InOneTable(va, pages, flags) then Wrote(m, Boundary)
    else if t in m && |m[t]| == 512 && InsideTable(va, FullCount(pages, flags)) && pages < 512 then
      Wrote(MapAll(m, t, va, phys, flags, pages), Ok)
    else Past
  }

  /** What a caller can check before the call. */
  ghost predicate WrittenMapWorks(m: Memory, root: nat, pages: Word, va: Word, flags: Word) {
    && !Wraps(pages, flags)
    && (!EndsBefore(va, FullCount(pages, flags)) || Traverse(m, root, va, flags, 3).status == Ok)
  }

  lemma EndsInside(va: Word, n: Word)
    requires EndsBefore(va, n)
    ensures InsideTable(va, n)
  {
  }

  lemma WrappedOutside(va: Word, pages: Word, flags: Word)
    requires SixteenBits(pages) && Wraps(pages, flags)
    ensures !InsideTable(va, FullCount(pages, flags))
  {
    CountedWrapped(pages, flags);
    hide FullCount, PtOffset;
  }

  lemma AsWrittenIs(m: Memory, root: nat, phys: Word, pages: Word, va: Word, flags: Word)
    ensures var t, w := Traverse(m, root, va, flags, 3).table, MapPagesAsWritten(m, root, phys, pages, va, flags);
      && (!InOneTable(va, pages, flags) ==> w == Wrote(m, Boundary))
      && (InOneTable(va, pages, flags) && !InsideTable(va, FullCount(pages, flags)) ==> w == Past)
      && (InOneTable(va, pages, flags) && InsideTable(va, FullCount(pages, flags))
          && t in m && |m[t]| == 512 && pages < 512 ==>
            w == Wrote(MapAll(m, t, va, phys, flags, pages), Ok))
  {
    hide InOneTable, InsideTable, FullCount, MapAll, Traverse;
  }

  /** Result and tables are the intended ones exactly when the count does not wrap, and the range fails the check or its
      page table is there and grants what is asked. */
  lemma MapPagesAsWrittenIff(m: Memory, root: nat, height: map<nat, nat>, phys: Word, pages: Word, va: Word,
          flags: Word)
    requires Tree(m, root, height) && Plain(m, root, va) && SixteenBits(pages)
    ensures var (n, status) := PagesMapped(m, root, phys, pages, va, flags);
      MapPagesAsWritten(m, root, phys, pages, va, flags) == Wrote(n, status) <==>
        WrittenMapWorks(m, root, pages, va, flags)
  {
    hide *;
    StopTable(m, root, height, va, flags);
    AsWrittenIs(m, root, phys, pages, va, flags);
    PagesMappedIs(m, root, phys, pages, va, flags);
    WrittenCheckIff(va, pages, flags);
    WorksIs(m, root, pages, va, flags);
    if Wraps(pages, flags) {
      WrappedOutside(va, pages, flags);
    } else if EndsBefore(va, FullCount(pages, flags)) {
      CountFits(pages, flags, va);
      EndsInside(va, FullCount(pages, flags));
    }
  }

  lemma WorksIs(m: Memory, root: nat, pages: Word, va: Word, flags: Word)
    ensures WrittenMapWorks(m, root, pages, va, flags) <==>
      !Wraps(pages, flags) && (!EndsBefore(va, FullCount(pages, flags)) || Traverse(m, root, va, flags, 3).status == Ok)
  {
    hide Wraps, EndsBefore, FullCount, Traverse;
  }

  // ----- writing a range into a table that is no page table

  /** Every entry but those of `t` is as before, and the one that `va` has in a page table is mapped. */
  ghost predicate FirstMapped(m: Memory, n: Memory, t: nat, va: Word, phys: Word, flags: Word) {
    && n.Keys == m.Keys
    && (forall u: nat, j: nat :: u != t ==> Entry(n, u, j) == Entry(m, u, j))
    && exists e: Word :: Entry(n, t, Index(va, 0)) == Mapped(e, phys, flags)
  }

  lemma {:induction false} RangeFirst(m: Memory, t: nat, va: Word, phys: Word, flags: Word, k: Word, end: Word)
    requires t in m && |m[t]| == 512 && EndsBefore(va, end) && Fits(k, end) && k != 0 && k < 512
    ensures FirstMapped(m, MapRange(m, t, va, phys, flags, k), t, va, phys, flags)
    decreases AsNumber(k)
  {
    hide *;
    FitsLess(k, end);
    FitsSmall(Less(k), end);
    RangeStep(m, t, va, phys, flags, k);
    if Less(k) == 0 {
      RangeNone(m, t, t, va, phys, flags);
      FirstPage(m, t, va, phys, flags);
      OneIs(k);
    } else {
      RangeFirst(m, t, va, phys, flags, Less(k), end);
      LaterPage(m, MapRange(m, t, va, phys, flags, Less(k)), t, va, phys, flags, flags, Less(k), end);
    }
  }

  lemma OneIs(k: Word)
    requires Less(k) == 0
    ensures k == 1
  {
  }

  lemma PageZero(va: Word)
    ensures Page(va, 0) == va
  {
  }

  lemma FirstPage(m: Memory, t: nat, va: Word, phys: Word, flags: Word)
    requires t in m && |m[t]| == 512
    ensures FirstMapped(m, MapOne(m, t, va, phys, flags, 0), t, va, phys, flags)
  {
    hide Index, Mapped, Page, MapOne, Entry, SetEntry;
    MapOneIs(m, t, va, phys, flags, 0);
    PageZero(va);
    PageZero(phys);
    var e := Mapped(Entry(m, t, Index(va, 0)), phys, flags);
    IndexBound(va, 0);
    SetOther(m, t, Index(va, 0), e);
  }

  lemma SetOther(m: Memory, t: nat, i: nat, e: Word)
    requires t in m && i < |m[t]|
    ensures SetEntry(m, t, i, e).Keys == m.Keys && Entry(SetEntry(m, t, i, e), t, i) == e
    ensures forall u: nat, j: nat :: u != t || j != i ==> Entry(SetEntry(m, t, i, e), u, j) == Entry(m, u, j)
  {
  }

  /** Page `k > 0` is mapped by another entry. */
  lemma LaterPage(m: Memory, o: Memory, t: nat, va: Word, phys: Word, flags: Word, other: Word, k: Word, end: Word)
    requires FirstMapped(m, o, t, va, phys, flags) && t in o && |o[t]| == 512
    requires EndsBefore(va, end) && Fits(k, end) && k != 0
    ensures FirstMapped(m, MapOne(o, t, va, phys, other, k), t, va, phys, flags)
  {
    hide Index, Mapped, Page, MapOne, Entry, SetEntry, EndsBefore, Less, AsNumber, Under, Fits;
    FitsSmall(k, end);
    PageIndex(va, end, k);
    FitsLess(k, end);
    MapOneIs(o, t, va, phys, other, k);
    SetOther(o, t, Index(Page(va, k), 0), Mapped(Entry(o, t, Index(Page(va, k), 0)), Page(phys, k), other));
  }

  lemma AllFirst(m: Memory, t: nat, va: Word, phys: Word, flags: Word, pages: Word)
    requires t in m && |m[t]| == 512 && SixteenBits(pages) && EndsBefore(va, FullCount(pages, flags)) && pages != 0
    ensures pages < 512 && FirstMapped(m, MapAll(m, t, va, phys, flags, pages), t, va, phys, flags)
  {
    hide *;
    var end := FullCount(pages, flags);
    CountFits(pages, flags, va);
    RangeFirst(m, t, va, phys, flags, pages, end);
    MapAllIs(m, t, va, phys, flags, pages);
    if Asks(flags, VM_WRITE_GUARD) {
      LaterPage(m, MapRange(m, t, va, phys, flags, pages), t, va, phys, flags, WithoutWrite(flags), pages, end);
    }
  }

  /** Entries of a table do not matter to the path above it. */
  lemma {:induction false} PathAbove(m: Memory, n: Memory, root: nat, height: map<nat, nat>, va: Word, t: nat, h: nat,
          k: nat)
    requires Tree(m, root, height) && h <= k <= 3 && TableAt(m, root, va, k).Some?
    requires t in height && height[t] == h && forall u: nat, j: nat :: u != t ==> Entry(n, u, j) == Entry(m, u, j)
    ensures TableAt(n, root, va, k) == TableAt(m, root, va, k)
    decreases 3 - k
  {
    hide Index, Links, TableOf, Entry, Tree;
    if k < 3 {
      PathAbove(m, n, root, height, va, t, h, k + 1);
      TableAtHeight(m, root, height, va, k + 1);
    }
  }

  /** With a page table missing, or refusing the access, a range of at least one page of plain memory is written over
      entries that should lead to tables: what is left is no tree of tables. */
  lemma MissingTableLosesTree(m: Memory, root: nat, height: map<nat, nat>, phys: Word, pages: Word, va: Word,
          flags: Word)
    requires Tree(m, root, height) && Plain(m, root, va) && SixteenBits(pages) && pages != 0 &&
             !Asks(flags, VM_HUGEPAGE)
    requires EndsBefore(va, FullCount(pages, flags)) && Traverse(m, root, va, flags, 3).status != Ok &&
             TableOf(phys) !in m
    ensures var w := MapPagesAsWritten(m, root, phys, pages, va, flags);
      w.Wrote? && w.status == Ok && forall height' :: !Tree(w.tables, root, height')
  {
    hide *;
    StopTable(m, root, height, va, flags);
    var s := Traverse(m, root, va, flags, 3);
    AsWrittenIs(m, root, phys, pages, va, flags);
    WrittenCheckIff(va, pages, flags);
    CountFits(pages, flags, va);
    NotWrapped(va, pages, flags);
    EndsInside(va, FullCount(pages, flags));
    AllFirst(m, s.table, va, phys, flags, pages);
    var n := MapAll(m, s.table, va, phys, flags, pages);
    FirstOthers(m, n, s.table, va, phys, flags);
    PathAbove(m, n, root, height, va, s.table, s.height, s.height);
    forall height' ensures !Tree(n, root, height') {
      if Tree(n, root, height') {
        TableAtHeight(n, root, height', va, s.height);
        LostLink(m, n, root, height', s.table, va, phys, flags);
      }
    }
  }

  lemma NotWrapped(va: Word, pages: Word, flags: Word)
    requires SixteenBits(pages) && EndsBefore(va, FullCount(pages, flags))
    ensures !Wraps(pages, flags)
  {
    if Wraps(pages, flags) {
      CountedWrapped(pages, flags);
      EndOfNone(va);
    }
    hide EndsBefore, FullCount;
  }

  lemma FirstOthers(m: Memory, n: Memory, t: nat, va: Word, phys: Word, flags: Word)
    requires FirstMapped(m, n, t, va, phys, flags)
    ensures forall u: nat, j: nat :: u != t ==> Entry(n, u, j) == Entry(m, u, j)
  {
    hide Index, Mapped, Entry;
  }

  lemma LinkedTable(n: Memory, root: nat, height: map<nat, nat>, t: nat, i: nat)
    requires Tree(n, root, height) && t in height && Links(Entry(n, t, i), height[t])
    ensures TableOf(Entry(n, t, i)) in n
  {
    hide TableOf, Entry, Links;
    assert TableOk(n, height, t);
    assert Below(n, height, t, i);
    assert TableOk(n, height, TableOf(Entry(n, t, i)));
  }

  lemma LostLink(m: Memory, n: Memory, root: nat, height: map<nat, nat>, t: nat, va: Word, phys: Word, flags: Word)
    requires FirstMapped(m, n, t, va, phys, flags) && t in height && height[t] > 0
    requires TableOf(phys) !in m && !Asks(flags, VM_HUGEPAGE)
    ensures !Tree(n, root, height)
  {
    hide Index, Mapped, Entry, TableOf, Present, Huge, Asks;
    var e: Word :| Entry(n, t, Index(va, 0)) == Mapped(e, phys, flags);
    MappedTable(e, phys, flags);
    if Tree(n, root, height) {
      LinkedTable(n, root, height, t, Index(va, 0));
    }
  }

  /** A root table with no entry at all. */
  function NoTables(root: nat): Memory {
    map[root := seq(512, _ => 0 as Word)]
  }

  /** Mapping one page through an empty root table, as written, succeeds and leaves a root that leads to the page. */
  lemma MapIntoNothing(phys: Word, va: Word)
    requires TableOf(phys) != 0 && EndsBefore(va, 1)
    ensures Tree(NoTables(0), 0, map[0 := 3]) && Plain(NoTables(0), 0, va)
    ensures var w := MapPagesAsWritten(NoTables(0), 0, phys, 1, va, 0);
      && w.Wrote? && w.status == Ok && (forall height' :: !Tree(w.tables, 0, height'))
      && PagesMapped(NoTables(0), 0, phys, 1, va, 0) == (NoTables(0), Unmapped)
  {
    var m := NoTables(0);
    EmptyRoot(va);
    EmptyTraverse(va);
    PlainFlags(va);
    hide *;
    PagesMappedIs(m, 0, phys, 1, va, 0);
    MissingTableLosesTree(m, 0, map[0 := 3], phys, 1, va, 0);
  }

  lemma PlainFlags(va: Word)
    requires EndsBefore(va, 1)
    ensures SixteenBits(1) && !Asks(0, VM_HUGEPAGE) && FullCount(1, 0) == 1
  {
  }

  lemma EmptyEntries(t: nat, i: nat)
    ensures Entry(NoTables(0), t, i) == 0 && !Present(0)
  {
  }

  lemma EmptyRoot(va: Word)
    ensures Tree(NoTables(0), 0, map[0 := 3]) && Plain(NoTables(0), 0, va)
  {
    forall t: nat, i: nat ensures Entry(NoTables(0), t, i) == 0 {
      EmptyEntries(t, i);
    }
    ZeroAbsent();
    hide Present, Huge, TableOf, Index;
  }

  lemma EmptyTraverse(va: Word)
    ensures Traverse(NoTables(0), 0, va, 0, 3) == Stop(0, 3, Unmapped) && 0 in NoTables(0) && |NoTables(0)[0]| == 512
  {
    EmptyEntries(0, Index(va, 3));
    hide Index, Present;
  }

  // ----- virt_to_phys

  const KERNEL_VMA: Word := 0xFFFF_FFFF_8000_0000

  /** virt_to_phys as written: the last step adds the offset to the kernel's own address of the frame, where the step
      for a huge page uses the physical one. */
  function VirtToPhysAsWritten(m: Memory, root: nat, va: Word): Word {
    var pml4e := Entry(m, root, Index(va, 3));
    if !Present(pml4e) then 0 else
    var pdpte := Entry(m, TableOf(pml4e), Index(va, 2));
    if !Present(pdpte) then 0 else
    var pdte := Entry(m, TableOf(pdpte), Index(va, 1));
    if !Present(pdte) then 0 else
    if Huge(pdte) then HugeAddressIn(pdte, va) else
    var pte := Entry(m, TableOf(pdte), Index(va, 0));
    if !Present(pte) then 0 else Plus(Plus(KERNEL_VMA, FrameOf(pte)), OffsetIn(va))
  }

  /** The four entries are there and the third does not map a huge page. */
  predicate MapsSmallPage(m: Memory, root: nat, va: Word) {
    var a := Entry(m, root, Index(va, 3));
    var b := Entry(m, TableOf(a), Index(va, 2));
    var c := Entry(m, TableOf(b), Index(va, 1));
    Present(a) && Present(b) && Present(c) && !Huge(c) && Present(Entry(m, TableOf(c), Index(va, 0)))
  }

  /** A table whose first entry is `e` and whose others are zero. */
  function OneEntry(e: Word): Table {
    [e] + seq(511, _ => 0 as Word)
  }

  /** Four tables on the way to the frame at 0x5000. */
  function OneMapping(): Memory {
    map[0x1000 := OneEntry(0x2001), 0x2000 := OneEntry(0x3001), 0x3000 := OneEntry(0x4001), 0x4000 := OneEntry(0x5001)]
  }

  lemma FirstEntries()
    ensures var m := OneMapping();
            && Entry(m, 0x1000, 0) == 0x2001 && Entry(m, 0x2000, 0) == 0x3001
            && Entry(m, 0x3000, 0) == 0x4001 && Entry(m, 0x4000, 0) == 0x5001
            && forall t :: t in m ==> |m[t]| == 512
  {
  }

  lemma TablesOfEntries()
    ensures TableOf(0x2001) == 0x2000 && TableOf(0x3001) == 0x3000 && TableOf(0x4001) == 0x4000
    ensures Present(0x2001) && Present(0x3001) && Present(0x4001) && Present(0x5001) && !Huge(0x4001)
    ensures AddressIn(0x5001, 0) == 0x5000
  {
  }

  lemma ZeroIndices()
    ensures Index(0, 0) == 0 && Index(0, 1) == 0 && Index(0, 2) == 0 && Index(0, 3) == 0
  {
  }

  /** An address for which the text is wrong. */
  lemma SmallPageMisplaced()
    ensures var m := OneMapping();
            && (forall t :: t in m ==> |m[t]| == 512)
            && MapsSmallPage(m, 0x1000, 0) && Translate(m, 0x1000, 0) == Some(0x5000)
            && VirtToPhysAsWritten(m, 0x1000, 0) != 0x5000
  {
    hide OneMapping, Entry, Index, TableOf, Present, Huge, AddressIn, HugeAddressIn, Translate, VirtToPhysAsWritten;
    FirstEntries();
    TablesOfEntries();
    ZeroIndices();
    FourWalks(OneMapping(), 0x1000, 0);
    VirtToPhysAsWrittenIff(OneMapping(), 0x1000, 0);
  }

  lemma KernelShift(e: Word, va: Word)
    ensures Plus(Plus(KERNEL_VMA, FrameOf(e)), OffsetIn(va)) != AddressIn(e, va)
  {
  }

  /** As written the function gives the physical address exactly when the address is on a huge page or not mapped. */
  lemma VirtToPhysAsWrittenIff(m: Memory, root: nat, va: Word)
    ensures VirtToPhysAsWritten(m, root, va) == OrNull(Translate(m, root, va)) <==> !MapsSmallPage(m, root, va)
  {
    FourWalks(m, root, va);
    var pdte := Entry(m, TableOf(Entry(m, TableOf(Entry(m, root, Index(va, 3))), Index(va, 2))), Index(va, 1));
    KernelShift(Entry(m, TableOf(pdte), Index(va, 0)), va);
    hide Translate, Plus, Entry, Index, TableOf, Present, Huge, AddressIn, HugeAddressIn, FrameOf, OffsetIn;
  }
}
