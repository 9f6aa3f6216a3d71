/** vm.c and mm.c: the page tables in memory, searched, grown and written entry by entry. */
module VirtualMemory {
  import opened Options
  import opened EntryBits
  import opened PageTables
  import opened PageMapping
  import opened PageRanges
  import opened Rights

  class AddressSpace {
    var tables: Memory

    constructor (tables: Memory)
      ensures this.tables == tables
    {
      this.tables := tables;
    }

    /** virt_to_phys, returning a physical address on both paths; 0 stands for an address that is not mapped. */
    method VirtToPhys(root: nat, va: Word) returns (r: Word)
      ensures r == OrNull(Translate(tables, root, va))
    {
      FourWalks(tables, root, va);
      var pml4e := Entry(tables, root, Index(va, 3));
      if !Present(pml4e) {
        return 0;
      }
      var pdpte := Entry(tables, TableOf(pml4e), Index(va, 2));
      if !Present(pdpte) {
        return 0;
      }
      var pdte := Entry(tables, TableOf(pdpte), Index(va, 1));
      if !Present(pdte) {
        return 0;
      }
      if Huge(pdte) {
        return HugeAddressIn(pdte, va);
      }
      var pte := Entry(tables, TableOf(pdte), Index(va, 0));
      if !Present(pte) {
        return 0;
      }
      return AddressIn(pte, va);
    }

    /** __traverse_with_status. */
    method TraverseWithStatus(root: nat, va: Word, flags: Word, depth: nat)
      returns (table: nat, height: nat, error: Status)
      requires depth <= 3
      ensures Stop(table, height, error) == Traverse(tables, root, va, flags, depth)
    {
      table, height, error := root, depth, Ok;
      while height > 0
        invariant height <= depth &&
                  Traverse(tables, table, va, flags, height) == Traverse(tables, root, va, flags, depth)
        invariant error == Ok
      {
        var entry := Entry(tables, table, Index(va, height));
        error := CheckStatus(entry, flags);
        if error != Ok {
          return;
        }
        table := TableOf(entry);
        height := height - 1;
      }
    }

    /** __map_phys_page. */
    method MapPhysPage(pt: nat, offset: nat, phys: Word, flags: Word)
      requires pt in tables && offset < |tables[pt]|
      modifies this
      ensures tables == SetEntry(old(tables), pt, offset, Mapped(Entry(old(tables), pt, offset), phys, flags))
    {
      tables := tables[pt := tables[pt][offset := Mapped(tables[pt][offset], phys, flags)]];
    }

    /** vm.c:195-200, where _alloc_page_tables returns `frame`. */
    method LinkTable(table: nat, va: Word, flags: Word, h: nat, frame: Word)
      requires table in tables && |tables[table]| == 512 && TableOf(frame) !in tables
      modifies this
      ensures tables == AddTable(old(tables), table, va, flags, h, frame)
    {
      IndexBound(va, h);
      tables := tables[TableOf(frame) := NewTable(flags)];
      MapPhysPage(table, Index(va, h), frame, flags);
    }

    /** The loop of __find_or_allocate_pt. */
    method GrowTables(top: nat, va: Word, flags: Word, levels: nat, frames: seq<Word>) returns (table: nat)
      requires top in tables && |tables[top]| == 512 && NewFrames(tables, frames, levels)
      modifies this
      ensures (tables, table) == Grow(old(tables), top, va, flags, levels, frames)
    {
      hide NewFrames, AddTable, TableOf;
      ghost var m := tables;
      table := top;
      var h, made := levels, 0;
      EnoughFrames(m, frames, levels);
      assert frames[0..] == frames;
      while h > 0
        invariant 0 <= made && h + made == levels <= |frames|
        invariant table in tables && |tables[table]| == 512 && NewFrames(tables, frames[made..], h)
        invariant Grow(tables, table, va, flags, h, frames[made..]) == Grow(m, top, va, flags, levels, frames)
      {
        ghost var rest := frames[made..];
        NewFrame(tables, rest, h);
        AddTableKeys(tables, table, va, flags, h, rest[0]);
        LessFrames(tables, AddTable(tables, table, va, flags, h, rest[0]), rest, h);
        assert rest[1..] == frames[made + 1..];
        LinkTable(table, va, flags, h, frames[made]);
        table := TableOf(frames[made]);
        h, made := h - 1, made + 1;
      }
    }

    /** __find_or_allocate_pt, where `frames` are what _alloc_page_tables would return. */
    method FindOrAllocatePt(root: nat, va: Word, flags: Word, frames: seq<Word>, ghost height: map<nat, nat>)
      returns (pt: Option<nat>, error: Status, made: nat)
      requires Tree(tables, root, height) && Plain(tables, root, va) && NewFrames(tables, frames, 3)
      modifies this
      ensures Found(tables, pt, error, made) == FindOrAllocate(old(tables), root, va, flags, frames)
      ensures pt.Some? ==> Traverse(tables, root, va, flags, 3) == Stop(pt.value, 0, Ok)
    {
      FindGrants(tables, root, height, va, flags, frames);
      RootOfPath(tables, root, va);
      TraverseOnPath(tables, root, va, flags, root, 3);
      hide NewFrames, Tree, Plain, Grow, Traverse;
      var table, h, status := TraverseWithStatus(root, va, flags, 3);
      TableAtHeight(tables, root, height, va, h);
      FewerFrames(tables, frames, h);
      if status == Unmapped {
        var made_pt := GrowTables(table, va, flags, h, frames);
        return Some(made_pt), Ok, h;
      } else if status != Ok {
        return None, status, 0;
      }
      return Some(table), Ok, 0;
    }

    /** __find_pt_or_null. */
    method FindPtOrNull(root: nat, va: Word) returns (pt: Option<nat>)
      requires Plain(tables, root, va)
      ensures pt == TableAt(tables, root, va, 0)
    {
      hide Index, TableOf, Entry, Present, Huge;
      var table, i := root, 0;
      while i < 3
        invariant 0 <= i <= 3 && TableAt(tables, root, va, 3 - i) == Some(table)
      {
        var entry := Entry(tables, table, Index(va, 3 - i));
        if !Present(entry) {
          PathEnds(tables, root, va, 2 - i);
          return None;
        }
        table := TableOf(entry);
        i := i + 1;
      }
      return Some(table);
    }

    /** The loop of vm_map_pages: page by page, from the entry of the first one on. */
    method MapLoop(pt: nat, phys: Word, pages: Word, va: Word, flags: Word, ghost end: Word)
      requires pt in tables && |tables[pt]| == 512 && EndsBefore(va, end) && Fits(pages, end)
      modifies this
      ensures pages < 512 && tables == MapRange(old(tables), pt, va, phys, flags, pages)
    {
      hide *;
      ghost var m := tables;
      var start, page: Word := Index(va, 0), 0;
      FitsSmall(pages, end);
      StartRange(m, pt, va, phys, flags, pages);
      while Under(page, pages)
        invariant AtMost(page, pages) && page < 512 && tables == MapRange(m, pt, va, phys, flags, page)
        decreases AsNumber(pages) - AsNumber(page)
      {
        NextPage(m, pt, va, phys, flags, page, pages, end);
        MapPhysPage(pt, start + AsNumber(page), Page(phys, page), flags);
        page := Next(page);
      }
      LastReached(page, pages);
    }

    /** vm_map_pages, counting the guard page in full and reporting what the traversal reports: the pages asked for and
        the guard page translate to consecutive frames, the guard page cannot be written, and nothing else changes. */
    method MapPages(root: nat, phys: Word, pages: Word, va: Word, flags: Word, ghost height: map<nat, nat>)
      returns (error: Status)
      requires Tree(tables, root, height) && Plain(tables, root, va) && SixteenBits(pages)
      modifies this
      ensures (tables, error) == PagesMapped(old(tables), root, phys, pages, va, flags)
      ensures Tree(tables, root, height) && SameMeta(old(tables), tables)
      ensures error == (if EndsBefore(va, FullCount(pages, flags))
                        then Traverse(old(tables), root, va, flags, 3).status else Boundary)
      ensures error != Ok ==> tables == old(tables)
      ensures error == Ok ==> RangeMapped(old(tables), tables, root, va, phys, FullCount(pages, flags))
      ensures error == Ok && Asks(flags, VM_WRITE_GUARD) ==>
        !Writable(Entry(tables, Traverse(old(tables), root, va, flags, 3).table, Index(Page(va, pages), 0)))
      ensures error == Ok ==> PagesHaveRights(tables, Traverse(old(tables), root, va, flags, 3).table, va, flags, pages)
    {
      hide *;
      ghost var m := tables;
      InOneTableIff(va, FullCount(pages, flags));
      PagesMappedIs(m, root, phys, pages, va, flags);
      PagesMappedKeeps(m, root, height, phys, pages, va, flags);
      if !PassesCheck(va, FullCount(pages, flags)) {
        return Boundary;
      }
      var pt, depth;
      pt, depth, error := TraverseWithStatus(root, va, flags, 3);
      if error != Ok {
        return;
      }
      StopTable(m, root, height, va, flags);
      CountFits(pages, flags, va);
      MapAllIs(m, pt, va, phys, flags, pages);
      MapLoop(pt, phys, pages, va, flags, FullCount(pages, flags));
      if Asks(flags, VM_WRITE_GUARD) {
        MapGuard(pt, phys, pages, va, flags);
      }
    }

    /** vm.c:265-271. */
    method MapGuard(pt: nat, phys: Word, pages: Word, va: Word, flags: Word)
      requires pt in tables && |tables[pt]| == 512 && EndsBefore(va, Next(pages)) && Fits(pages, Next(pages))
      modifies this
      ensures tables == MapOne(old(tables), pt, va, phys, WithoutWrite(flags), pages)
    {
      hide *;
      FitsSmall(pages, Next(pages));
      PageIndex(va, Next(pages), pages);
      MapOneIs(tables, pt, va, phys, WithoutWrite(flags), pages);
      MapPhysPage(pt, Index(va, 0) + AsNumber(pages), Page(phys, pages), WithoutWrite(flags));
    }
  }

  lemma GuardEntry(m: Memory, pt: nat, i: nat, phys: Word, flags: Word)
    requires pt in m && i < |m[pt]|
    ensures var e := Mapped(Entry(m, pt, i), phys, WithoutWrite(flags)); !Writable(Entry(SetEntry(m, pt, i, e), pt, i))
  {
    MappedFacts(Entry(m, pt, i), phys, WithoutWrite(flags));
    NoWrite(flags);
    hide Mapped, Writable, WithoutWrite, Asks;
  }

  lemma NoWrite(flags: Word)
    ensures !Asks(WithoutWrite(flags), VM_ALLOW_WRITE)
  {
  }

  /** The tables and the result that vm_map_pages is meant to have. */
  ghost function PagesMapped(m: Memory, root: nat, phys: Word, pages: Word, va: Word, flags: Word): (Memory, Status) {
    var s := Traverse(m, root, va, flags, 3);
    if !EndsBefore(va, FullCount(pages, flags)) then (m, Boundary)
    else if s.status != Ok then (m, s.status)
    else if s.table in m && |m[s.table]| == 512 && pages < 512 then (MapAll(m, s.table, va, phys, flags, pages), Ok)
    else (m, Ok)
  }

  lemma PagesMappedIs(m: Memory, root: nat, phys: Word, pages: Word, va: Word, flags: Word)
    ensures var s := Traverse(m, root, va, flags, 3);
      && (!EndsBefore(va, FullCount(pages, flags)) ==> PagesMapped(m, root, phys, pages, va, flags) == (m, Boundary))
      && (EndsBefore(va, FullCount(pages, flags)) && s.status != Ok ==>
            PagesMapped(m, root, phys, pages, va, flags) == (m, s.status))
      && (EndsBefore(va, FullCount(pages, flags)) && s.status == Ok
          && s.table in m && |m[s.table]| == 512 && pages < 512 ==>
            PagesMapped(m, root, phys, pages, va, flags) == (MapAll(m, s.table, va, phys, flags, pages), Ok))
  {
    hide EndsBefore, FullCount, MapAll, Traverse;
  }

  /** A full count that passed the check is the pages asked for, and one more with a guard page. */
  lemma CountFits(pages: Word, flags: Word, va: Word)
    requires SixteenBits(pages) && EndsBefore(va, FullCount(pages, flags))
    ensures FullCount(pages, flags) == if Asks(flags, VM_WRITE_GUARD) then Next(pages) else pages
    ensures Fits(pages, FullCount(pages, flags)) && Fits(FullCount(pages, flags), FullCount(pages, flags)) &&
            pages < 512
    ensures Less(Next(pages)) == pages && Next(pages) != 0
  {
    hide Asks, EndsBefore, Fits, SixteenBits, Next, Less;
    NoFullTable(va, FullCount(pages, flags));
    if Asks(flags, VM_WRITE_GUARD) {
      GuardedCount(pages);
    } else {
      PlainCount(pages);
    }
  }

  lemma GuardedCount(pages: Word)
    requires SixteenBits(pages) && pages + 1 < 512
    ensures Next(pages) == pages + 1 && Fits(pages, Next(pages)) && Fits(Next(pages), Next(pages)) && pages < 512
    ensures Less(Next(pages)) == pages && Next(pages) != 0
  {
  }

  lemma PlainCount(pages: Word)
    requires pages < 512
    ensures Fits(pages, pages) && Less(Next(pages)) == pages && Next(pages) != 0
  {
  }

  /** The traversal stops at a table of the tree. */
  lemma StopTable(m: Memory, root: nat, height: map<nat, nat>, va: Word, flags: Word)
    requires Tree(m, root, height) && Plain(m, root, va)
    ensures var s := Traverse(m, root, va, flags, 3);
      && s.height <= 3 && TableAt(m, root, va, s.height) == Some(s.table) && (s.status == Ok <==> s.height == 0)
      && s.table in height && height[s.table] == s.height && s.table in m && |m[s.table]| == 512
  {
    hide *;
    RootOfPath(m, root, va);
    TraverseOnPath(m, root, va, flags, root, 3);
    TableAtHeight(m, root, height, va, Traverse(m, root, va, flags, 3).height);
  }

  /** Every page has exactly the rights asked for, and the guard page those but the right to write. */
  ghost predicate PagesHaveRights(m: Memory, pt: nat, va: Word, flags: Word, pages: Word) {
    && RangeHasRights(m, pt, va, flags, pages)
    && (Asks(flags, VM_WRITE_GUARD) ==> HasRights(Entry(m, pt, Index(Page(va, pages), 0)), flags & !1))
  }

  lemma WithoutWriteIs(flags: Word)
    ensures WithoutWrite(flags) == flags & !1
  {
  }

  lemma PagesRightsIs(m: Memory, pt: nat, va: Word, flags: Word, pages: Word)
    requires RangeHasRights(m, pt, va, flags, pages)
    requires Asks(flags, VM_WRITE_GUARD) ==> HasRights(Entry(m, pt, Index(Page(va, pages), 0)), WithoutWrite(flags))
    ensures PagesHaveRights(m, pt, va, flags, pages)
  {
    hide RangeHasRights, Asks, HasRights, Entry, Index, Page, WithoutWrite;
    WithoutWriteIs(flags);
  }

  /** The range translates to consecutive frames, its guard page cannot be written, and nothing else changes; on an
      error nothing changes at all. */
  lemma PagesMappedKeeps(m: Memory, root: nat, height: map<nat, nat>, phys: Word, pages: Word, va: Word, flags: Word)
    requires Tree(m, root, height) && Plain(m, root, va) && SixteenBits(pages)
    ensures var (n, status) := PagesMapped(m, root, phys, pages, va, flags);
      && Tree(n, root, height) && SameMeta(m, n)
      && status == (if EndsBefore(va, FullCount(pages, flags))
                    then Traverse(m, root, va, flags, 3).status else Boundary)
      && (status != Ok ==> n == m)
      && (status == Ok ==> RangeMapped(m, n, root, va, phys, FullCount(pages, flags)))
      && (status == Ok && Asks(flags, VM_WRITE_GUARD) ==>
            !Writable(Entry(n, Traverse(m, root, va, flags, 3).table, Index(Page(va, pages), 0))))
      && (status == Ok ==> PagesHaveRights(n, Traverse(m, root, va, flags, 3).table, va, flags, pages))
  {
    hide *;
    PagesMappedIs(m, root, phys, pages, va, flags);
    StopTable(m, root, height, va, flags);
    SameOnce(m, root);
    var s := Traverse(m, root, va, flags, 3);
    if EndsBefore(va, FullCount(pages, flags)) && s.status == Ok {
      CountFits(pages, flags, va);
      MapAllKeeps(m, root, height, s.table, va, phys, flags, pages);
      MapAllRights(m, s.table, va, phys, flags, pages, FullCount(pages, flags));
      PagesRightsIs(PagesMapped(m, root, phys, pages, va, flags).0, s.table, va, flags, pages);
    }
  }

  lemma MapAllKeeps(m: Memory, root: nat, height: map<nat, nat>, pt: nat, va: Word, phys: Word, flags: Word,
          pages: Word)
    requires Tree(m, root, height) && TableAt(m, root, va, 0) == Some(pt) && SixteenBits(pages)
    requires EndsBefore(va, FullCount(pages, flags)) && pages < 512 && pt in m && |m[pt]| == 512
    ensures var n := MapAll(m, pt, va, phys, flags, pages);
      && Tree(n, root, height) && SameMeta(m, n) && RangeMapped(m, n, root, va, phys, FullCount(pages, flags))
      && (Asks(flags, VM_WRITE_GUARD) ==> !Writable(Entry(n, pt, Index(Page(va, pages), 0))))
  {
    hide *;
    var end := FullCount(pages, flags);
    CountFits(pages, flags, va);
    RangeKeeps(m, root, height, pt, va, phys, flags, end, pages);
    MapAllIs(m, pt, va, phys, flags, pages);
    if Asks(flags, VM_WRITE_GUARD) {
      var o := MapRange(m, pt, va, phys, flags, pages);
      RangeNext(m, o, root, height, pt, va, phys, WithoutWrite(flags), end, end);
      MapOneIs(o, pt, va, phys, WithoutWrite(flags), pages);
      GuardEntry(o, pt, Index(Page(va, pages), 0), Page(phys, pages), flags);
    }
  }

  lemma EnoughFrames(m: Memory, frames: seq<Word>, h: nat)
    requires NewFrames(m, frames, h)
    ensures h <= |frames|
  {
  }

  lemma {:induction false} PathEnds(m: Memory, root: nat, va: Word, h: nat)
    requires h <= 3 && TableAt(m, root, va, h) == None
    ensures TableAt(m, root, va, 0) == None
  {
    hide Index, TableOf, Entry, Links;
    if h > 0 {
      PathEnds(m, root, va, h - 1);
    }
  }

  lemma FourWalks(m: Memory, root: nat, va: Word)
    ensures Translate(m, root, va) ==
      var a := Entry(m, root, Index(va, 3));
      if !Present(a) then None else
      var b := Entry(m, TableOf(a), Index(va, 2));
      if !Present(b) then None else
      var c := Entry(m, TableOf(b), Index(va, 1));
      if !Present(c) then None else
      if Huge(c) then Some(HugeAddressIn(c, va)) else
      var d := Entry(m, TableOf(c), Index(va, 0));
      if !Present(d) then None else Some(AddressIn(d, va))
  {
    hide Entry, Index, TableOf, Present, Huge, AddressIn, HugeAddressIn;
  }

  function OrNull(p: Option<Word>): Word {
    match p
    case None => 0
    case Some(a) => a
  }

  lemma StartRange(m: Memory, pt: nat, va: Word, phys: Word, flags: Word, pages: Word)
    requires pt in m && |m[pt]| == 512 && pages < 512
    ensures AtMost(0, pages) && MapRange(m, pt, va, phys, flags, 0) == m
  {
  }

  /** One round of the loop. */
  lemma NextPage(m: Memory, pt: nat, va: Word, phys: Word, flags: Word, k: Word, pages: Word, end: Word)
    requires pt in m && |m[pt]| == 512 && AtMost(k, pages) && Under(k, pages) && Fits(pages, end) && EndsBefore(va, end)
    ensures AtMost(Next(k), pages) && k < 512 && Next(k) < 512 && AsNumber(k) < AsNumber(pages) &&
            AsNumber(Next(k)) == AsNumber(k) + 1
    ensures var n := MapRange(m, pt, va, phys, flags, k);
      && Index(va, 0) + AsNumber(k) == Index(Page(va, k), 0) < 512 && pt in n && |n[pt]| == 512
      && MapRange(m, pt, va, phys, flags, Next(k)) ==
         SetEntry(n, pt, Index(Page(va, k), 0), Mapped(Entry(n, pt, Index(Page(va, k), 0)), Page(phys, k), flags))
  {
    hide *;
    NextIs(k, pages);
    NumberOrder(k, pages);
    NextNumberIs(k);
    UnderFits(k, pages, end);
    FitsSmall(k, end);
    PageIndex(va, end, k);
    RangeStep(m, pt, va, phys, flags, Next(k));
    MapOneIs(MapRange(m, pt, va, phys, flags, k), pt, va, phys, flags, k);
  }
}
