/** The entries of a block bit by bit: rights, frames and allocation records. */
module BlockRights {
  import opened Options
  import opened EntryBits
  import opened PageTables
  import opened PageMapping
  import opened PageRanges
  import opened Rights
  import opened BlockBits
  import opened PageGrowth
  import opened BlockZone
  import opened BlockAlloc
  import opened BlockRuns

  // ----- allocating

  /** Exactly the rights that the flags ask for, the frame, bit 56 for memory from the early allocator, and bits 9 to 11
      as recorded. */
  predicate EntryIsRight(e: Word, frame: Word, flags: Word, record: Word) {
    && HasRights(e, flags) && e & 0x000F_FFFF_FFFF_F000 == frame & 0x000F_FFFF_FFFF_F000
    && (e & 0x100_0000_0000_0000 != 0 <==> flags & 0x10 != 0) && e & 0xE00 == record & 0xE00
  }

  lemma DataFlagBits(index: nat, size: nat, flags: Word)
    ensures var d := DataFlags(index, size, flags);
            OnlyData(d) && (d & 0x100_0000_0000_0000 != 0 <==> flags & 0x10 != 0)
  {
  }

  /** vm_pt_entry_create sets the rights and the frame, and no bit that is free for records. */
  lemma EntryForBits(phys: Word, flags: Word)
    ensures var e := EntryFor(phys, flags);
            && HasRights(e, flags) && e & 0x000F_FFFF_FFFF_F000 == phys & 0x000F_FFFF_FFFF_F000
            && e & 0x7FF0_0000_0000_0E00 == 0
  {
  }

  lemma FlagsKeepRights(e: Word, flags: Word, d: Word, first: Word)
    requires OnlyData(d) && HasRights(e, flags)
    ensures HasRights(WithFlags(e, d, first), flags)
  {
  }

  lemma FlagsKeepFrame(e: Word, d: Word, first: Word)
    requires OnlyData(d)
    ensures WithFlags(e, d, first) & 0x000F_FFFF_FFFF_F000 == e & 0x000F_FFFF_FFFF_F000
  {
  }

  lemma FlagsRecord(e: Word, d: Word, first: Word)
    requires OnlyData(d) && e & 0x7FF0_0000_0000_0E00 == 0
    ensures WithFlags(e, d, first) & 0x100_0000_0000_0000 == d & 0x100_0000_0000_0000
    ensures WithFlags(e, d, first) & 0xE00 == first & 0xE00
  {
  }

  lemma PartsAreRight(phys: Word, flags: Word, d: Word, first: Word)
    requires OnlyData(d) && (d & 0x100_0000_0000_0000 != 0 <==> flags & 0x10 != 0)
    ensures EntryIsRight(WithFlags(EntryFor(phys, flags), d, first), phys, flags, first)
  {
    hide EntryFor, HasRights, WithFlags, OnlyData;
    EntryForBits(phys, flags);
    var e := EntryFor(phys, flags);
    FlagsKeepRights(e, flags, d, first);
    FlagsKeepFrame(e, d, first);
    FlagsRecord(e, d, first);
  }

  /** What vm.c:528-532 writes for one page. */
  lemma BlockEntryRight(phys: Word, flags: Word, index: nat, size: nat, first: Word)
    ensures EntryIsRight(BlockEntry(phys, flags, index, size, first), phys, flags, first)
  {
    hide *;
    DataFlagBits(index, size, flags);
    PartsAreRight(phys, flags, DataFlags(index, size, flags), first);
    BlockEntryParts(phys, flags, index, size, first);
  }

  /** The frames of a block follow each other by pages. */
  lemma {:induction false} FramesFollow(phys: Word, k: Word)
    requires k < 512
    ensures PhysAt(phys, AsNumber(k)) == Page(phys, k)
    decreases AsNumber(k)
  {
    hide *;
    if k == 0 {
      FrameZero(phys);
    } else {
      LessIs(k);
      FramesFollow(phys, Less(k));
      PhysAtMore(phys, AsNumber(k));
      PageMore(phys, k);
    }
  }

  lemma FrameZero(phys: Word)
    ensures PhysAt(phys, AsNumber(0)) == Page(phys, 0)
  {
    ZeroNumber(0);
    PageIsBase(phys);
    hide AsNumber, Page;
  }

  lemma PageIsBase(phys: Word)
    ensures Page(phys, 0) == phys
  {
  }

  lemma PhysAtMore(phys: Word, k: nat)
    requires k > 0
    ensures PhysAt(phys, k) == Plus(PhysAt(phys, k - 1), 0x1000)
  {
    hide Plus;
  }

  function Shifted(k: Word): Word {
    k << 12
  }

  lemma ShiftMore(k: Word)
    ensures Shifted(k) == Plus(Shifted(Less(k)), 0x1000)
  {
  }

  lemma ShiftedIs(k: Word)
    ensures Shifted(k) == k << 12
  {
  }

  lemma PlusIs(a: Word, b: Word)
    ensures Plus(a, b) == a + b
  {
  }

  lemma PageIsPlus(phys: Word, k: Word)
    ensures Page(phys, k) == Plus(phys, k << 12)
  {
  }

  lemma PageIs(phys: Word, k: Word)
    ensures Page(phys, k) == Plus(phys, Shifted(k))
  {
    hide *;
    PageIsPlus(phys, k);
    ShiftedIs(k);
  }

  lemma PlusRegroup(a: Word, b: Word, c: Word)
    ensures Plus(a, b + c) == Plus(a + b, c)
  {
  }

  lemma PlusPlus(a: Word, b: Word, c: Word)
    ensures Plus(a, Plus(b, c)) == Plus(Plus(a, b), c)
  {
    hide *;
    PlusIs(a, b);
    PlusIs(b, c);
    PlusRegroup(a, b, c);
  }

  lemma PageMore(phys: Word, k: Word)
    ensures Page(phys, k) == Plus(Page(phys, Less(k)), 0x1000)
  {
    hide *;
    PageIs(phys, k);
    PageIs(phys, Less(k));
    ShiftMore(k);
    PlusPlus(phys, Shifted(Less(k)), 0x1000);
  }

  /** Bits 9 to 11 of the first entry of a block before it is allocated; a page table made for it has the record of its
      own allocation in its first entry. */
  function RecordOf(m: Memory, root: nat, z: ZoneInfo, c: nat, flags: Word): Word {
    match TableAt(m, root, Va(z, c), 0)
    case Some(pt) => Entry(m, pt, First(z, c))
    case None => if First(z, c) == 0 && flags & 0x10 != 0 then 0x800 else 0
  }

  /** Page `k` of the block is mapped to page `k` of the memory at `phys`, with the rights asked for and the record
      kept. */
  ghost predicate BlockHasRights(n: Memory, root: nat, z: ZoneInfo, c: nat, phys: Word, flags: Word, record: Word) {
    && TableAt(n, root, Va(z, c), 0).Some?
    && forall k: Word :: InPages(k, z) ==>
         EntryIsRight(Entry(n, TableAt(n, root, Va(z, c), 0).value, First(z, c) + AsNumber(k)), Page(phys, k), flags,
           record)
  }

  predicate InPages(k: Word, z: ZoneInfo) {
    k < z.pages
  }

  lemma PreparedRecord(e: Word, s: Word)
    requires BlockPages(s)
    ensures PreparedEntry(e, s) & 0xE00 == e & 0xE00
  {
  }

  predicate SameRecord(a: Word, b: Word) {
    a & 0xE00 == b & 0xE00
  }

  lemma RecordTransfers(e: Word, frame: Word, flags: Word, a: Word, b: Word)
    requires EntryIsRight(e, frame, flags, a) && SameRecord(a, b)
    ensures EntryIsRight(e, frame, flags, b)
  {
    hide HasRights;
  }

  lemma NewRecord(m: Memory, pt: nat, flags: Word, j: nat)
    requires pt in m && m[pt] == NewTable(flags) && j < 512
    ensures Entry(m, pt, j) == if j == 0 && flags & 0x10 != 0 then 0x800 else 0
  {
    NewTableBits(flags, j);
    hide NewTable;
  }

  lemma PreparedSame(e: Word, s: Word)
    requires BlockPages(s)
    ensures SameRecord(PreparedEntry(e, s), e)
  {
    PreparedRecord(e, s);
    hide PreparedEntry;
  }

  /** Finding or making the page table of the block leaves the record in its first entry as it was. */
  lemma FoundRecord(m: Memory, root: nat, height: map<nat, nat>, z: ZoneInfo, c: nat, flags: Word, frames: seq<Word>,
          pt: nat)
    requires Tree(m, root, height) && ZoneOk(z) && PlainOk(m, root, z) && InZone(z, c)
    requires NewFrames(m, frames, 3) && !Asks(flags, VM_HUGEPAGE)
    requires FindOrAllocate(m, root, Va(z, c), flags, frames).pt == Some(pt)
    requires TableAt(FindOrAllocate(m, root, Va(z, c), flags, frames).memory, root, Va(z, c), 0) == Some(pt)
    ensures SameRecord(Entry(FindPrepared(m, root, z, c, flags, frames), pt, First(z, c)),
            RecordOf(m, root, z, c, flags))
  {
    hide *;
    var f := FindOrAllocate(m, root, Va(z, c), flags, frames);
    var j := First(z, c);
    CellPlain(m, root, z, c);
    FindPaths(m, root, height, Va(z, c), flags, frames, Va(z, c));
    FoundNew(m, root, height, Va(z, c), flags, frames);
    FindPreparedCases(m, root, z, c, flags, frames);
    RunFits(z, c);
    ZonePages(z);
    if f.made > 0 {
      NoTableBefore(m, f.memory, root, height, Va(z, c), pt);
      NewTableBits(flags, 0);
      PrepareAt(f.memory, pt, z.pages, j);
      NewRecord(f.memory, pt, flags, j);
      PreparedSame(Entry(f.memory, pt, j), z.pages);
      RecordNone(m, root, z, c, flags);
    } else {
      RecordSome(m, root, z, c, flags, pt);
    }
    SelfRecord(Entry(f.memory, pt, j));
  }

  lemma CellPlain(m: Memory, root: nat, z: ZoneInfo, c: nat)
    requires PlainOk(m, root, z) && InZone(z, c)
    ensures Plain(m, root, Va(z, c))
  {
    hide Plain, Va;
  }

  lemma SelfRecord(e: Word)
    ensures SameRecord(e, e)
  {
  }

  lemma FindPreparedCases(m: Memory, root: nat, z: ZoneInfo, c: nat, flags: Word, frames: seq<Word>)
    requires NewFrames(m, frames, 3)
    ensures var f := FindOrAllocate(m, root, Va(z, c), flags, frames);
            && (f.made == 0 ==> FindPrepared(m, root, z, c, flags, frames) == f.memory)
            && (f.made > 0 && f.pt.Some? && f.pt.value in f.memory ==>
                  FindPrepared(m, root, z, c, flags, frames) == Prepare(f.memory, f.pt.value, z.pages))
  {
    hide FindOrAllocate, Prepare, Va, NewFrames;
  }

  lemma NoTableBefore(m: Memory, g: Memory, root: nat, height: map<nat, nat>, va: Word, pt: nat)
    requires Tree(m, root, height) && PathKept(m, g, root, va, va) && TableAt(g, root, va, 0) == Some(pt) && pt !in m
    ensures TableAt(m, root, va, 0) == None
  {
    if TableAt(m, root, va, 0).Some? {
      TableAtHeight(m, root, height, va, 0);
    }
    hide Tree, TableAt, SameTables;
  }

  lemma RecordNone(m: Memory, root: nat, z: ZoneInfo, c: nat, flags: Word)
    requires TableAt(m, root, Va(z, c), 0) == None
    ensures RecordOf(m, root, z, c, flags) == if First(z, c) == 0 && flags & 0x10 != 0 then 0x800 else 0
  {
    hide TableAt, Va, First, Entry;
  }

  lemma RecordSome(m: Memory, root: nat, z: ZoneInfo, c: nat, flags: Word, pt: nat)
    requires TableAt(m, root, Va(z, c), 0) == Some(pt)
    ensures RecordOf(m, root, z, c, flags) == Entry(m, pt, First(z, c))
  {
    hide TableAt, Va, First, Entry;
  }

  lemma EntryAt(phys: Word, flags: Word, n: nat, first: Word, k: nat)
    requires k < n
    ensures |BlockEntries(phys, flags, n, first)| == n
    ensures BlockEntries(phys, flags, n, first)[k] == BlockEntry(PhysAt(phys, k), flags, k, n, first)
  {
    hide BlockEntry, PhysAt;
  }

  lemma InPagesNumber(k: Word, z: ZoneInfo)
    requires InPages(k, z) && BlockPages(z.pages)
    ensures k < 512 && AsNumber(k) < Count(z)
  {
    SmallPages(k, z.pages);
    hide AsNumber, BlockPages;
    NumberOrder(k, z.pages);
  }

  lemma SmallPages(k: Word, s: Word)
    requires k < s && BlockPages(s)
    ensures Under(k, s) && AtMost(k, s) && k < 512
  {
  }

  /** A block that is allocated has the rights asked for on every page. */
  lemma AllocRights(m: Memory, root: nat, height: map<nat, nat>, z: ZoneInfo, st: ZoneState, phys: Word, flags: Word,
          frames: seq<Word>)
    requires ZoneInv(m, root, height, z, st) && CanAlloc(m, root, z, st, flags, frames)
    ensures BlockHasRights(AllocMemory(m, root, z, Cursor(st), phys, flags, frames), root, z, Cursor(st), phys, flags,
                           RecordOf(m, root, z, Cursor(st), flags))
  {
    hide *;
    var c := Cursor(st);
    CanAllocGives(m, root, z, st, flags, frames);
    InvGives(m, root, height, z, st);
    CellPlain(m, root, z, c);
    var height', pt := FindPreparedKeeps(m, root, height, z, c, flags, frames);
    FoundPath(m, root, height, z, c, flags, frames, pt);
    FoundRecord(m, root, height, z, c, flags, frames, pt);
    var g := FindPrepared(m, root, z, c, flags, frames);
    TableFound(g, root, height', z, c);
    HasTableGives(g, root, z, c);
    AllocMemoryIs(m, root, z, c, phys, flags, frames);
    TakeRights(g, root, height', z, c, phys, flags, RecordOf(m, root, z, c, flags));
  }

  lemma FoundPath(m: Memory, root: nat, height: map<nat, nat>, z: ZoneInfo, c: nat, flags: Word, frames: seq<Word>,
          pt: nat)
    requires Tree(m, root, height) && Plain(m, root, Va(z, c)) && NewFrames(m, frames, 3) && !Asks(flags, VM_HUGEPAGE)
    requires FindOrAllocate(m, root, Va(z, c), flags, frames).pt == Some(pt)
    ensures TableAt(FindOrAllocate(m, root, Va(z, c), flags, frames).memory, root, Va(z, c), 0) == Some(pt)
  {
    hide *;
    var height' := FindKeeps(m, root, height, Va(z, c), flags, frames);
  }

  lemma TakeRights(m: Memory, root: nat, height: map<nat, nat>, z: ZoneInfo, c: nat, phys: Word, flags: Word,
          record: Word)
    requires Tree(m, root, height) && ZoneOk(z) && PlainOk(m, root, z) && InZone(z, c) && HasTable(m, root, z, c)
    requires TableAt(m, root, Va(z, c), 0).Some? && TableAt(m, root, Va(z, c), 0).value in m
    requires |m[TableAt(m, root, Va(z, c), 0).value]| == 512 && First(z, c) + Count(z) <= 512
    requires SameRecord(Entry(m, TableAt(m, root, Va(z, c), 0).value, First(z, c)), record)
    ensures BlockHasRights(TakeMemory(m, root, z, c, phys, flags), root, z, c, phys, flags, record)
  {
    hide *;
    var pt := TableAt(m, root, Va(z, c), 0).value;
    var first := Entry(m, pt, First(z, c));
    var es := BlockEntries(phys, flags, Count(z), first);
    BlockEntriesAre(phys, flags, Count(z), first);
    TakeMemoryIs(m, root, z, c, phys, flags);
    WriteKeeps(m, root, height, z, c, es);
    ZonePages(z);
    var n := TakeMemory(m, root, z, c, phys, flags);
    forall k: Word | InPages(k, z)
      ensures EntryIsRight(Entry(n, pt, First(z, c) + AsNumber(k)), Page(phys, k), flags, record)
    {
      InPagesNumber(k, z);
      RunMember(First(z, c) + AsNumber(k), First(z, c), |es|);
      EntryAt(phys, flags, Count(z), first, AsNumber(k));
      FramesFollow(phys, k);
      BlockEntryRight(Page(phys, k), flags, AsNumber(k), Count(z), first);
      RecordTransfers(es[AsNumber(k)], Page(phys, k), flags, first, record);
    }
    RightsMade(n, root, z, c, phys, flags, record, pt);
  }

  lemma RightsMade(n: Memory, root: nat, z: ZoneInfo, c: nat, phys: Word, flags: Word, record: Word, pt: nat)
    requires TableAt(n, root, Va(z, c), 0) == Some(pt)
    requires forall k: Word :: InPages(k, z) ==>
             EntryIsRight(Entry(n, pt, First(z, c) + AsNumber(k)), Page(phys, k), flags, record)
    ensures BlockHasRights(n, root, z, c, phys, flags, record)
  {
    hide TableAt, Va, InPages, EntryIsRight, Entry, First, AsNumber, Page;
  }

  // ----- freeing

  /** Freeing changes the address bits, bit 58 and bit 0 of the first entry of a block, and bit 0 of the others. */
  ghost predicate RecordsKept(m: Memory, n: Memory, root: nat, z: ZoneInfo, i: nat) {
    && TableAt(m, root, Va(z, i), 0).Some?
    && var pt := TableAt(m, root, Va(z, i), 0).value;
    && FirstKept(Entry(m, pt, First(z, i)), Entry(n, pt, First(z, i)))
    && forall j: nat :: InRun(j, First(z, i), Count(z)) && j != First(z, i) ==>
         OtherKept(Entry(m, pt, j), Entry(n, pt, j))
  }

  predicate FirstKept(was: Word, now: Word) {
    now & 0xFBF0_0000_0000_0FFE == was & 0xFBF0_0000_0000_0FFE
  }

  predicate OtherKept(was: Word, now: Word) {
    now == was & 0xFFFF_FFFF_FFFF_FFFE
  }

  lemma DistanceKept(e: Word, d: Word)
    requires FrameOf(d) == d
    ensures FirstKept(e, WithDistance(e, d))
  {
  }

  lemma SignSet(e: Word)
    ensures FirstKept(e, e | 0x400_0000_0000_0000)
  {
  }

  lemma SignCleared(e: Word)
    ensures FirstKept(e, e & !0x400_0000_0000_0000)
  {
  }

  lemma SignKept(e: Word, back: bool)
    ensures FirstKept(e, WithSign(e, back))
  {
    hide FirstKept;
    SignSet(e);
    SignCleared(e);
  }

  lemma BitKept(e: Word)
    ensures FirstKept(e, Cleared(e))
  {
  }

  lemma KeptTwice(a: Word, b: Word, c: Word)
    requires FirstKept(a, b) && FirstKept(b, c)
    ensures FirstKept(a, c)
  {
  }

  lemma LinkedKept(e: Word, d: Word, back: bool)
    requires FrameOf(d) == d
    ensures FirstKept(e, Cleared(WithSign(WithDistance(e, d), back)))
  {
    hide *;
    var a := WithDistance(e, d);
    var b := WithSign(a, back);
    DistanceKept(e, d);
    SignKept(a, back);
    BitKept(b);
    KeptTwice(e, a, b);
    KeptTwice(e, b, Cleared(b));
  }

  lemma ClearedKept(e: Word)
    ensures OtherKept(e, Cleared(e))
  {
  }

  lemma FreeEntryKept(e: Word, at: nat, next: nat)
    requires EntryHolds(Distance(at, next)) && Distance(at, next) < 0x1_0000_0000_0000_0000
    ensures FirstKept(e, FreeEntry(e, at, next))
  {
    hide *;
    HoldsGives(Distance(at, next));
    FreeEntryIs(e, at, next);
    LinkedKept(e, AsWord(Distance(at, next)), next < at);
  }

  /** A block that is freed keeps the allocation records in its entries. */
  lemma FreeRecords(m: Memory, root: nat, height: map<nat, nat>, z: ZoneInfo, st: ZoneState, i: nat)
    requires ZoneInv(m, root, height, z, st) && Live(st, i)
    ensures CanFree(m, root, z, st, i) && RecordsKept(m, FreeMemory(m, root, z, st, i), root, z, i)
  {
    hide *;
    InvGives(m, root, height, z, st);
    PlacedGives(m, root, z, st, i);
    LiveCanFree(m, root, height, z, st, i);
    CanFreeGives(m, root, z, st, i);
    CursorInZone(z, st);
    StateLimit(z, st, i);
    DistanceHeld(z, i, Cursor(st));
    var pt := TableAt(m, root, Va(z, i), 0).value;
    var es := FreeEntries(m, pt, z, i, Cursor(st));
    FreeEntriesAt(m, pt, z, i, Cursor(st));
    FreeMemoryIs(m, root, z, st, i);
    WriteRunIs(m, pt, First(z, i), es);
    FreeEntryKept(Entry(m, pt, First(z, i)), Addr(z, i), Addr(z, Cursor(st)));
    var n := FreeMemory(m, root, z, st, i);
    RunMember(First(z, i), First(z, i), |es|);
    forall j: nat | InRun(j, First(z, i), Count(z)) && j != First(z, i)
      ensures OtherKept(Entry(m, pt, j), Entry(n, pt, j))
    {
      RunMember(j, First(z, i), Count(z));
      ClearedKept(Entry(m, pt, j));
    }
    RecordsMade(m, n, root, z, i, pt);
  }

  lemma RecordsMade(m: Memory, n: Memory, root: nat, z: ZoneInfo, i: nat, pt: nat)
    requires TableAt(m, root, Va(z, i), 0) == Some(pt) &&
             FirstKept(Entry(m, pt, First(z, i)), Entry(n, pt, First(z, i)))
    requires forall j: nat :: InRun(j, First(z, i), Count(z)) && j != First(z, i) ==>
             OtherKept(Entry(m, pt, j), Entry(n, pt, j))
    ensures RecordsKept(m, n, root, z, i)
  {
    hide TableAt, Va, FirstKept, OtherKept, Entry, First, Count, InRun;
  }
}
