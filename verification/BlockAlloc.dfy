/** vm_alloc_block: the block at the cursor, its page table made and prepared if need be, and its pages mapped. */
module BlockAlloc {
  import opened Options
  import opened Arithmetic
  import opened EntryBits
  import opened PageTables
  import opened PageMapping
  import opened PageRanges
  import opened BlockBits
  import opened PageGrowth
  import opened BlockZone

  // ----- preparing a new page table

  /** The loop that starts at 0 and goes on by `n` visits `i`. */
  predicate Visits(n: nat, i: nat)
    decreases i
  {
    n > 0 && (i == 0 || (i >= n && Visits(n, i - n)))
  }

  lemma UnitBack(x: Word, s: Word)
    requires BlockPages(s) && UnitAligned(x, s) && x < 512 && x != 0
    ensures UnitAligned(x - s, s)
    ensures x - s < 512 && Small(x - s, s) && Sum(x - s, s) == x
  {
  }

  lemma {:induction false} UnitVisited(x: Word, s: Word)
    requires BlockPages(s) && UnitAligned(x, s) && x < 512 && AsNumber(s) > 0
    ensures Visits(AsNumber(s), AsNumber(x))
    decreases AsNumber(x)
  {
    ZeroNumber(0);
    if x != 0 {
      UnitBack(x, s);
      SumNumber(x - s, s);
      hide AsNumber, BlockPages, UnitAligned;
      UnitVisited(x - s, s);
    }
  }

  lemma ZonePages(z: ZoneInfo)
    requires ZoneOk(z)
    ensures BlockPages(z.pages)
  {
    hide BlockPages;
  }

  lemma ZoneAligned(z: ZoneInfo, i: nat)
    requires ZoneOk(z) && InZone(z, i)
    ensures BlockAligned(Va(z, i), z.pages)
  {
    hide BlockPages, BlockAligned, Va;
  }

  /** Every block of the zone begins at an entry that the loop visits. */
  lemma FirstVisited(z: ZoneInfo, i: nat)
    requires ZoneOk(z) && InZone(z, i)
    ensures Visits(Count(z), First(z, i))
  {
    hide *;
    RunFits(z, i);
    ZonePages(z);
    ZoneAligned(z, i);
    FirstIs(z, i);
    AlignedOffset(Va(z, i), z.pages);
    OffsetBounds(Va(z, i));
    FourIndices(Va(z, i));
    UnitVisited(PtOffset(Va(z, i)), z.pages);
  }

  /** _prepare_block_pt. */
  function PreparedTable(t: Table, s: Word): Table {
    seq(|t|, i requires 0 <= i < |t| => if Visits(AsNumber(s), i) then PreparedEntry(t[i], s) else t[i])
  }

  function Prepare(m: Memory, pt: nat, s: Word): Memory
    requires pt in m
  {
    m[pt := PreparedTable(m[pt], s)]
  }

  /** Preparing writes only to the table, and maps nothing. */
  lemma PrepareIs(m: Memory, pt: nat, s: Word)
    requires pt in m && |m[pt]| == 512 && AllUntouched(m, pt) && BlockPages(s)
    ensures OnlyEntries(m, Prepare(m, pt, s), pt, Run(0, 512))
    ensures forall j: nat :: !Present(Entry(Prepare(m, pt, s), pt, j)) && !Present(Entry(m, pt, j))
    ensures forall j: nat :: j < 512 && Visits(AsNumber(s), j) ==>
      Untouched(Entry(m, pt, j)) && Entry(Prepare(m, pt, s), pt, j) == PreparedEntry(Entry(m, pt, j), s)
  {
    hide *;
    var n := Prepare(m, pt, s);
    PrepareOnly(m, pt, s);
    forall j: nat
      ensures !Present(Entry(n, pt, j)) && !Present(Entry(m, pt, j))
      ensures j < 512 && Visits(AsNumber(s), j) ==>
        Untouched(Entry(m, pt, j)) && Entry(n, pt, j) == PreparedEntry(Entry(m, pt, j), s)
    {
      UntouchedAt(m, pt, j);
      UntouchedPlain(Entry(m, pt, j));
      PreparedIs(Entry(m, pt, j), s);
      PrepareAt(m, pt, s, j);
    }
  }

  lemma UntouchedAt(m: Memory, pt: nat, j: nat)
    requires AllUntouched(m, pt)
    ensures Untouched(Entry(m, pt, j))
  {
  }

  lemma PrepareAt(m: Memory, pt: nat, s: Word, j: nat)
    requires pt in m && |m[pt]| == 512
    ensures Entry(Prepare(m, pt, s), pt, j) ==
      if j < 512 && Visits(AsNumber(s), j) then PreparedEntry(Entry(m, pt, j), s) else Entry(m, pt, j)
  {
    hide AsNumber, Visits, PreparedEntry;
  }

  lemma PrepareOnly(m: Memory, pt: nat, s: Word)
    requires pt in m && |m[pt]| == 512
    ensures OnlyEntries(m, Prepare(m, pt, s), pt, Run(0, 512))
  {
    var n := Prepare(m, pt, s);
    assert |n[pt]| == 512;
    hide PreparedTable;
    forall t: nat, j: nat | t != pt || j !in Run(0, 512)
      ensures Entry(n, t, j) == Entry(m, t, j)
    {
      RunMember(j, 0, 512);
    }
  }

  lemma PrepareTranslates(m: Memory, root: nat, height: map<nat, nat>, pt: nat, s: Word)
    requires Tree(m, root, height) && pt in height && height[pt] == 0 && pt in m && |m[pt]| == 512
    requires AllUntouched(m, pt) && BlockPages(s)
    ensures SameTranslation(m, Prepare(m, pt, s), root)
  {
    PrepareIs(m, pt, s);
    hide Tree, Prepare, Translate, TableAt, Entry, Present, Meaning, Index, AllUntouched, BlockPages, OnlyEntries,
         AsNumber, Visits, Run;
    var n := Prepare(m, pt, s);
    forall b
      ensures Translate(n, root, b) == Translate(m, root, b)
    {
      RunTranslates(m, n, root, height, pt, Run(0, 512), b);
      if TableAt(m, root, b, 0) == Some(pt) {
        SamePageTranslates(m, root, b, b, pt);
        AbsentMeans(Entry(m, pt, Index(b, 0)), b);
        AbsentMeans(Entry(n, pt, Index(b, 0)), b);
      }
    }
  }

  // ----- finding the block

  /** vm.c:514-518. */
  ghost function FindPrepared(m: Memory, root: nat, z: ZoneInfo, c: nat, flags: Word, frames: seq<Word>): Memory
    requires NewFrames(m, frames, 3)
  {
    var f := FindOrAllocate(m, root, Va(z, c), flags, frames);
    if f.made > 0 && f.pt.Some? && f.pt.value in f.memory then Prepare(f.memory, f.pt.value, z.pages) else f.memory
  }

  /** A block whose page table is made now leads to the next one. */
  lemma NewTableBlock(m: Memory, z: ZoneInfo, i: nat, pt: nat)
    requires pt in m && |m[pt]| == 512 && AllUntouched(m, pt) && ZoneOk(z) && InZone(z, i)
    ensures LeadsTo(Prepare(m, pt, z.pages), pt, z, i, i + 1)
  {
    hide *;
    ZonePages(z);
    PrepareIs(m, pt, z.pages);
    FirstVisited(z, i);
    RunFits(z, i);
    FirstIs(z, i);
    PreparedLeads(Entry(m, pt, First(z, i)), Addr(z, i), z.pages);
    NextAddr(z, i);
    LeadsIs(Prepare(m, pt, z.pages), pt, z, i, i + 1);
  }

  lemma NextAddr(z: ZoneInfo, i: nat)
    ensures Addr(z, i + 1) == Addr(z, i) + AsNumber(Bytes(z.pages))
  {
    TimesNext(i, AsNumber(Bytes(z.pages)));
    hide AsNumber, Bytes;
  }

  lemma LeadsIs(m: Memory, pt: nat, z: ZoneInfo, i: nat, next: nat)
    requires NextFree(Entry(m, pt, First(z, i)), Addr(z, i)) == Addr(z, next) && forall j: nat ::
             !Present(Entry(m, pt, j))
    ensures LeadsTo(m, pt, z, i, next)
  {
    hide Entry, First, Addr, Present, NextFree;
  }

  lemma TableIsOld(m: Memory, root: nat, height: map<nat, nat>, z: ZoneInfo, i: nat)
    requires Tree(m, root, height) && TableAt(m, root, Va(z, i), 0).Some?
    ensures var u := TableAt(m, root, Va(z, i), 0).value; u in m && u in height && height[u] == 0
  {
    TableAtHeight(m, root, height, Va(z, i), 0);
    hide *;
  }

  /** Blocks stay what they were while the page table of block `c` is found or made. */
  lemma BlockAfterFind(m: Memory, g: Memory, n: Memory, root: nat, height: map<nat, nat>, z: ZoneInfo, c: nat, pt: nat,
          i: nat)
    requires Tree(m, root, height) && ZoneOk(z) && InZone(z, i) && InZone(z, c)
    requires PathKept(m, g, root, Va(z, c), Va(z, i)) && SameLeaves(m, g, height) && pt !in m &&
             TableAt(g, root, Va(z, c), 0) == Some(pt)
    requires TableAt(n, root, Va(z, i), 0) == TableAt(g, root, Va(z, i), 0) && OnlyEntries(g, n, pt, Run(0, 512))
    requires LeadsTo(n, pt, z, i, i + 1)
    ensures forall x: nat :: FreeBlock(m, root, z, i, x) ==> FreeBlock(n, root, z, i, x)
    ensures NewBlock(m, root, z, i) ==> NewBlock(n, root, z, i)
    ensures LiveBlock(m, root, z, i) ==> LiveBlock(n, root, z, i)
  {
    hide Tree, TableAt, ZoneOk, Va, Entry, LeadsTo, Run, FullRun;
    if TableAt(m, root, Va(z, i), 0).Some? {
      TableIsOld(m, root, height, z, i);
      RunFits(z, i);
      SameBlockFacts(m, n, root, z, i);
    } else if TableAt(g, root, Va(z, i), 0).Some? {
      PathSameTables(g, root, Va(z, i), Va(z, c));
    }
  }

  /** All blocks are in place. */
  ghost predicate Placed(m: Memory, root: nat, z: ZoneInfo, st: ZoneState) {
    FreedOk(m, root, z, st) && NewOk(m, root, z, st) && LiveOk(m, root, z, st)
  }

  /** No block of the zone is worse off in `n`. */
  ghost predicate BlocksKept(m: Memory, n: Memory, root: nat, z: ZoneInfo) {
    forall i: nat :: InZone(z, i) ==> BlockKept(m, n, root, z, i)
  }

  ghost predicate BlockKept(m: Memory, n: Memory, root: nat, z: ZoneInfo, i: nat) {
    && (forall x: nat :: FreeBlock(m, root, z, i, x) ==> FreeBlock(n, root, z, i, x))
    && (NewBlock(m, root, z, i) ==> NewBlock(n, root, z, i))
    && (LiveBlock(m, root, z, i) ==> LiveBlock(n, root, z, i))
  }

  lemma KeptPlaced(m: Memory, n: Memory, root: nat, z: ZoneInfo, st: ZoneState)
    requires StateOk(z, st) && Placed(m, root, z, st) && BlocksKept(m, n, root, z)
    ensures Placed(n, root, z, st)
  {
    hide FreeBlock, NewBlock, LiveBlock;
    forall k: nat | k < |st.freed|
      ensures FreeBlock(n, root, z, st.freed[k], Following(st, k))
    {
      assert st.freed[k] in st.freed;
      assert BlockKept(m, n, root, z, st.freed[k]);
    }
    forall i: nat | st.used <= i && InZone(z, i)
      ensures NewBlock(n, root, z, i)
    {
      assert BlockKept(m, n, root, z, i);
    }
    forall i: nat | Live(st, i)
      ensures LiveBlock(n, root, z, i)
    {
      assert BlockKept(m, n, root, z, i);
    }
  }

  /** Making the page table of block `c` keeps every block. */
  lemma PreparedKeeps(m: Memory, g: Memory, root: nat, height: map<nat, nat>, height': map<nat, nat>, z: ZoneInfo,
          c: nat, pt: nat)
    requires Tree(m, root, height) && Tree(g, root, height') && ZoneOk(z) && InZone(z, c) && PlainOk(g, root, z)
    requires forall i: nat :: InZone(z, i) ==> PathKept(m, g, root, Va(z, c), Va(z, i))
    requires SameLeaves(m, g, height) && pt !in m && TableAt(g, root, Va(z, c), 0) == Some(pt) && AllUntouched(g, pt)
    ensures pt in g && |g[pt]| == 512
    ensures var n := Prepare(g, pt, z.pages);
      && BlocksKept(m, n, root, z) && Tree(n, root, height') && PlainOk(n, root, z) && SameTranslation(g, n, root)
      && TableAt(n, root, Va(z, c), 0) == Some(pt)
  {
    hide Tree, TableAt, ZoneOk, Va, Entry, LeadsTo, Run, FreeBlock, NewBlock, LiveBlock, PathKept, SameLeaves,
         AllUntouched, Prepare,
         SameTranslation, OnlyEntries, Present, Visits, AsNumber, Untouched, PreparedEntry, Plain;
    TableAtHeight(g, root, height', Va(z, c), 0);
    ZonePages(z);
    PrepareOnly(g, pt, z.pages);
    PrepareTranslates(g, root, height', pt, z.pages);
    var n := Prepare(g, pt, z.pages);
    EntriesTree(g, n, root, height', pt, Run(0, 512));
    forall i: nat | InZone(z, i)
      ensures BlockKept(m, n, root, z, i) && Plain(n, root, Va(z, i))
    {
      EntriesPath(g, n, root, height', pt, Run(0, 512), Va(z, i), 0);
      EntriesPlain(g, n, root, height', pt, Run(0, 512), Va(z, i));
      NewTableBlock(g, z, i, pt);
      BlockAfterFind(m, g, n, root, height, z, c, pt, i);
    }
    EntriesPath(g, n, root, height', pt, Run(0, 512), Va(z, c), 0);
  }

  lemma SameKept(m: Memory, root: nat, z: ZoneInfo)
    ensures BlocksKept(m, m, root, z)
  {
    hide FreeBlock, NewBlock, LiveBlock;
  }

  /** After vm.c:514-518 the page table of the block at the cursor is there, and every block is what it was. */
  lemma FindPreparedKeeps(m: Memory, root: nat, height: map<nat, nat>, z: ZoneInfo, c: nat, flags: Word,
          frames: seq<Word>)
    returns (height': map<nat, nat>, pt: nat)
    requires Tree(m, root, height) && ZoneOk(z) && PlainOk(m, root, z) && InZone(z, c)
    requires NewFrames(m, frames, 3) && !Asks(flags, VM_HUGEPAGE) &&
             Traverse(m, root, Va(z, c), flags, 3).status != Privilege
    ensures var n := FindPrepared(m, root, z, c, flags, frames);
      && Tree(n, root, height') && PlainOk(n, root, z) && BlocksKept(m, n, root, z) && SameTranslation(m, n, root)
      && TableAt(n, root, Va(z, c), 0) == Some(pt)
    ensures FindOrAllocate(m, root, Va(z, c), flags, frames).pt == Some(pt)
  {
    hide Tree, TableAt, ZoneOk, Va, BlocksKept, PathKept, SameLeaves, AllUntouched, Prepare, SameTranslation, SameMeta,
         Plain, NewFrames,
         Asks, Traverse, FindOrAllocate;
    assert Plain(m, root, Va(z, c));
    height' := FindKeeps(m, root, height, Va(z, c), flags, frames);
    var f := FindOrAllocate(m, root, Va(z, c), flags, frames);
    pt := f.pt.value;
    FindPaths(m, root, height, Va(z, c), flags, frames, Va(z, c));
    forall i: nat | InZone(z, i)
      ensures PathKept(m, f.memory, root, Va(z, c), Va(z, i)) && Plain(f.memory, root, Va(z, i))
    {
      FindPaths(m, root, height, Va(z, c), flags, frames, Va(z, i));
      FindPlain(m, root, height, Va(z, c), flags, frames, Va(z, i));
    }
    if f.made > 0 {
      PreparedKeeps(m, f.memory, root, height, height', z, c, pt);
      SameTranslationTwice(m, f.memory, Prepare(f.memory, pt, z.pages), root);
    } else {
      SameKept(m, root, z);
    }
  }

  lemma SameTranslationTwice(m: Memory, g: Memory, n: Memory, root: nat)
    requires SameTranslation(m, g, root) && SameTranslation(g, n, root)
    ensures SameTranslation(m, n, root)
  {
    hide Translate;
    forall b
      ensures Translate(n, root, b) == Translate(m, root, b)
    {
      assert Translate(g, root, b) == Translate(m, root, b);
    }
  }

  // ----- taking the block

  function Popped(st: ZoneState): ZoneState {
    if st.freed == [] then st.(used := st.used + 1) else st.(freed := st.freed[1..])
  }

  /** Frame `k` of a physically contiguous block. */
  function PhysAt(phys: Word, k: nat): Word {
    if k == 0 then phys else Plus(PhysAt(phys, k - 1), 0x1000)
  }

  /** vm.c:527-534. */
  function BlockEntries(phys: Word, flags: Word, n: nat, first: Word): seq<Word> {
    seq(n, k requires 0 <= k < n => BlockEntry(PhysAt(phys, k), flags, k, n, first))
  }

  lemma BlockEntriesAre(phys: Word, flags: Word, n: nat, first: Word)
    ensures var es := BlockEntries(phys, flags, n, first);
      |es| == n && forall k :: 0 <= k < n ==> Present(es[k]) && FrameOf(es[k]) == FrameOf(PhysAt(phys, k))
  {
    var es := BlockEntries(phys, flags, n, first);
    hide BlockEntry, PhysAt, Present, FrameOf;
    forall k | 0 <= k < n
      ensures Present(es[k]) && FrameOf(es[k]) == FrameOf(PhysAt(phys, k))
    {
      BlockEntryPresent(PhysAt(phys, k), flags, k, n, first);
    }
  }

  lemma BlockEntryPresent(phys: Word, flags: Word, k: nat, n: nat, first: Word)
    ensures Present(BlockEntry(phys, flags, k, n, first)) &&
            FrameOf(BlockEntry(phys, flags, k, n, first)) == FrameOf(phys)
  {
    BlockEntryIs(phys, flags, k, n, first);
    hide *;
  }

  /** The page table of block `c` and room for its entries. */
  ghost predicate HasTable(m: Memory, root: nat, z: ZoneInfo, c: nat) {
    && TableAt(m, root, Va(z, c), 0).Some? && TableAt(m, root, Va(z, c), 0).value in m
    && |m[TableAt(m, root, Va(z, c), 0).value]| == 512 && First(z, c) + Count(z) <= 512 && Count(z) > 0
  }

  /** vm.c:520-534 once the page table is found. */
  function TakeMemory(m: Memory, root: nat, z: ZoneInfo, c: nat, phys: Word, flags: Word): Memory
    requires TableAt(m, root, Va(z, c), 0).Some? && TableAt(m, root, Va(z, c), 0).value in m
    requires |m[TableAt(m, root, Va(z, c), 0).value]| == 512 && First(z, c) + Count(z) <= 512
  {
    var pt := TableAt(m, root, Va(z, c), 0).value;
    WriteRun(m, pt, First(z, c), BlockEntries(phys, flags, Count(z), Entry(m, pt, First(z, c))))
  }

  /** The cursor that vm_alloc_block reads from the entry of the block. */
  function NextCursor(m: Memory, root: nat, z: ZoneInfo, c: nat): int
    requires TableAt(m, root, Va(z, c), 0).Some?
  {
    NextFree(Entry(m, TableAt(m, root, Va(z, c), 0).value, First(z, c)), Addr(z, c))
  }

  /** The block at the cursor is live afterwards and was not before. */
  lemma PoppedState(z: ZoneInfo, st: ZoneState)
    requires StateOk(z, st) && InZone(z, Cursor(st))
    ensures !Live(st, Cursor(st)) && Live(Popped(st), Cursor(st)) && StateOk(z, Popped(st))
  {
    if st.freed != [] {
      var rest := st.freed[1..];
      assert st.freed == [st.freed[0]] + rest && st.freed[0] in st.freed;
      assert forall f :: f in rest ==> f in st.freed;
    }
  }

  lemma NextIsPopped(m: Memory, root: nat, z: ZoneInfo, st: ZoneState)
    requires Placed(m, root, z, st) && InZone(z, Cursor(st)) && TableAt(m, root, Va(z, Cursor(st)), 0).Some?
    ensures NextCursor(m, root, z, Cursor(st)) == Addr(z, Cursor(Popped(st)))
  {
    hide TableAt, Va, Addr, NextFree, EmptyRun, LiveOk;
    if st.freed == [] {
      assert NewBlock(m, root, z, st.used);
    } else {
      assert FreeBlock(m, root, z, st.freed[0], Following(st, 0));
    }
  }

  lemma TakenPlaced(m: Memory, n: Memory, root: nat, z: ZoneInfo, st: ZoneState)
    requires StateOk(z, st) && Placed(m, root, z, st) && InZone(z, Cursor(st)) && Count(z) > 0
    requires OthersKept(m, n, root, z, Cursor(st)) && LiveBlock(n, root, z, Cursor(st))
    ensures Placed(n, root, z, Popped(st))
  {
    hide FreeBlock, NewBlock, LiveBlock, OthersKept, Count;
    var c, t := Cursor(st), Popped(st);
    forall k: nat | k < |t.freed|
      ensures FreeBlock(n, root, z, t.freed[k], Following(t, k))
    {
      assert t.freed[k] == st.freed[k + 1] && st.freed[k + 1] in st.freed && st.freed[k + 1] != st.freed[0];
      assert Following(t, k) == Following(st, k + 1);
      OthersStay(m, n, root, z, c, t.freed[k]);
    }
    forall o: nat | t.used <= o && InZone(z, o)
      ensures NewBlock(n, root, z, o)
    {
      assert st.freed != [] ==> st.freed[0] in st.freed;
      OthersStay(m, n, root, z, c, o);
    }
    forall o: nat | Live(t, o)
      ensures LiveBlock(n, root, z, o)
    {
      if o != c {
        assert Live(st, o) by {
          assert st.freed != [] ==> st.freed == [st.freed[0]] + st.freed[1..];
        }
        OthersStay(m, n, root, z, c, o);
      }
    }
  }

  lemma BlockIsLive(n: Memory, root: nat, z: ZoneInfo, i: nat, es: seq<Word>)
    requires TableAt(n, root, Va(z, i), 0).Some? && |es| == Count(z)
    requires forall j: nat :: InRun(j, First(z, i), |es|) ==>
             Entry(n, TableAt(n, root, Va(z, i), 0).value, j) == es[j - First(z, i)]
    requires forall k :: 0 <= k < |es| ==> Present(es[k])
    ensures LiveBlock(n, root, z, i)
  {
    hide TableAt, Va, First, Entry, Count, Present;
    var pt := TableAt(n, root, Va(z, i), 0).value;
    forall j: nat | First(z, i) <= j < First(z, i) + Count(z)
      ensures Present(Entry(n, pt, j))
    {
      assert InRun(j, First(z, i), |es|);
    }
  }

  lemma PresentMeans(e: Word, phys: Word, b: Word)
    requires Present(e) && FrameOf(e) == FrameOf(phys)
    ensures Meaning(e, b) == Some(AddressIn(phys, b))
  {
    SameFrame(e, phys, b);
    hide Present, FrameOf, AddressIn;
  }

  /** What the addresses of the block translate to, frame by frame. */
  ghost predicate BlockMapped(m: Memory, n: Memory, root: nat, z: ZoneInfo, c: nat, phys: Word) {
    forall b: Word :: Translate(n, root, b) ==
      if InBlock(z, c, b) then Some(AddressIn(PhysAt(phys, Index(b, 0) - First(z, c)), b)) else Translate(m, root, b)
  }

  lemma TakeKeeps(m: Memory, root: nat, height: map<nat, nat>, z: ZoneInfo, st: ZoneState, phys: Word, flags: Word)
    requires Tree(m, root, height) && ZoneOk(z) && StateOk(z, st) && PlainOk(m, root, z) && Placed(m, root, z, st)
    requires InZone(z, Cursor(st)) && TableAt(m, root, Va(z, Cursor(st)), 0).Some?
    ensures HasTable(m, root, z, Cursor(st))
    ensures var n := TakeMemory(m, root, z, Cursor(st), phys, flags);
      Tree(n, root, height) && PlainOk(n, root, z) && Placed(n, root, z, Popped(st)) &&
        BlockMapped(m, n, root, z, Cursor(st), phys)
  {
    hide *;
    var c := Cursor(st);
    TableFound(m, root, height, z, c);
    HasTableGives(m, root, z, c);
    var pt := TableAt(m, root, Va(z, c), 0).value;
    var es := BlockEntries(phys, flags, Count(z), Entry(m, pt, First(z, c)));
    BlockEntriesAre(phys, flags, Count(z), Entry(m, pt, First(z, c)));
    TakeMemoryIs(m, root, z, c, phys, flags);
    WriteKeeps(m, root, height, z, c, es);
    var n := WriteRun(m, pt, First(z, c), es);
    BlockIsLive(n, root, z, c, es);
    TakenPlaced(m, n, root, z, st);
    TakeMapped(m, root, height, z, c, phys, es);
  }

  lemma TableFound(m: Memory, root: nat, height: map<nat, nat>, z: ZoneInfo, c: nat)
    requires Tree(m, root, height) && ZoneOk(z) && InZone(z, c) && TableAt(m, root, Va(z, c), 0).Some?
    ensures HasTable(m, root, z, c)
  {
    TableAtHeight(m, root, height, Va(z, c), 0);
    RunFits(z, c);
    hide Tree, ZoneOk, TableAt, Va, First, Count;
  }

  lemma HasTableGives(m: Memory, root: nat, z: ZoneInfo, c: nat)
    requires HasTable(m, root, z, c)
    ensures TableAt(m, root, Va(z, c), 0).Some? && TableAt(m, root, Va(z, c), 0).value in m
    ensures |m[TableAt(m, root, Va(z, c), 0).value]| == 512 && First(z, c) + Count(z) <= 512 && Count(z) > 0
  {
    hide TableAt, Va, First, Count;
  }

  lemma TakeMemoryIs(m: Memory, root: nat, z: ZoneInfo, c: nat, phys: Word, flags: Word)
    requires HasTable(m, root, z, c)
    ensures var pt := TableAt(m, root, Va(z, c), 0).value;
      |BlockEntries(phys, flags, Count(z), Entry(m, pt, First(z, c)))| == Count(z)
      && TakeMemory(m, root, z, c, phys, flags) ==
         WriteRun(m, pt, First(z, c), BlockEntries(phys, flags, Count(z), Entry(m, pt, First(z, c))))
  {
    hide TableAt, Va, First, Count, WriteRun, Entry, BlockEntry;
  }

  lemma TakeMapped(m: Memory, root: nat, height: map<nat, nat>, z: ZoneInfo, c: nat, phys: Word, es: seq<Word>)
    requires Tree(m, root, height) && ZoneOk(z) && InZone(z, c) && TableAt(m, root, Va(z, c), 0).Some? &&
             |es| == Count(z)
    requires HasTable(m, root, z, c)
    requires forall k :: 0 <= k < |es| ==> Present(es[k]) && FrameOf(es[k]) == FrameOf(PhysAt(phys, k))
    ensures BlockMapped(m, WriteRun(m, TableAt(m, root, Va(z, c), 0).value, First(z, c), es), root, z, c, phys)
  {
    hide Tree, ZoneOk, TableAt, Va, First, Count, Translate, WriteRun, Present, Entry, SameTables, Index, Meaning,
         FrameOf, PhysAt, AddressIn;
    var n := WriteRun(m, TableAt(m, root, Va(z, c), 0).value, First(z, c), es);
    forall b: Word
      ensures Translate(n, root, b) ==
        if InBlock(z, c, b) then Some(AddressIn(PhysAt(phys, Index(b, 0) - First(z, c)), b)) else Translate(m, root, b)
    {
      BlockTranslates(m, root, height, z, c, es, b);
      RunMember(Index(b, 0), First(z, c), Count(z));
      if InBlock(z, c, b) {
        PresentMeans(es[Index(b, 0) - First(z, c)], PhysAt(phys, Index(b, 0) - First(z, c)), b);
      }
    }
  }
}
