/** The blocks of a zone: those in use, those freed, and those never used, chained through page table entries
    (vm.c:490-578). */
module BlockZone {
  import opened Options
  import opened Arithmetic
  import opened Lists
  import opened EntryBits
  import opened PageTables
  import opened PageMapping
  import opened PageRanges
  import opened BlockBits
  import opened PageGrowth

  /** Where a zone starts, how many pages a block has, and how many blocks fit. */
  datatype ZoneInfo = ZoneInfo(start: nat, pages: Word, limit: nat)

  function Count(z: ZoneInfo): nat {
    AsNumber(z.pages)
  }

  /** Address of block number `i`. */
  function Addr(z: ZoneInfo, i: nat): nat {
    z.start + i * AsNumber(Bytes(z.pages))
  }

  function Va(z: ZoneInfo, i: nat): Word {
    if Addr(z, i) < 0x1_0000_0000_0000_0000 then AsWord(Addr(z, i)) else 0
  }

  predicate Addressable(z: ZoneInfo, i: nat) {
    AsNumber(Va(z, i)) == Addr(z, i)
  }

  predicate InZone(z: ZoneInfo, i: nat) {
    i < z.limit
  }

  /** Blocks lie one after another from the start of the zone on. */
  lemma BlocksFollow(z: ZoneInfo, i: nat)
    requires BlockPages(z.pages)
    ensures Addr(z, 0) == z.start && Addr(z, i + 1) == Addr(z, i) + 4096 * Count(z)
  {
    BytesOfPages(z.pages);
    hide AsNumber, Bytes;
    TimesNext(i, 4096 * Count(z));
  }

  ghost predicate OnePage(z: ZoneInfo, i: nat, j: nat) {
    PageOf(Va(z, i)) == PageOf(Va(z, j))
  }

  /** A zone of 64-bit addresses in which blocks are aligned to their size, no two are on one page, and an entry can
      hold the distance from any block to any other. */
  ghost predicate ZoneOk(z: ZoneInfo) {
    && BlockPages(z.pages)
    && (forall i: nat :: i <= z.limit ==> Addressable(z, i))
    && (forall i: nat :: InZone(z, i) ==> BlockAligned(Va(z, i), z.pages))
    && (forall i: nat, j: nat :: InZone(z, i) && InZone(z, j) && OnePage(z, i, j) ==> i == j)
    && (forall i: nat, j: nat :: i <= z.limit && j <= z.limit ==> EntryHolds(Distance(Addr(z, i), Addr(z, j))))
  }

  /** The blocks freed, last one first, and the number of blocks that were ever used. */
  datatype ZoneState = ZoneState(freed: seq<nat>, used: nat)

  /** The block that the zone's cursor is at. */
  function Cursor(st: ZoneState): nat {
    if st.freed == [] then st.used else st.freed[0]
  }

  predicate Live(st: ZoneState, i: nat) {
    i < st.used && i !in st.freed
  }

  /** What follows the freed block at place `k`. */
  function Following(st: ZoneState, k: nat): nat {
    if k + 1 < |st.freed| then st.freed[k + 1] else st.used
  }

  // ----- blocks in memory

  function First(z: ZoneInfo, i: nat): nat {
    Index(Va(z, i), 0)
  }

  ghost predicate EmptyRun(m: Memory, pt: nat, first: nat, n: nat) {
    forall j: nat :: first <= j < first + n ==> !Present(Entry(m, pt, j))
  }

  ghost predicate FullRun(m: Memory, pt: nat, first: nat, n: nat) {
    forall j: nat :: first <= j < first + n ==> Present(Entry(m, pt, j))
  }

  /** Block `i`, in this page table, maps nothing, and its first entry leads to block `next`. */
  ghost predicate LeadsTo(m: Memory, pt: nat, z: ZoneInfo, i: nat, next: nat) {
    NextFree(Entry(m, pt, First(z, i)), Addr(z, i)) == Addr(z, next) && EmptyRun(m, pt, First(z, i), Count(z))
  }

  ghost predicate FreeBlock(m: Memory, root: nat, z: ZoneInfo, i: nat, next: nat) {
    TableAt(m, root, Va(z, i), 0).Some? && LeadsTo(m, TableAt(m, root, Va(z, i), 0).value, z, i, next)
  }

  /** A block never used leads to the one after it, unless its page table is still to be made. */
  ghost predicate NewBlock(m: Memory, root: nat, z: ZoneInfo, i: nat) {
    TableAt(m, root, Va(z, i), 0).Some? ==> LeadsTo(m, TableAt(m, root, Va(z, i), 0).value, z, i, i + 1)
  }

  ghost predicate LiveBlock(m: Memory, root: nat, z: ZoneInfo, i: nat) {
    TableAt(m, root, Va(z, i), 0).Some? && FullRun(m, TableAt(m, root, Va(z, i), 0).value, First(z, i), Count(z))
  }

  predicate StateOk(z: ZoneInfo, st: ZoneState) {
    st.used <= z.limit && NoDup(st.freed) && forall f :: f in st.freed ==> f < st.used
  }

  ghost predicate PlainOk(m: Memory, root: nat, z: ZoneInfo) {
    forall i: nat :: InZone(z, i) ==> Plain(m, root, Va(z, i))
  }

  ghost predicate FreedOk(m: Memory, root: nat, z: ZoneInfo, st: ZoneState) {
    forall k: nat :: k < |st.freed| ==> FreeBlock(m, root, z, st.freed[k], Following(st, k))
  }

  ghost predicate NewOk(m: Memory, root: nat, z: ZoneInfo, st: ZoneState) {
    forall i: nat :: st.used <= i && InZone(z, i) ==> NewBlock(m, root, z, i)
  }

  ghost predicate LiveOk(m: Memory, root: nat, z: ZoneInfo, st: ZoneState) {
    forall i: nat :: Live(st, i) ==> LiveBlock(m, root, z, i)
  }

  /** Following the entries from the cursor yields the freed blocks, last one first, and then the blocks never used in
      ascending order. */
  ghost predicate ZoneInv(m: Memory, root: nat, height: map<nat, nat>, z: ZoneInfo, st: ZoneState) {
    && Tree(m, root, height) && ZoneOk(z) && StateOk(z, st) && PlainOk(m, root, z)
    && FreedOk(m, root, z, st) && NewOk(m, root, z, st) && LiveOk(m, root, z, st)
  }

  /** The addresses that go through the entries of a block. */
  predicate InBlock(z: ZoneInfo, i: nat, b: Word) {
    SameTables(b, Va(z, i)) && First(z, i) <= Index(b, 0) < First(z, i) + Count(z)
  }

  /** vm_free_block finds block `i` from its own address, and from every other address in it. */
  lemma FreeTakes(z: ZoneInfo, i: nat, o: Word)
    requires ZoneOk(z) && InZone(z, i) && o < Bytes(z.pages)
    ensures BlockOf(Va(z, i) | o, z.pages) == Va(z, i) == BlockOf(Va(z, i), z.pages)
  {
    BlockOfAddress(Va(z, i), o, z.pages);
    OwnBase(Va(z, i), z.pages);
    hide BlockOf, Bytes, Va, BlockPages, OnePage, Addressable, EntryHolds;
  }

  // ----- blocks do not share entries

  predicate RunsDisjoint(z: ZoneInfo, i: nat, j: nat) {
    First(z, i) + Count(z) <= First(z, j) || First(z, j) + Count(z) <= First(z, i)
  }

  lemma RunFits(z: ZoneInfo, i: nat)
    requires ZoneOk(z) && InZone(z, i)
    ensures First(z, i) + Count(z) <= 512 && Count(z) > 0
  {
    RunEnd(Va(z, i), z.pages);
    hide *;
    FirstIs(z, i);
  }

  lemma FirstIs(z: ZoneInfo, i: nat)
    ensures First(z, i) == Index(Va(z, i), 0) && Count(z) == AsNumber(z.pages)
  {
  }

  lemma BlocksApart(m: Memory, root: nat, height: map<nat, nat>, z: ZoneInfo, i: nat, j: nat)
    requires Tree(m, root, height) && ZoneOk(z) && InZone(z, i) && InZone(z, j) && i != j
    requires TableAt(m, root, Va(z, i), 0).Some? && TableAt(m, root, Va(z, i), 0) == TableAt(m, root, Va(z, j), 0)
    ensures RunsDisjoint(z, i, j)
  {
    ApartFacts(z, i, j);
    hide *;
    var a, b := Va(z, i), Va(z, j);
    PathUnique(m, root, height, a, b, 0);
    OffsetsDiffer(a, b);
    FirstIs(z, i);
    FirstIs(z, j);
    if Under(PtOffset(a), PtOffset(b)) {
      RunsApart(a, b, z.pages);
    } else {
      RunsApart(b, a, z.pages);
    }
    DisjointIs(z, i, j);
  }

  lemma ApartFacts(z: ZoneInfo, i: nat, j: nat)
    requires ZoneOk(z) && InZone(z, i) && InZone(z, j) && i != j
    ensures PageOf(Va(z, i)) != PageOf(Va(z, j)) && BlockPages(z.pages)
    ensures BlockAligned(Va(z, i), z.pages) && BlockAligned(Va(z, j), z.pages)
  {
    hide PageOf, Va, BlockPages, BlockAligned, Addressable, EntryHolds;
    assert !OnePage(z, i, j);
  }

  lemma DisjointIs(z: ZoneInfo, i: nat, j: nat)
    ensures RunsDisjoint(z, i, j) <==> First(z, i) + Count(z) <= First(z, j) || First(z, j) + Count(z) <= First(z, i)
  {
  }

  lemma OffsetsDiffer(a: Word, b: Word)
    requires PageOf(a) != PageOf(b) && forall k: nat :: 0 < k <= 3 ==> Index(a, k) == Index(b, k)
    ensures !Under(PtOffset(a), PtOffset(b)) ==> Under(PtOffset(b), PtOffset(a))
  {
    SamePage(a, b);
    if Index(a, 0) == Index(b, 0) {
      SameFourIndices(a, b);
    }
    FourIndices(a);
    FourIndices(b);
    OffsetBounds(a);
    OffsetBounds(b);
    hide PageOf, Index, PtOffset, PdtOffset, PdptOffset, Pml4Offset, AsNumber, Under, SameIndices;
    if !Under(PtOffset(a), PtOffset(b)) {
      BoundedOrder(PtOffset(a), PtOffset(b));
    }
  }

  // ----- writing the entries of one block

  predicate InRun(j: nat, first: nat, n: nat) {
    first <= j < first + n
  }

  ghost function Run(first: nat, n: nat): set<nat> {
    set j: nat | first <= j < first + n && InRun(j, first, n)
  }

  function WriteRun(m: Memory, pt: nat, first: nat, es: seq<Word>): Memory
    requires pt in m && first + |es| <= |m[pt]|
  {
    m[pt := m[pt][..first] + es + m[pt][first + |es|..]]
  }

  lemma WriteRunIs(m: Memory, pt: nat, first: nat, es: seq<Word>)
    requires pt in m && first + |es| <= |m[pt]|
    ensures OnlyEntries(m, WriteRun(m, pt, first, es), pt, Run(first, |es|))
    ensures forall j: nat :: InRun(j, first, |es|) ==> Entry(WriteRun(m, pt, first, es), pt, j) == es[j - first]
  {
  }

  lemma RunTranslates(m: Memory, n: Memory, root: nat, height: map<nat, nat>, pt: nat, written: set<nat>, b: Word)
    requires Tree(m, root, height) && OnlyEntries(m, n, pt, written) && pt in height && height[pt] == 0
    ensures Translate(n, root, b) ==
      if TableAt(m, root, b, 0) == Some(pt) && Index(b, 0) in written then Meaning(Entry(n, pt, Index(b, 0)), b)
      else Translate(m, root, b)
  {
    hide *;
    if TableAt(m, root, b, 0) == Some(pt) && Index(b, 0) in written {
      EntriesPath(m, n, root, height, pt, written, b, 0);
      SamePageTranslates(n, root, b, b, pt);
    } else {
      RootOfPath(m, root, b);
      EntriesWalk(m, n, root, height, pt, written, b, root, 3);
      WalkIs(m, root, b);
      WalkIs(n, root, b);
    }
  }

  /** The addresses that reach the page table of a block are those with the same tables. */
  lemma BlockPath(m: Memory, root: nat, height: map<nat, nat>, z: ZoneInfo, i: nat, b: Word)
    requires Tree(m, root, height) && TableAt(m, root, Va(z, i), 0).Some?
    ensures SameTables(b, Va(z, i)) <==> TableAt(m, root, b, 0) == TableAt(m, root, Va(z, i), 0)
  {
    hide *;
    if SameTables(b, Va(z, i)) {
      PathSameTables(m, root, b, Va(z, i));
    } else if TableAt(m, root, b, 0) == TableAt(m, root, Va(z, i), 0) {
      PathUnique(m, root, height, b, Va(z, i), 0);
      AllIndices(b, Va(z, i));
    }
  }

  /** After writing the entries of block `i`, its addresses mean what the entries say, and all others what they did. */
  lemma BlockTranslates(m: Memory, root: nat, height: map<nat, nat>, z: ZoneInfo, i: nat, es: seq<Word>, b: Word)
    requires Tree(m, root, height) && ZoneOk(z) && InZone(z, i) && TableAt(m, root, Va(z, i), 0).Some? &&
             |es| <= Count(z)
    ensures var pt := TableAt(m, root, Va(z, i), 0).value; pt in m && |m[pt]| == 512 && First(z, i) + |es| <= 512
    ensures Translate(WriteRun(m, TableAt(m, root, Va(z, i), 0).value, First(z, i), es), root, b) ==
      if SameTables(b, Va(z, i)) && InRun(Index(b, 0), First(z, i), |es|) then Meaning(es[Index(b, 0) - First(z, i)], b)
      else Translate(m, root, b)
  {
    hide *;
    var pt := TableAt(m, root, Va(z, i), 0).value;
    TableAtHeight(m, root, height, Va(z, i), 0);
    RunFits(z, i);
    WriteRunIs(m, pt, First(z, i), es);
    RunTranslates(m, WriteRun(m, pt, First(z, i), es), root, height, pt, Run(First(z, i), |es|), b);
    BlockPath(m, root, height, z, i, b);
    RunMember(Index(b, 0), First(z, i), |es|);
    if SameTables(b, Va(z, i)) && InRun(Index(b, 0), First(z, i), |es|) {
      assert Entry(WriteRun(m, pt, First(z, i), es), pt, Index(b, 0)) == es[Index(b, 0) - First(z, i)];
    }
  }

  lemma RunMember(j: nat, first: nat, n: nat)
    ensures j in Run(first, n) <==> InRun(j, first, n)
    ensures InRun(j, first, n) <==> first <= j < first + n
  {
  }

  /** Block `i` is in memory as it was. */
  ghost predicate SameBlock(m: Memory, n: Memory, root: nat, z: ZoneInfo, i: nat) {
    && TableAt(n, root, Va(z, i), 0) == TableAt(m, root, Va(z, i), 0)
    && (TableAt(m, root, Va(z, i), 0).Some? ==> forall j: nat :: InRun(j, First(z, i), Count(z)) ==>
          Entry(n, TableAt(m, root, Va(z, i), 0).value, j) == Entry(m, TableAt(m, root, Va(z, i), 0).value, j))
  }

  lemma SameBlockFacts(m: Memory, n: Memory, root: nat, z: ZoneInfo, i: nat)
    requires SameBlock(m, n, root, z, i) && Count(z) > 0
    ensures forall x: nat :: FreeBlock(m, root, z, i, x) ==> FreeBlock(n, root, z, i, x)
    ensures NewBlock(m, root, z, i) ==> NewBlock(n, root, z, i)
    ensures LiveBlock(m, root, z, i) ==> LiveBlock(n, root, z, i)
  {
    hide TableAt, Va, First, Entry, Present, NextFree, Addr;
    if TableAt(m, root, Va(z, i), 0).Some? {
      var pt := TableAt(m, root, Va(z, i), 0).value;
      assert InRun(First(z, i), First(z, i), Count(z));
      forall j: nat | First(z, i) <= j < First(z, i) + Count(z)
        ensures Entry(n, pt, j) == Entry(m, pt, j)
      {
        assert InRun(j, First(z, i), Count(z));
      }
    }
  }

  /** Writing the entries of one block leaves every other block as it was. */
  lemma OtherBlock(m: Memory, root: nat, height: map<nat, nat>, z: ZoneInfo, i: nat, es: seq<Word>, o: nat)
    requires Tree(m, root, height) && ZoneOk(z) && InZone(z, i) && InZone(z, o) && o != i
    requires TableAt(m, root, Va(z, i), 0).Some? && |es| <= Count(z)
    ensures var pt := TableAt(m, root, Va(z, i), 0).value; pt in m && |m[pt]| == 512 && First(z, i) + |es| <= 512
    ensures SameBlock(m, WriteRun(m, TableAt(m, root, Va(z, i), 0).value, First(z, i), es), root, z, o)
  {
    hide *;
    var pt := TableAt(m, root, Va(z, i), 0).value;
    TableAtHeight(m, root, height, Va(z, i), 0);
    RunFits(z, i);
    WriteRunIs(m, pt, First(z, i), es);
    var n := WriteRun(m, pt, First(z, i), es);
    EntriesPath(m, n, root, height, pt, Run(First(z, i), |es|), Va(z, o), 0);
    if TableAt(m, root, Va(z, o), 0) == Some(pt) {
      BlocksApart(m, root, height, z, i, o);
    }
    OutsideRun(m, n, root, z, i, o, pt, |es|);
  }

  lemma OutsideRun(m: Memory, n: Memory, root: nat, z: ZoneInfo, i: nat, o: nat, pt: nat, k: nat)
    requires OnlyEntries(m, n, pt, Run(First(z, i), k)) && k <= Count(z)
    requires TableAt(n, root, Va(z, o), 0) == TableAt(m, root, Va(z, o), 0)
    requires TableAt(m, root, Va(z, o), 0) == Some(pt) ==> RunsDisjoint(z, i, o)
    ensures SameBlock(m, n, root, z, o)
  {
    hide TableAt, Va, First, Entry, Count;
  }

  lemma EntriesPlain(m: Memory, n: Memory, root: nat, height: map<nat, nat>, pt: nat, written: set<nat>, b: Word)
    requires Tree(m, root, height) && OnlyEntries(m, n, pt, written) && pt in height && height[pt] == 0 &&
             Plain(m, root, b)
    ensures Plain(n, root, b)
  {
    EntriesPath(m, n, root, height, pt, written, b, 1);
    if TableAt(m, root, b, 1).Some? {
      TableAtHeight(m, root, height, b, 1);
    }
    hide Tree, TableAt, Index, Entry, Huge;
  }

  /** Everything but block `i` is as it was. */
  ghost predicate OthersKept(m: Memory, n: Memory, root: nat, z: ZoneInfo, i: nat) {
    forall o: nat :: InZone(z, o) && o != i ==> SameBlock(m, n, root, z, o)
  }

  lemma WriteKeeps(m: Memory, root: nat, height: map<nat, nat>, z: ZoneInfo, i: nat, es: seq<Word>)
    requires Tree(m, root, height) && ZoneOk(z) && PlainOk(m, root, z) && InZone(z, i)
    requires TableAt(m, root, Va(z, i), 0).Some? && |es| <= Count(z)
    ensures var pt := TableAt(m, root, Va(z, i), 0).value; pt in m && |m[pt]| == 512 && First(z, i) + |es| <= 512
    ensures var pt := TableAt(m, root, Va(z, i), 0).value; var n := WriteRun(m, pt, First(z, i), es);
      && Tree(n, root, height) && PlainOk(n, root, z) && OthersKept(m, n, root, z, i)
      && TableAt(n, root, Va(z, i), 0) == Some(pt) && forall j: nat :: InRun(j, First(z, i), |es|) ==>
         Entry(n, pt, j) == es[j - First(z, i)]
  {
    hide TableAt, Va, First, Entry, Count, Tree, ZoneOk, WriteRun, OnlyEntries, Plain, SameBlock;
    var pt := TableAt(m, root, Va(z, i), 0).value;
    TableAtHeight(m, root, height, Va(z, i), 0);
    RunFits(z, i);
    WriteRunIs(m, pt, First(z, i), es);
    var n := WriteRun(m, pt, First(z, i), es);
    EntriesTree(m, n, root, height, pt, Run(First(z, i), |es|));
    EntriesPath(m, n, root, height, pt, Run(First(z, i), |es|), Va(z, i), 0);
    forall o: nat | InZone(z, o)
      ensures Plain(n, root, Va(z, o))
    {
      EntriesPlain(m, n, root, height, pt, Run(First(z, i), |es|), Va(z, o));
    }
    forall o: nat | InZone(z, o) && o != i
      ensures SameBlock(m, n, root, z, o)
    {
      OtherBlock(m, root, height, z, i, es, o);
    }
  }

  /** Blocks other than `i` keep their place in a state that differs only about `i`. */
  lemma OthersStay(m: Memory, n: Memory, root: nat, z: ZoneInfo, i: nat, o: nat)
    requires OthersKept(m, n, root, z, i) && InZone(z, o) && o != i && Count(z) > 0
    ensures forall x: nat :: FreeBlock(m, root, z, o, x) ==> FreeBlock(n, root, z, o, x)
    ensures NewBlock(m, root, z, o) ==> NewBlock(n, root, z, o)
    ensures LiveBlock(m, root, z, o) ==> LiveBlock(n, root, z, o)
  {
    SameBlockFacts(m, n, root, z, o);
  }

  // ----- freeing a block

  function Pushed(st: ZoneState, i: nat): ZoneState {
    st.(freed := [i] + st.freed)
  }

  /** The entries of the block after vm_free_block, if the entry of every page is cleared. */
  function FreeEntries(m: Memory, pt: nat, z: ZoneInfo, i: nat, next: nat): seq<Word>
    requires Distance(Addr(z, i), Addr(z, next)) < 0x1_0000_0000_0000_0000 && Count(z) > 0
  {
    seq(Count(z), k requires 0 <= k < Count(z) =>
      if k == 0 then FreeEntry(Entry(m, pt, First(z, i)), Addr(z, i), Addr(z, next))
      else Cleared(Entry(m, pt, First(z, i) + k)))
  }

  lemma FreeEntriesAre(m: Memory, pt: nat, z: ZoneInfo, i: nat, next: nat)
    requires ZoneOk(z) && i <= z.limit && next <= z.limit && Count(z) > 0
    ensures Distance(Addr(z, i), Addr(z, next)) < 0x1_0000_0000_0000_0000
    ensures var es := FreeEntries(m, pt, z, i, next);
      |es| == Count(z) && NextFree(es[0], Addr(z, i)) == Addr(z, next) && forall k :: 0 <= k < |es| ==> !Present(es[k])
  {
    hide *;
    DistanceHeld(z, i, next);
    FreeEntryLeads(Entry(m, pt, First(z, i)), Addr(z, i), Addr(z, next));
    FreeEntriesAt(m, pt, z, i, next);
    var es := FreeEntries(m, pt, z, i, next);
    forall k | 0 <= k < |es|
      ensures !Present(es[k])
    {
      ClearedAbsent(Entry(m, pt, First(z, i) + k));
    }
  }

  lemma DistanceHeld(z: ZoneInfo, i: nat, next: nat)
    requires ZoneOk(z) && i <= z.limit && next <= z.limit
    ensures EntryHolds(Distance(Addr(z, i), Addr(z, next))) &&
            Distance(Addr(z, i), Addr(z, next)) < 0x1_0000_0000_0000_0000
  {
    hide Addr, Distance, FrameOf, AsWord, AsNumber, Va, BlockPages, BlockAligned, OnePage, Addressable;
    assert EntryHolds(Distance(Addr(z, i), Addr(z, next)));
  }

  lemma FreeEntriesAt(m: Memory, pt: nat, z: ZoneInfo, i: nat, next: nat)
    requires Distance(Addr(z, i), Addr(z, next)) < 0x1_0000_0000_0000_0000 && Count(z) > 0
    ensures var es := FreeEntries(m, pt, z, i, next);
      |es| == Count(z) && es[0] == FreeEntry(Entry(m, pt, First(z, i)), Addr(z, i), Addr(z, next))
      && forall k :: 0 < k < |es| ==> es[k] == Cleared(Entry(m, pt, First(z, i) + k))
  {
    hide Addr, Distance, Entry, First, Count, FreeEntry, Cleared;
  }

  lemma CursorInZone(z: ZoneInfo, st: ZoneState)
    requires StateOk(z, st)
    ensures Cursor(st) <= z.limit
  {
    assert st.freed != [] ==> st.freed[0] in st.freed;
  }

  lemma FreedIsPushed(m: Memory, n: Memory, root: nat, z: ZoneInfo, st: ZoneState, i: nat)
    requires FreedOk(m, root, z, st) && NewOk(m, root, z, st) && LiveOk(m, root, z, st) && StateOk(z, st) && Live(st, i)
    requires OthersKept(m, n, root, z, i) && FreeBlock(n, root, z, i, Cursor(st)) && Count(z) > 0
    ensures var t := Pushed(st, i);
      StateOk(z, t) && FreedOk(n, root, z, t) && NewOk(n, root, z, t) && LiveOk(n, root, z, t)
  {
    hide FreeBlock, NewBlock, LiveBlock, OthersKept, Count;
    var t := Pushed(st, i);
    forall k: nat | k < |t.freed|
      ensures FreeBlock(n, root, z, t.freed[k], Following(t, k))
    {
      if k > 0 {
        assert t.freed[k] == st.freed[k - 1] && st.freed[k - 1] in st.freed;
        assert Following(t, k) == Following(st, k - 1);
        OthersStay(m, n, root, z, i, t.freed[k]);
      }
    }
    forall o: nat | t.used <= o && InZone(z, o)
      ensures NewBlock(n, root, z, o)
    {
      OthersStay(m, n, root, z, i, o);
    }
    forall o: nat | Live(t, o)
      ensures LiveBlock(n, root, z, o)
    {
      assert i in t.freed;
      OthersStay(m, n, root, z, i, o);
    }
  }

  /** The tables after block `i` is freed. */
  function FreeMemory(m: Memory, root: nat, z: ZoneInfo, st: ZoneState, i: nat): Memory
    requires TableAt(m, root, Va(z, i), 0).Some? && TableAt(m, root, Va(z, i), 0).value in m
    requires Count(z) > 0 && First(z, i) + Count(z) <= |m[TableAt(m, root, Va(z, i), 0).value]|
    requires Distance(Addr(z, i), Addr(z, Cursor(st))) < 0x1_0000_0000_0000_0000
  {
    var pt := TableAt(m, root, Va(z, i), 0).value;
    WriteRun(m, pt, First(z, i), FreeEntries(m, pt, z, i, Cursor(st)))
  }

  ghost predicate CanFree(m: Memory, root: nat, z: ZoneInfo, st: ZoneState, i: nat) {
    && TableAt(m, root, Va(z, i), 0).Some? && TableAt(m, root, Va(z, i), 0).value in m
    && |m[TableAt(m, root, Va(z, i), 0).value]| == 512
    && Count(z) > 0 && First(z, i) + Count(z) <= 512 &&
       Distance(Addr(z, i), Addr(z, Cursor(st))) < 0x1_0000_0000_0000_0000
  }

  lemma LiveCanFree(m: Memory, root: nat, height: map<nat, nat>, z: ZoneInfo, st: ZoneState, i: nat)
    requires Tree(m, root, height) && ZoneOk(z) && StateOk(z, st) && LiveOk(m, root, z, st) && Live(st, i)
    ensures CanFree(m, root, z, st, i) && InZone(z, i)
  {
    assert LiveBlock(m, root, z, i) && InZone(z, i);
    hide *;
    LiveHasTable(m, root, z, i);
    TableAtHeight(m, root, height, Va(z, i), 0);
    RunFits(z, i);
    CursorInZone(z, st);
    StateLimit(z, st, i);
    DistanceHeld(z, i, Cursor(st));
    CanFreeIs(m, root, z, st, i);
  }

  lemma StateLimit(z: ZoneInfo, st: ZoneState, i: nat)
    requires StateOk(z, st) && Live(st, i)
    ensures i <= z.limit
  {
  }

  lemma LiveHasTable(m: Memory, root: nat, z: ZoneInfo, i: nat)
    requires LiveBlock(m, root, z, i)
    ensures TableAt(m, root, Va(z, i), 0).Some?
  {
  }

  lemma CanFreeIs(m: Memory, root: nat, z: ZoneInfo, st: ZoneState, i: nat)
    requires TableAt(m, root, Va(z, i), 0).Some? && TableAt(m, root, Va(z, i), 0).value in m
    requires |m[TableAt(m, root, Va(z, i), 0).value]| == 512
    requires Count(z) > 0 && First(z, i) + Count(z) <= 512 &&
             Distance(Addr(z, i), Addr(z, Cursor(st))) < 0x1_0000_0000_0000_0000
    ensures CanFree(m, root, z, st, i)
  {
  }

  lemma BlockIsFree(n: Memory, root: nat, z: ZoneInfo, i: nat, next: nat, es: seq<Word>)
    requires TableAt(n, root, Va(z, i), 0).Some? && |es| == Count(z) > 0
    requires forall j: nat :: InRun(j, First(z, i), |es|) ==>
             Entry(n, TableAt(n, root, Va(z, i), 0).value, j) == es[j - First(z, i)]
    requires NextFree(es[0], Addr(z, i)) == Addr(z, next) && forall k :: 0 <= k < |es| ==> !Present(es[k])
    ensures FreeBlock(n, root, z, i, next)
  {
    hide TableAt, Va, First, Entry, Count, Addr, NextFree, Present;
    var pt := TableAt(n, root, Va(z, i), 0).value;
    assert InRun(First(z, i), First(z, i), |es|);
    forall j: nat | First(z, i) <= j < First(z, i) + Count(z)
      ensures !Present(Entry(n, pt, j))
    {
      assert InRun(j, First(z, i), |es|);
    }
  }

  lemma InBlockIs(z: ZoneInfo, i: nat, b: Word)
    ensures InBlock(z, i, b) <==> SameTables(b, Va(z, i)) && InRun(Index(b, 0), First(z, i), Count(z))
  {
    hide SameTables, Va, First, Index, Count;
  }

  lemma AbsentMeans(e: Word, b: Word)
    ensures !Present(e) ==> Meaning(e, b) == None
  {
  }

  /** vm_free_block: the block becomes the first free one, none of its pages is mapped any more, and no other address
      changes. */
  lemma FreeKeeps(m: Memory, root: nat, height: map<nat, nat>, z: ZoneInfo, st: ZoneState, i: nat)
    requires ZoneInv(m, root, height, z, st) && Live(st, i)
    ensures CanFree(m, root, z, st, i)
    ensures ZoneInv(FreeMemory(m, root, z, st, i), root, height, z, Pushed(st, i))
    ensures forall b: Word ::
      Translate(FreeMemory(m, root, z, st, i), root, b) == if InBlock(z, i, b) then None else Translate(m, root, b)
  {
    hide Tree, ZoneOk, StateOk, PlainOk, FreedOk, NewOk, LiveOk, Live, CanFree, TableAt, Va, First, Count, Addr,
         Translate, InBlock,
         Distance, FreeEntries, WriteRun, FreeMemory, NextFree, Present, Entry, OthersKept, SameTables, Index, Meaning,
           FreeBlock;
    LiveCanFree(m, root, height, z, st, i);
    CanFreeGives(m, root, z, st, i);
    CursorInZone(z, st);
    StateLimit(z, st, i);
    var pt, es := TableAt(m, root, Va(z, i), 0).value,
      FreeEntries(m, TableAt(m, root, Va(z, i), 0).value, z, i, Cursor(st));
    FreeEntriesAre(m, pt, z, i, Cursor(st));
    WriteKeeps(m, root, height, z, i, es);
    FreeMemoryIs(m, root, z, st, i);
    var n := FreeMemory(m, root, z, st, i);
    BlockIsFree(n, root, z, i, Cursor(st), es);
    FreedIsPushed(m, n, root, z, st, i);
    forall b: Word
      ensures Translate(n, root, b) == if InBlock(z, i, b) then None else Translate(m, root, b)
    {
      BlockTranslates(m, root, height, z, i, es, b);
      InBlockIs(z, i, b);
      RunMember(Index(b, 0), First(z, i), Count(z));
      if InBlock(z, i, b) {
        AbsentMeans(es[Index(b, 0) - First(z, i)], b);
      }
    }
  }

  lemma CanFreeGives(m: Memory, root: nat, z: ZoneInfo, st: ZoneState, i: nat)
    requires CanFree(m, root, z, st, i)
    ensures TableAt(m, root, Va(z, i), 0).Some? && TableAt(m, root, Va(z, i), 0).value in m
    ensures |m[TableAt(m, root, Va(z, i), 0).value]| == 512
    ensures Count(z) > 0 && First(z, i) + Count(z) <= 512 &&
            Distance(Addr(z, i), Addr(z, Cursor(st))) < 0x1_0000_0000_0000_0000
  {
  }

  lemma FreeMemoryIs(m: Memory, root: nat, z: ZoneInfo, st: ZoneState, i: nat)
    requires CanFree(m, root, z, st, i)
    ensures var pt := TableAt(m, root, Va(z, i), 0).value;
      FreeMemory(m, root, z, st, i) == WriteRun(m, pt, First(z, i), FreeEntries(m, pt, z, i, Cursor(st)))
  {
  }
}
