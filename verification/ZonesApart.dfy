/** Zones that share no page table: work on one leaves the blocks of the other as they are. */
module ZonesApart {
  import opened Options
  import opened EntryBits
  import opened PageTables
  import opened PageMapping
  import opened PageRanges
  import opened PageGrowth
  import opened BlockZone
  import opened BlockAlloc
  import opened BlockRuns

  /** No address of one zone goes through a page table of the other. */
  ghost predicate Apart(z: ZoneInfo, y: ZoneInfo) {
    forall i: nat, j: nat :: InZone(z, i) && InZone(y, j) ==> !SameTables(Va(y, j), Va(z, i))
  }

  ghost predicate BlockSame(m: Memory, n: Memory, root: nat, y: ZoneInfo, j: nat) {
    SameBlock(m, n, root, y, j) && (Plain(m, root, Va(y, j)) ==> Plain(n, root, Va(y, j)))
  }

  /** Every block of zone `y` is in memory as it was. */
  ghost predicate ZoneSame(m: Memory, n: Memory, root: nat, y: ZoneInfo) {
    forall j: nat :: InZone(y, j) ==> BlockSame(m, n, root, y, j)
  }

  lemma SameInv(m: Memory, n: Memory, root: nat, height: map<nat, nat>, height': map<nat, nat>, y: ZoneInfo,
          st: ZoneState)
    requires ZoneInv(m, root, height, y, st) && Tree(n, root, height') && ZoneSame(m, n, root, y)
    ensures ZoneInv(n, root, height', y, st)
  {
    hide *;
    InvGives(m, root, height, y, st);
    SameBlocks(m, n, root, y);
    KeptPlaced(m, n, root, y, st);
    InvIs(n, root, height', y, st);
  }

  lemma SameBlocks(m: Memory, n: Memory, root: nat, y: ZoneInfo)
    requires ZoneOk(y) && ZoneSame(m, n, root, y) && PlainOk(m, root, y)
    ensures BlocksKept(m, n, root, y) && PlainOk(n, root, y)
  {
    hide ZoneOk, SameBlock, FreeBlock, NewBlock, LiveBlock, Plain, Va;
    forall j: nat | InZone(y, j)
      ensures BlockKept(m, n, root, y, j) && Plain(n, root, Va(y, j))
    {
      assert BlockSame(m, n, root, y, j);
      RunFits(y, j);
      SameBlockFacts(m, n, root, y, j);
    }
  }

  lemma SameThrice(m: Memory, g: Memory, n: Memory, root: nat, y: ZoneInfo)
    requires ZoneSame(m, g, root, y) && ZoneSame(g, n, root, y)
    ensures ZoneSame(m, n, root, y)
  {
    hide TableAt, Va, First, Count, Entry, Plain;
    forall j: nat | InZone(y, j)
      ensures BlockSame(m, n, root, y, j)
    {
      assert BlockSame(m, g, root, y, j) && BlockSame(g, n, root, y, j);
    }
  }

  lemma ApartAt(z: ZoneInfo, y: ZoneInfo, i: nat, j: nat)
    requires Apart(z, y) && InZone(z, i) && InZone(y, j)
    ensures !SameTables(Va(y, j), Va(z, i))
  {
    hide SameTables, Va;
  }

  /** Making the page table of a block of `z` touches no block of `y`. */
  lemma FindSame(m: Memory, root: nat, height: map<nat, nat>, z: ZoneInfo, c: nat, flags: Word, frames: seq<Word>,
          y: ZoneInfo)
    requires Tree(m, root, height) && PlainOk(m, root, z) && PlainOk(m, root, y) && InZone(z, c) && Apart(z, y)
    requires NewFrames(m, frames, 3) && !Asks(flags, VM_HUGEPAGE)
    ensures ZoneSame(m, FindOrAllocate(m, root, Va(z, c), flags, frames).memory, root, y)
  {
    hide Tree, TableAt, Va, First, Count, Entry, Plain, NewFrames, Asks, FindOrAllocate, PathKept, SameLeaves,
         SameTables, SameBlock, AllUntouched;
    var g := FindOrAllocate(m, root, Va(z, c), flags, frames).memory;
    assert Plain(m, root, Va(z, c));
    forall j: nat | InZone(y, j)
      ensures BlockSame(m, g, root, y, j)
    {
      assert Plain(m, root, Va(y, j));
      FindPaths(m, root, height, Va(z, c), flags, frames, Va(y, j));
      FindPlain(m, root, height, Va(z, c), flags, frames, Va(y, j));
      ApartAt(z, y, c, j);
      KeptLeaf(m, g, root, height, Va(z, c), y, j);
    }
  }

  lemma KeptLeaf(m: Memory, g: Memory, root: nat, height: map<nat, nat>, va: Word, y: ZoneInfo, j: nat)
    requires Tree(m, root, height) && PathKept(m, g, root, va, Va(y, j)) && SameLeaves(m, g, height) &&
             !SameTables(Va(y, j), va)
    ensures SameBlock(m, g, root, y, j)
  {
    hide Tree, TableAt, Va, First, Count, Entry, SameTables;
    if TableAt(m, root, Va(y, j), 0).Some? {
      TableIsOld(m, root, height, y, j);
    }
  }

  /** Writing entries of a page table of `z` touches no block of `y`. */
  lemma EntriesSame(m: Memory, n: Memory, root: nat, height: map<nat, nat>, z: ZoneInfo, c: nat, pt: nat,
          written: set<nat>, y: ZoneInfo)
    requires Tree(m, root, height) && OnlyEntries(m, n, pt, written) && TableAt(m, root, Va(z, c), 0) == Some(pt)
    requires InZone(z, c) && Apart(z, y)
    ensures ZoneSame(m, n, root, y)
  {
    hide Tree, TableAt, Va, First, Count, Entry, Plain, SameTables, OnlyEntries, SameBlock;
    TableIsOld(m, root, height, z, c);
    forall j: nat | InZone(y, j)
      ensures BlockSame(m, n, root, y, j)
    {
      EntriesPath(m, n, root, height, pt, written, Va(y, j), 0);
      ApartAt(z, y, c, j);
      BlockPath(m, root, height, z, c, Va(y, j));
      OtherLeaf(m, n, root, y, j, pt, written);
      if Plain(m, root, Va(y, j)) {
        EntriesPlain(m, n, root, height, pt, written, Va(y, j));
      }
    }
  }

  lemma OtherLeaf(m: Memory, n: Memory, root: nat, y: ZoneInfo, j: nat, pt: nat, written: set<nat>)
    requires OnlyEntries(m, n, pt, written) &&
             TableAt(n, root, Va(y, j), 0) == TableAt(m, root, Va(y, j), 0) != Some(pt)
    ensures SameBlock(m, n, root, y, j)
  {
    hide TableAt, Va, First, Count, Entry;
  }

  /** Freeing a block of one zone keeps the other zone. */
  lemma FreeKeepsOther(m: Memory, root: nat, height: map<nat, nat>, z: ZoneInfo, st: ZoneState, i: nat, y: ZoneInfo,
          other: ZoneState)
    requires ZoneInv(m, root, height, z, st) && Live(st, i) && ZoneInv(m, root, height, y, other) && Apart(z, y)
    ensures CanFree(m, root, z, st, i)
    ensures ZoneInv(FreeMemory(m, root, z, st, i), root, height, z, Pushed(st, i))
    ensures ZoneInv(FreeMemory(m, root, z, st, i), root, height, y, other)
  {
    hide *;
    FreeKeeps(m, root, height, z, st, i);
    InvGives(m, root, height, z, st);
    LiveCanFree(m, root, height, z, st, i) by {
      PlacedGives(m, root, z, st, i);
    }
    CanFreeGives(m, root, z, st, i);
    FreeMemoryIs(m, root, z, st, i);
    StateLimit(z, st, i);
    CursorInZone(z, st);
    var pt := TableAt(m, root, Va(z, i), 0).value;
    var es := FreeEntries(m, pt, z, i, Cursor(st));
    FreeEntriesAre(m, pt, z, i, Cursor(st));
    WriteRunIs(m, pt, First(z, i), es);
    var n := FreeMemory(m, root, z, st, i);
    EntriesSame(m, n, root, height, z, i, pt, BlockZone.Run(First(z, i), |es|), y);
    InvGives(n, root, height, z, Pushed(st, i));
    SameInv(m, n, root, height, height, y, other);
  }

  /** Allocating a block of one zone keeps the other zone. */
  lemma AllocKeepsOther(m: Memory, root: nat, height: map<nat, nat>, z: ZoneInfo, st: ZoneState, phys: Word,
          flags: Word, frames: seq<Word>,
                        y: ZoneInfo, other: ZoneState)
    returns (height': map<nat, nat>)
    requires ZoneInv(m, root, height, z, st) && CanAlloc(m, root, z, st, flags, frames)
    requires ZoneInv(m, root, height, y, other) && Apart(z, y)
    ensures var n := AllocMemory(m, root, z, Cursor(st), phys, flags, frames);
      ZoneInv(n, root, height', z, Popped(st)) && ZoneInv(n, root, height', y, other)
  {
    hide *;
    var c := Cursor(st);
    CanAllocGives(m, root, z, st, flags, frames);
    InvGives(m, root, height, z, st);
    InvGives(m, root, height, y, other);
    height' := AllocKeeps(m, root, height, z, st, phys, flags, frames);
    var n := AllocMemory(m, root, z, c, phys, flags, frames);
    PreparedSame(m, root, height, z, c, flags, frames, y);
    TakenSame(m, root, height, z, c, phys, flags, frames, y);
    InvGives(n, root, height', z, Popped(st));
    SameThrice(m, FindPrepared(m, root, z, c, flags, frames), n, root, y);
    SameInv(m, n, root, height, height', y, other);
  }

  lemma PreparedSame(m: Memory, root: nat, height: map<nat, nat>, z: ZoneInfo, c: nat, flags: Word, frames: seq<Word>,
          y: ZoneInfo)
    requires Tree(m, root, height) && ZoneOk(z) && PlainOk(m, root, z) && PlainOk(m, root, y) && InZone(z, c) &&
             Apart(z, y)
    requires NewFrames(m, frames, 3) && !Asks(flags, VM_HUGEPAGE) &&
             Traverse(m, root, Va(z, c), flags, 3).status != Privilege
    ensures ZoneSame(m, FindPrepared(m, root, z, c, flags, frames), root, y)
  {
    hide *;
    var f := FindOrAllocate(m, root, Va(z, c), flags, frames);
    FindSame(m, root, height, z, c, flags, frames, y);
    PlainHere(m, root, z, c);
    var height' := FindKeeps(m, root, height, Va(z, c), flags, frames);
    FindPreparedIs(m, root, z, c, flags, frames);
    if FindPrepared(m, root, z, c, flags, frames) != f.memory {
      TableIsOld(f.memory, root, height', z, c);
      TableAtHeight(f.memory, root, height', Va(z, c), 0);
      PrepareOnly(f.memory, f.pt.value, z.pages);
      EntriesSame(f.memory, FindPrepared(m, root, z, c, flags, frames), root, height', z, c, f.pt.value,
        BlockZone.Run(0, 512), y);
      SameThrice(m, f.memory, FindPrepared(m, root, z, c, flags, frames), root, y);
    }
  }

  lemma PlainHere(m: Memory, root: nat, z: ZoneInfo, c: nat)
    requires PlainOk(m, root, z) && InZone(z, c)
    ensures Plain(m, root, Va(z, c))
  {
    hide Plain, Va;
  }

  lemma FindPreparedIs(m: Memory, root: nat, z: ZoneInfo, c: nat, flags: Word, frames: seq<Word>)
    requires NewFrames(m, frames, 3)
    ensures var f := FindOrAllocate(m, root, Va(z, c), flags, frames);
      FindPrepared(m, root, z, c, flags, frames) == f.memory
      || (f.pt.Some? && f.pt.value in f.memory &&
         FindPrepared(m, root, z, c, flags, frames) == Prepare(f.memory, f.pt.value, z.pages))
  {
    hide FindOrAllocate, Prepare, Va, NewFrames;
  }

  lemma TakenSame(m: Memory, root: nat, height: map<nat, nat>, z: ZoneInfo, c: nat, phys: Word, flags: Word,
          frames: seq<Word>, y: ZoneInfo)
    requires Tree(m, root, height) && ZoneOk(z) && PlainOk(m, root, z) && InZone(z, c) && Apart(z, y)
    requires NewFrames(m, frames, 3) && !Asks(flags, VM_HUGEPAGE) &&
             Traverse(m, root, Va(z, c), flags, 3).status != Privilege
    ensures ZoneSame(FindPrepared(m, root, z, c, flags, frames), AllocMemory(m, root, z, c, phys, flags, frames), root,
            y)
  {
    hide *;
    var height', pt := FindPreparedKeeps(m, root, height, z, c, flags, frames);
    var g := FindPrepared(m, root, z, c, flags, frames);
    TableFound(g, root, height', z, c);
    HasTableGives(g, root, z, c);
    AllocMemoryIs(m, root, z, c, phys, flags, frames);
    TakeMemoryIs(g, root, z, c, phys, flags);
    var es := BlockEntries(phys, flags, Count(z), Entry(g, pt, First(z, c)));
    WriteRunIs(g, pt, First(z, c), es);
    EntriesSame(g, AllocMemory(m, root, z, c, phys, flags, frames), root, height', z, c, pt,
      BlockZone.Run(First(z, c), |es|), y);
  }
}
