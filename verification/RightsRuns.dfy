/** Whole runs of a zone: what the entries of a live block say stays what its last allocation wrote. */
module RightsRuns {
  import opened Options
  import opened EntryBits
  import opened PageTables
  import opened PageMapping
  import opened PageRanges
  import opened Rights
  import opened PageGrowth
  import opened BlockZone
  import opened BlockAlloc
  import opened BlockRuns
  import opened BlockFrames
  import opened BlockRights

  // ----- the entries of other blocks

  lemma SameTwice(m: Memory, g: Memory, n: Memory, root: nat, z: ZoneInfo, i: nat)
    requires SameBlock(m, g, root, z, i) && SameBlock(g, n, root, z, i)
    ensures SameBlock(m, n, root, z, i)
  {
    hide TableAt, Va, First, Count, Entry, InRun;
  }

  lemma SameSelf(m: Memory, root: nat, z: ZoneInfo, i: nat)
    ensures SameBlock(m, m, root, z, i)
  {
    hide TableAt, Va, First, Count, Entry, InRun;
  }

  lemma OldLeafSame(m: Memory, g: Memory, root: nat, height: map<nat, nat>, va: Word, z: ZoneInfo, i: nat)
    requires Tree(m, root, height) && PathKept(m, g, root, va, Va(z, i)) && SameLeaves(m, g, height)
    requires TableAt(m, root, Va(z, i), 0).Some?
    ensures SameBlock(m, g, root, z, i)
  {
    TableIsOld(m, root, height, z, i);
    hide Tree, TableAt, Va, First, Count, Entry, SameTables, InRun;
  }

  lemma OtherLeafSame(m: Memory, n: Memory, root: nat, z: ZoneInfo, i: nat, pt: nat, written: set<nat>)
    requires OnlyEntries(m, n, pt, written)
    requires TableAt(n, root, Va(z, i), 0) == TableAt(m, root, Va(z, i), 0) != Some(pt)
    ensures SameBlock(m, n, root, z, i)
  {
    hide TableAt, Va, First, Count, Entry, InRun;
  }

  /** Making the page table of one block leaves the entries of every block whose page table is there. */
  lemma FoundSameBlock(m: Memory, root: nat, height: map<nat, nat>, z: ZoneInfo, c: nat, flags: Word, frames: seq<Word>,
          i: nat)
    requires Tree(m, root, height) && ZoneOk(z) && PlainOk(m, root, z) && InZone(z, c)
    requires NewFrames(m, frames, 3) && !Asks(flags, VM_HUGEPAGE)
    requires TableAt(m, root, Va(z, i), 0).Some?
    ensures SameBlock(m, FindPrepared(m, root, z, c, flags, frames), root, z, i)
  {
    hide *;
    var f := FindOrAllocate(m, root, Va(z, c), flags, frames);
    CellPlain(m, root, z, c);
    FindPaths(m, root, height, Va(z, c), flags, frames, Va(z, i));
    FoundNew(m, root, height, Va(z, c), flags, frames);
    FindPreparedCases(m, root, z, c, flags, frames);
    OldLeafSame(m, f.memory, root, height, Va(z, c), z, i);
    if f.made > 0 {
      TableIsOld(m, root, height, z, i);
      LeafIs(m, f.memory, root, z, i);
      NewTableBits(flags, 0);
      PreparedSameBlock(m, root, height, z, c, flags, frames, i);
    }
  }

  lemma LeafIs(m: Memory, g: Memory, root: nat, z: ZoneInfo, i: nat)
    requires SameBlock(m, g, root, z, i)
    ensures TableAt(g, root, Va(z, i), 0) == TableAt(m, root, Va(z, i), 0)
  {
    hide TableAt, Va, First, Count, Entry, InRun;
  }

  lemma PreparedSameBlock(m: Memory, root: nat, height: map<nat, nat>, z: ZoneInfo, c: nat, flags: Word,
          frames: seq<Word>, i: nat)
    requires Tree(m, root, height) && Plain(m, root, Va(z, c)) && NewFrames(m, frames, 3) && !Asks(flags, VM_HUGEPAGE)
    requires var f := FindOrAllocate(m, root, Va(z, c), flags, frames);
             && f.made > 0 && f.pt.Some? && f.pt.value !in m && f.pt.value in f.memory && |f.memory[f.pt.value]| == 512
             && TableAt(f.memory, root, Va(z, i), 0) == TableAt(m, root, Va(z, i), 0) != f.pt
             && SameBlock(m, f.memory, root, z, i)
             && FindPrepared(m, root, z, c, flags, frames) == Prepare(f.memory, f.pt.value, z.pages)
    ensures SameBlock(m, FindPrepared(m, root, z, c, flags, frames), root, z, i)
  {
    hide *;
    var height' := FindKeeps(m, root, height, Va(z, c), flags, frames);
    var f := FindOrAllocate(m, root, Va(z, c), flags, frames);
    var n := Prepare(f.memory, f.pt.value, z.pages);
    TableAtHeight(f.memory, root, height', Va(z, c), 0);
    PrepareOnly(f.memory, f.pt.value, z.pages);
    EntriesPath(f.memory, n, root, height', f.pt.value, BlockZone.Run(0, 512), Va(z, i), 0);
    OtherLeafSame(f.memory, n, root, z, i, f.pt.value, BlockZone.Run(0, 512));
    SameTwice(m, f.memory, n, root, z, i);
  }

  lemma OthersSame(m: Memory, n: Memory, root: nat, z: ZoneInfo, c: nat, i: nat)
    requires OthersKept(m, n, root, z, c) && InZone(z, i) && i != c
    ensures SameBlock(m, n, root, z, i)
  {
    hide SameBlock, InZone;
  }

  lemma LiveTable(m: Memory, root: nat, z: ZoneInfo, st: ZoneState, i: nat)
    requires Placed(m, root, z, st) && Live(st, i) && StateOk(z, st)
    ensures TableAt(m, root, Va(z, i), 0).Some? && InZone(z, i)
  {
    hide FreedOk, NewOk, TableAt, Va, FullRun;
  }

  /** Allocating leaves every entry of the blocks that were live. */
  lemma AllocSame(m: Memory, root: nat, height: map<nat, nat>, z: ZoneInfo, st: ZoneState, phys: Word, flags: Word,
          frames: seq<Word>, i: nat)
    requires ZoneInv(m, root, height, z, st) && CanAlloc(m, root, z, st, flags, frames) && Live(st, i) &&
             i != Cursor(st)
    ensures SameBlock(m, AllocMemory(m, root, z, Cursor(st), phys, flags, frames), root, z, i)
  {
    hide *;
    var c := Cursor(st);
    CanAllocGives(m, root, z, st, flags, frames);
    InvGives(m, root, height, z, st);
    LiveTable(m, root, z, st, i);
    var height', pt := FindPreparedKeeps(m, root, height, z, c, flags, frames);
    FoundSameBlock(m, root, height, z, c, flags, frames, i);
    var g := FindPrepared(m, root, z, c, flags, frames);
    TableFound(g, root, height', z, c);
    HasTableGives(g, root, z, c);
    AllocMemoryIs(m, root, z, c, phys, flags, frames);
    TakeMemoryIs(g, root, z, c, phys, flags);
    var es := BlockEntries(phys, flags, Count(z), Entry(g, pt, First(z, c)));
    WriteKeeps(g, root, height', z, c, es);
    OthersSame(g, TakeMemory(g, root, z, c, phys, flags), root, z, c, i);
    SameTwice(m, g, TakeMemory(g, root, z, c, phys, flags), root, z, i);
  }

  /** Freeing leaves every entry of the other live blocks. */
  lemma FreeSame(m: Memory, root: nat, height: map<nat, nat>, z: ZoneInfo, st: ZoneState, j: nat, i: nat)
    requires ZoneInv(m, root, height, z, st) && Live(st, j) && Live(st, i) && i != j
    ensures CanFree(m, root, z, st, j) && SameBlock(m, FreeMemory(m, root, z, st, j), root, z, i)
  {
    hide *;
    InvGives(m, root, height, z, st);
    PlacedGives(m, root, z, st, j);
    LiveTable(m, root, z, st, i);
    LiveCanFree(m, root, height, z, st, j);
    CanFreeGives(m, root, z, st, j);
    CursorInZone(z, st);
    StateLimit(z, st, j);
    FreeMemoryIs(m, root, z, st, j);
    var pt := TableAt(m, root, Va(z, j), 0).value;
    var es := FreeEntries(m, pt, z, j, Cursor(st));
    FreeEntriesAre(m, pt, z, j, Cursor(st));
    WriteKeeps(m, root, height, z, j, es);
    OthersSame(m, FreeMemory(m, root, z, st, j), root, z, j, i);
  }

  /** A block in memory as it was has the rights it had. */
  lemma RightsStay(m: Memory, n: Memory, root: nat, z: ZoneInfo, i: nat, phys: Word, flags: Word, record: Word)
    requires ZoneOk(z) && SameBlock(m, n, root, z, i) && BlockHasRights(m, root, z, i, phys, flags, record)
    ensures BlockHasRights(n, root, z, i, phys, flags, record)
  {
    hide *;
    ZonePages(z);
    HasTableThere(m, root, z, i, phys, flags, record);
    LeafIs(m, n, root, z, i);
    var pt := TableAt(m, root, Va(z, i), 0).value;
    forall k: Word | InPages(k, z)
      ensures EntryIsRight(Entry(n, pt, First(z, i) + AsNumber(k)), Page(phys, k), flags, record)
    {
      InPagesNumber(k, z);
      RightAt(m, root, z, i, phys, flags, record, k);
      SameAt(m, n, root, z, i, First(z, i) + AsNumber(k));
    }
    RightsMade(n, root, z, i, phys, flags, record, pt);
  }

  lemma HasTableThere(m: Memory, root: nat, z: ZoneInfo, i: nat, phys: Word, flags: Word, record: Word)
    requires BlockHasRights(m, root, z, i, phys, flags, record)
    ensures TableAt(m, root, Va(z, i), 0).Some?
  {
    hide TableAt, Va, First, Entry, EntryIsRight, Page, AsNumber, InPages;
  }

  lemma RightAt(m: Memory, root: nat, z: ZoneInfo, i: nat, phys: Word, flags: Word, record: Word, k: Word)
    requires BlockHasRights(m, root, z, i, phys, flags, record) && InPages(k, z) && TableAt(m, root, Va(z, i), 0).Some?
    ensures EntryIsRight(Entry(m, TableAt(m, root, Va(z, i), 0).value, First(z, i) + AsNumber(k)), Page(phys, k), flags,
                         record)
  {
    hide TableAt, Va, First, Entry, EntryIsRight, Page, AsNumber, InPages;
  }

  lemma SameAt(m: Memory, n: Memory, root: nat, z: ZoneInfo, i: nat, j: nat)
    requires SameBlock(m, n, root, z, i) && TableAt(m, root, Va(z, i), 0).Some?
    requires First(z, i) <= j < First(z, i) + Count(z)
    ensures var pt := TableAt(m, root, Va(z, i), 0).value; Entry(n, pt, j) == Entry(m, pt, j)
  {
    RunMember(j, First(z, i), Count(z));
    hide TableAt, Va, First, Count, Entry, InRun;
  }

  // ----- runs

  /** The step before `k` at which block `i` was last handed out. */
  ghost function LastAlloc(trace: seq<Space>, ops: seq<Op>, i: nat, k: nat): (a: Option<nat>)
    requires |trace| == |ops| + 1 && k <= |ops|
    ensures a.Some? ==> a.value < k && ops[a.value].AllocOp? && Cursor(trace[a.value].state) == i
  {
    if k == 0 then None
    else if ops[k - 1].AllocOp? && Cursor(trace[k - 1].state) == i then Some(k - 1)
    else LastAlloc(trace, ops, i, k - 1)
  }

  /** One step writes the rights that it asks for into the block handed out, and none of any other live block. */
  lemma StepRights(s: Space, root: nat, z: ZoneInfo, op: Op, i: nat)
    requires Good(s, root, z) && Legal(s, root, z, op) && Live(Step(s, root, z, op).state, i)
    ensures var t := Step(s, root, z, op);
            if op.AllocOp? && Cursor(s.state) == i then
              BlockHasRights(t.memory, root, z, i, op.phys, op.flags, RecordOf(s.memory, root, z, i, op.flags))
            else Live(s.state, i) && ZoneOk(z) && SameBlock(s.memory, t.memory, root, z, i)
  {
    hide ZoneInv, CanAlloc, CanFree, AllocMemory, FreeMemory, Popped, Pushed, Cursor, Live, SameBlock, BlockHasRights,
         RecordOf, ZoneOk;
    var height: map<nat, nat> :| ZoneInv(s.memory, root, height, z, s.state);
    InvGives(s.memory, root, height, z, s.state);
    match op
    case AllocOp(phys, flags, frames) =>
      if i == Cursor(s.state) {
        AllocRights(s.memory, root, height, z, s.state, phys, flags, frames);
      } else {
        StillLive(s.state, i);
        AllocSame(s.memory, root, height, z, s.state, phys, flags, frames, i);
      }
    case FreeOp(j) =>
      WasLive(s.state, i, j);
      FreeSame(s.memory, root, height, z, s.state, j, i);
  }

  /** In every run from an unused zone, every page of a live block has the frame and exactly the rights that its last
      allocation asked for, and the allocation record it found. */
  lemma {:induction false} RunRights(trace: seq<Space>, ops: seq<Op>, root: nat, z: ZoneInfo, i: nat, k: nat)
    requires BlockRuns.Run(trace, ops, root, z) && Good(trace[0], root, z) && trace[0].state == ZoneState([], 0)
    requires k < |trace| && Live(trace[k].state, i)
    ensures LastAlloc(trace, ops, i, k).Some?
    ensures var a := LastAlloc(trace, ops, i, k).value;
            BlockHasRights(trace[k].memory, root, z, i, ops[a].phys, ops[a].flags,
                           RecordOf(trace[a].memory, root, z, i, ops[a].flags))
  {
    hide Good, Legal, Step, Live, Cursor, BlockHasRights, RecordOf, SameBlock, ZoneOk;
    if k == 0 {
      NoneLive(i);
    } else {
      BlockRuns.RunKeeps(trace, ops, root, z, k - 1);
      assert StepTo(trace[k - 1], ops[k - 1], trace[k - 1 + 1], root, z);
      StepRights(trace[k - 1], root, z, ops[k - 1], i);
      if !(ops[k - 1].AllocOp? && Cursor(trace[k - 1].state) == i) {
        RunRights(trace, ops, root, z, i, k - 1);
        var a := LastAlloc(trace, ops, i, k).value;
        RightsStay(trace[k - 1].memory, trace[k].memory, root, z, i, ops[a].phys, ops[a].flags,
          RecordOf(trace[a].memory, root, z, i, ops[a].flags));
      }
    }
  }
}
