/** vm_alloc_block and vm_free_block as wholes: what every run of them keeps, round trips, and the source text. */
module BlockRuns {
  import opened Options
  import opened EntryBits
  import opened PageTables
  import opened PageMapping
  import opened PageRanges
  import opened BlockBits
  import opened PageGrowth
  import opened BlockZone
  import opened BlockAlloc

  /** The conditions under which vm_alloc_block is called: the zone is not used up, the page tables on the way grant the
      access asked for, and new frames are at hand. */
  ghost predicate CanAlloc(m: Memory, root: nat, z: ZoneInfo, st: ZoneState, flags: Word, frames: seq<Word>) {
    && InZone(z, Cursor(st)) && NewFrames(m, frames, 3) && !Asks(flags, VM_HUGEPAGE)
    && Traverse(m, root, Va(z, Cursor(st)), flags, 3).status != Privilege
  }

  /** The tables after vm_alloc_block. */
  ghost function AllocMemory(m: Memory, root: nat, z: ZoneInfo, c: nat, phys: Word, flags: Word,
          frames: seq<Word>): Memory
    requires NewFrames(m, frames, 3)
  {
    var n := FindPrepared(m, root, z, c, flags, frames);
    if HasTable(n, root, z, c) then TakeMemory(n, root, z, c, phys, flags) else n
  }

  /** vm_alloc_block hands out the block at the cursor, which was not live; its pages translate to consecutive frames,
      no other address changes, and the entry it took leads to the next block to hand out. */
  lemma AllocKeeps(m: Memory, root: nat, height: map<nat, nat>, z: ZoneInfo, st: ZoneState, phys: Word, flags: Word,
          frames: seq<Word>)
    returns (height': map<nat, nat>)
    requires ZoneInv(m, root, height, z, st) && CanAlloc(m, root, z, st, flags, frames)
    ensures !Live(st, Cursor(st)) && Live(Popped(st), Cursor(st))
    ensures var n := FindPrepared(m, root, z, Cursor(st), flags, frames);
      HasTable(n, root, z, Cursor(st)) && NextCursor(n, root, z, Cursor(st)) == Addr(z, Cursor(Popped(st)))
    ensures var n := AllocMemory(m, root, z, Cursor(st), phys, flags, frames);
      ZoneInv(n, root, height', z, Popped(st)) && BlockMapped(m, n, root, z, Cursor(st), phys)
  {
    hide *;
    var c := Cursor(st);
    CanAllocGives(m, root, z, st, flags, frames);
    InvGives(m, root, height, z, st);
    var pt;
    height', pt := FindPreparedKeeps(m, root, height, z, c, flags, frames);
    var n := FindPrepared(m, root, z, c, flags, frames);
    KeptPlaced(m, n, root, z, st);
    PoppedState(z, st);
    NextIsPopped(n, root, z, st);
    TakeKeeps(n, root, height', z, st, phys, flags);
    HasTableGives(n, root, z, c);
    AllocMemoryIs(m, root, z, c, phys, flags, frames);
    InvIs(TakeMemory(n, root, z, c, phys, flags), root, height', z, Popped(st));
    MappedFrom(m, n, TakeMemory(n, root, z, c, phys, flags), root, z, c, phys);
  }

  lemma CanAllocGives(m: Memory, root: nat, z: ZoneInfo, st: ZoneState, flags: Word, frames: seq<Word>)
    requires CanAlloc(m, root, z, st, flags, frames)
    ensures InZone(z, Cursor(st)) && NewFrames(m, frames, 3) && !Asks(flags, VM_HUGEPAGE)
    ensures Traverse(m, root, Va(z, Cursor(st)), flags, 3).status != Privilege
  {
    hide Asks, Traverse, NewFrames, Va;
  }

  lemma InvGives(m: Memory, root: nat, height: map<nat, nat>, z: ZoneInfo, st: ZoneState)
    requires ZoneInv(m, root, height, z, st)
    ensures Tree(m, root, height) && ZoneOk(z) && StateOk(z, st) && PlainOk(m, root, z) && Placed(m, root, z, st)
  {
    hide Tree, ZoneOk, StateOk, PlainOk, FreedOk, NewOk, LiveOk;
  }

  lemma InvIs(m: Memory, root: nat, height: map<nat, nat>, z: ZoneInfo, st: ZoneState)
    requires Tree(m, root, height) && ZoneOk(z) && StateOk(z, st) && PlainOk(m, root, z) && Placed(m, root, z, st)
    ensures ZoneInv(m, root, height, z, st)
  {
    hide Tree, ZoneOk, StateOk, PlainOk, FreedOk, NewOk, LiveOk;
  }

  lemma AllocMemoryIs(m: Memory, root: nat, z: ZoneInfo, c: nat, phys: Word, flags: Word, frames: seq<Word>)
    requires NewFrames(m, frames, 3) && HasTable(FindPrepared(m, root, z, c, flags, frames), root, z, c)
    ensures AllocMemory(m, root, z, c, phys, flags, frames) ==
            TakeMemory(FindPrepared(m, root, z, c, flags, frames), root, z, c, phys, flags)
  {
    hide FindPrepared, TakeMemory, HasTable;
  }

  lemma MappedFrom(m: Memory, n: Memory, o: Memory, root: nat, z: ZoneInfo, c: nat, phys: Word)
    requires SameTranslation(m, n, root) && BlockMapped(n, o, root, z, c, phys)
    ensures BlockMapped(m, o, root, z, c, phys)
  {
    hide Translate, InBlock, AddressIn, PhysAt, Index, First;
  }

  // ----- round trips

  /** Freeing a block and allocating again returns that block and brings the cursor back. */
  lemma FreeThenAlloc(m: Memory, root: nat, height: map<nat, nat>, z: ZoneInfo, st: ZoneState, i: nat)
    requires ZoneInv(m, root, height, z, st) && Live(st, i)
    ensures CanFree(m, root, z, st, i)
    ensures Cursor(Pushed(st, i)) == i && Popped(Pushed(st, i)) == st
    ensures TableAt(FreeMemory(m, root, z, st, i), root, Va(z, i), 0).Some?
    ensures NextCursor(FreeMemory(m, root, z, st, i), root, z, i) == Addr(z, Cursor(st))
  {
    hide *;
    FreeKeeps(m, root, height, z, st, i);
    CanFreeGives(m, root, z, st, i);
    PushPop(st, i);
    var n := FreeMemory(m, root, z, st, i);
    InvGives(n, root, height, z, Pushed(st, i));
    FirstHasTable(n, root, z, Pushed(st, i));
    FirstInZone(z, Pushed(st, i));
    NextIsPopped(n, root, z, Pushed(st, i));
  }

  lemma PushPop(st: ZoneState, i: nat)
    ensures Cursor(Pushed(st, i)) == i && Popped(Pushed(st, i)) == st && Pushed(st, i).freed != []
  {
    assert ([i] + st.freed)[1..] == st.freed;
  }

  lemma FirstHasTable(m: Memory, root: nat, z: ZoneInfo, st: ZoneState)
    requires Placed(m, root, z, st) && st.freed != []
    ensures TableAt(m, root, Va(z, Cursor(st)), 0).Some?
  {
    hide TableAt, Va, LeadsTo, NewOk, LiveOk;
    assert FreeBlock(m, root, z, st.freed[0], Following(st, 0));
  }

  lemma FirstInZone(z: ZoneInfo, st: ZoneState)
    requires StateOk(z, st) && st.freed != []
    ensures InZone(z, Cursor(st))
  {
    assert st.freed[0] in st.freed;
  }

  lemma PopPush(st: ZoneState)
    ensures Pushed(Popped(st), Cursor(st)) == if st.freed == [] then ZoneState([st.used], st.used + 1) else st
  {
    if st.freed != [] {
      assert [st.freed[0]] + st.freed[1..] == st.freed;
    }
  }

  /** Without a page table, and with no huge page on the way, an address does not translate. */
  lemma NoTable(m: Memory, root: nat, b: Word)
    requires Plain(m, root, b) && TableAt(m, root, b, 0) == None
    ensures Translate(m, root, b) == None
  {
    hide Index, TableOf, Entry, Present, Huge, AddressIn, HugeAddressIn;
    if TableAt(m, root, b, 1).Some? {
      WalkFrom(m, root, b, 1);
    } else if TableAt(m, root, b, 2).Some? {
      WalkFrom(m, root, b, 2);
    }
  }

  lemma PlainSame(m: Memory, root: nat, a: Word, b: Word)
    requires Plain(m, root, a) && SameTables(b, a)
    ensures Plain(m, root, b)
  {
    hide Index, Entry, Huge, TableAt;
    PathSame(m, root, b, a, 1);
  }

  /** An address of a block that maps nothing. */
  lemma FreeUnmapped(m: Memory, root: nat, z: ZoneInfo, i: nat, b: Word)
    requires Plain(m, root, Va(z, i)) && InBlock(z, i, b)
    requires TableAt(m, root, Va(z, i), 0).Some? ==>
             EmptyRun(m, TableAt(m, root, Va(z, i), 0).value, First(z, i), Count(z))
    ensures Translate(m, root, b) == None
  {
    hide Plain, TableAt, Va, First, Count, Index, Entry, Present, SameTables, Translate;
    PathSameTables(m, root, b, Va(z, i));
    if TableAt(m, root, Va(z, i), 0).Some? {
      var pt := TableAt(m, root, Va(z, i), 0).value;
      SamePageTranslates(m, root, b, b, pt);
      AbsentMeans(Entry(m, pt, Index(b, 0)), b);
    } else {
      PlainSame(m, root, Va(z, i), b);
      NoTable(m, root, b);
    }
  }

  lemma CursorUnmapped(m: Memory, root: nat, z: ZoneInfo, st: ZoneState, b: Word)
    requires PlainOk(m, root, z) && Placed(m, root, z, st) && InZone(z, Cursor(st)) && InBlock(z, Cursor(st), b)
    ensures Translate(m, root, b) == None
  {
    hide Plain, TableAt, Va, InBlock, EmptyRun, Translate, NextFree, LiveOk, Count, First, Addr;
    if st.freed == [] {
      assert NewBlock(m, root, z, st.used);
    } else {
      assert FreeBlock(m, root, z, st.freed[0], Following(st, 0));
    }
    FreeUnmapped(m, root, z, Cursor(st), b);
  }

  lemma MappedAt(m: Memory, n: Memory, root: nat, z: ZoneInfo, c: nat, phys: Word, b: Word)
    requires BlockMapped(m, n, root, z, c, phys)
    ensures InBlock(z, c, b) ==>
            Index(b, 0) >= First(z, c) &&
              Translate(n, root, b) == Some(AddressIn(PhysAt(phys, Index(b, 0) - First(z, c)), b))
    ensures !InBlock(z, c, b) ==> Translate(n, root, b) == Translate(m, root, b)
  {
    hide Translate, AddressIn, PhysAt, Index, First, Count, SameTables, Va;
  }

  lemma TranslationBack(m: Memory, n: Memory, o: Memory, root: nat, z: ZoneInfo, c: nat, phys: Word)
    requires BlockMapped(m, n, root, z, c, phys)
    requires forall b: Word :: Translate(o, root, b) == if InBlock(z, c, b) then None else Translate(n, root, b)
    requires forall b: Word :: InBlock(z, c, b) ==> Translate(m, root, b) == None
    ensures SameTranslation(m, o, root)
  {
    hide Translate, InBlock, AddressIn, PhysAt, Index, First, BlockMapped;
    forall b
      ensures Translate(o, root, b) == Translate(m, root, b)
    {
      MappedAt(m, n, root, z, c, phys, b);
    }
  }

  /** Allocating and freeing the block again leaves every translation as it was and the cursor at that block; the blocks
      are as they were, but that a block never used before is now the first freed one. */
  lemma AllocThenFree(m: Memory, root: nat, height: map<nat, nat>, z: ZoneInfo, st: ZoneState, phys: Word, flags: Word,
          frames: seq<Word>)
    returns (height': map<nat, nat>)
    requires ZoneInv(m, root, height, z, st) && CanAlloc(m, root, z, st, flags, frames)
    ensures CanFree(AllocMemory(m, root, z, Cursor(st), phys, flags, frames), root, z, Popped(st), Cursor(st))
    ensures var o := FreeMemory(AllocMemory(m, root, z, Cursor(st), phys, flags, frames), root, z, Popped(st),
            Cursor(st));
      var back := if st.freed == [] then ZoneState([st.used], st.used + 1) else st;
      ZoneInv(o, root, height', z, back) && Cursor(back) == Cursor(st) && SameTranslation(m, o, root)
  {
    hide *;
    var c, t := Cursor(st), Popped(st);
    CanAllocGives(m, root, z, st, flags, frames);
    InvGives(m, root, height, z, st);
    height' := AllocKeeps(m, root, height, z, st, phys, flags, frames);
    var n := AllocMemory(m, root, z, c, phys, flags, frames);
    FreeKeeps(n, root, height', z, t, c);
    PopPush(st);
    PushPop(t, c);
    CanFreeGives(n, root, z, t, c);
    var o := FreeMemory(n, root, z, t, c);
    forall b: Word | InBlock(z, c, b)
      ensures Translate(m, root, b) == None
    {
      CursorUnmapped(m, root, z, st, b);
    }
    TranslationBack(m, n, o, root, z, c, phys);
  }

  // ----- whole runs

  datatype Op = AllocOp(phys: Word, flags: Word, frames: seq<Word>) | FreeOp(i: nat)

  datatype Space = Space(memory: Memory, state: ZoneState)

  ghost predicate Good(s: Space, root: nat, z: ZoneInfo) {
    exists height: map<nat, nat> :: ZoneInv(s.memory, root, height, z, s.state)
  }

  /** The addresses of the zone go through this page table or through none. */
  ghost predicate OnlyTable(m: Memory, root: nat, z: ZoneInfo, pt: nat) {
    forall i: nat :: InZone(z, i) ==> TableAt(m, root, Va(z, i), 0) in {None, Some(pt)}
  }

  /** The state that vmspace_init leaves a zone in, before any block is used: its first page table, just made, is
      prepared. */
  lemma StartGood(m: Memory, root: nat, height: map<nat, nat>, z: ZoneInfo, pt: nat)
    requires Tree(m, root, height) && ZoneOk(z) && PlainOk(m, root, z) && OnlyTable(m, root, z, pt)
    requires pt in height && height[pt] == 0 && pt in m && |m[pt]| == 512 && AllUntouched(m, pt)
    ensures Good(Space(Prepare(m, pt, z.pages), ZoneState([], 0)), root, z)
  {
    hide Tree, TableAt, ZoneOk, Va, Entry, LeadsTo, FreeBlock, LiveBlock, AllUntouched, Prepare, OnlyEntries, Plain;
    var n := Prepare(m, pt, z.pages);
    PrepareOnly(m, pt, z.pages);
    EntriesTree(m, n, root, height, pt, BlockZone.Run(0, 512));
    forall i: nat | InZone(z, i)
      ensures NewBlock(n, root, z, i) && Plain(n, root, Va(z, i))
    {
      EntriesPath(m, n, root, height, pt, BlockZone.Run(0, 512), Va(z, i), 0);
      EntriesPlain(m, n, root, height, pt, BlockZone.Run(0, 512), Va(z, i));
      NewTableBlock(m, z, i, pt);
    }
    assert ZoneInv(n, root, height, z, ZoneState([], 0));
  }

  /** Callers free only blocks that are live. */
  ghost predicate Legal(s: Space, root: nat, z: ZoneInfo, op: Op) {
    match op
    case AllocOp(phys, flags, frames) => CanAlloc(s.memory, root, z, s.state, flags, frames)
    case FreeOp(i) => Live(s.state, i) && CanFree(s.memory, root, z, s.state, i)
  }

  ghost function Step(s: Space, root: nat, z: ZoneInfo, op: Op): Space
    requires Legal(s, root, z, op)
  {
    match op
    case AllocOp(phys, flags, frames) => Space(AllocMemory(s.memory, root, z, Cursor(s.state), phys, flags, frames),
      Popped(s.state))
    case FreeOp(i) => Space(FreeMemory(s.memory, root, z, s.state, i), Pushed(s.state, i))
  }

  lemma StepKeeps(s: Space, root: nat, z: ZoneInfo, op: Op)
    requires Good(s, root, z) && Legal(s, root, z, op)
    ensures Good(Step(s, root, z, op), root, z)
  {
    hide ZoneInv, CanAlloc, CanFree, AllocMemory, FreeMemory, Popped, Pushed, Cursor, Live;
    var height: map<nat, nat> :| ZoneInv(s.memory, root, height, z, s.state);
    match op
    case AllocOp(phys, flags, frames) =>
      var height' := AllocKeeps(s.memory, root, height, z, s.state, phys, flags, frames);
    case FreeOp(i) =>
      FreeKeeps(s.memory, root, height, z, s.state, i);
  }

  ghost predicate Run(trace: seq<Space>, ops: seq<Op>, root: nat, z: ZoneInfo) {
    |trace| == |ops| + 1 && forall i :: 0 <= i < |ops| ==> StepTo(trace[i], ops[i], trace[i + 1], root, z)
  }

  ghost predicate StepTo(s: Space, op: Op, next: Space, root: nat, z: ZoneInfo) {
    Legal(s, root, z, op) && next == Step(s, root, z, op)
  }

  /** In every run the entries from the cursor on are the freed blocks, last one first, and then the blocks never used;
      the block that an allocation hands out is not live. */
  lemma {:induction false} RunKeeps(trace: seq<Space>, ops: seq<Op>, root: nat, z: ZoneInfo, i: nat)
    requires Run(trace, ops, root, z) && Good(trace[0], root, z) && i < |trace|
    ensures Good(trace[i], root, z)
    ensures i < |ops| && ops[i].AllocOp? ==>
            !Live(trace[i].state, Cursor(trace[i].state)) && Live(trace[i + 1].state, Cursor(trace[i].state))
  {
    hide Good, Legal, Step;
    if i > 0 {
      RunKeeps(trace, ops, root, z, i - 1);
      assert StepTo(trace[i - 1], ops[i - 1], trace[i - 1 + 1], root, z);
      StepKeeps(trace[i - 1], root, z, ops[i - 1]);
    }
    if i < |ops| && ops[i].AllocOp? {
      assert StepTo(trace[i], ops[i], trace[i + 1], root, z);
      HandsOut(trace[i], root, z, ops[i]);
    }
  }

  lemma HandsOut(s: Space, root: nat, z: ZoneInfo, op: Op)
    requires Good(s, root, z) && Legal(s, root, z, op) && op.AllocOp?
    ensures !Live(s.state, Cursor(s.state)) && Live(Step(s, root, z, op).state, Cursor(s.state))
  {
    hide CanAlloc, Tree, ZoneOk, StateOk, PlainOk, FreedOk, NewOk, LiveOk, AllocMemory, Cursor, Popped, Live;
    CanAllocGives(s.memory, root, z, s.state, op.flags, op.frames);
    PoppedState(z, s.state);
  }

  // ----- the source text of vm_free_block

  /** vm.c:573-575 clears the first entry once for every page, and no other. */
  function FreeAsWritten(m: Memory, root: nat, z: ZoneInfo, st: ZoneState, i: nat): Memory
    requires TableAt(m, root, Va(z, i), 0).Some? && TableAt(m, root, Va(z, i), 0).value in m
    requires Count(z) > 0 && First(z, i) + Count(z) <= |m[TableAt(m, root, Va(z, i), 0).value]|
    requires Distance(Addr(z, i), Addr(z, Cursor(st))) < 0x1_0000_0000_0000_0000
  {
    var pt := TableAt(m, root, Va(z, i), 0).value;
    WriteRun(m, pt, First(z, i), [FreeEntries(m, pt, z, i, Cursor(st))[0]])
  }

  ghost predicate AllUnmapped(m: Memory, root: nat, z: ZoneInfo, i: nat) {
    forall b: Word :: InBlock(z, i, b) ==> Translate(m, root, b) == None
  }

  lemma FreeAsWrittenIs(m: Memory, root: nat, z: ZoneInfo, st: ZoneState, i: nat)
    requires CanFree(m, root, z, st, i)
    ensures var pt := TableAt(m, root, Va(z, i), 0).value; var es := FreeEntries(m, pt, z, i, Cursor(st));
      |es| > 0 && FreeAsWritten(m, root, z, st, i) == WriteRun(m, pt, First(z, i), [es[0]])
  {
    hide TableAt, Va, First, Count, Distance, Addr, Cursor, WriteRun, FreeEntry, Cleared, Entry;
  }

  /** A live block's page translates. */
  lemma LiveTranslates(m: Memory, root: nat, height: map<nat, nat>, z: ZoneInfo, i: nat, b: Word)
    requires Tree(m, root, height) && LiveBlock(m, root, z, i) && InBlock(z, i, b)
    ensures Translate(m, root, b).Some?
  {
    hide Tree, TableAt, Va, First, Count, Index, Entry, Present, SameTables, Translate;
    BlockPath(m, root, height, z, i, b);
    var pt := TableAt(m, root, Va(z, i), 0).value;
    SamePageTranslates(m, root, b, b, pt);
    assert Present(Entry(m, pt, Index(b, 0)));
  }

  /** As written, an address of the freed block is unmapped exactly when it is on the block's first page. */
  lemma WrittenTranslates(m: Memory, root: nat, height: map<nat, nat>, z: ZoneInfo, st: ZoneState, i: nat, b: Word)
    requires ZoneInv(m, root, height, z, st) && Live(st, i) && InBlock(z, i, b)
    ensures CanFree(m, root, z, st, i)
    ensures Translate(FreeAsWritten(m, root, z, st, i), root, b) == None <==> Index(b, 0) == First(z, i)
  {
    hide *;
    InvGives(m, root, height, z, st);
    PlacedGives(m, root, z, st, i);
    LiveCanFree(m, root, height, z, st, i);
    CanFreeGives(m, root, z, st, i);
    FreeAsWrittenIs(m, root, z, st, i);
    CursorInZone(z, st);
    StateLimit(z, st, i);
    var pt := TableAt(m, root, Va(z, i), 0).value;
    var es := FreeEntries(m, pt, z, i, Cursor(st));
    FreeEntriesAre(m, pt, z, i, Cursor(st));
    BlockTranslates(m, root, height, z, i, [es[0]], b);
    InBlockIs(z, i, b);
    RunMember(Index(b, 0), First(z, i), Count(z));
    RunMember(Index(b, 0), First(z, i), 1);
    AbsentMeans(es[0], b);
    LiveTranslates(m, root, height, z, i, b);
  }

  lemma PlacedGives(m: Memory, root: nat, z: ZoneInfo, st: ZoneState, i: nat)
    requires Placed(m, root, z, st) && Live(st, i)
    ensures LiveOk(m, root, z, st) && LiveBlock(m, root, z, i)
  {
    hide FreedOk, NewOk, Live, LiveBlock;
  }

  /** The second page of a block that has one. */
  lemma SecondPage(z: ZoneInfo, i: nat)
    requires ZoneOk(z) && InZone(z, i) && Count(z) >= 2
    ensures InBlock(z, i, Page(Va(z, i), 1)) && Index(Page(Va(z, i), 1), 0) == First(z, i) + 1
  {
    hide *;
    RunFits(z, i);
    FirstIs(z, i);
    var a := Va(z, i);
    FourIndices(a);
    OffsetBounds(a);
    NotLastEntry(PtOffset(a));
    EndsIs(a);
    PageIndex(a, 1, 1);
    OneNumber();
    InBlockIs(z, i, Page(a, 1));
    RunMember(Index(Page(a, 1), 0), First(z, i), Count(z));
  }

  lemma NotLastEntry(x: Word)
    requires x < 512 && AsNumber(x) < 511
    ensures x + 1 < 512
  {
    if x == 511 {
      LastNumber();
    }
    hide AsNumber;
  }

  lemma LastNumber()
    ensures AsNumber(511) == 511
  {
  }

  lemma OneNumber()
    ensures AsNumber(1) == 1
  {
  }

  lemma EndsIs(a: Word)
    requires PtOffset(a) < 512 && PtOffset(a) + 1 < 512
    ensures EndsBefore(a, 1)
  {
    hide PtOffset;
  }

  /** As written vm_free_block leaves no page of the block mapped exactly when blocks are single pages. */
  lemma FreeAsWrittenIff(m: Memory, root: nat, height: map<nat, nat>, z: ZoneInfo, st: ZoneState, i: nat)
    requires ZoneInv(m, root, height, z, st) && Live(st, i)
    ensures CanFree(m, root, z, st, i)
    ensures AllUnmapped(FreeAsWritten(m, root, z, st, i), root, z, i) <==> Count(z) == 1
  {
    InvGives(m, root, height, z, st);
    LiveCanFree(m, root, height, z, st, i) by {
      assert Placed(m, root, z, st);
    }
    RunFits(z, i);
    hide ZoneInv, Tree, ZoneOk, StateOk, PlainOk, Placed, FreedOk, NewOk, LiveOk, Live, CanFree, TableAt, Va, Translate,
         SameTables, Index,
         First, Count, FreeAsWritten, Distance, Addr, Page;
    var n := FreeAsWritten(m, root, z, st, i);
    if Count(z) == 1 {
      forall b: Word | InBlock(z, i, b)
        ensures Translate(n, root, b) == None
      {
        WrittenTranslates(m, root, height, z, st, i, b);
      }
    } else {
      SecondPage(z, i);
      WrittenTranslates(m, root, height, z, st, i, Page(Va(z, i), 1));
    }
  }
}
