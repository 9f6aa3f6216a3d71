/** The physical memory of the blocks of a zone: what vm_free_block gives back is what vm_alloc_block was given. */
module BlockFrames {
  import opened Options
  import opened EntryBits
  import opened PageTables
  import opened PageMapping
  import opened PageRanges
  import opened BlockBits
  import opened BlockZone
  import opened BlockAlloc
  import opened BlockRuns

  lemma OwnAddress(z: ZoneInfo, i: nat)
    requires ZoneOk(z) && InZone(z, i)
    ensures InBlock(z, i, Va(z, i)) && OffsetIn(Va(z, i)) == 0
  {
    hide *;
    RunFits(z, i);
    ZonePages(z);
    ZoneAligned(z, i);
    AlignedOffset(Va(z, i), z.pages);
    FirstIs(z, i);
    SameSelf(Va(z, i));
    InBlockIs(z, i, Va(z, i));
    RunMember(First(z, i), First(z, i), Count(z));
  }

  lemma SameSelf(a: Word)
    ensures SameTables(a, a)
  {
  }

  lemma WholeFrame(e: Word, a: Word)
    requires OffsetIn(a) == 0
    ensures AddressIn(e, a) == FrameOf(e)
  {
  }

  /** The frame in the first entry of a live block, which vm_free_block gives back, is what the block translates to. */
  lemma FrameOfLive(m: Memory, root: nat, height: map<nat, nat>, z: ZoneInfo, st: ZoneState, i: nat)
    requires ZoneInv(m, root, height, z, st) && Live(st, i)
    ensures TableAt(m, root, Va(z, i), 0).Some?
    ensures Translate(m, root, Va(z, i)) == Some(FrameOf(Entry(m, TableAt(m, root, Va(z, i), 0).value, First(z, i))))
  {
    hide *;
    InvGives(m, root, height, z, st);
    PlacedGives(m, root, z, st, i);
    LiveCanFree(m, root, height, z, st, i);
    LiveHasTable(m, root, z, i);
    OwnAddress(z, i);
    LiveTranslates(m, root, height, z, i, Va(z, i));
    var pt := TableAt(m, root, Va(z, i), 0).value;
    FirstIs(z, i);
    SamePageTranslates(m, root, Va(z, i), Va(z, i), pt);
    MeaningIs(Entry(m, pt, First(z, i)), Va(z, i));
    WholeFrame(Entry(m, pt, First(z, i)), Va(z, i));
  }

  lemma MeaningIs(e: Word, a: Word)
    ensures Meaning(e, a).Some? ==> Meaning(e, a) == Some(AddressIn(e, a))
  {
    hide Present, AddressIn;
  }

  /** The address of a live block is in no other block. */
  lemma OtherAddress(m: Memory, root: nat, height: map<nat, nat>, z: ZoneInfo, st: ZoneState, i: nat, c: nat)
    requires ZoneInv(m, root, height, z, st) && Live(st, i) && InZone(z, c) && c != i
    ensures !InBlock(z, c, Va(z, i))
  {
    hide *;
    InvGives(m, root, height, z, st);
    PlacedGives(m, root, z, st, i);
    LiveCanFree(m, root, height, z, st, i);
    LiveHasTable(m, root, z, i);
    RunFits(z, i);
    FirstIs(z, i);
    InBlockIs(z, c, Va(z, i));
    RunMember(First(z, i), First(z, c), Count(z));
    if SameTables(Va(z, i), Va(z, c)) {
      PathSameTables(m, root, Va(z, i), Va(z, c));
      BlocksApart(m, root, height, z, i, c);
      DisjointIs(z, i, c);
    }
  }

  /** A block handed out translates to the frames it was given, and no live block goes elsewhere. */
  lemma AllocFrames(m: Memory, root: nat, height: map<nat, nat>, z: ZoneInfo, st: ZoneState, phys: Word, flags: Word,
          frames: seq<Word>, i: nat)
    requires ZoneInv(m, root, height, z, st) && CanAlloc(m, root, z, st, flags, frames) && Live(Popped(st), i)
    ensures var n := AllocMemory(m, root, z, Cursor(st), phys, flags, frames);
      && (i != Cursor(st) ==> Live(st, i))
      && Translate(n, root, Va(z, i)) == if i == Cursor(st) then Some(FrameOf(phys)) else Translate(m, root, Va(z, i))
  {
    hide *;
    var c := Cursor(st);
    CanAllocGives(m, root, z, st, flags, frames);
    InvGives(m, root, height, z, st);
    var height' := AllocKeeps(m, root, height, z, st, phys, flags, frames);
    var n := AllocMemory(m, root, z, c, phys, flags, frames);
    MappedAt(m, n, root, z, c, phys, Va(z, i));
    if i == c {
      OwnAddress(z, c);
      FirstIs(z, c);
      FirstFrame(phys);
      WholeFrame(phys, Va(z, c));
    } else {
      StillLive(st, i);
      OtherAddress(m, root, height, z, st, i, c);
    }
  }

  lemma FirstFrame(phys: Word)
    ensures PhysAt(phys, 0) == phys
  {
  }

  lemma StillLive(st: ZoneState, i: nat)
    requires Live(Popped(st), i) && i != Cursor(st)
    ensures Live(st, i)
  {
    if st.freed != [] {
      assert st.freed == [st.freed[0]] + st.freed[1..];
    }
  }

  lemma WasLive(st: ZoneState, i: nat, j: nat)
    requires Live(Pushed(st, j), i)
    ensures i != j && Live(st, i)
  {
    assert j in [j] + st.freed;
  }

  lemma FreeFrames(m: Memory, root: nat, height: map<nat, nat>, z: ZoneInfo, st: ZoneState, j: nat, i: nat)
    requires ZoneInv(m, root, height, z, st) && Live(st, j) && Live(Pushed(st, j), i)
    ensures CanFree(m, root, z, st, j) && Live(st, i)
    ensures Translate(FreeMemory(m, root, z, st, j), root, Va(z, i)) == Translate(m, root, Va(z, i))
  {
    hide *;
    WasLive(st, i, j);
    FreeKeeps(m, root, height, z, st, j);
    InvGives(m, root, height, z, st);
    PlacedGives(m, root, z, st, j);
    LiveCanFree(m, root, height, z, st, j);
    OtherAddress(m, root, height, z, st, i, j);
  }

  // ----- whole runs

  lemma PoppedLive(z: ZoneInfo, st: ZoneState, i: nat)
    requires StateOk(z, st)
    ensures Live(Popped(st), i) <==> Live(st, i) || i == Cursor(st)
  {
    if st.freed != [] {
      assert st.freed == [st.freed[0]] + st.freed[1..] && st.freed[0] in st.freed;
    }
  }

  lemma PushedLive(st: ZoneState, j: nat, i: nat)
    requires Live(st, j)
    ensures Live(Pushed(st, j), i) <==> Live(st, i) && i != j
    ensures Cursor(Pushed(st, j)) == j
  {
  }

  /** In every run an allocation makes exactly the block at the cursor live, and a free exactly its block no longer
      live, and next to be handed out. */
  lemma RunMeans(trace: seq<Space>, ops: seq<Op>, root: nat, z: ZoneInfo, k: nat, i: nat)
    requires BlockRuns.Run(trace, ops, root, z) && Good(trace[0], root, z) && k < |ops|
    ensures var (s, t) := (trace[k].state, trace[k + 1].state);
            match ops[k]
            case AllocOp(_, _, _) => !Live(s, Cursor(s)) && (Live(t, i) <==> Live(s, i) || i == Cursor(s))
            case FreeOp(j) => Live(s, j) && Cursor(t) == j && (Live(t, i) <==> Live(s, i) && i != j)
  {
    hide Good, Live, Cursor, Popped, Pushed, CanAlloc, CanFree, AllocMemory, FreeMemory, StateOk;
    RunKeeps(trace, ops, root, z, k);
    assert StepTo(trace[k], ops[k], trace[k + 1], root, z);
    match ops[k]
    case AllocOp(_, _, _) =>
      GoodState(trace[k], root, z);
      PoppedLive(z, trace[k].state, i);
    case FreeOp(j) => PushedLive(trace[k].state, j, i);
  }

  lemma GoodState(s: Space, root: nat, z: ZoneInfo)
    requires Good(s, root, z)
    ensures StateOk(z, s.state)
  {
    hide StateOk, ZoneInv;
    var height: map<nat, nat> :| ZoneInv(s.memory, root, height, z, s.state);
    InvGives(s.memory, root, height, z, s.state);
  }

  /** The physical block that the last allocation of block `i` before step `k` was given. */
  ghost function LastGiven(trace: seq<Space>, ops: seq<Op>, i: nat, k: nat): Option<Word>
    requires |trace| == |ops| + 1 && k <= |ops|
  {
    if k == 0 then None
    else if ops[k - 1].AllocOp? && Cursor(trace[k - 1].state) == i then Some(ops[k - 1].phys)
    else LastGiven(trace, ops, i, k - 1)
  }

  lemma StepFrames(s: Space, root: nat, z: ZoneInfo, op: Op, i: nat)
    requires Good(s, root, z) && Legal(s, root, z, op) && Live(Step(s, root, z, op).state, i)
    ensures var t := Step(s, root, z, op);
      if op.AllocOp? && Cursor(s.state) == i then Translate(t.memory, root, Va(z, i)) == Some(FrameOf(op.phys))
      else Live(s.state, i) && Translate(t.memory, root, Va(z, i)) == Translate(s.memory, root, Va(z, i))
  {
    hide ZoneInv, CanAlloc, CanFree, AllocMemory, FreeMemory, Popped, Pushed, Cursor, Live, Translate, Va, FrameOf;
    var height: map<nat, nat> :| ZoneInv(s.memory, root, height, z, s.state);
    match op
    case AllocOp(phys, flags, frames) =>
      AllocFrames(s.memory, root, height, z, s.state, phys, flags, frames, i);
    case FreeOp(j) =>
      FreeFrames(s.memory, root, height, z, s.state, j, i);
  }

  lemma NoneLive(i: nat)
    ensures !Live(ZoneState([], 0), i)
  {
  }

  /** In every run from an unused zone a live block translates to the physical block that its last allocation was given,
      so that is what freeing it gives back. */
  lemma {:induction false} RunFrames(trace: seq<Space>, ops: seq<Op>, root: nat, z: ZoneInfo, i: nat, k: nat)
    requires BlockRuns.Run(trace, ops, root, z) && Good(trace[0], root, z) && trace[0].state == ZoneState([], 0)
    requires k < |trace| && Live(trace[k].state, i)
    ensures LastGiven(trace, ops, i, k).Some?
    ensures Translate(trace[k].memory, root, Va(z, i)) == Some(FrameOf(LastGiven(trace, ops, i, k).value))
  {
    hide Good, Legal, Step, Live, Translate, Va, FrameOf, Cursor;
    if k == 0 {
      NoneLive(i);
    } else {
      RunKeeps(trace, ops, root, z, k - 1);
      assert StepTo(trace[k - 1], ops[k - 1], trace[k - 1 + 1], root, z);
      StepFrames(trace[k - 1], root, z, ops[k - 1], i);
      if !(ops[k - 1].AllocOp? && Cursor(trace[k - 1].state) == i) {
        RunFrames(trace, ops, root, z, i, k - 1);
      }
    }
  }
}
