/** What making new tables does to the paths of other addresses and to the page tables there were. */
module PageGrowth {
  import opened Options
  import opened EntryBits
  import opened PageTables
  import opened PageMapping
  import opened PageRanges
  import opened BlockBits

  /** The path of `b` ends where it did, or it is the path of `va`, which is new. */
  ghost predicate PathKept(m: Memory, n: Memory, root: nat, va: Word, b: Word) {
    TableAt(n, root, b, 0) == TableAt(m, root, b, 0) || (TableAt(m, root, b, 0) == None && SameTables(b, va))
  }

  /** Tables at height 0 are as they were. */
  ghost predicate SameLeaves(m: Memory, n: Memory, height: map<nat, nat>) {
    forall t: nat, i: nat :: t in height && height[t] == 0 ==> Entry(n, t, i) == Entry(m, t, i)
  }

  /** After linking table `c` at height `h - 1` into the path of `va`, the path of `b` at height `k` is as before, or
      has just reached the new table along the path of `va`. */
  ghost predicate OnlyNew(m: Memory, n: Memory, root: nat, va: Word, h: nat, c: nat, b: Word, k: nat)
    requires k <= 3
  {
    || TableAt(n, root, b, k) == TableAt(m, root, b, k)
    || (k + 1 == h && TableAt(m, root, b, k) == None && TableAt(n, root, b, k) == Some(c)
        && forall x: nat :: k < x <= 3 ==> Index(b, x) == Index(va, x))
  }

  lemma {:induction false} AddTablePaths(m: Memory, root: nat, height: map<nat, nat>, t: nat, va: Word, flags: Word,
          h: nat, frame: Word, b: Word, k: nat)
    requires Tree(m, root, height) && 0 < h <= 3 && TableAt(m, root, va, h) == Some(t) && k <= 3
    requires t in m && |m[t]| == 512 && TableOf(frame) !in m && !Asks(flags, VM_HUGEPAGE) &&
             !Present(Entry(m, t, Index(va, h)))
    ensures OnlyNew(m, AddTable(m, t, va, flags, h, frame), root, va, h, TableOf(frame), b, k)
    decreases 3 - k
  {
    if k < 3 {
      AddTablePaths(m, root, height, t, va, flags, h, frame, b, k + 1);
      AddTablePathStep(m, root, height, t, va, flags, h, frame, b, k);
    }
  }

  lemma AddTablePathStep(m: Memory, root: nat, height: map<nat, nat>, t: nat, va: Word, flags: Word, h: nat,
          frame: Word, b: Word, k: nat)
    requires Tree(m, root, height) && 0 < h <= 3 && TableAt(m, root, va, h) == Some(t) && k < 3
    requires t in m && |m[t]| == 512 && TableOf(frame) !in m && !Asks(flags, VM_HUGEPAGE) &&
             !Present(Entry(m, t, Index(va, h)))
    requires OnlyNew(m, AddTable(m, t, va, flags, h, frame), root, va, h, TableOf(frame), b, k + 1)
    ensures OnlyNew(m, AddTable(m, t, va, flags, h, frame), root, va, h, TableOf(frame), b, k)
  {
    var n := AddTable(m, t, va, flags, h, frame);
    var i := Index(b, k + 1);
    PathStep(m, root, b, k);
    PathStep(n, root, b, k);
    hide Index, TableOf, Entry, Links, Present, Huge, AddTable, Tree, Asks, Mapped, TableAt;
    if TableAt(n, root, b, k + 1) == TableAt(m, root, b, k + 1) {
      if TableAt(m, root, b, k + 1).Some? {
        var p := TableAt(m, root, b, k + 1).value;
        TableAtHeight(m, root, height, b, k + 1);
        AddTableIs(m, t, va, flags, h, frame, p, i);
        if p == t && i == Index(va, h) {
          NewBranch(m, root, height, t, va, flags, h, frame, b, k);
        }
      }
    } else {
      AddTableIs(m, t, va, flags, h, frame, TableOf(frame), i);
      NoLink(Entry(n, TableOf(frame), i), k + 1);
    }
  }

  /** Where the new table hangs, the path of `b` has been that of `va`. */
  lemma NewBranch(m: Memory, root: nat, height: map<nat, nat>, t: nat, va: Word, flags: Word, h: nat, frame: Word,
          b: Word, k: nat)
    requires Tree(m, root, height) && 0 < h <= 3 && TableAt(m, root, va, h) == Some(t) && k < 3
    requires t in m && |m[t]| == 512 && TableOf(frame) !in m && !Asks(flags, VM_HUGEPAGE) &&
             !Present(Entry(m, t, Index(va, h)))
    requires TableAt(m, root, b, k + 1) == Some(t) && Index(b, k + 1) == Index(va, h)
    ensures k + 1 == h && !Links(Entry(m, t, Index(b, k + 1)), k + 1)
    ensures var e := Entry(AddTable(m, t, va, flags, h, frame), t, Index(b, k + 1));
            Links(e, k + 1) && TableOf(e) == TableOf(frame)
    ensures forall x: nat :: k < x <= 3 ==> Index(b, x) == Index(va, x)
  {
    hide Index, TableOf, Entry, Present, Huge, AddTable, Tree, Asks, Mapped, TableAt;
    TableAtHeight(m, root, height, va, h);
    TableAtHeight(m, root, height, b, k + 1);
    PathUnique(m, root, height, va, b, h);
    AddTableIs(m, t, va, flags, h, frame, t, Index(va, h));
    MappedTable(Entry(m, t, Index(va, h)), frame, flags);
  }

  lemma NoLink(e: Word, h: nat)
    ensures !Present(e) ==> !Links(e, h)
  {
  }

  lemma NewEntries(m: Memory, t: nat, flags: Word, i: nat)
    requires t in m && m[t] == NewTable(flags)
    ensures Untouched(Entry(m, t, i))
  {
    FirstUntouched(flags);
    ZeroUntouched();
    hide Untouched, FirstEntry;
  }

  lemma FirstUntouched(flags: Word)
    ensures Untouched(FirstEntry(flags))
  {
  }

  lemma ZeroUntouched()
    ensures Untouched(0)
  {
  }

  /** A page table that was just made: every entry zero or a record of how the table was allocated. */
  ghost predicate AllUntouched(m: Memory, t: nat) {
    forall i: nat :: Untouched(Entry(m, t, i))
  }

  lemma AddTableFresh(m: Memory, t: nat, va: Word, flags: Word, h: nat, frame: Word)
    requires t in m && |m[t]| == 512 && TableOf(frame) !in m
    ensures AllUntouched(AddTable(m, t, va, flags, h, frame), TableOf(frame))
  {
    IndexBound(va, h);
    var n := AddTable(m, t, va, flags, h, frame);
    assert n[TableOf(frame)] == NewTable(flags);
    hide AddTable, Untouched, Entry;
    forall i: nat
      ensures Untouched(Entry(n, TableOf(frame), i))
    {
      NewEntries(n, TableOf(frame), flags, i);
    }
  }

  /** The page table that growing ends at is a table as it is made. */
  lemma {:induction false} GrowLast(m: Memory, t: nat, va: Word, flags: Word, h: nat, frames: seq<Word>)
    requires t in m && |m[t]| == 512 && NewFrames(m, frames, h) && h > 0
    ensures var (n, pt) := Grow(m, t, va, flags, h, frames); pt in n && n[pt] == NewTable(flags)
    decreases h
  {
    hide *;
    GrowStep(m, t, va, flags, h, frames);
    var o := AddTable(m, t, va, flags, h, frames[0]);
    if h == 1 {
      AddTableNew(m, t, va, flags, h, frames[0]);
      GrowNone(o, TableOf(frames[0]), va, flags, frames[1..]);
    } else {
      GrowLast(o, TableOf(frames[0]), va, flags, h - 1, frames[1..]);
    }
  }

  lemma AddTableNew(m: Memory, t: nat, va: Word, flags: Word, h: nat, frame: Word)
    requires t in m && |m[t]| == 512 && TableOf(frame) !in m
    ensures var n := AddTable(m, t, va, flags, h, frame); TableOf(frame) in n && n[TableOf(frame)] == NewTable(flags)
  {
    IndexBound(va, h);
    hide Index, TableOf, Entry, Mapped, NewTable;
  }

  lemma FoundNew(m: Memory, root: nat, height: map<nat, nat>, va: Word, flags: Word, frames: seq<Word>)
    requires Tree(m, root, height) && Plain(m, root, va) && NewFrames(m, frames, 3)
    ensures var f := FindOrAllocate(m, root, va, flags, frames);
            f.made > 0 ==> f.pt.Some? && f.pt.value in f.memory && f.memory[f.pt.value] == NewTable(flags)
  {
    hide Index, TableOf, Entry, Present, Huge, Tree, Asks, TableAt, NewFrames, Traverse, Plain, Grow, NewTable;
    RootOfPath(m, root, va);
    TraverseOnPath(m, root, va, flags, root, 3);
    var s := Traverse(m, root, va, flags, 3);
    TableAtHeight(m, root, height, va, s.height);
    FewerFrames(m, frames, s.height);
    if s.status == Unmapped {
      GrowLast(m, s.table, va, flags, s.height, frames);
    }
  }

  lemma AddTableLeaves(m: Memory, height: map<nat, nat>, t: nat, va: Word, flags: Word, h: nat, frame: Word)
    requires t in height && height[t] == h > 0 && t in m && |m[t]| == 512 && TableOf(frame) !in m
    requires forall u :: u in height ==> u in m
    ensures SameLeaves(m, AddTable(m, t, va, flags, h, frame), height)
  {
    hide Index, TableOf, Entry, AddTable, Mapped;
    forall u: nat, i: nat | u in height && height[u] == 0
      ensures Entry(AddTable(m, t, va, flags, h, frame), u, i) == Entry(m, u, i)
    {
      AddTableIs(m, t, va, flags, h, frame, u, i);
    }
  }

  lemma TreeTables(m: Memory, root: nat, height: map<nat, nat>)
    requires Tree(m, root, height)
    ensures forall u :: u in height ==> u in m
  {
    forall u | u in height
      ensures u in m
    {
      assert TableOk(m, height, u);
    }
  }

  lemma AllIndices(b: Word, va: Word)
    requires forall x: nat :: 0 < x <= 3 ==> Index(b, x) == Index(va, x)
    ensures SameTables(b, va)
  {
    hide Index;
  }

  /** Growing touches no page table there was and no path there was; what it makes is untouched. */
  lemma {:induction false} GrowPaths(m: Memory, root: nat, height: map<nat, nat>, t: nat, va: Word, flags: Word, h: nat,
          frames: seq<Word>, b: Word)
    requires Tree(m, root, height) && h <= 3 && TableAt(m, root, va, h) == Some(t) && t in m && |m[t]| == 512
    requires NewFrames(m, frames, h) && !Asks(flags, VM_HUGEPAGE)
    requires h > 0 ==> !Present(Entry(m, t, Index(va, h)))
    ensures var (n, pt) := Grow(m, t, va, flags, h, frames);
      PathKept(m, n, root, va, b) && SameLeaves(m, n, height) && (h > 0 ==> pt !in m && AllUntouched(n, pt))
    decreases h
  {
    hide Index, TableOf, Entry, Present, Huge, AddTable, Mapped, Tree, Asks, TableAt, NewFrames, SameTables, Untouched,
         AllUntouched;
    if h > 0 {
      NewFrame(m, frames, h);
      TreeTables(m, root, height);
      AddTableStep(m, root, height, t, va, flags, h, frames[0]);
      var n, c := AddTable(m, t, va, flags, h, frames[0]), TableOf(frames[0]);
      AddTableKeys(m, t, va, flags, h, frames[0]);
      LessFrames(m, n, frames, h);
      AddTableFresh(m, t, va, flags, h, frames[0]);
      AddTableLeaves(m, height, t, va, flags, h, frames[0]);
      AddTablePaths(m, root, height, t, va, flags, h, frames[0], b, 0);
      if h == 1 && TableAt(n, root, b, 0) != TableAt(m, root, b, 0) {
        AllIndices(b, va);
      }
      GrowPaths(n, root, height[c := h - 1], c, va, flags, h - 1, frames[1..], b);
    }
  }

  /** The same for finding or making a page table. */
  lemma FindPaths(m: Memory, root: nat, height: map<nat, nat>, va: Word, flags: Word, frames: seq<Word>, b: Word)
    requires Tree(m, root, height) && Plain(m, root, va) && NewFrames(m, frames, 3) && !Asks(flags, VM_HUGEPAGE)
    ensures var f := FindOrAllocate(m, root, va, flags, frames);
      PathKept(m, f.memory, root, va, b) && SameLeaves(m, f.memory, height)
      && (f.made > 0 ==> f.pt.Some? && f.pt.value !in m && AllUntouched(f.memory, f.pt.value))
      && (f.made == 0 ==> f.memory == m)
  {
    hide Index, TableOf, Entry, Present, Huge, Tree, Asks, TableAt, NewFrames, Traverse, Plain, Grow, AllUntouched,
         SameTables;
    RootOfPath(m, root, va);
    TraverseOnPath(m, root, va, flags, root, 3);
    TraverseStatus(m, root, va, flags, 3);
    var s := Traverse(m, root, va, flags, 3);
    TableAtHeight(m, root, height, va, s.height);
    FewerFrames(m, frames, s.height);
    if s.status == Unmapped {
      GrowPaths(m, root, height, s.table, va, flags, s.height, frames, b);
    }
  }

  // ----- no huge page appears

  lemma UntouchedPlain(e: Word)
    ensures Untouched(e) ==> !Huge(e) && !Present(e)
  {
  }

  lemma AddTablePlain(m: Memory, root: nat, height: map<nat, nat>, t: nat, va: Word, flags: Word, h: nat, frame: Word,
          b: Word)
    requires Tree(m, root, height) && 0 < h <= 3 && TableAt(m, root, va, h) == Some(t)
    requires t in m && |m[t]| == 512 && TableOf(frame) !in m && !Asks(flags, VM_HUGEPAGE) &&
             !Present(Entry(m, t, Index(va, h)))
    requires Plain(m, root, b)
    ensures Plain(AddTable(m, t, va, flags, h, frame), root, b)
  {
    var n, i := AddTable(m, t, va, flags, h, frame), Index(b, 1);
    AddTablePaths(m, root, height, t, va, flags, h, frame, b, 1);
    AddTableFresh(m, t, va, flags, h, frame);
    UntouchedPlain(Entry(n, TableOf(frame), i));
    MappedTable(Entry(m, t, Index(va, h)), frame, flags);
    hide Index, TableOf, Entry, Present, Huge, AddTable, Tree, Asks, Mapped, TableAt, Links, Untouched;
    if TableAt(n, root, b, 1) == TableAt(m, root, b, 1) && TableAt(m, root, b, 1).Some? {
      var p := TableAt(m, root, b, 1).value;
      TableAtHeight(m, root, height, b, 1);
      AddTableIs(m, t, va, flags, h, frame, p, i);
    }
  }

  lemma {:induction false} GrowPlain(m: Memory, root: nat, height: map<nat, nat>, t: nat, va: Word, flags: Word, h: nat,
          frames: seq<Word>, b: Word)
    requires Tree(m, root, height) && h <= 3 && TableAt(m, root, va, h) == Some(t) && t in m && |m[t]| == 512
    requires NewFrames(m, frames, h) && !Asks(flags, VM_HUGEPAGE)
    requires h > 0 ==> !Present(Entry(m, t, Index(va, h)))
    requires Plain(m, root, b)
    ensures Plain(Grow(m, t, va, flags, h, frames).0, root, b)
    decreases h
  {
    hide *;
    if h > 0 {
      GrowStep(m, t, va, flags, h, frames);
      AddTableStep(m, root, height, t, va, flags, h, frames[0]);
      AddTablePlain(m, root, height, t, va, flags, h, frames[0], b);
      GrowPlain(AddTable(m, t, va, flags, h, frames[0]), root, height[TableOf(frames[0]) := h - 1], TableOf(frames[0]),
                va, flags, h - 1, frames[1..], b);
    } else {
      GrowNone(m, t, va, flags, frames);
    }
  }

  lemma FindPlain(m: Memory, root: nat, height: map<nat, nat>, va: Word, flags: Word, frames: seq<Word>, b: Word)
    requires Tree(m, root, height) && Plain(m, root, va) && NewFrames(m, frames, 3) && !Asks(flags, VM_HUGEPAGE) &&
             Plain(m, root, b)
    ensures Plain(FindOrAllocate(m, root, va, flags, frames).memory, root, b)
  {
    hide Index, TableOf, Entry, Present, Huge, Tree, Asks, TableAt, NewFrames, Traverse, Plain, Grow;
    RootOfPath(m, root, va);
    TraverseOnPath(m, root, va, flags, root, 3);
    TraverseStatus(m, root, va, flags, 3);
    var s := Traverse(m, root, va, flags, 3);
    TableAtHeight(m, root, height, va, s.height);
    FewerFrames(m, frames, s.height);
    if s.status == Unmapped {
      GrowPlain(m, root, height, s.table, va, flags, s.height, frames, b);
    }
  }
}
