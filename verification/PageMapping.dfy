/** Mapping a page: the tables on the way are found or made, the entry is written, and only that page is translated
    anew. */
module PageMapping {
  import opened Options
  import opened EntryBits
  import opened PageTables

  // ----- the path of an address

  /** The table at height `h` that an address goes through. */
  function TableAt(m: Memory, root: nat, va: Word, h: nat): Option<nat>
    requires h <= 3
    decreases 3 - h
  {
    if h == 3 then Some(root)
    else match TableAt(m, root, va, h + 1)
      case None => None
      case Some(p) =>
        if Links(Entry(m, p, Index(va, h + 1)), h + 1) then Some(TableOf(Entry(m, p, Index(va, h + 1)))) else None
  }

  lemma {:induction false} TableAtHeight(m: Memory, root: nat, height: map<nat, nat>, va: Word, h: nat)
    requires Tree(m, root, height) && h <= 3 && TableAt(m, root, va, h).Some?
    ensures var t := TableAt(m, root, va, h).value; t in height && height[t] == h && t in m && |m[t]| == 512
    decreases 3 - h
  {
    hide Index, Links, TableOf, Entry;
    assert TableOk(m, height, root);
    if h < 3 {
      TableAtHeight(m, root, height, va, h + 1);
      var p := TableAt(m, root, va, h + 1).value;
      assert TableOk(m, height, p);
      assert Below(m, height, p, Index(va, h + 1));
      assert TableOk(m, height, TableAt(m, root, va, h).value);
    }
  }

  lemma OneParent(m: Memory, root: nat, height: map<nat, nat>, t: nat, i: nat, u: nat, j: nat, n: nat)
    requires Tree(m, root, height) && LinkTo(m, height, t, i, n) && LinkTo(m, height, u, j, n)
    ensures t == u && i == j
  {
    hide LinkTo, TableOk;
  }

  /** No table is shared: addresses that meet in a table came through the same entries. */
  lemma {:induction false} PathUnique(m: Memory, root: nat, height: map<nat, nat>, va: Word, b: Word, h: nat)
    requires Tree(m, root, height) && h <= 3
    requires TableAt(m, root, va, h).Some? && TableAt(m, root, va, h) == TableAt(m, root, b, h)
    ensures forall k: nat :: h < k <= 3 ==> Index(va, k) == Index(b, k)
    decreases 3 - h
  {
    if h < 3 {
      hide *;
      var t := TableAt(m, root, va, h).value;
      LastLink(m, root, height, va, h, t);
      LastLink(m, root, height, b, h, t);
      var p, q := TableAt(m, root, va, h + 1).value, TableAt(m, root, b, h + 1).value;
      OneParent(m, root, height, p, Index(va, h + 1), q, Index(b, h + 1), t);
      PathUnique(m, root, height, va, b, h + 1);
    }
  }

  lemma LastLink(m: Memory, root: nat, height: map<nat, nat>, va: Word, h: nat, t: nat)
    requires Tree(m, root, height) && h < 3 && TableAt(m, root, va, h) == Some(t)
    ensures TableAt(m, root, va, h + 1).Some? &&
            LinkTo(m, height, TableAt(m, root, va, h + 1).value, Index(va, h + 1), t)
  {
    hide Index, Links, TableOf, Entry, Tree;
    TableAtHeight(m, root, height, va, h + 1);
  }

  lemma {:induction false} PathSame(m: Memory, root: nat, va: Word, b: Word, h: nat)
    requires h <= 3 && forall k: nat :: h < k <= 3 ==> Index(va, k) == Index(b, k)
    ensures TableAt(m, root, va, h) == TableAt(m, root, b, h)
    decreases 3 - h
  {
    hide Index, Links, TableOf, Entry;
    if h < 3 {
      PathSame(m, root, va, b, h + 1);
      assert Index(va, h + 1) == Index(b, h + 1);
    }
  }

  lemma PathStep(m: Memory, root: nat, b: Word, k: nat)
    requires k < 3
    ensures TableAt(m, root, b, k) == match TableAt(m, root, b, k + 1) {
      case None => None
      case Some(p) =>
        if Links(Entry(m, p, Index(b, k + 1)), k + 1) then Some(TableOf(Entry(m, p, Index(b, k + 1)))) else None
    }
  {
    hide Index, TableOf, Entry, Links;
  }

  /** The walk from the root goes through the tables of the path. */
  lemma {:induction false} WalkFrom(m: Memory, root: nat, va: Word, h: nat)
    requires h <= 3 && TableAt(m, root, va, h).Some?
    ensures Translate(m, root, va) == Walk(m, TableAt(m, root, va, h).value, va, h)
    decreases 3 - h
  {
    hide Index, TableOf, Entry, Present, Huge, AddressIn, HugeAddressIn;
    if h < 3 {
      WalkFrom(m, root, va, h + 1);
    }
  }

  // ----- writing an entry of a page table

  /** Only entries of the page table `pt` at these indices differ. */
  ghost predicate OnlyEntries(m: Memory, n: Memory, pt: nat, written: set<nat>) {
    && (forall t :: t in m ==> t in n && |n[t]| == |m[t]|)
    && forall t: nat, j: nat :: (t != pt || j !in written) ==> Entry(n, t, j) == Entry(m, t, j)
  }

  lemma SetEntryOne(m: Memory, pt: nat, i: nat, e: Word)
    requires pt in m && i < |m[pt]|
    ensures OnlyEntries(m, SetEntry(m, pt, i, e), pt, {i}) && Entry(SetEntry(m, pt, i, e), pt, i) == e
  {
  }

  /** Page tables lead to no tables, so what is in them is free. */
  lemma EntriesTree(m: Memory, n: Memory, root: nat, height: map<nat, nat>, pt: nat, written: set<nat>)
    requires Tree(m, root, height) && OnlyEntries(m, n, pt, written) && pt in height && height[pt] == 0
    ensures Tree(n, root, height)
  {
    hide Index, TableOf, Entry, Present, Huge;
    forall t | t in height
      ensures TableOk(n, height, t)
    {
      assert TableOk(m, height, t);
      forall j: nat | Links(Entry(n, t, j), height[t])
        ensures Below(n, height, t, j)
      {
        assert Below(m, height, t, j);
      }
    }
    forall t: nat, j: nat, c: nat | LinkTo(n, height, t, j, c)
      ensures LinkTo(m, height, t, j, c)
    {
      assert t != pt;
    }
  }

  lemma {:induction false} EntriesPath(m: Memory, n: Memory, root: nat, height: map<nat, nat>, pt: nat,
          written: set<nat>, va: Word, h: nat)
    requires Tree(m, root, height) && OnlyEntries(m, n, pt, written) && pt in height && height[pt] == 0 && h <= 3
    ensures TableAt(n, root, va, h) == TableAt(m, root, va, h)
    decreases 3 - h
  {
    hide Index, TableOf, Entry, Links;
    if h < 3 {
      EntriesPath(m, n, root, height, pt, written, va, h + 1);
      if TableAt(m, root, va, h + 1).Some? {
        TableAtHeight(m, root, height, va, h + 1);
      }
    }
  }

  /** Addresses that go through none of the entries translate as before. */
  lemma {:induction false} EntriesWalk(m: Memory, n: Memory, root: nat, height: map<nat, nat>, pt: nat,
          written: set<nat>, b: Word, u: nat, k: nat)
    requires Tree(m, root, height) && OnlyEntries(m, n, pt, written) && pt in height && height[pt] == 0 && k <= 3
    requires TableAt(m, root, b, k) == Some(u)
    requires TableAt(m, root, b, 0) != Some(pt) || Index(b, 0) !in written
    ensures Walk(n, u, b, k) == Walk(m, u, b, k)
    decreases k
  {
    hide Index, TableOf, Entry, Present, Huge, AddressIn, HugeAddressIn, Tree, TableAt;
    TableAtHeight(m, root, height, b, k);
    if k > 0 && Links(Entry(m, u, Index(b, k)), k) {
      PathStep(m, root, b, k - 1);
      EntriesWalk(m, n, root, height, pt, written, b, TableOf(Entry(m, u, Index(b, k))), k - 1);
    }
  }

  /** What an entry of a page table makes of the addresses of its page. */
  function Meaning(e: Word, va: Word): Option<Word> {
    if Present(e) then Some(AddressIn(e, va)) else None
  }

  lemma RootOfPath(m: Memory, root: nat, va: Word)
    ensures TableAt(m, root, va, 3) == Some(root)
  {
  }

  lemma SameIndicesAbove(a: Word, b: Word)
    requires SameIndices(a, b)
    ensures forall k: nat :: 0 < k <= 3 ==> Index(a, k) == Index(b, k)
  {
    hide Index;
  }

  lemma SameFourIndices(a: Word, b: Word)
    requires Index(a, 0) == Index(b, 0) && forall k: nat :: 0 < k <= 3 ==> Index(a, k) == Index(b, k)
    ensures SameIndices(a, b)
  {
    hide Index;
  }

  lemma SamePageTranslates(n: Memory, root: nat, va: Word, b: Word, pt: nat)
    requires PageOf(b) == PageOf(va) && TableAt(n, root, va, 0) == Some(pt)
    ensures Translate(n, root, b) == Meaning(Entry(n, pt, Index(va, 0)), b)
  {
    SamePage(va, b);
    SameIndicesAbove(va, b);
    PathSame(n, root, va, b, 0);
    WalkFrom(n, root, b, 0);
    hide Index, TableOf, Entry, Present, Huge, AddressIn, HugeAddressIn, PageOf, Links, TableAt;
  }

  lemma OtherPageTranslates(m: Memory, n: Memory, root: nat, height: map<nat, nat>, va: Word, b: Word, pt: nat)
    requires Tree(m, root, height) && OnlyEntries(m, n, pt, {Index(va, 0)}) && TableAt(m, root, va, 0) == Some(pt)
    requires PageOf(b) != PageOf(va)
    ensures Translate(n, root, b) == Translate(m, root, b)
  {
    hide *;
    TableAtHeight(m, root, height, va, 0);
    if TableAt(m, root, b, 0) == Some(pt) && Index(b, 0) == Index(va, 0) {
      PathUnique(m, root, height, va, b, 0);
      SameFourIndices(va, b);
      SamePage(va, b);
    }
    RootOfPath(m, root, b);
    EntriesWalk(m, n, root, height, pt, {Index(va, 0)}, b, root, 3);
    WalkIs(m, root, b);
    WalkIs(n, root, b);
  }

  lemma WalkIs(m: Memory, root: nat, b: Word)
    ensures Translate(m, root, b) == Walk(m, root, b, 3)
  {
  }

  /** Writing the entry that `va` goes through changes the translation of exactly the addresses on its page. */
  lemma EntryTranslates(m: Memory, root: nat, height: map<nat, nat>, va: Word, e: Word, b: Word)
    requires Tree(m, root, height) && TableAt(m, root, va, 0).Some?
    ensures var pt := TableAt(m, root, va, 0).value;
      pt in m && |m[pt]| == 512 && Index(va, 0) < 512 && Tree(SetEntry(m, pt, Index(va, 0), e), root, height)
    ensures var n := SetEntry(m, TableAt(m, root, va, 0).value, Index(va, 0), e);
      TableAt(n, root, va, 0) == TableAt(m, root, va, 0)
      && Translate(n, root, b) == if PageOf(b) == PageOf(va) then Meaning(e, b) else Translate(m, root, b)
  {
    hide *;
    var pt, i := TableAt(m, root, va, 0).value, Index(va, 0);
    TableAtHeight(m, root, height, va, 0);
    IndexBound(va, 0);
    var n := SetEntry(m, pt, i, e);
    SetEntryOne(m, pt, i, e);
    EntriesTree(m, n, root, height, pt, {i});
    EntriesPath(m, n, root, height, pt, {i}, va, 0);
    if PageOf(b) == PageOf(va) {
      SamePageTranslates(n, root, va, b, pt);
    } else {
      OtherPageTranslates(m, n, root, height, va, b, pt);
    }
  }

  // ----- finding or making the page table

  /** The first `h` of these frames are distinct and hold no table yet. */
  ghost predicate NewFrames(m: Memory, frames: seq<Word>, h: nat) {
    && h <= |frames|
    && (forall k :: 0 <= k < h ==> TableOf(frames[k]) !in m)
    && (forall k, l :: 0 <= k < l < h ==> TableOf(frames[k]) != TableOf(frames[l]))
  }

  lemma LessFrames(m: Memory, n: Memory, frames: seq<Word>, h: nat)
    requires NewFrames(m, frames, h) && h > 0 && n.Keys == m.Keys + {TableOf(frames[0])}
    ensures NewFrames(n, frames[1..], h - 1)
  {
    hide TableOf;
  }

  lemma AddTableKeys(m: Memory, t: nat, va: Word, flags: Word, h: nat, frame: Word)
    requires t in m && |m[t]| == 512 && TableOf(frame) !in m
    ensures var n := AddTable(m, t, va, flags, h, frame);
      n.Keys == m.Keys + {TableOf(frame)} && |n[TableOf(frame)]| == 512 && forall u :: u in m ==> |n[u]| == |m[u]|
  {
    IndexBound(va, h);
  }

  /** vm.c:194-203: a new table for every level below `t`. */
  ghost function Grow(m: Memory, t: nat, va: Word, flags: Word, h: nat, frames: seq<Word>): (Memory, nat)
    requires t in m && |m[t]| == 512 && NewFrames(m, frames, h)
    decreases h
  {
    if h == 0 then (m, t)
    else
      AddTableKeys(m, t, va, flags, h, frames[0]);
      LessFrames(m, AddTable(m, t, va, flags, h, frames[0]), frames, h);
      Grow(AddTable(m, t, va, flags, h, frames[0]), TableOf(frames[0]), va, flags, h - 1, frames[1..])
  }

  ghost predicate SameTranslation(m: Memory, n: Memory, root: nat) {
    forall b :: Translate(n, root, b) == Translate(m, root, b)
  }

  /** The record of how memory was allocated survives in every entry there was. */
  ghost predicate SameMeta(m: Memory, n: Memory) {
    forall t: nat, i: nat :: t in m ==> MetaOf(Entry(n, t, i)) == MetaOf(Entry(m, t, i))
  }

  lemma {:induction false} AddTablePath(m: Memory, root: nat, height: map<nat, nat>, t: nat, va: Word, flags: Word,
          h: nat, frame: Word, k: nat)
    requires Tree(m, root, height) && t in height && height[t] == h && t in m && |m[t]| == 512 && TableOf(frame) !in m
    requires h <= k <= 3
    ensures TableAt(AddTable(m, t, va, flags, h, frame), root, va, k) == TableAt(m, root, va, k)
    decreases 3 - k
  {
    hide Index, TableOf, Entry, Present, Huge, AddTable, Links, Mapped;
    if k < 3 {
      AddTablePath(m, root, height, t, va, flags, h, frame, k + 1);
      if TableAt(m, root, va, k + 1).Some? {
        TableAtHeight(m, root, height, va, k + 1);
        AddTableIs(m, t, va, flags, h, frame, TableAt(m, root, va, k + 1).value, Index(va, k + 1));
      }
    }
  }

  lemma AddTableMeta(m: Memory, t: nat, va: Word, flags: Word, h: nat, frame: Word)
    requires t in m && |m[t]| == 512 && TableOf(frame) !in m
    ensures SameMeta(m, AddTable(m, t, va, flags, h, frame))
  {
    hide Index, TableOf, Entry, AddTable, Mapped, MetaOf;
    forall u: nat, i: nat | u in m
      ensures MetaOf(Entry(AddTable(m, t, va, flags, h, frame), u, i)) == MetaOf(Entry(m, u, i))
    {
      AddTableIs(m, t, va, flags, h, frame, u, i);
      MappedTable(Entry(m, u, i), frame, flags);
    }
  }

  /** A new table below the end of the path lengthens it, and nothing translates differently. */
  lemma AddTableStep(m: Memory, root: nat, height: map<nat, nat>, t: nat, va: Word, flags: Word, h: nat, frame: Word)
    requires Tree(m, root, height) && 0 < h <= 3 && TableAt(m, root, va, h) == Some(t)
    requires TableOf(frame) !in m && !Asks(flags, VM_HUGEPAGE) && !Present(Entry(m, t, Index(va, h)))
    ensures t in height && height[t] == h && t in m && |m[t]| == 512
    ensures var n := AddTable(m, t, va, flags, h, frame);
      && Tree(n, root, height[TableOf(frame) := h - 1]) && TableAt(n, root, va, h - 1) == Some(TableOf(frame))
      && SameTranslation(m, n, root) && SameMeta(m, n) && !Present(Entry(n, TableOf(frame), Index(va, h - 1)))
  {
    TableAtHeight(m, root, height, va, h);
    var n := AddTable(m, t, va, flags, h, frame);
    AddTableTree(m, root, height, t, va, flags, frame);
    AddTablePath(m, root, height, t, va, flags, h, frame, h);
    AddTableMeta(m, t, va, flags, h, frame);
    AddTableIs(m, t, va, flags, h, frame, t, Index(va, h));
    AddTableIs(m, t, va, flags, h, frame, TableOf(frame), Index(va, h - 1));
    MappedTable(Entry(m, t, Index(va, h)), frame, flags);
    forall b
      ensures Translate(n, root, b) == Translate(m, root, b)
    {
      AddTableWalks(m, height, t, va, flags, h, frame, root, 3, b);
    }
    hide Index, TableOf, Entry, Present, Huge, AddTable, Mapped, Tree, SameMeta, Translate, Asks;
  }

  lemma {:induction false} GrowKeeps(m: Memory, root: nat, height: map<nat, nat>, t: nat, va: Word, flags: Word, h: nat,
          frames: seq<Word>)
    returns (height': map<nat, nat>)
    requires Tree(m, root, height) && h <= 3 && TableAt(m, root, va, h) == Some(t)
    requires NewFrames(m, frames, h) && !Asks(flags, VM_HUGEPAGE)
    requires h > 0 ==> !Present(Entry(m, t, Index(va, h)))
    ensures t in height && height[t] == h && t in m && |m[t]| == 512
    ensures var (n, pt) := Grow(m, t, va, flags, h, frames);
      && Tree(n, root, height') && TableAt(n, root, va, 0) == Some(pt)
      && SameTranslation(m, n, root) && SameMeta(m, n) && m.Keys <= n.Keys
    decreases h
  {
    hide *;
    TableAtHeight(m, root, height, va, h);
    height' := height;
    if h > 0 {
      NewFrame(m, frames, h);
      AddTableStep(m, root, height, t, va, flags, h, frames[0]);
      var n := AddTable(m, t, va, flags, h, frames[0]);
      AddTableKeys(m, t, va, flags, h, frames[0]);
      LessFrames(m, n, frames, h);
      GrowStep(m, t, va, flags, h, frames);
      height' := GrowKeeps(n, root, height[TableOf(frames[0]) := h - 1], TableOf(frames[0]), va, flags, h - 1,
        frames[1..]);
      SameTwice(m, n, Grow(n, TableOf(frames[0]), va, flags, h - 1, frames[1..]).0, root);
    } else {
      GrowNone(m, t, va, flags, frames);
      SameOnce(m, root);
    }
  }

  lemma GrowStep(m: Memory, t: nat, va: Word, flags: Word, h: nat, frames: seq<Word>)
    requires t in m && |m[t]| == 512 && NewFrames(m, frames, h) && h > 0
    ensures |frames| > 0 && TableOf(frames[0]) !in m
    ensures var n := AddTable(m, t, va, flags, h, frames[0]);
      && TableOf(frames[0]) in n && |n[TableOf(frames[0])]| == 512 && NewFrames(n, frames[1..], h - 1)
      && Grow(m, t, va, flags, h, frames) == Grow(n, TableOf(frames[0]), va, flags, h - 1, frames[1..])
  {
    AddTableKeys(m, t, va, flags, h, frames[0]);
    LessFrames(m, AddTable(m, t, va, flags, h, frames[0]), frames, h);
    hide AddTable, TableOf, NewFrames;
  }

  lemma GrowNone(m: Memory, t: nat, va: Word, flags: Word, frames: seq<Word>)
    requires t in m && |m[t]| == 512 && NewFrames(m, frames, 0)
    ensures Grow(m, t, va, flags, 0, frames) == (m, t)
  {
  }

  lemma SameTwice(m: Memory, n: Memory, o: Memory, root: nat)
    requires SameTranslation(m, n, root) && SameMeta(m, n) && SameTranslation(n, o, root) && SameMeta(n, o) &&
             m.Keys <= n.Keys
    ensures SameTranslation(m, o, root) && SameMeta(m, o)
  {
    hide Translate, MetaOf, Entry;
    forall b
      ensures Translate(o, root, b) == Translate(m, root, b)
    {
      assert Translate(n, root, b) == Translate(m, root, b);
    }
  }

  lemma SameOnce(m: Memory, root: nat)
    ensures SameTranslation(m, m, root) && SameMeta(m, m)
  {
  }

  lemma NewFrame(m: Memory, frames: seq<Word>, h: nat)
    requires NewFrames(m, frames, h) && h > 0
    ensures |frames| > 0 && TableOf(frames[0]) !in m
  {
  }

  /** No huge page on the way to the page table of this address. */
  ghost predicate Plain(m: Memory, root: nat, va: Word) {
    forall t :: TableAt(m, root, va, 1) == Some(t) ==> !Huge(Entry(m, t, Index(va, 1)))
  }

  lemma OkIsPresent(e: Word, flags: Word)
    ensures CheckStatus(e, flags) == Ok ==> Present(e)
    ensures CheckStatus(e, flags) == Unmapped <==> !Present(e)
  {
  }

  /** The traversal follows the path of the address and stops above the first entry that is missing or refuses. */
  lemma {:induction false} TraverseOnPath(m: Memory, root: nat, va: Word, flags: Word, t: nat, h: nat)
    requires h <= 3 && TableAt(m, root, va, h) == Some(t) && Plain(m, root, va)
    ensures var s := Traverse(m, t, va, flags, h);
      && s.height <= h && TableAt(m, root, va, s.height) == Some(s.table)
      && (s.status == Ok <==> s.height == 0)
      && (s.status == Unmapped <==> s.height > 0 && !Present(Entry(m, s.table, Index(va, s.height))))
    decreases h
  {
    hide Index, TableOf, Entry, Present, Huge, CheckStatus;
    if h > 0 {
      var e := Entry(m, t, Index(va, h));
      OkIsPresent(e, flags);
      if CheckStatus(e, flags) == Ok {
        TraverseOnPath(m, root, va, flags, TableOf(e), h - 1);
      }
    }
  }

  /** __find_or_allocate_pt. */
  datatype Found = Found(memory: Memory, pt: Option<nat>, status: Status, made: nat)

  ghost function FindOrAllocate(m: Memory, root: nat, va: Word, flags: Word, frames: seq<Word>): Found
    requires NewFrames(m, frames, 3)
  {
    var s := Traverse(m, root, va, flags, 3);
    if s.status == Unmapped && s.table in m && |m[s.table]| == 512 && s.height <= 3 then
      var (n, pt) := Grow(m, s.table, va, flags, s.height, frames);
      Found(n, Some(pt), Ok, s.height)
    else if s.status != Ok then Found(m, None, s.status, 0)
    else Found(m, Some(s.table), Ok, 0)
  }

  /** Finding a page table makes what is missing of the path, changes no translation and no allocation record, and fails
      only where an entry on the path refuses the access. */
  lemma FindKeeps(m: Memory, root: nat, height: map<nat, nat>, va: Word, flags: Word, frames: seq<Word>)
    returns (height': map<nat, nat>)
    requires Tree(m, root, height) && Plain(m, root, va) && NewFrames(m, frames, 3) && !Asks(flags, VM_HUGEPAGE)
    ensures var f := FindOrAllocate(m, root, va, flags, frames);
      && Tree(f.memory, root, height') && SameTranslation(m, f.memory, root) && SameMeta(m, f.memory) &&
         m.Keys <= f.memory.Keys
      && (f.pt.Some? ==> f.status == Ok && TableAt(f.memory, root, va, 0) == f.pt)
      && (f.pt.None? <==> Traverse(m, root, va, flags, 3).status == Privilege)
      && (f.pt.None? ==> f.memory == m && f.status == Privilege)
  {
    hide Index, TableOf, Entry, Present, Huge, Tree, Translate, Asks, TableAt, NewFrames, MetaOf, Traverse, Plain, Grow;
    SameOnce(m, root);
    RootOfPath(m, root, va);
    TraverseOnPath(m, root, va, flags, root, 3);
    TraverseStatus(m, root, va, flags, 3);
    var s := Traverse(m, root, va, flags, 3);
    height' := height;
    TableAtHeight(m, root, height, va, s.height);
    FewerFrames(m, frames, s.height);
    if s.status == Unmapped {
      height' := GrowKeeps(m, root, height, s.table, va, flags, s.height, frames);
    }
  }

  lemma FewerFrames(m: Memory, frames: seq<Word>, h: nat)
    requires NewFrames(m, frames, 3) && h <= 3
    ensures NewFrames(m, frames, h)
  {
  }

  lemma {:induction false} TraverseStatus(m: Memory, t: nat, va: Word, flags: Word, h: nat)
    ensures Traverse(m, t, va, flags, h).status in {Ok, Unmapped, Privilege} && Traverse(m, t, va, flags, h).height <= h
    decreases h
  {
    hide Index, TableOf, Entry;
    if h > 0 {
      TraverseStatus(m, TableOf(Entry(m, t, Index(va, h))), va, flags, h - 1);
    }
  }

  /** Find or make the page table of `va`, and map its page to a frame. */
  ghost function MapPage(m: Memory, root: nat, va: Word, phys: Word, flags: Word, frames: seq<Word>): Memory
    requires NewFrames(m, frames, 3)
  {
    var f := FindOrAllocate(m, root, va, flags, frames);
    if f.pt.Some? && f.pt.value in f.memory && Index(va, 0) < |f.memory[f.pt.value]| then
      SetEntry(f.memory, f.pt.value, Index(va, 0), Mapped(Entry(f.memory, f.pt.value, Index(va, 0)), phys, flags))
    else f.memory
  }

  /** Map, then translate: every byte of the page goes to the frame, every other page translates as before, the tables
      stay a tree, and the allocation records survive. */
  lemma MapThenTranslate(m: Memory, root: nat, height: map<nat, nat>, va: Word, phys: Word, flags: Word,
          frames: seq<Word>)
    returns (height': map<nat, nat>)
    requires Tree(m, root, height) && Plain(m, root, va) && NewFrames(m, frames, 3) && !Asks(flags, VM_HUGEPAGE)
    requires Traverse(m, root, va, flags, 3).status != Privilege
    ensures var n := MapPage(m, root, va, phys, flags, frames);
      && Tree(n, root, height') && SameMeta(m, n)
      && forall b :: Translate(n, root, b) == if PageOf(b) ==
         PageOf(va) then Some(AddressIn(phys, b)) else Translate(m, root, b)
  {
    height' := FindKeeps(m, root, height, va, flags, frames);
    var f := FindOrAllocate(m, root, va, flags, frames);
    var pt, i := f.pt.value, Index(va, 0);
    var e := Mapped(Entry(f.memory, pt, i), phys, flags);
    TableAtHeight(f.memory, root, height', va, 0);
    IndexBound(va, 0);
    MappedFacts(Entry(f.memory, pt, i), phys, flags);
    SetMeta(m, f.memory, pt, i, e);
    MapPageIs(m, root, va, phys, flags, frames);
    hide *;
    var n := SetEntry(f.memory, pt, i, e);
    forall b
      ensures Translate(n, root, b) == if PageOf(b) ==
              PageOf(va) then Some(AddressIn(phys, b)) else Translate(m, root, b)
    {
      EntryTranslates(f.memory, root, height', va, e, b);
      MeaningOfMapped(Entry(f.memory, pt, i), phys, flags, b);
      SameAt(m, f.memory, root, b);
    }
    EntryTranslates(f.memory, root, height', va, e, va);
  }

  lemma MapPageIs(m: Memory, root: nat, va: Word, phys: Word, flags: Word, frames: seq<Word>)
    requires NewFrames(m, frames, 3)
    requires var f := FindOrAllocate(m, root, va, flags, frames);
      f.pt.Some? && f.pt.value in f.memory && Index(va, 0) < |f.memory[f.pt.value]|
    ensures var f := FindOrAllocate(m, root, va, flags, frames);
      MapPage(m, root, va, phys, flags, frames) ==
        SetEntry(f.memory, f.pt.value, Index(va, 0), Mapped(Entry(f.memory, f.pt.value, Index(va, 0)), phys, flags))
  {
  }

  lemma SameAt(m: Memory, n: Memory, root: nat, b: Word)
    requires SameTranslation(m, n, root)
    ensures Translate(n, root, b) == Translate(m, root, b)
  {
  }

  lemma MeaningOfMapped(e: Word, phys: Word, flags: Word, b: Word)
    ensures Meaning(Mapped(e, phys, flags), b) == Some(AddressIn(phys, b))
  {
    MappedFrame(e, phys, flags);
    SameFrame(Mapped(e, phys, flags), phys, b);
    hide Mapped, AddressIn, Present, FrameOf;
  }

  lemma MappedFrame(e: Word, phys: Word, flags: Word)
    ensures Present(Mapped(e, phys, flags)) && FrameOf(Mapped(e, phys, flags)) == FrameOf(phys)
  {
    MappedFacts(e, phys, flags);
    hide *;
  }

  lemma SameFrame(e: Word, f: Word, b: Word)
    requires FrameOf(e) == FrameOf(f)
    ensures AddressIn(e, b) == AddressIn(f, b)
  {
    hide FrameOf, OffsetIn, Plus;
  }

  lemma SetMeta(m: Memory, n: Memory, pt: nat, i: nat, e: Word)
    requires SameMeta(m, n) && m.Keys <= n.Keys && pt in n && i < |n[pt]| && MetaOf(e) == MetaOf(Entry(n, pt, i))
    ensures SameMeta(m, SetEntry(n, pt, i, e))
  {
    hide MetaOf;
    forall t: nat, j: nat | t in m
      ensures MetaOf(Entry(SetEntry(n, pt, i, e), t, j)) == MetaOf(Entry(m, t, j))
    {
      SetEntryIs(n, pt, i, e, t, j);
    }
  }
}
