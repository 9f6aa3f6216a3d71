/** Page tables as values: the four-level walk, and what writing one entry does to it. */
module PageTables {
  import opened Options
  import opened EntryBits

  /** Page tables by the physical address that they are at. */
  type Table = seq<Word>
  type Memory = map<nat, Table>

  function Entry(m: Memory, t: nat, i: nat): Word {
    if t in m && i < |m[t]| then m[t][i] else 0
  }

  /** mm.c:34-76 from the table `t` at height `h` down: what an address translates to, or nothing. */
  function Walk(m: Memory, t: nat, va: Word, h: nat): Option<Word>
    decreases h
  {
    var e := Entry(m, t, Index(va, h));
    if !Present(e) then None
    else if h == 0 then Some(AddressIn(e, va))
    else if h == 1 && Huge(e) then Some(HugeAddressIn(e, va))
    else Walk(m, TableOf(e), va, h - 1)
  }

  function Plus(a: Word, b: Word): Word {
    a + b
  }

  function AddressIn(e: Word, va: Word): Word {
    Plus(FrameOf(e), OffsetIn(va))
  }

  function HugeAddressIn(e: Word, va: Word): Word {
    Plus(FrameOf(e), va & 0x1F_FFFF)
  }

  function Translate(m: Memory, root: nat, va: Word): Option<Word> {
    Walk(m, root, va, 3)
  }

  // ----- the tree

  /** An entry of a table at height `h` that leads to another table. */
  predicate Links(e: Word, h: nat) {
    h > 0 && Present(e) && !(h == 1 && Huge(e))
  }

  ghost predicate TableOk(m: Memory, height: map<nat, nat>, t: nat)
    requires t in height
  {
    && height[t] <= 3 && t in m && |m[t]| == 512
    && forall i: nat :: Links(Entry(m, t, i), height[t]) ==> Below(m, height, t, i)
  }

  ghost predicate Below(m: Memory, height: map<nat, nat>, t: nat, i: nat)
    requires t in height
  {
    TableOf(Entry(m, t, i)) in height && height[TableOf(Entry(m, t, i))] + 1 == height[t]
  }

  ghost predicate LinkTo(m: Memory, height: map<nat, nat>, t: nat, i: nat, n: nat) {
    t in height && Links(Entry(m, t, i), height[t]) && TableOf(Entry(m, t, i)) == n
  }

  /** Every table is at one height, leads only to tables one lower, and is led to from one entry at most. */
  ghost predicate Tree(m: Memory, root: nat, height: map<nat, nat>) {
    && root in height && height[root] == 3
    && (forall t :: t in height ==> TableOk(m, height, t))
    && (forall t: nat, i: nat, u: nat, j: nat, n: nat :: LinkTo(m, height, t, i, n) && LinkTo(m, height, u, j, n) ==>
       t == u && i == j)
  }

  // ----- traversing and growing

  datatype Stop = Stop(table: nat, height: nat, status: Status)

  /** __traverse_with_status from the table `t` at height `h`. */
  function Traverse(m: Memory, t: nat, va: Word, flags: Word, h: nat): Stop
    decreases h
  {
    if h == 0 then Stop(t, 0, Ok)
    else
      var e := Entry(m, t, Index(va, h));
      if CheckStatus(e, flags) != Ok then Stop(t, h, CheckStatus(e, flags))
      else Traverse(m, TableOf(e), va, flags, h - 1)
  }

  function SetEntry(m: Memory, t: nat, i: nat, e: Word): Memory
    requires t in m && i < |m[t]|
  {
    m[t := m[t][i := e]]
  }

  /** The metadata of a table allocated alone: only whether it came from the early allocator. */
  function FirstEntry(flags: Word): Word {
    if flags & 0x10 != 0 then 0x800 else 0
  }

  /** _alloc_page_tables for one table: all zero but for the metadata in the first entry. */
  function NewTable(flags: Word): Table {
    [FirstEntry(flags)] + seq(511, _ => 0)
  }

  /** vm.c:195-200: link a new table from the entry of `t` that `va` goes through. */
  function AddTable(m: Memory, t: nat, va: Word, flags: Word, h: nat, frame: Word): Memory
    requires t in m && |m[t]| == 512 && TableOf(frame) != t
  {
    IndexBound(va, h);
    SetEntry(m[TableOf(frame) := NewTable(flags)], t, Index(va, h), Mapped(Entry(m, t, Index(va, h)), frame, flags))
  }

  lemma NewTableAbsent(m: Memory, t: nat, flags: Word, i: nat)
    requires t in m && m[t] == NewTable(flags)
    ensures !Present(Entry(m, t, i))
  {
    FirstEntryAbsent(flags);
    ZeroAbsent();
    hide Present, FirstEntry;
  }

  lemma FirstEntryAbsent(flags: Word)
    ensures !Present(FirstEntry(flags))
  {
  }

  lemma ZeroAbsent()
    ensures !Present(0)
  {
  }

  lemma SetEntryIs(m: Memory, t: nat, i: nat, e: Word, u: nat, j: nat)
    requires t in m && i < |m[t]|
    ensures Entry(SetEntry(m, t, i, e), u, j) == if u == t && j == i then e else Entry(m, u, j)
  {
  }

  lemma AddTableIs(m: Memory, t: nat, va: Word, flags: Word, h: nat, frame: Word, u: nat, j: nat)
    requires t in m && |m[t]| == 512 && TableOf(frame) !in m
    ensures var n := AddTable(m, t, va, flags, h, frame);
      && (u != TableOf(frame) && (u != t || j != Index(va, h)) ==> Entry(n, u, j) == Entry(m, u, j))
      && (u == TableOf(frame) ==> !Present(Entry(n, u, j)))
      && (u == t && j == Index(va, h) ==> Entry(n, u, j) == Mapped(Entry(m, u, j), frame, flags))
  {
    var n, f := AddTable(m, t, va, flags, h, frame), TableOf(frame);
    var with, e := m[f := NewTable(flags)], Mapped(Entry(m, t, Index(va, h)), frame, flags);
    IndexBound(va, h);
    NewTableAbsent(with, f, flags, j);
    OtherTable(m, f, NewTable(flags), u, j);
    OtherTable(m, f, NewTable(flags), t, Index(va, h));
    assert n == SetEntry(with, t, Index(va, h), e);
    SetEntryIs(with, t, Index(va, h), e, u, j);
    hide Index, Mapped, Present, FirstEntry, TableOf, NewTable, Entry, SetEntry, AddTable;
  }

  lemma OtherTable(m: Memory, f: nat, table: Table, u: nat, j: nat)
    ensures u != f ==> Entry(m[f := table], u, j) == Entry(m, u, j)
  {
  }

  /** A new table leads nowhere yet, so linking it changes no translation. */
  lemma {:induction false} AddTableWalks(m: Memory, height: map<nat, nat>, t: nat, va: Word, flags: Word, h: nat,
          frame: Word, u: nat, k: nat, a: Word)
    requires forall x :: x in height ==> TableOk(m, height, x)
    requires t in height && height[t] == h > 0 && t in m && |m[t]| == 512 && TableOf(frame) !in m &&
             !Asks(flags, VM_HUGEPAGE)
    requires !Present(Entry(m, t, Index(va, h)))
    requires u in height && height[u] == k
    ensures Walk(AddTable(m, t, va, flags, h, frame), u, a, k) == Walk(m, u, a, k)
    decreases k
  {
    hide Present, Mapped, TableOf, Index, Asks, AddTable, Huge, AddressIn, HugeAddressIn;
    var n, i := AddTable(m, t, va, flags, h, frame), Index(a, k);
    assert TableOk(m, height, u) && TableOk(m, height, t);
    AddTableIs(m, t, va, flags, h, frame, u, i);
    if u == t && i == Index(va, h) {
      MappedTable(Entry(m, t, i), frame, flags);
      AddTableIs(m, t, va, flags, h, frame, TableOf(frame), Index(a, h - 1));
    } else if k > 0 && Links(Entry(m, u, i), k) {
      assert Below(m, height, u, i);
      AddTableWalks(m, height, t, va, flags, h, frame, TableOf(Entry(m, u, i)), k - 1, a);
    }
  }

  lemma MappedTable(e: Word, phys: Word, flags: Word)
    ensures TableOf(Mapped(e, phys, flags)) == TableOf(phys) &&
            (Huge(Mapped(e, phys, flags)) <==> Asks(flags, VM_HUGEPAGE))
    ensures Present(Mapped(e, phys, flags)) && MetaOf(Mapped(e, phys, flags)) == MetaOf(e)
  {
    MappedFacts(e, phys, flags);
    hide Mapped, FrameOf, AsNumber, Huge, Asks, Present, MetaOf;
  }

  lemma LinkCases(m: Memory, height: map<nat, nat>, t: nat, va: Word, flags: Word, frame: Word, u: nat, j: nat)
    requires t in height && height[t] > 0 && t in m && |m[t]| == 512 && TableOf(frame) !in m &&
             !Asks(flags, VM_HUGEPAGE)
    requires (u in height && u in m) || u == TableOf(frame)
    ensures var h, n := height[t], AddTable(m, t, va, flags, height[t], frame);
      var k := if u == TableOf(frame) then h - 1 else height[u];
      Links(Entry(n, u, j), k) ==>
        (u == t && j == Index(va, h) && TableOf(Entry(n, u, j)) == TableOf(frame))
        || (u in height && u != TableOf(frame) && Links(Entry(m, u, j), k) && Entry(n, u, j) == Entry(m, u, j))
    ensures Links(Entry(AddTable(m, t, va, flags, height[t], frame), t, Index(va, height[t])), height[t])
  {
    hide Present, Mapped, TableOf, Index, Asks, AddTable, Huge;
    AddTableIs(m, t, va, flags, height[t], frame, u, j);
    AddTableIs(m, t, va, flags, height[t], frame, t, Index(va, height[t]));
    MappedTable(Entry(m, t, Index(va, height[t])), frame, flags);
  }

  lemma AddTableTree(m: Memory, root: nat, height: map<nat, nat>, t: nat, va: Word, flags: Word, frame: Word)
    requires Tree(m, root, height) && t in height && height[t] > 0 && t in m && |m[t]| == 512
    requires TableOf(frame) !in m && !Asks(flags, VM_HUGEPAGE)
    ensures Tree(AddTable(m, t, va, flags, height[t], frame), root, height[TableOf(frame) := height[t] - 1])
  {
    var n, height' := AddTable(m, t, va, flags, height[t], frame), height[TableOf(frame) := height[t] - 1];
    hide Present, Mapped, TableOf, Index, Asks, Huge, Links;
    forall u | u in height'
      ensures TableOk(n, height', u)
    {
      assert u in height ==> TableOk(m, height, u);
      IndexBound(va, height[t]);
      forall j: nat | Links(Entry(n, u, j), height'[u])
        ensures Below(n, height', u, j)
      {
        LinkCases(m, height, t, va, flags, frame, u, j);
        if u in height && Links(Entry(m, u, j), height[u]) {
          assert Below(m, height, u, j);
          assert TableOk(m, height, TableOf(Entry(m, u, j)));
        }
      }
    }
    hide AddTable, Entry;
    forall u: nat, i: nat, w: nat, j: nat, c: nat | LinkTo(n, height', u, i, c) && LinkTo(n, height', w, j, c)
      ensures u == w && i == j
    {
      OneLink(m, root, height, t, va, flags, frame, u, i, c);
      OneLink(m, root, height, t, va, flags, frame, w, j, c);
    }
  }

  /** A link after adding a table is the new one or an old one, and these lead to different tables. */
  lemma OneLink(m: Memory, root: nat, height: map<nat, nat>, t: nat, va: Word, flags: Word, frame: Word, u: nat, i: nat,
          c: nat)
    requires Tree(m, root, height) && t in height && height[t] > 0 && t in m && |m[t]| == 512
    requires TableOf(frame) !in m && !Asks(flags, VM_HUGEPAGE)
    requires LinkTo(AddTable(m, t, va, flags, height[t], frame), height[TableOf(frame) := height[t] - 1], u, i, c)
    ensures c == TableOf(frame) ==> u == t && i == Index(va, height[t])
    ensures c != TableOf(frame) ==> LinkTo(m, height, u, i, c)
  {
    hide Present, Mapped, TableOf, Index, Asks, Huge, Links, AddTable, Entry;
    if u in height {
      assert TableOk(m, height, u);
    }
    LinkCases(m, height, t, va, flags, frame, u, i);
    if u in height && Links(Entry(m, u, i), height[u]) {
      assert Below(m, height, u, i);
      assert TableOk(m, height, TableOf(Entry(m, u, i)));
    }
  }
}
