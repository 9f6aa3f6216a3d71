/** Slab caches as values: three lists of slabs, and the chain of free cells of each slab. */
module SlabModel {
  import opened Arithmetic
  import opened Lists

  const SLAB_SIZE := 8192
  const HEADER := 24
  const DATA := SLAB_SIZE - HEADER

  /** The fields of a cache that never change. */
  datatype Layout = Layout(cell: nat, objs: nat, id: nat)

  /** What the code needs of a cache: a cell holds a pointer, and a slab holds two cells. */
  ghost predicate LayoutOk(l: Layout) {
    l.cell >= 8 && l.objs >= 2 && l.objs * l.cell <= DATA
  }

  /** slab_cache_init, for an alignment that is a power of two. */
  function LayoutFor(size: nat, align: nat, id: nat): Layout
    requires size > 0 && align > 0
  {
    var cell := RoundUp(size, align);
    Layout(cell, DATA / cell, id)
  }

  function RoundUp(size: nat, align: nat): (r: nat)
    requires size > 0 && align > 0
    ensures r >= size && r < size + align && r % align == 0
  {
    DivFacts(size + align - 1, align);
    (size + align - 1) / align * align
  }

  /** A cache packs as many cells as fit, and can be used exactly when an object is at most half of a slab's data. */
  lemma LayoutForOk(size: nat, align: nat, id: nat)
    requires size > 0 && align > 0
    ensures var l := LayoutFor(size, align, id); l.objs * l.cell <= DATA < (l.objs + 1) * l.cell
    ensures LayoutOk(LayoutFor(size, align, id)) <==> 8 <= RoundUp(size, align) <= DATA / 2
  {
    var l := LayoutFor(size, align, id);
    DivFacts(DATA, l.cell);
    assert (l.objs + 1) * l.cell == l.objs * l.cell + l.cell;
    if l.objs >= 2 {
      TimesMore(2, l.objs, l.cell);
    } else {
      TimesMore(l.objs + 1, 2, l.cell);
    }
  }

  // ----- objects

  /** Distance of a cell from the header. */
  function Offset(l: Layout, c: nat): nat {
    c * l.cell
  }

  function AddrOf(l: Layout, a: nat, c: nat): nat {
    a + HEADER + Offset(l, c)
  }

  /** Rounding an address down to a slab. */
  function SlabOf(p: nat): nat {
    p / SLAB_SIZE * SLAB_SIZE
  }

  function CellOf(l: Layout, p: nat): nat
    requires l.cell > 0 && p >= SlabOf(p) + HEADER
  {
    (p - SlabOf(p) - HEADER) / l.cell
  }

  lemma CellInData(l: Layout, c: nat)
    requires LayoutOk(l) && c < l.objs
    ensures Offset(l, c) + l.cell <= DATA
  {
    TimesMore(c + 1, l.objs, l.cell);
    TimesNext(c, l.cell);
  }

  lemma SlabOfIs(a: nat, d: nat)
    requires a % SLAB_SIZE == 0 && d < SLAB_SIZE
    ensures SlabOf(a + d) == a
  {
  }

  /** Rounding the address of an object down finds its slab, and its distance from there its cell. */
  lemma ObjectFound(l: Layout, a: nat, c: nat)
    requires LayoutOk(l) && a % SLAB_SIZE == 0 && c < l.objs
    ensures var p := AddrOf(l, a, c); SlabOf(p) == a && CellOf(l, p) == c
  {
    CellInData(l, c);
    SlabOfIs(a, HEADER + c * l.cell);
    MultipleOf(c, l.cell);
  }

  lemma SlabsApart(a: nat, b: nat)
    requires a % SLAB_SIZE == 0 && b % SLAB_SIZE == 0
    ensures a == b || a + SLAB_SIZE <= b || b + SLAB_SIZE <= a
  {
  }

  lemma CellBefore(l: Layout, c: nat, d: nat)
    requires c < d
    ensures Offset(l, c) + l.cell <= Offset(l, d)
  {
    TimesMore(c + 1, d, l.cell);
    TimesNext(c, l.cell);
  }

  /** Two different cells share no byte, and no cell reaches into a slab header or out of its slab. */
  lemma CellsApart(l: Layout, a: nat, c: nat, b: nat, d: nat)
    requires LayoutOk(l) && a % SLAB_SIZE == 0 && b % SLAB_SIZE == 0 && c < l.objs && d < l.objs
    ensures a + HEADER <= AddrOf(l, a, c) && AddrOf(l, a, c) + l.cell <= a + SLAB_SIZE
    ensures (a, c) != (b, d) ==>
            AddrOf(l, a, c) + l.cell <= AddrOf(l, b, d) || AddrOf(l, b, d) + l.cell <= AddrOf(l, a, c)
  {
    CellInData(l, c);
    CellInData(l, d);
    SlabsApart(a, b);
    if c < d {
      CellBefore(l, c, d);
    } else if d < c {
      CellBefore(l, d, c);
    }
    hide LayoutOk, Offset;
  }

  // ----- caches

  /** The three lists, and for each slab by address its free cells in the order of the chain. */
  datatype Slabs = Slabs(free: seq<nat>, partial: seq<nat>, full: seq<nat>, chains: map<nat, seq<nat>>)

  const NO_SLABS := Slabs([], [], [], map[])

  ghost predicate Placed(s: Slabs) {
    forall a :: a in s.chains ==> a > 0 && a % SLAB_SIZE == 0
  }

  /** A chain visits distinct cells of its slab. */
  ghost predicate ChainOk(l: Layout, chain: seq<nat>) {
    NoDup(chain) && forall c :: c in chain ==> c < l.objs
  }

  ghost predicate ChainsOk(l: Layout, s: Slabs) {
    forall a :: a in s.chains ==> ChainOk(l, s.chains[a])
  }

  ghost predicate ListedByCount(l: Layout, s: Slabs, a: nat) {
    && (a in s.free <==> a in s.chains && |s.chains[a]| == l.objs)
    && (a in s.partial <==> a in s.chains && 0 < |s.chains[a]| < l.objs)
    && (a in s.full <==> a in s.chains && |s.chains[a]| == 0)
  }

  /** Every slab is on the one list its number of free cells chooses. */
  ghost predicate ByCount(l: Layout, s: Slabs) {
    forall a :: ListedByCount(l, s, a)
  }

  ghost predicate Inv(l: Layout, s: Slabs) {
    Placed(s) && ChainsOk(l, s) && ByCount(l, s) && NoDup(s.free) && NoDup(s.partial) && NoDup(s.full)
  }

  /** A cell in the hands of a caller. */
  predicate IsLive(l: Layout, s: Slabs, a: nat, c: nat) {
    a in s.chains && c < l.objs && c !in s.chains[a]
  }

  /** The chain that __slab_init writes. */
  function AllCells(n: nat): seq<nat> {
    seq(n, i => i)
  }

  /** A new slab goes on the free list. */
  function AddSlab(l: Layout, s: Slabs, a: nat): Slabs {
    s.(free := [a] + s.free, chains := s.chains[a := AllCells(l.objs)])
  }

  /** slab.c:103-122. Make sure there is a partial slab: the first free one, or a new one at `spare`. */
  function Ready(l: Layout, s: Slabs, spare: nat): Slabs {
    if s.partial != [] then s
    else if s.free != [] then s.(free := s.free[1..], partial := [s.free[0]])
    else s.(partial := [spare], chains := s.chains[spare := AllCells(l.objs)])
  }

  predicate CanTake(s: Slabs) {
    s.partial != [] && s.partial[0] in s.chains && s.chains[s.partial[0]] != []
  }

  /** slab.c:124-135. The first cell of the first partial slab. */
  function Take(s: Slabs): Slabs
    requires CanTake(s)
  {
    var a := s.partial[0];
    var t := s.(chains := s.chains[a := s.chains[a][1..]]);
    if t.chains[a] == [] then t.(partial := s.partial[1..], full := [a] + s.full) else t
  }

  /** slab.c:145-169. */
  function Put(l: Layout, s: Slabs, a: nat, c: nat): Slabs
    requires a in s.chains
  {
    var chain := s.chains[a];
    var t := s.(chains := s.chains[a := [c] + chain]);
    if chain == [] then t.(full := Without(s.full, a), partial := [a] + s.partial)
    else if |chain| + 1 == l.objs then t.(partial := Without(s.partial, a), free := [a] + s.free)
    else t
  }

  /** The object that an allocation returns, as slab and cell. */
  function NextObject(l: Layout, s: Slabs, spare: nat): (nat, nat)
    requires CanTake(Ready(l, s, spare))
  {
    var t := Ready(l, s, spare);
    (t.partial[0], t.chains[t.partial[0]][0])
  }

  function Alloc(l: Layout, s: Slabs, spare: nat): Slabs
    requires CanTake(Ready(l, s, spare))
  {
    Take(Ready(l, s, spare))
  }

  // ----- what the operations keep

  lemma AllCellsOk(l: Layout)
    ensures ChainOk(l, AllCells(l.objs)) && |AllCells(l.objs)| == l.objs && forall c: nat | c < l.objs ::
            c in AllCells(l.objs)
  {
    var all := AllCells(l.objs);
    forall c: nat | c < l.objs
      ensures c in all
    {
      assert all[c] == c;
    }
  }

  predicate Fresh(s: Slabs, a: nat) {
    a > 0 && a % SLAB_SIZE == 0 && a !in s.chains
  }

  /** A new slab that vm_alloc_block would return is needed only if no slab has a free cell. */
  predicate SpareOk(s: Slabs, spare: nat) {
    s.partial == [] && s.free == [] ==> Fresh(s, spare)
  }

  ghost predicate SameLive(l: Layout, s: Slabs, t: Slabs) {
    forall a, c :: IsLive(l, s, a, c) <==> IsLive(l, t, a, c)
  }

  ghost predicate OneMoreLive(l: Layout, s: Slabs, t: Slabs, a: nat, c: nat) {
    !IsLive(l, s, a, c) && forall b, d :: IsLive(l, t, b, d) <==> IsLive(l, s, b, d) || (b == a && d == c)
  }

  lemma NewSlabFacts(l: Layout, s: Slabs, a: nat)
    requires LayoutOk(l) && Placed(s) && ChainsOk(l, s) && Fresh(s, a)
    ensures var t := s.(chains := s.chains[a := AllCells(l.objs)]); Placed(t) && ChainsOk(l, t) && SameLive(l, s, t)
    ensures |AllCells(l.objs)| == l.objs
  {
    hide ChainOk, AllCells;
    AllCellsOk(l);
  }

  lemma AddSlabKeeps(l: Layout, s: Slabs, a: nat)
    requires LayoutOk(l) && Inv(l, s) && Fresh(s, a)
    ensures Inv(l, AddSlab(l, s, a)) && SameLive(l, s, AddSlab(l, s, a))
  {
    NewSlabFacts(l, s, a);
    hide ChainsOk, Placed, AllCells;
    var t := AddSlab(l, s, a);
    assert ListedByCount(l, s, a) && ListedByCount(l, t, a);
    forall b | b != a
      ensures ListedByCount(l, t, b)
    {
      assert ListedByCount(l, s, b);
    }
  }

  /** Invariant but for the list the first partial slab belongs on. */
  ghost predicate Prepared(l: Layout, s: Slabs) {
    && CanTake(s) && Placed(s) && ChainsOk(l, s) && NoDup(s.free) && NoDup(s.partial) && NoDup(s.full)
    && s.partial[0] !in s.free && s.partial[0] !in s.full
    && (forall a :: a != s.partial[0] ==> ListedByCount(l, s, a))
  }

  lemma ReadyKeeps(l: Layout, s: Slabs, spare: nat)
    requires LayoutOk(l) && Inv(l, s) && SpareOk(s, spare)
    ensures Prepared(l, Ready(l, s, spare)) && SameLive(l, s, Ready(l, s, spare))
  {
    if s.partial != [] {
      assert s.partial[0] in s.partial && ListedByCount(l, s, s.partial[0]);
    } else if s.free != [] {
      hide ChainsOk, Placed;
      var t := Ready(l, s, spare);
      assert s.free == [s.free[0]] + s.free[1..] && s.free[0] in s.free;
      assert ListedByCount(l, s, s.free[0]);
      forall b | b != s.free[0]
        ensures ListedByCount(l, t, b)
      {
        assert ListedByCount(l, s, b);
      }
    } else {
      NewSlabFacts(l, s, spare);
      hide ChainsOk, Placed, AllCells;
      var t := Ready(l, s, spare);
      assert ListedByCount(l, s, spare);
      forall b | b != spare
        ensures ListedByCount(l, t, b)
      {
        assert ListedByCount(l, s, b);
      }
    }
  }

  lemma ChainRest(l: Layout, chain: seq<nat>)
    requires ChainOk(l, chain) && chain != []
    ensures ChainOk(l, chain[1..]) && |chain[1..]| < l.objs && chain[0] < l.objs && chain[0] !in chain[1..]
    ensures forall c :: c in chain <==> c == chain[0] || c in chain[1..]
  {
    assert chain == [chain[0]] + chain[1..] && chain[0] in chain;
    assert forall c :: c in chain[1..] ==> c in chain;
    ShorterList(chain[1..], l.objs, chain[0]);
  }

  lemma ChainMore(l: Layout, chain: seq<nat>, c: nat)
    requires ChainOk(l, chain) && c < l.objs && c !in chain
    ensures ChainOk(l, [c] + chain) && |chain| < l.objs && ([c] + chain)[1..] == chain
    ensures forall d :: d in [c] + chain <==> d == c || d in chain
  {
    ShorterList(chain, l.objs, c);
  }

  lemma TakeKeeps(l: Layout, s: Slabs)
    requires Prepared(l, s)
    ensures Inv(l, Take(s)) && OneMoreLive(l, s, Take(s), s.partial[0], s.chains[s.partial[0]][0])
  {
    TakeLists(l, s);
    ChainRest(l, s.chains[s.partial[0]]);
    hide ListedByCount, ChainOk, ByCount;
  }

  lemma TakeLists(l: Layout, s: Slabs)
    requires Prepared(l, s)
    ensures var t := Take(s); ByCount(l, t) && NoDup(t.free) && NoDup(t.partial) && NoDup(t.full)
  {
    var a, t := s.partial[0], Take(s);
    ChainRest(l, s.chains[a]);
    hide ChainsOk, Placed, ChainOk;
    assert s.partial == [a] + s.partial[1..];
    assert ListedByCount(l, t, a);
    forall b | b != a
      ensures ListedByCount(l, t, b)
    {
      assert ListedByCount(l, s, b);
    }
  }

  /** An allocation hands out one cell that no caller has, and nothing else changes hands. */
  lemma AllocKeeps(l: Layout, s: Slabs, spare: nat)
    requires LayoutOk(l) && Inv(l, s) && SpareOk(s, spare)
    ensures CanTake(Ready(l, s, spare)) && Inv(l, Alloc(l, s, spare))
    ensures var (a, c) := NextObject(l, s, spare); c < l.objs && OneMoreLive(l, s, Alloc(l, s, spare), a, c)
  {
    ReadyKeeps(l, s, spare);
    var t := Ready(l, s, spare);
    assert Prepared(l, t) && CanTake(t);
    TakeKeeps(l, t);
    ChainRest(l, t.chains[t.partial[0]]) by {
      assert ChainsOk(l, t);
    }
    hide Inv, Prepared, IsLive, Take, Ready;
  }

  ghost predicate InUsePart(l: Layout, s: Slabs, a: nat) {
    a in s.chains && 0 < |s.chains[a]| < l.objs
  }

  ghost predicate AllFree(l: Layout, s: Slabs, a: nat) {
    a in s.chains && |s.chains[a]| == l.objs
  }

  /** The object comes from a slab that is partly in use while there is one, then from one with every cell free, and
      from a new slab exactly when no slab has a free cell. */
  lemma AllocPrefers(l: Layout, s: Slabs, spare: nat)
    requires LayoutOk(l) && Inv(l, s) && SpareOk(s, spare)
    ensures CanTake(Ready(l, s, spare))
    ensures var (a, t) := (NextObject(l, s, spare).0, Alloc(l, s, spare));
            && ((exists b :: InUsePart(l, s, b)) ==> InUsePart(l, s, a))
            && ((exists b :: AllFree(l, s, b)) ==> AllFree(l, s, a) || InUsePart(l, s, a))
            && (a in s.chains ==> t.chains.Keys == s.chains.Keys)
            && (a !in s.chains <==> forall b :: b in s.chains ==> s.chains[b] == [])
            && (a !in s.chains ==> a == spare && t.chains.Keys == s.chains.Keys + {spare})
  {
    AllocKeeps(l, s, spare);
    hide ChainsOk, ChainOk, Placed, OneMoreLive, AllCells;
    var a := NextObject(l, s, spare).0;
    forall b
      ensures (b in s.chains && s.chains[b] != [] <==> InUsePart(l, s, b) || AllFree(l, s, b))
      ensures InUsePart(l, s, b) <==> b in s.partial
      ensures AllFree(l, s, b) <==> b in s.free
    {
      assert ListedByCount(l, s, b);
      if b in s.chains {
        ChainFits(l, s, b);
      }
    }
    hide Inv, LayoutOk, InUsePart, AllFree;
    if s.partial != [] {
      assert a in s.partial;
    } else if s.free != [] {
      assert a in s.free;
    }
  }

  lemma ChainFits(l: Layout, s: Slabs, a: nat)
    requires Inv(l, s) && a in s.chains
    ensures |s.chains[a]| <= l.objs
  {
    assert ChainOk(l, s.chains[a]);
    if s.chains[a] != [] {
      ChainRest(l, s.chains[a]);
    }
    hide ChainOk;
  }

  /** A free takes back exactly that cell. */
  lemma PutKeeps(l: Layout, s: Slabs, a: nat, c: nat)
    requires LayoutOk(l) && Inv(l, s) && IsLive(l, s, a, c)
    ensures Inv(l, Put(l, s, a, c)) && OneMoreLive(l, Put(l, s, a, c), s, a, c)
  {
    ChainMore(l, s.chains[a], c);
    PutLists(l, s, a, c);
    hide ListedByCount, ChainOk, ByCount;
  }

  lemma PutLists(l: Layout, s: Slabs, a: nat, c: nat)
    requires LayoutOk(l) && Inv(l, s) && IsLive(l, s, a, c)
    ensures var t := Put(l, s, a, c); ByCount(l, t) && NoDup(t.free) && NoDup(t.partial) && NoDup(t.full)
  {
    var t := Put(l, s, a, c);
    ChainMore(l, s.chains[a], c);
    hide ChainsOk, Placed, ChainOk;
    assert ListedByCount(l, s, a);
    if s.chains[a] == [] {
      WithoutFacts(s.full, a);
    } else if |s.chains[a]| + 1 == l.objs {
      WithoutFacts(s.partial, a);
    }
    assert ListedByCount(l, t, a);
    forall b | b != a
      ensures ListedByCount(l, t, b)
    {
      assert ListedByCount(l, s, b);
    }
  }

  /** New slabs one after another. */
  function AddSlabs(l: Layout, s: Slabs, blocks: seq<nat>): Slabs {
    if blocks == [] then s
    else AddSlab(l, AddSlabs(l, s, blocks[..|blocks| - 1]), blocks[|blocks| - 1])
  }

  ghost predicate AllFresh(s: Slabs, blocks: seq<nat>) {
    NoDup(blocks) && forall a :: a in blocks ==> Fresh(s, a)
  }

  lemma {:induction false} AddSlabsKeeps(l: Layout, s: Slabs, blocks: seq<nat>, n: nat)
    requires LayoutOk(l) && Inv(l, s) && AllFresh(s, blocks) && n <= |blocks|
    ensures var t := AddSlabs(l, s, blocks[..n]);
      && Inv(l, t) && SameLive(l, s, t) && t.partial == s.partial && t.full == s.full && |t.free| == |s.free| + n
      && (forall a :: a in t.chains <==> a in s.chains || a in blocks[..n])
      && (n < |blocks| ==> Fresh(t, blocks[n]) && AddSlabs(l, s, blocks[..n + 1]) == AddSlab(l, t, blocks[n]))
  {
    if n < |blocks| {
      assert blocks[..n + 1][..n] == blocks[..n] && blocks[n] in blocks;
    }
    if n > 0 {
      AddSlabsKeeps(l, s, blocks, n - 1);
      hide LayoutOk, SameLive;
      var t := AddSlabs(l, s, blocks[..n - 1]);
      AddSlabKeeps(l, t, blocks[n - 1]);
      SameLiveTwice(l, s, t, AddSlab(l, t, blocks[n - 1]));
      hide Inv, AddSlabs;
      assert blocks[..n] == blocks[..n - 1] + [blocks[n - 1]];
    }
  }

  lemma SameLiveTwice(l: Layout, s: Slabs, t: Slabs, u: Slabs)
    requires SameLive(l, s, t) && SameLive(l, t, u)
    ensures SameLive(l, s, u)
  {
  }

  // ----- round trips

  lemma DropFirst(l: seq<nat>)
    requires l != []
    ensures Without(l, l[0]) == l[1..] && [l[0]] + l[1..] == l
  {
  }

  /** Giving back what was just allocated restores the cache, lists, chains and all; after an allocation that needed a
      new slab it leaves that slab reserved. */
  lemma AllocThenFree(l: Layout, s: Slabs, spare: nat)
    requires LayoutOk(l) && Inv(l, s) && SpareOk(s, spare)
    ensures CanTake(Ready(l, s, spare)) && NextObject(l, s, spare).0 in Alloc(l, s, spare).chains
    ensures Put(l, Alloc(l, s, spare), NextObject(l, s, spare).0, NextObject(l, s, spare).1)
      == (if s.partial == [] && s.free == [] then AddSlab(l, s, spare) else s)
  {
    AllocKeeps(l, s, spare);
    ReadyKeeps(l, s, spare);
    var t := Ready(l, s, spare);
    PutAfterTake(l, t);
    ReadyChain(l, s, spare);
    hide Inv, Prepared, AllCells, Take, OneMoreLive, SameLive;
    DropFirst(t.partial);
  }

  /** What the chain of the slab about to be used tells about where it came from. */
  lemma ReadyChain(l: Layout, s: Slabs, spare: nat)
    requires Inv(l, s) && Prepared(l, Ready(l, s, spare)) && SpareOk(s, spare)
    ensures var t := Ready(l, s, spare); s.partial == [] <==> |t.chains[t.partial[0]]| == l.objs
    ensures s.partial == [] && s.free != [] ==> [s.free[0]] + s.free[1..] == s.free
  {
    if s.partial != [] {
      assert s.partial[0] in s.partial && ListedByCount(l, s, s.partial[0]);
    } else if s.free != [] {
      assert s.free[0] in s.free && ListedByCount(l, s, s.free[0]);
    } else {
      AllCellsOk(l);
    }
  }

  lemma PutAfterTake(l: Layout, t: Slabs)
    requires LayoutOk(l) && Prepared(l, t)
    ensures t.partial[0] in Take(t).chains
    ensures Put(l, Take(t), t.partial[0], t.chains[t.partial[0]][0])
      == (if |t.chains[t.partial[0]]| == l.objs
          then t.(free := [t.partial[0]] + t.free, partial := t.partial[1..]) else t)
  {
    var a := t.partial[0];
    var chain, u := t.chains[a], Take(t);
    assert [chain[0]] + chain[1..] == chain;
    DropFirst(t.partial);
    assert ([a] + t.full)[1..] == t.full;
    ChainRest(l, chain) by {
      assert ChainsOk(l, t);
    }
    assert t.chains[a := chain[1..]][a := chain] == t.chains;
  }

  /** The slab is the one the next allocation takes from, once it has one more free cell. */
  predicate NextInLine(l: Layout, s: Slabs, a: nat)
    requires a in s.chains
  {
    if s.chains[a] == [] then true
    else if |s.chains[a]| + 1 == l.objs then s.partial == [a]
    else s.partial != [] && s.partial[0] == a
  }

  /** The object freed last is the next one allocated exactly when its slab was full, or is the first partial slab and
      stays on that list or leaves it empty. */
  lemma FreeThenAlloc(l: Layout, s: Slabs, a: nat, c: nat, spare: nat)
    requires LayoutOk(l) && Inv(l, s) && IsLive(l, s, a, c)
    ensures CanTake(Ready(l, Put(l, s, a, c), spare))
    ensures NextObject(l, Put(l, s, a, c), spare) == (a, c) <==> NextInLine(l, s, a)
  {
    var t := Put(l, s, a, c);
    PutKeeps(l, s, a, c);
    assert ListedByCount(l, s, a) && ListedByCount(l, t, a);
    ChainMore(l, s.chains[a], c) by {
      assert ChainsOk(l, s);
    }
    assert a in t.partial || a in t.free;
    AllocKeeps(l, t, spare);
    hide Inv, OneMoreLive, IsLive, ListedByCount, ChainOk, ChainsOk;
    if s.chains[a] != [] && |s.chains[a]| + 1 == l.objs {
      OnlyOne(s.partial, a);
    }
  }

  lemma OnlyOne(p: seq<nat>, a: nat)
    ensures a in p ==> (Without(p, a) == [] <==> p == [a])
  {
  }
}
