/** slab.c: one cache of slabs, kept in memory shared with other caches. */
module SlabCache {
  import opened Arithmetic
  import opened Lists
  import opened SlabModel
  import opened SlabCounts
  import opened SlabStore

  /** Memory holds these slabs: three linked lists, and in every slab its chain. */
  ghost predicate Stored(l: Layout, chains: map<nat, seq<nat>>, h: Headers, cells: map<nat, nat>) {
    forall a :: a in chains ==> IsChain(l, h, cells, a, chains[a])
  }

  ghost predicate Apart(a: seq<nat>, b: seq<nat>) {
    forall x :: x in a ==> x !in b
  }

  lemma KeepList(h: Headers, now: Headers, list: seq<nat>, head: nat, other: seq<nat>)
    requires OnlyLinks(h, now, list) && Apart(other, list) && IsList(h, head, other)
    ensures IsList(now, head, other)
  {
    ListFrame(h, now, head, other);
  }

  lemma KeepChains(l: Layout, chains: map<nat, seq<nat>>, h: Headers, now: Headers, cells: map<nat, nat>,
          list: seq<nat>)
    requires OnlyLinks(h, now, list) && Stored(l, chains, h, cells)
    ensures Stored(l, chains, now, cells)
  {
    forall a | a in chains
      ensures IsChain(l, now, cells, a, chains[a])
    {
      assert IsChain(l, h, cells, a, chains[a]);
    }
  }

  /** Memory outside these slabs is as it was. */
  ghost predicate OnlySlabs(h: Headers, now: Headers, cells: map<nat, nat>, cells': map<nat, nat>, slabs: set<nat>) {
    && (forall a :: a in h && a !in slabs ==> a in now && now[a] == h[a])
    && (forall p :: p in cells && SlabOf(p) !in slabs ==> p in cells' && cells'[p] == cells[p])
  }

  /** (pointer - data) / cell size in C, where the quotient of a null pointer is rounded toward zero and cut to 16 bits.
      */
  function IndexOfCell(l: Layout, slab: nat, p: nat): nat
    requires l.cell > 0
  {
    if p >= slab + HEADER then (p - (slab + HEADER)) / l.cell % 0x1_0000
    else (-((slab + HEADER - p) / l.cell)) % 0x1_0000
  }

  lemma IndexIsCell(l: Layout, a: nat, c: nat)
    requires LayoutOk(l) && c < l.objs
    ensures IndexOfCell(l, a, AddrOf(l, a, c)) == c
  {
    MultipleOf(c, l.cell);
    ObjsBound(l);
  }

  /** The header after the first cell is taken. */
  lemma TakeChain(l: Layout, h: Headers, now: Headers, cells: map<nat, nat>, a: nat, chain: seq<nat>)
    requires LayoutOk(l) && IsChain(l, h, cells, a, chain) && ChainOk(l, chain) && chain != []
    requires AddrOf(l, a, chain[0]) in cells && a in now
    requires now[a] == h[a].(firstFree := IndexOfCell(l, a, cells[AddrOf(l, a, chain[0])]),
             freeCount := h[a].freeCount - 1)
    ensures IsChain(l, now, cells, a, chain[1..])
  {
    assert NextIs(l, cells, a, chain, 0);
    var rest := chain[1..];
    if rest != [] {
      assert chain[1] in chain;
      IndexIsCell(l, a, chain[1]);
    }
    forall i | 0 <= i < |rest|
      ensures NextIs(l, cells, a, rest, i)
    {
      assert NextIs(l, cells, a, chain, i + 1);
    }
  }

  /** The header and the cell after a free. */
  lemma PutChain(l: Layout, h: Headers, now: Headers, cells: map<nat, nat>, cells': map<nat, nat>, a: nat,
          chain: seq<nat>, c: nat)
    requires LayoutOk(l) && IsChain(l, h, cells, a, chain) && ChainOk(l, chain) && c < l.objs && c !in chain
    requires cells' == cells[AddrOf(l, a, c) := if chain == [] then 0 else AddrOf(l, a, h[a].firstFree)]
    requires a in now && now[a] ==
             h[a].(firstFree := IndexOfCell(l, a, AddrOf(l, a, c)), freeCount := h[a].freeCount + 1)
    ensures IsChain(l, now, cells', a, [c] + chain)
  {
    IndexIsCell(l, a, c);
    var more := [c] + chain;
    forall i | 0 <= i < |more|
      ensures NextIs(l, cells', a, more, i)
    {
      if i > 0 {
        assert NextIs(l, cells, a, chain, i - 1) && chain[i - 1] in chain;
        if AddrOf(l, a, more[i]) == AddrOf(l, a, c) {
          AddrInjective(l, a, more[i], c);
        }
      }
    }
  }

  /** Writing a cell of one slab leaves the chains of the others alone. */
  lemma OtherChain(l: Layout, h: Headers, now: Headers, cells: map<nat, nat>, cells': map<nat, nat>, b: nat,
          chain: seq<nat>)
    requires LayoutOk(l) && IsChain(l, h, cells, b, chain) && ChainOk(l, chain) && b % SLAB_SIZE == 0
    requires b in now && now[b] == h[b]
    requires forall p :: p in cells && SlabOf(p) == b ==> p in cells' && cells'[p] == cells[p]
    ensures IsChain(l, now, cells', b, chain)
  {
    forall i | 0 <= i < |chain|
      ensures NextIs(l, cells', b, chain, i)
    {
      assert NextIs(l, cells, b, chain, i) && chain[i] in chain;
      ObjectFound(l, b, chain[i]);
    }
  }

  lemma OthersStored(l: Layout, s: Slabs, h: Headers, now: Headers, cells: map<nat, nat>, cells': map<nat, nat>,
          t: Slabs, a: nat)
    requires LayoutOk(l) && Stored(l, s.chains, h, cells) && Placed(s) && ChainsOk(l, s) && a in t.chains
    requires t.chains == s.chains[a := t.chains[a]] && IsChain(l, now, cells', a, t.chains[a])
    requires OnlySlabs(h, now, cells, cells', {a})
    ensures Stored(l, t.chains, now, cells')
  {
    forall b | b in t.chains
      ensures IsChain(l, now, cells', b, t.chains[b])
    {
      if b != a {
        assert IsChain(l, h, cells, b, s.chains[b]) && ChainOk(l, s.chains[b]);
        OtherChain(l, h, now, cells, cells', b, s.chains[b]);
      }
    }
  }

  class KmemCache {
    const layout: Layout
    const mem: SlabMemory

    var totalFreeSlabs: nat
    var totalPartialSlabs: nat
    var totalFullSlabs: nat
    var allocatedObjects: nat
    var totalFreeObjects: nat

    var freeSlabs: nat
    var partialSlabs: nat
    var fullSlabs: nat

    /** The cache as a value. */
    ghost var slabs: Slabs

    ghost function Now(): Counters
      reads this
    {
      Counters(totalFreeSlabs, totalPartialSlabs, totalFullSlabs, allocatedObjects, totalFreeObjects)
    }

    /** Memory and list heads are those of the value. */
    ghost predicate Holds()
      reads this, mem
    {
      && LayoutOk(layout) && InWords(Now())
      && IsList(mem.headers, freeSlabs, slabs.free) && IsList(mem.headers, partialSlabs, slabs.partial)
      && IsList(mem.headers, fullSlabs, slabs.full) && Stored(layout, slabs.chains, mem.headers, mem.cells)
    }

    ghost predicate Valid()
      reads this, mem
    {
      Holds() && Inv(layout, slabs) && Now() == TrueCounters(layout, slabs)
    }

    /** slab_cache_init. */
    constructor (size: nat, align: nat, id: nat, mem: SlabMemory)
      requires size > 0 && align > 0 && LayoutOk(LayoutFor(size, align, id))
      ensures Valid() && layout == LayoutFor(size, align, id) && this.mem == mem && slabs == NO_SLABS
    {
      layout := LayoutFor(size, align, id);
      this.mem := mem;
      totalFreeSlabs, totalPartialSlabs, totalFullSlabs, allocatedObjects, totalFreeObjects := 0, 0, 0, 0, 0;
      freeSlabs, partialSlabs, fullSlabs := 0, 0, 0;
      slabs := NO_SLABS;
      new;
      assert LiveSet(layout, NO_SLABS) == {} && FreeSet(NO_SLABS) == {};
    }

    /** __slab_init: thread all cells into the chain. */
    method InitSlab(slab: nat)
      requires LayoutOk(layout) && slab > 0 && slab % SLAB_SIZE == 0
      modifies mem
      ensures IsChain(layout, mem.headers, mem.cells, slab, AllCells(layout.objs))
      ensures mem.headers.Keys == old(mem.headers.Keys) + {slab}
      ensures OnlySlabs(old(mem.headers), mem.headers, old(mem.cells), mem.cells, {slab})
    {
      var prev: nat, next: nat := *, *;
      mem.headers := mem.headers[slab := Header(prev, next, 0, layout.objs, layout.id)];
      ghost var h, before := mem.headers, mem.cells;
      var i, obj := 0, 0;
      while i < layout.objs - 1
        modifies mem`cells
        invariant 0 <= i <= layout.objs - 1
        invariant i > 0 ==> obj == AddrOf(layout, slab, i)
        invariant forall j :: 0 <= j < i ==> Points(layout, mem.cells, slab, j)
        invariant OnlySlabs(h, h, before, mem.cells, {slab})
      {
        obj := slab + HEADER + i * layout.cell;
        NextCell(layout, slab, i);
        InSlab(layout, slab, i);
        ghost var was := mem.cells;
        mem.cells := mem.cells[obj := obj + layout.cell];
        PointsMore(layout, was, mem.cells, slab, i);
        obj := mem.cells[obj];
        i := i + 1;
      }
      InSlab(layout, slab, i);
      LastCell(layout, mem.headers, mem.cells, slab);
      mem.cells := mem.cells[obj := 0];
    }

    /** A slab of new memory goes on the free list: the loop bodies of slab_cache_reserve and slab_cache_prealloc. */
    method AddFree(slab: nat)
      requires Holds() && Inv(layout, slabs) && Fresh(slabs, slab)
      modifies this`freeSlabs, this`totalFreeObjects, this`slabs, mem
      ensures Holds() && Inv(layout, slabs) && slabs == AddSlab(layout, old(slabs), slab)
      ensures totalFreeObjects == W32(old(totalFreeObjects) + layout.objs)
      ensures OnlySlabs(old(mem.headers), mem.headers, old(mem.cells), mem.cells, slabs.chains.Keys)
    {
      hide Inv, IsList, Stored, OnlySlabs, OnlyLinks, IsChain, TrueCounters, Apart;
      ghost var l, s, t := layout, slabs, AddSlab(layout, slabs, slab);
      ghost var h, c := mem.headers, mem.cells;
      NotListed(l, s, slab);
      InvParts(l, s);
      InitSlab(slab);
      ghost var h1 := mem.headers;
      OutsideSlab(h, h1, c, mem.cells, slab, freeSlabs, s.free);
      OutsideSlab(h, h1, c, mem.cells, slab, partialSlabs, s.partial);
      OutsideSlab(h, h1, c, mem.cells, slab, fullSlabs, s.full);
      OthersStored(l, s, h, h1, c, mem.cells, t, slab);
      freeSlabs := mem.Link(slab, freeSlabs, slabs.free);
      AddSlabKeeps(l, s, slab);
      ListsApart(l, t);
      KeepList(h1, mem.headers, t.free, partialSlabs, s.partial);
      KeepList(h1, mem.headers, t.free, fullSlabs, s.full);
      KeepChains(l, t.chains, h1, mem.headers, mem.cells, t.free);
      LinksInSlabs(h, h1, mem.headers, c, mem.cells, {slab}, t.free, t.chains.Keys);
      slabs := t;
      totalFreeObjects := W32(totalFreeObjects + layout.objs);
    }

    /** The cache while slabs are being added, before their number is. */
    ghost predicate Adding(s0: Slabs, blocks: seq<nat>, i: nat)
      requires i <= |blocks|
      reads this, mem
    {
      && Holds() && Inv(layout, slabs) && slabs == AddSlabs(layout, s0, blocks[..i])
      && totalFreeSlabs == W16(|s0.free|) && Now() == TrueCounters(layout, slabs).(free := totalFreeSlabs)
    }

    /** The next of these blocks becomes a free slab. */
    method AddOne(slab: nat, ghost s0: Slabs, ghost blocks: seq<nat>, ghost i: nat)
      requires i < |blocks| && slab == blocks[i] && Inv(layout, s0) && AllFresh(s0, blocks) && Adding(s0, blocks, i)
      modifies this`freeSlabs, this`totalFreeObjects, this`slabs, mem
      ensures Adding(s0, blocks, i + 1) && old(slabs.chains.Keys) <= slabs.chains.Keys
      ensures OnlySlabs(old(mem.headers), mem.headers, old(mem.cells), mem.cells, slabs.chains.Keys)
    {
      hide Inv, IsList, Stored, OnlySlabs, IsChain, TrueCounters, Fresh, AllFresh, LayoutOk, SameLive, AddSlabs, NoDup;
      AddSlabsKeeps(layout, s0, blocks, i);
      ReserveMove(layout, Now(), slabs, slab);
      AddSlabKeeps(layout, slabs, slab);
      AddFree(slab);
    }

    /** slab_cache_reserve, where vm_alloc_block returns `blocks`. */
    method Reserve(numObjects: nat, blocks: seq<nat>)
      requires Valid() && AllFresh(slabs, blocks)
      requires numObjects < 0x1_0000 && |blocks| == (numObjects + layout.objs - 1) / layout.objs
      modifies this, mem
      ensures Valid() && slabs == AddSlabs(layout, old(slabs), blocks)
      ensures OnlySlabs(old(mem.headers), mem.headers, old(mem.cells), mem.cells, slabs.chains.Keys)
    {
      hide Inv, IsList, Stored, OnlySlabs, IsChain, TrueCounters, Fresh, AllFresh, SameLive, NoDup;
      var numSlabs := (numObjects + layout.objs - 1) / layout.objs;
      var i := 0;
      ghost var s0 := slabs;
      StartAdding(layout, Now(), slabs, blocks);
      NothingWritten(mem.headers, mem.cells, slabs.chains.Keys);
      hide AddSlabs;
      while i < numSlabs
        invariant 0 <= i <= |blocks| && Adding(s0, blocks, i)
        invariant OnlySlabs(old(mem.headers), mem.headers, old(mem.cells), mem.cells, slabs.chains.Keys)
      {
        ghost var h, c, some := mem.headers, mem.cells, slabs.chains.Keys;
        AddOne(blocks[i], s0, blocks, i);
        MoreSlabs(old(mem.headers), h, mem.headers, old(mem.cells), c, mem.cells, some, slabs.chains.Keys);
        i := i + 1;
      }
      EndAdding(layout, s0, blocks);
      ReserveEnds(layout, Now(), s0, slabs, numSlabs);
      totalFreeSlabs := W16(totalFreeSlabs + numSlabs);
    }

    /** slab_cache_prealloc, with the slabs counted as slab_cache_reserve counts them. */
    method Prealloc(pages: nat, numSlabs: nat, ghost blocks: seq<nat>)
      requires Valid() && AllFresh(slabs, blocks) && numSlabs < 0x100 && |blocks| == numSlabs
      requires forall i: nat | i < numSlabs :: blocks[i] == pages + i * SLAB_SIZE
      modifies this, mem
      ensures Valid() && slabs == AddSlabs(layout, old(slabs), blocks)
      ensures OnlySlabs(old(mem.headers), mem.headers, old(mem.cells), mem.cells, slabs.chains.Keys)
    {
      hide Inv, IsList, Stored, OnlySlabs, IsChain, TrueCounters, Fresh, AllFresh, LayoutOk, SameLive, NoDup;
      var i := 0;
      ghost var s0 := slabs;
      StartAdding(layout, Now(), slabs, blocks);
      NothingWritten(mem.headers, mem.cells, slabs.chains.Keys);
      hide AddSlabs;
      while i < numSlabs
        invariant 0 <= i <= |blocks| && Adding(s0, blocks, i)
        invariant OnlySlabs(old(mem.headers), mem.headers, old(mem.cells), mem.cells, slabs.chains.Keys)
      {
        ghost var h, c, some := mem.headers, mem.cells, slabs.chains.Keys;
        AddOne(pages + i * SLAB_SIZE, s0, blocks, i);
        MoreSlabs(old(mem.headers), h, mem.headers, old(mem.cells), c, mem.cells, some, slabs.chains.Keys);
        i := i + 1;
      }
      EndAdding(layout, s0, blocks);
      ReserveEnds(layout, Now(), s0, slabs, numSlabs);
      totalFreeSlabs := W16(totalFreeSlabs + numSlabs);
    }

    /** slab.c:103-122: the slab to allocate from is now the first partial one. `spare` is what vm_alloc_block would
        return. */
    method ReadySlab(spare: nat) returns (slab: nat)
      requires Valid() && SpareOk(slabs, spare)
      modifies this, mem
      ensures Holds() && Prepared(layout, slabs) && slabs == Ready(layout, old(slabs), spare) &&
              slab == slabs.partial[0]
      ensures Now() == ReadyCounters(layout, old(Now()), old(slabs))
      ensures OnlySlabs(old(mem.headers), mem.headers, old(mem.cells), mem.cells, slabs.chains.Keys)
    {
      slab := partialSlabs;
      ghost var s, h, c := slabs, mem.headers, mem.cells;
      ReadyKeeps(layout, slabs, spare);
      ListsApart(layout, slabs);
      NullIfEmpty(h, partialSlabs, slabs.partial);
      NullIfEmpty(h, freeSlabs, slabs.free);
      NothingWritten(h, c, s.chains.Keys);
      hide Inv, Prepared, IsList, Stored, OnlySlabs, OnlyLinks, TrueCounters, SameLive, LayoutOk;
      if slab == 0 {
        slab := freeSlabs;
        if slab == 0 {
          FirstNew(spare);
          slab := spare;
          InMoreSlabs(h, mem.headers, c, mem.cells, {spare}, slabs.chains.Keys);
        } else {
          FirstFree();
          LinksInSlabs(h, h, mem.headers, c, c, {}, s.free, s.chains.Keys);
        }
      }
    }

    /** slab.c:113-117. */
    method FreeToPartial(slab: nat)
      requires Holds() && slabs.free != [] && slab == slabs.free[0]
      requires Apart(slabs.partial, slabs.free) && Apart(slabs.full, slabs.free + slabs.partial)
      modifies this`partialSlabs, this`freeSlabs, this`totalPartialSlabs, this`totalFreeSlabs, this`slabs, mem`headers
      ensures Holds() && slabs == old(slabs).(free := old(slabs).free[1..], partial := [slab] + old(slabs).partial)
      ensures Now() == Moved(old(Now()), -1, 1, 0)
      ensures OnlyLinks(old(mem.headers), mem.headers, old(slabs.free + slabs.partial))
    {
      hide IsList, Stored, OnlyLinks, LayoutOk;
      ghost var h, s := mem.headers, slabs;
      freeSlabs, partialSlabs := mem.Move(slab, freeSlabs, partialSlabs, slabs.free, slabs.partial);
      DropFirst(s.free);
      hide Apart, Without;
      KeepList(h, mem.headers, s.free + s.partial, fullSlabs, s.full);
      KeepChains(layout, s.chains, h, mem.headers, mem.cells, s.free + s.partial);
      slabs := s.(free := s.free[1..], partial := [slab] + s.partial);
      totalFreeSlabs := W16(totalFreeSlabs - 1);
      totalPartialSlabs := W16(totalPartialSlabs + 1);
    }

    /** slab.c:113-121. */
    method FirstFree()
      requires Valid() && slabs.partial == [] && slabs.free != []
      modifies this, mem`headers
      ensures Holds() && slabs == Ready(layout, old(slabs), 0) &&
              OnlyLinks(old(mem.headers), mem.headers, old(slabs.free))
      ensures Now() == Moved(old(Now()), -1, 1, 0)
    {
      ListsApart(layout, slabs);
      NullIfEmpty(mem.headers, freeSlabs, slabs.free);
      hide Inv, IsList, Stored, OnlyLinks, TrueCounters, NoDup, Without, LayoutOk;
      var slab := freeSlabs;
      assert slabs.free + slabs.partial == slabs.free && [slab] + slabs.partial == [slab];
      FreeToPartial(slab);
      OnlyLink(mem.headers, partialSlabs, slab);
      mem.headers := mem.headers[slab := mem.headers[slab].(prev := 0, next := 0)];
    }

    /** slab.c:109-110 and 120-121, with the objects of the new slab counted. */
    method FirstNew(slab: nat)
      requires Valid() && slabs.partial == [] && slabs.free == [] && Fresh(slabs, slab)
      modifies this, mem
      ensures Holds() && slabs == Ready(layout, old(slabs), slab)
      ensures Now() == Counted(Moved(old(Now()), 0, 1, 0), 0, layout.objs)
      ensures OnlySlabs(old(mem.headers), mem.headers, old(mem.cells), mem.cells, {slab})
    {
      hide Inv, IsList, Stored, OnlySlabs, TrueCounters, Apart, IsChain, LayoutOk;
      ghost var l, s, t := layout, slabs, Ready(layout, slabs, slab);
      ghost var h, c := mem.headers, mem.cells;
      NotListed(l, s, slab);
      InvParts(l, s);
      NoElements(h, h, partialSlabs);
      InitSlab(slab);
      partialSlabs := slab;
      totalPartialSlabs := W16(totalPartialSlabs + 1);
      totalFreeObjects := W32(totalFreeObjects + layout.objs);
      ghost var h1 := mem.headers;
      mem.headers := mem.headers[slab := mem.headers[slab].(prev := 0, next := 0)];
      AloneNow(l, h, h1, mem.headers, c, mem.cells, slab, AllCells(l.objs));
      OutsideSlab(h, mem.headers, c, mem.cells, slab, freeSlabs, s.free);
      OutsideSlab(h, mem.headers, c, mem.cells, slab, fullSlabs, s.full);
      OthersStored(l, s, h, mem.headers, c, mem.cells, t, slab);
      slabs := t;
    }

    /** slab.c:130-134: the slab has no free cell left. */
    method NowFull(slab: nat)
      requires Holds() && slabs.partial != [] && slab == slabs.partial[0]
      requires (forall a :: a in slabs.full ==> a !in slabs.partial) && Apart(slabs.free, slabs.partial + slabs.full)
      modifies this`partialSlabs, this`fullSlabs, this`totalPartialSlabs, this`totalFullSlabs, this`slabs, mem`headers
      ensures Holds() && slabs == old(slabs).(partial := old(slabs).partial[1..], full := [slab] + old(slabs).full)
      ensures Now() == Moved(old(Now()), 0, -1, 1)
      ensures OnlyLinks(old(mem.headers), mem.headers, old(slabs.partial + slabs.full))
    {
      hide IsList, Stored, OnlyLinks, Apart, LayoutOk;
      ghost var h, s := mem.headers, slabs;
      partialSlabs, fullSlabs := mem.Move(slab, partialSlabs, fullSlabs, slabs.partial, slabs.full);
      DropFirst(s.partial);
      KeepList(h, mem.headers, s.partial + s.full, freeSlabs, s.free);
      KeepChains(layout, s.chains, h, mem.headers, mem.cells, s.partial + s.full);
      slabs := s.(partial := s.partial[1..], full := [slab] + s.full);
      totalPartialSlabs := W16(totalPartialSlabs - 1);
      totalFullSlabs := W16(totalFullSlabs + 1);
    }

    /** slab.c:124-138. */
    method TakeCell(slab: nat) returns (obj: nat)
      requires Holds() && Prepared(layout, slabs) && slab == slabs.partial[0]
      modifies this, mem`headers
      ensures Holds() && slabs == Take(old(slabs)) && Now() == TakeCounters(old(Now()), old(slabs))
      ensures obj == AddrOf(layout, slab, old(slabs).chains[slab][0])
      ensures OnlySlabs(old(mem.headers), mem.headers, mem.cells, mem.cells, slabs.chains.Keys)
    {
      hide IsList, Stored, OnlySlabs, OnlyLinks, Apart, NoDup, Without, LayoutOk, IsChain, ChainsOk, Placed,
           ListedByCount;
      ghost var l, s, h := layout, slabs, mem.headers;
      ghost var chain := s.chains[slab];
      ghost var mid := s.(chains := s.chains[slab := chain[1..]]);
      FirstCell(l, s, h, mem.cells, slab);
      var header := mem.headers[slab];
      obj := slab + HEADER + header.firstFree * layout.cell;
      NextCell(l, slab, header.firstFree);
      ObjsBound(l);
      mem.headers := mem.headers[slab := header.(firstFree := IndexOfCell(layout, slab, mem.cells[obj]),
        freeCount := header.freeCount - 1)];
      ghost var h1 := mem.headers;
      TakeChain(l, h, h1, mem.cells, slab, chain);
      OneWritten(h, h1, mem.cells, slab, s.chains.Keys);
      OthersStored(l, s, h, h1, mem.cells, mem.cells, mid, slab);
      SameLinks(h, h1, slab, freeSlabs, s.free);
      SameLinks(h, h1, slab, partialSlabs, s.partial);
      SameLinks(h, h1, slab, fullSlabs, s.full);
      slabs := mid;
      assert slabs.chains.Keys == s.chains.Keys;
      if mem.headers[slab].freeCount == 0 {
        PreparedApart(l, s);
        NowFull(slab);
        LinksInSlabs(h, h1, mem.headers, mem.cells, mem.cells, s.chains.Keys, s.partial + s.full, s.chains.Keys);
      }
      allocatedObjects := W32(allocatedObjects + 1);
      totalFreeObjects := W32(totalFreeObjects - 1);
    }

    /** slab_alloc: the object is one that no caller has. */
    method Alloc(spare: nat) returns (obj: nat)
      requires Valid() && SpareOk(slabs, spare)
      modifies this, mem
      ensures Valid() && CanTake(Ready(layout, old(slabs), spare)) &&
              slabs == SlabModel.Alloc(layout, old(slabs), spare)
      ensures obj == AddrOf(layout, NextObject(layout, old(slabs), spare).0, NextObject(layout, old(slabs), spare).1)
      ensures OnlySlabs(old(mem.headers), mem.headers, old(mem.cells), mem.cells, slabs.chains.Keys)
    {
      ghost var l, s := layout, slabs;
      AllocCounts(l, s, spare);
      AllocKeeps(l, s, spare);
      var slab := ReadySlab(spare);
      ghost var h, c, some := mem.headers, mem.cells, slabs.chains.Keys;
      obj := TakeCell(slab);
      MoreSlabs(old(mem.headers), h, mem.headers, old(mem.cells), c, mem.cells, some, slabs.chains.Keys);
    }

    /** slab.c:157-161: the slab was full. */
    method NowPartial(slab: nat)
      requires Holds() && slab in slabs.full
      requires Apart(slabs.partial, slabs.full) && Apart(slabs.free, slabs.full + slabs.partial)
      modifies this`partialSlabs, this`fullSlabs, this`totalPartialSlabs, this`totalFullSlabs, this`slabs, mem`headers
      ensures Holds() && slabs ==
              old(slabs).(full := Without(old(slabs).full, slab), partial := [slab] + old(slabs).partial)
      ensures Now() == Moved(old(Now()), 0, 1, -1)
      ensures OnlyLinks(old(mem.headers), mem.headers, old(slabs.full + slabs.partial))
    {
      hide IsList, Stored, OnlyLinks, LayoutOk;
      ghost var h, s := mem.headers, slabs;
      fullSlabs, partialSlabs := mem.Move(slab, fullSlabs, partialSlabs, slabs.full, slabs.partial);
      hide Apart;
      KeepList(h, mem.headers, s.full + s.partial, freeSlabs, s.free);
      KeepChains(layout, s.chains, h, mem.headers, mem.cells, s.full + s.partial);
      slabs := s.(full := Without(s.full, slab), partial := [slab] + s.partial);
      totalFullSlabs := W16(totalFullSlabs - 1);
      totalPartialSlabs := W16(totalPartialSlabs + 1);
    }

    /** slab.c:164-168, counted as what it is: a partial slab that becomes free. */
    method NowFree(slab: nat)
      requires Holds() && slab in slabs.partial
      requires Apart(slabs.free, slabs.partial) && Apart(slabs.full, slabs.partial + slabs.free)
      modifies this`partialSlabs, this`freeSlabs, this`totalPartialSlabs, this`totalFreeSlabs, this`slabs, mem`headers
      ensures Holds() && slabs ==
              old(slabs).(partial := Without(old(slabs).partial, slab), free := [slab] + old(slabs).free)
      ensures Now() == Moved(old(Now()), 1, -1, 0)
      ensures OnlyLinks(old(mem.headers), mem.headers, old(slabs.partial + slabs.free))
    {
      hide IsList, Stored, OnlyLinks, LayoutOk;
      ghost var h, s := mem.headers, slabs;
      partialSlabs, freeSlabs := mem.Move(slab, partialSlabs, freeSlabs, slabs.partial, slabs.free);
      hide Apart;
      KeepList(h, mem.headers, s.partial + s.free, fullSlabs, s.full);
      KeepChains(layout, s.chains, h, mem.headers, mem.cells, s.partial + s.free);
      slabs := s.(partial := Without(s.partial, slab), free := [slab] + s.free);
      totalPartialSlabs := W16(totalPartialSlabs - 1);
      totalFreeSlabs := W16(totalFreeSlabs + 1);
    }

    /** slab.c:149-153 and the count. */
    method WriteCell(ptr: nat, ghost a: nat, ghost c: nat) returns (slab: nat, count: nat)
      requires Valid() && IsLive(layout, slabs, a, c) && ptr == AddrOf(layout, a, c)
      modifies this`slabs, mem
      ensures Holds() && slabs == old(slabs).(chains := old(slabs).chains[a := [c] + old(slabs).chains[a]])
      ensures slab == a && count == |old(slabs).chains[a]| && Now() == old(Now())
      ensures OnlySlabs(old(mem.headers), mem.headers, old(mem.cells), mem.cells, slabs.chains.Keys)
    {
      ghost var l, s, h, cells := layout, slabs, mem.headers, mem.cells;
      ghost var chain := s.chains[a];
      ghost var mid := s.(chains := s.chains[a := [c] + chain]);
      LivePlace(l, s, h, cells, a, c);
      hide Inv, IsList, Stored, OnlySlabs, NoDup, LayoutOk, IsChain, ChainsOk, Placed, TrueCounters;
      slab := SlabOf(ptr);
      var header := mem.headers[slab];
      count := header.freeCount;
      NextCell(l, slab, header.firstFree);
      var next := if header.freeCount == 0 then 0 else slab + HEADER + header.firstFree * layout.cell;
      mem.cells := mem.cells[ptr := next];
      mem.headers := mem.headers[slab := header.(firstFree := IndexOfCell(layout, slab, ptr),
        freeCount := header.freeCount + 1)];
      ghost var h1 := mem.headers;
      PutChain(l, h, h1, cells, mem.cells, a, chain, c);
      CellWritten(h, h1, cells, mem.cells, a, ptr, s.chains.Keys);
      OthersStored(l, s, h, h1, cells, mem.cells, mid, a);
      SameLinks(h, h1, slab, freeSlabs, s.free);
      SameLinks(h, h1, slab, partialSlabs, s.partial);
      SameLinks(h, h1, slab, fullSlabs, s.full);
      slabs := mid;
      assert slabs.chains.Keys == s.chains.Keys;
    }

    /** slab.c:155-172. */
    method Settle(slab: nat, count: nat, ghost s: Slabs, ghost c: nat)
      requires LayoutOk(layout) && Inv(layout, s) && IsLive(layout, s, slab, c) && count == |s.chains[slab]|
      requires Holds() && slabs == s.(chains := s.chains[slab := [c] + s.chains[slab]])
      modifies this, mem`headers
      ensures Holds() && slabs == Put(layout, s, slab, c)
      ensures Now() == PutCounters(layout, old(Now()), s, slab)
      ensures OnlySlabs(old(mem.headers), mem.headers, mem.cells, mem.cells, slabs.chains.Keys)
    {
      ListsApart(layout, s);
      WhichList(layout, s, slab);
      hide Inv, IsList, Stored, OnlySlabs, OnlyLinks, Apart, NoDup, Without, LayoutOk, IsChain, Linked, TrueCounters,
           IsLive, At, ListedByCount, W16, W32, InWords;
      ghost var h, cells := mem.headers, mem.cells;
      NothingWritten(h, cells, slabs.chains.Keys);
      assert slabs.chains.Keys == s.chains.Keys;
      if count == 0 {
        NowPartial(slab);
        LinksInSlabs(h, h, mem.headers, cells, cells, s.chains.Keys, s.full + s.partial, s.chains.Keys);
      } else if count + 1 == layout.objs {
        NowFree(slab);
        LinksInSlabs(h, h, mem.headers, cells, cells, s.chains.Keys, s.partial + s.free, s.chains.Keys);
      }
      CountFree();
    }

    /** slab.c:171-172. */
    method CountFree()
      requires Holds()
      modifies this`allocatedObjects, this`totalFreeObjects
      ensures Holds() && Now() == Counted(old(Now()), -1, 1)
    {
      hide IsList, Stored, LayoutOk;
      allocatedObjects := W32(allocatedObjects - 1);
      totalFreeObjects := W32(totalFreeObjects + 1);
    }

    /** slab_free: `ptr` is the address of a live object, whose slab and cell are found from it alone. */
    method Free(ptr: nat, ghost a: nat, ghost c: nat)
      requires Valid() && IsLive(layout, slabs, a, c) && ptr == AddrOf(layout, a, c)
      modifies this, mem
      ensures Valid() && slabs == Put(layout, old(slabs), a, c)
      ensures OnlySlabs(old(mem.headers), mem.headers, old(mem.cells), mem.cells, slabs.chains.Keys)
    {
      ghost var l, s := layout, slabs;
      PutKeeps(l, s, a, c);
      PutCounts(l, s, a, c);
      hide Inv, IsList, Stored, OnlySlabs, LayoutOk, TrueCounters, OneMoreLive, IsLive, PutCounters, Put, InWords,
           NoDup;
      var slab, count := WriteCell(ptr, a, c);
      ghost var h, cells, some := mem.headers, mem.cells, slabs.chains.Keys;
      Settle(slab, count, s, c);
      MoreSlabs(old(mem.headers), h, mem.headers, old(mem.cells), cells, mem.cells, some, slabs.chains.Keys);
    }
  }

  lemma LivePlace(l: Layout, s: Slabs, h: Headers, cells: map<nat, nat>, a: nat, c: nat)
    requires LayoutOk(l) && Inv(l, s) && Stored(l, s.chains, h, cells) && IsLive(l, s, a, c)
    ensures SlabOf(AddrOf(l, a, c)) == a && a in h && l.cell > 0 && a % SLAB_SIZE == 0
    ensures h[a].freeCount == |s.chains[a]| && IsChain(l, h, cells, a, s.chains[a]) && ChainOk(l, s.chains[a])
    ensures s.chains[a] != [] ==> h[a].firstFree == s.chains[a][0]
    ensures Placed(s) && ChainsOk(l, s)
  {
    assert IsChain(l, h, cells, a, s.chains[a]) && ChainOk(l, s.chains[a]);
    InSlab(l, a, c);
  }

  lemma WhichList(l: Layout, s: Slabs, a: nat)
    requires LayoutOk(l) && Inv(l, s) && a in s.chains
    ensures s.chains[a] == [] ==> a in s.full
    ensures s.chains[a] != [] && |s.chains[a]| < l.objs ==> a in s.partial
    ensures Apart(s.free, s.full + s.partial) && Apart(s.full, s.partial + s.free)
  {
    assert ListedByCount(l, s, a);
    ListsApart(l, s);
  }

  lemma CellWritten(h: Headers, now: Headers, cells: map<nat, nat>, cells': map<nat, nat>, a: nat, p: nat,
          slabs: set<nat>)
    requires a in h && a in now && now == h[a := now[a]] && p in cells' && cells' == cells[p := cells'[p]] &&
             SlabOf(p) == a
    ensures OnlySlabs(h, now, cells, cells', {a})
    ensures a in slabs ==> OnlySlabs(h, now, cells, cells', slabs)
  {
  }

  lemma FirstCell(l: Layout, s: Slabs, h: Headers, cells: map<nat, nat>, a: nat)
    requires Stored(l, s.chains, h, cells) && a in s.chains && s.chains[a] != [] && ChainsOk(l, s)
    ensures a in h && IsChain(l, h, cells, a, s.chains[a]) && ChainOk(l, s.chains[a])
    ensures h[a].firstFree == s.chains[a][0] && h[a].freeCount == |s.chains[a]| && AddrOf(l, a, s.chains[a][0]) in cells
  {
    assert IsChain(l, h, cells, a, s.chains[a]) && NextIs(l, cells, a, s.chains[a], 0);
  }

  lemma OneWritten(h: Headers, now: Headers, cells: map<nat, nat>, a: nat, slabs: set<nat>)
    requires a in h && a in now && now == h[a := now[a]]
    ensures OnlySlabs(h, now, cells, cells, {a})
    ensures a in slabs ==> OnlySlabs(h, now, cells, cells, slabs)
  {
  }

  lemma SameLinks(h: Headers, now: Headers, a: nat, head: nat, list: seq<nat>)
    requires a in h && a in now && now == h[a := now[a]] && now[a].prev == h[a].prev && now[a].next == h[a].next
    requires IsList(h, head, list)
    ensures IsList(now, head, list)
  {
    ListFrame(h, now, head, list);
  }

  lemma PreparedApart(l: Layout, s: Slabs)
    requires LayoutOk(l) && Prepared(l, s)
    ensures s.partial[0] in s.partial && (forall a :: a in s.full ==> a !in s.partial) &&
            Apart(s.free, s.partial + s.full)
    ensures forall a :: a in s.partial + s.full ==> a in s.chains
  {
    forall a: nat
      ensures a in s.free ==> a !in s.partial + s.full
      ensures a in s.full ==> a !in s.partial
      ensures a in s.partial + s.full ==> a in s.chains
    {
      assert a != s.partial[0] ==> ListedByCount(l, s, a);
    }
  }

  /** A slab on a list of its own. */
  lemma AloneNow(l: Layout, h: Headers, h': Headers, now: Headers, cells: map<nat, nat>, cells': map<nat, nat>, a: nat,
          chain: seq<nat>)
    requires OnlySlabs(h, h', cells, cells', {a}) && IsChain(l, h', cells', a, chain) && a > 0
    requires now == h'[a := h'[a].(prev := 0, next := 0)]
    ensures OnlySlabs(h, now, cells, cells', {a}) && IsChain(l, now, cells', a, chain) && IsList(now, a, [a])
  {
  }

  lemma NoElements(h: Headers, now: Headers, head: nat)
    ensures IsList(h, head, []) ==> head == 0
    ensures IsList(now, 0, [])
  {
  }

  lemma OnlyLink(h: Headers, head: nat, slab: nat)
    requires IsList(h, head, [slab])
    ensures slab in h && h[slab := h[slab].(prev := 0, next := 0)] == h
  {
    assert Linked(h, [slab], 0);
  }

  lemma StartAdding(l: Layout, k: Counters, s: Slabs, blocks: seq<nat>)
    requires k == TrueCounters(l, s)
    ensures k.free == W16(|s.free|) && s == AddSlabs(l, s, blocks[..0])
  {
  }

  lemma EndAdding(l: Layout, s0: Slabs, blocks: seq<nat>)
    requires LayoutOk(l) && Inv(l, s0) && AllFresh(s0, blocks)
    ensures blocks[..|blocks|] == blocks && |AddSlabs(l, s0, blocks).free| == |s0.free| + |blocks|
  {
    AddSlabsKeeps(l, s0, blocks, |blocks|);
    assert blocks[..|blocks|] == blocks;
  }

  lemma InMoreSlabs(h: Headers, now: Headers, cells: map<nat, nat>, cells': map<nat, nat>, some: set<nat>,
          slabs: set<nat>)
    requires OnlySlabs(h, now, cells, cells', some) && some <= slabs
    ensures OnlySlabs(h, now, cells, cells', slabs)
  {
  }

  lemma NullIfEmpty(h: Headers, head: nat, list: seq<nat>)
    requires IsList(h, head, list)
    ensures head == 0 <==> list == []
    ensures list != [] ==> head == list[0]
  {
    assert list != [] ==> list[0] in list;
  }

  lemma NothingWritten(h: Headers, cells: map<nat, nat>, slabs: set<nat>)
    ensures OnlySlabs(h, h, cells, cells, slabs) && OnlySlabs(h, h, cells, cells, {})
  {
  }

  lemma MoreSlabs(h: Headers, h': Headers, now: Headers, c: map<nat, nat>, c': map<nat, nat>, c'': map<nat, nat>,
          some: set<nat>, slabs: set<nat>)
    requires OnlySlabs(h, h', c, c', some) && some <= slabs && OnlySlabs(h', now, c', c'', slabs)
    ensures OnlySlabs(h, now, c, c'', slabs)
  {
  }

  lemma InvParts(l: Layout, s: Slabs)
    requires Inv(l, s)
    ensures Placed(s) && ChainsOk(l, s)
  {
  }

  /** Writing one slab leaves a list that it is not on alone. */
  lemma OutsideSlab(h: Headers, now: Headers, cells: map<nat, nat>, cells': map<nat, nat>, a: nat, head: nat,
          list: seq<nat>)
    requires OnlySlabs(h, now, cells, cells', {a}) && a !in list && IsList(h, head, list)
    ensures IsList(now, head, list)
  {
    ListFrame(h, now, head, list);
  }

  /** First write some of these slabs, then link others of them. */
  lemma LinksInSlabs(h: Headers, h': Headers, now: Headers, cells: map<nat, nat>, cells': map<nat, nat>, some: set<nat>,
          list: seq<nat>, slabs: set<nat>)
    requires OnlySlabs(h, h', cells, cells', some) && some <= slabs && OnlyLinks(h', now, list)
    requires forall a :: a in list ==> a in slabs
    ensures OnlySlabs(h, now, cells, cells', slabs)
  {
  }

  lemma NotListed(l: Layout, s: Slabs, a: nat)
    requires Inv(l, s) && a !in s.chains
    ensures a !in s.free && a !in s.partial && a !in s.full
  {
    assert ListedByCount(l, s, a);
  }

  lemma ListsApart(l: Layout, s: Slabs)
    requires LayoutOk(l) && Inv(l, s)
    ensures Apart(s.free, s.partial) && Apart(s.partial, s.free) && Apart(s.free, s.full)
    ensures Apart(s.full, s.free) && Apart(s.partial, s.full) && Apart(s.full, s.partial)
    ensures forall a :: a in s.free || a in s.partial || a in s.full ==> a in s.chains
  {
    forall a: nat
      ensures a in s.free ==> a in s.chains && a !in s.partial && a !in s.full
      ensures a in s.partial ==> a in s.chains && a !in s.free && a !in s.full
      ensures a in s.full ==> a in s.chains
    {
      assert ListedByCount(l, s, a);
    }
  }

  ghost predicate Points(l: Layout, cells: map<nat, nat>, a: nat, j: nat) {
    AddrOf(l, a, j) in cells && cells[AddrOf(l, a, j)] == AddrOf(l, a, j + 1)
  }

  lemma NextCell(l: Layout, a: nat, c: nat)
    ensures AddrOf(l, a, c) == a + HEADER + c * l.cell && AddrOf(l, a, c) + l.cell == AddrOf(l, a, c + 1)
  {
    TimesNext(c, l.cell);
  }

  lemma InSlab(l: Layout, a: nat, c: nat)
    requires LayoutOk(l) && a % SLAB_SIZE == 0 && c < l.objs
    ensures SlabOf(AddrOf(l, a, c)) == a
  {
    ObjectFound(l, a, c);
  }

  lemma PointsMore(l: Layout, cells: map<nat, nat>, cells': map<nat, nat>, a: nat, i: nat)
    requires LayoutOk(l) && forall j :: 0 <= j < i ==> Points(l, cells, a, j)
    requires cells' == cells[AddrOf(l, a, i) := AddrOf(l, a, i + 1)]
    ensures forall j :: 0 <= j < i + 1 ==> Points(l, cells', a, j)
  {
    forall j: nat | j < i + 1
      ensures Points(l, cells', a, j)
    {
      if j < i {
        assert Points(l, cells, a, j);
        CellBefore(l, j, i);
        hide Offset;
      }
    }
  }

  lemma LastCell(l: Layout, h: Headers, cells: map<nat, nat>, a: nat)
    requires LayoutOk(l) && a in h && h[a].firstFree == 0 && h[a].freeCount == l.objs && h[a].cacheId == l.id
    requires forall j :: 0 <= j < l.objs - 1 ==> Points(l, cells, a, j)
    ensures IsChain(l, h, cells[AddrOf(l, a, l.objs - 1) := 0], a, AllCells(l.objs))
  {
    var chain, last := AllCells(l.objs), l.objs - 1;
    var done := cells[AddrOf(l, a, last) := 0];
    forall i: nat | i < |chain|
      ensures NextIs(l, done, a, chain, i)
    {
      if i < last {
        assert Points(l, cells, a, i);
        CellBefore(l, i, last);
        hide Offset;
      }
    }
  }
}
