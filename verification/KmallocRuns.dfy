/** All caches of kmalloc together: an object goes back to the cache it came from, over every run. */
module KmallocRuns {
  import opened Lists
  import opened SlabModel
  import opened SlabCounts
  import opened Kmalloc

  /** The caches, and for each slab the cache id in its header. */
  datatype Heap = Heap(caches: seq<Slabs>, ids: map<nat, nat>)

  ghost predicate CacheOk(ls: seq<Layout>, h: Heap, i: nat)
    requires i < |ls| && i < |h.caches|
  {
    LayoutOk(ls[i]) && Inv(ls[i], h.caches[i]) && forall a :: a in h.caches[i].chains ==> a in h.ids && h.ids[a] == i
  }

  ghost predicate HeapInv(ls: seq<Layout>, h: Heap) {
    |h.caches| == |ls| && forall i :: 0 <= i < |ls| ==> CacheOk(ls, h, i)
  }

  /** vm_alloc_block hands out a slab that no cache has. */
  predicate SpareFor(h: Heap, spare: nat) {
    spare > 0 && spare % SLAB_SIZE == 0 && spare !in h.ids
  }

  predicate Takes(ls: seq<Layout>, h: Heap, i: nat, spare: nat) {
    i < |ls| && i < |h.caches| && CanTake(Ready(ls[i], h.caches[i], spare))
  }

  predicate NeedsSlab(s: Slabs) {
    s.partial == [] && s.free == []
  }

  /** kmalloc in class `i`; a new slab gets the id of its cache. */
  function Malloc(ls: seq<Layout>, h: Heap, i: nat, spare: nat): Heap
    requires Takes(ls, h, i, spare)
  {
    Heap(h.caches[i := Alloc(ls[i], h.caches[i], spare)],
         if NeedsSlab(h.caches[i]) then h.ids[spare := i] else h.ids)
  }

  function Pointer(ls: seq<Layout>, h: Heap, i: nat, spare: nat): nat
    requires Takes(ls, h, i, spare)
  {
    AddrOf(ls[i], NextObject(ls[i], h.caches[i], spare).0, NextObject(ls[i], h.caches[i], spare).1)
  }

  /** What kfree finds from the address alone: the slab by rounding down, the cache by the id in its header, the cell by
      the distance from there. An id that names no cache is ignored. */
  predicate Found(ls: seq<Layout>, h: Heap, p: nat) {
    var a := SlabOf(p);
    a in h.ids && h.ids[a] < |ls| && h.ids[a] < |h.caches| && p >= a + HEADER && ls[h.ids[a]].cell > 0
    && a in h.caches[h.ids[a]].chains
  }

  function Kfree(ls: seq<Layout>, h: Heap, p: nat): Heap {
    if Found(ls, h, p) then
      var a := SlabOf(p);
      var i := h.ids[a];
      h.(caches := h.caches[i := Put(ls[i], h.caches[i], a, CellOf(ls[i], p))])
    else h
  }

  /** A pointer that kmalloc returned and that has not been freed. */
  predicate Out(ls: seq<Layout>, h: Heap, p: nat) {
    Found(ls, h, p) &&
    var a := SlabOf(p);
    var i := h.ids[a];
    p == AddrOf(ls[i], a, CellOf(ls[i], p)) && IsLive(ls[i], h.caches[i], a, CellOf(ls[i], p))
  }

  lemma LiveIsOut(ls: seq<Layout>, h: Heap, i: nat, a: nat, c: nat)
    requires HeapInv(ls, h) && i < |ls| && IsLive(ls[i], h.caches[i], a, c)
    ensures var p := AddrOf(ls[i], a, c); Out(ls, h, p) && SlabOf(p) == a && h.ids[a] == i && CellOf(ls[i], p) == c
  {
    assert CacheOk(ls, h, i);
    ObjectFound(ls[i], a, c);
  }

  /** The two heaps differ in cache `i`, and perhaps in one new slab of it. */
  ghost predicate OneCache(h: Heap, n: Heap, i: nat, spare: nat) {
    && |n.caches| == |h.caches| && i < |h.caches|
    && (forall j :: 0 <= j < |h.caches| && j != i ==> n.caches[j] == h.caches[j])
    && (n.ids == h.ids || (spare !in h.ids && n.ids == h.ids[spare := i]))
  }

  lemma OutMore(ls: seq<Layout>, h: Heap, n: Heap, i: nat, spare: nat, a: nat, c: nat, q: nat)
    requires HeapInv(ls, h) && HeapInv(ls, n) && OneCache(h, n, i, spare)
    requires OneMoreLive(ls[i], h.caches[i], n.caches[i], a, c)
    ensures Out(ls, n, q) <==> Out(ls, h, q) || q == AddrOf(ls[i], a, c)
  {
    var b: nat := SlabOf(q);
    assert CacheOk(ls, h, i) && CacheOk(ls, n, i);
    assert IsLive(ls[i], n.caches[i], a, c);
    LiveIsOut(ls, n, i, a, c);
    hide Inv, LayoutOk, AddrOf, SlabOf, CellOf;
    if b in n.ids && n.ids[b] == i && q >= b + HEADER && ls[i].cell > 0 {
      assert IsLive(ls[i], n.caches[i], b, CellOf(ls[i], q)) <==>
             IsLive(ls[i], h.caches[i], b, CellOf(ls[i], q)) || (b == a && CellOf(ls[i], q) == c);
    }
  }

  ghost predicate OutAlso(ls: seq<Layout>, h: Heap, n: Heap, p: nat) {
    !Out(ls, h, p) && forall q :: Out(ls, n, q) <==> Out(ls, h, q) || q == p
  }

  lemma MallocParts(ls: seq<Layout>, h: Heap, i: nat, spare: nat)
    requires HeapInv(ls, h) && i < |ls| && SpareFor(h, spare)
    ensures Takes(ls, h, i, spare) && HeapInv(ls, Malloc(ls, h, i, spare)) &&
            OneCache(h, Malloc(ls, h, i, spare), i, spare)
    ensures var (a, c) := NextObject(ls[i], h.caches[i], spare);
      OneMoreLive(ls[i], h.caches[i], Malloc(ls, h, i, spare).caches[i], a, c)
  {
    var s := h.caches[i];
    assert CacheOk(ls, h, i);
    assert spare !in s.chains;
    AllocKeeps(ls[i], s, spare);
    var n := Malloc(ls, h, i, spare);
    AllocChains(ls[i], s, spare);
    hide Inv, LayoutOk, OneMoreLive, Alloc, Ready, NextObject, CanTake;
    forall j | 0 <= j < |ls|
      ensures CacheOk(ls, n, j)
    {
      assert CacheOk(ls, h, j);
    }
  }

  lemma AllocChains(l: Layout, s: Slabs, spare: nat)
    requires LayoutOk(l) && Inv(l, s) && CanTake(Ready(l, s, spare))
    ensures Alloc(l, s, spare).chains.Keys == if NeedsSlab(s) then s.chains.Keys + {spare} else s.chains.Keys
  {
    if s.partial != [] {
      assert s.partial[0] in s.partial && ListedByCount(l, s, s.partial[0]);
    } else if s.free != [] {
      assert s.free[0] in s.free && ListedByCount(l, s, s.free[0]);
    }
  }

  /** No slab changes its cache. */
  ghost predicate SameIds(h: Heap, n: Heap) {
    forall a :: a in h.ids ==> a in n.ids && n.ids[a] == h.ids[a]
  }

  /** kmalloc returns a pointer that is not out, and takes no other; every slab keeps its cache. */
  lemma MallocKeeps(ls: seq<Layout>, h: Heap, i: nat, spare: nat)
    requires HeapInv(ls, h) && i < |ls| && SpareFor(h, spare)
    ensures Takes(ls, h, i, spare) && HeapInv(ls, Malloc(ls, h, i, spare))
    ensures OutAlso(ls, h, Malloc(ls, h, i, spare), Pointer(ls, h, i, spare))
    ensures SameIds(h, Malloc(ls, h, i, spare)) && SlabOf(Pointer(ls, h, i, spare)) in Malloc(ls, h, i, spare).ids
    ensures Malloc(ls, h, i, spare).ids[SlabOf(Pointer(ls, h, i, spare))] == i
  {
    MallocParts(ls, h, i, spare);
    var n, p := Malloc(ls, h, i, spare), Pointer(ls, h, i, spare);
    var (a, c) := NextObject(ls[i], h.caches[i], spare);
    assert IsLive(ls[i], n.caches[i], a, c);
    LiveIsOut(ls, n, i, a, c);
    hide HeapInv, Takes, Malloc, CanTake, NextObject;
    forall q: nat
      ensures Out(ls, n, q) <==> Out(ls, h, q) || q == p
    {
      OutMore(ls, h, n, i, spare, a, c, q);
    }
  }

  lemma KfreeParts(ls: seq<Layout>, h: Heap, p: nat)
    requires HeapInv(ls, h) && Out(ls, h, p)
    ensures var a, i := SlabOf(p), h.ids[SlabOf(p)];
      var c := CellOf(ls[i], p);
      && HeapInv(ls, Kfree(ls, h, p)) && OneCache(Kfree(ls, h, p), h, i, 0)
      && OneMoreLive(ls[i], Kfree(ls, h, p).caches[i], h.caches[i], a, c) && p == AddrOf(ls[i], a, c)
  {
    var a: nat := SlabOf(p);
    var i := h.ids[a];
    assert CacheOk(ls, h, i);
    PutKeeps(ls[i], h.caches[i], a, CellOf(ls[i], p));
    var n := Kfree(ls, h, p);
    assert n.caches[i].chains.Keys == h.caches[i].chains.Keys;
    hide Inv, LayoutOk, OneMoreLive, Put, AddrOf, SlabOf, CellOf;
    forall j | 0 <= j < |ls|
      ensures CacheOk(ls, n, j)
    {
      assert CacheOk(ls, h, j);
    }
  }

  /** kfree takes back exactly the pointer given, in the cache that it came from. */
  lemma KfreeKeeps(ls: seq<Layout>, h: Heap, p: nat)
    requires HeapInv(ls, h) && Out(ls, h, p)
    ensures HeapInv(ls, Kfree(ls, h, p)) && Kfree(ls, h, p).ids == h.ids
    ensures OutAlso(ls, Kfree(ls, h, p), h, p)
  {
    KfreeParts(ls, h, p);
    var n, i, c := Kfree(ls, h, p), h.ids[SlabOf(p)], CellOf(ls[h.ids[SlabOf(p)]], p);
    forall q: nat
      ensures Out(ls, h, q) <==> Out(ls, n, q) || q == p
    {
      OutMore(ls, n, h, i, 0, SlabOf(p), c, q);
    }
    assert !Out(ls, n, p) by {
      assert !IsLive(ls[i], n.caches[i], SlabOf(p), c);
    }
  }

  /** slab_cache_reserve for cache `i`, where vm_alloc_block returns `blocks`. */
  function Stock(ls: seq<Layout>, h: Heap, i: nat, blocks: seq<nat>): Heap
    requires i < |ls| && i < |h.caches|
  {
    Heap(h.caches[i := AddSlabs(ls[i], h.caches[i], blocks)], h.ids + map b | b in blocks :: i)
  }

  ghost predicate NewBlocks(h: Heap, blocks: seq<nat>) {
    NoDup(blocks) && forall b :: b in blocks ==> SpareFor(h, b)
  }

  lemma StockParts(ls: seq<Layout>, h: Heap, i: nat, blocks: seq<nat>)
    requires HeapInv(ls, h) && i < |ls| && NewBlocks(h, blocks)
    ensures var n := Stock(ls, h, i, blocks);
      HeapInv(ls, n) && SameIds(h, n) && SameLive(ls[i], h.caches[i], n.caches[i])
  {
    assert CacheOk(ls, h, i);
    var s := h.caches[i];
    forall b | b in blocks
      ensures Fresh(s, b)
    {
      assert SpareFor(h, b);
    }
    AddSlabsKeeps(ls[i], s, blocks, |blocks|);
    assert blocks[..|blocks|] == blocks;
    var n := Stock(ls, h, i, blocks);
    hide Inv, LayoutOk, AddSlabs, SameLive;
    forall j | 0 <= j < |ls|
      ensures CacheOk(ls, n, j)
    {
      assert CacheOk(ls, h, j);
    }
  }

  /** Reserving slabs hands out nothing and takes nothing back. */
  lemma StockKeeps(ls: seq<Layout>, h: Heap, i: nat, blocks: seq<nat>)
    requires HeapInv(ls, h) && i < |ls| && NewBlocks(h, blocks)
    ensures HeapInv(ls, Stock(ls, h, i, blocks)) && SameIds(h, Stock(ls, h, i, blocks))
    ensures forall q: nat :: Out(ls, Stock(ls, h, i, blocks), q) <==> Out(ls, h, q)
  {
    StockParts(ls, h, i, blocks);
    var n := Stock(ls, h, i, blocks);
    forall q: nat
      ensures Out(ls, n, q) <==> Out(ls, h, q)
    {
      SameOut(ls, h, n, i, blocks, q);
    }
  }

  lemma SameOut(ls: seq<Layout>, h: Heap, n: Heap, i: nat, blocks: seq<nat>, q: nat)
    requires HeapInv(ls, h) && i < |ls| && n == Stock(ls, h, i, blocks) && HeapInv(ls, n) && NewBlocks(h, blocks)
    requires SameLive(ls[i], h.caches[i], n.caches[i])
    ensures Out(ls, n, q) <==> Out(ls, h, q)
  {
    var a: nat := SlabOf(q);
    assert CacheOk(ls, h, i) && CacheOk(ls, n, i);
    assert a in blocks ==> SpareFor(h, a);
    hide Inv, LayoutOk, AddrOf, SlabOf, CellOf, AddSlabs;
    if a in n.ids && n.ids[a] == i && q >= a + HEADER && ls[i].cell > 0 {
      assert IsLive(ls[i], n.caches[i], a, CellOf(ls[i], q)) <==> IsLive(ls[i], h.caches[i], a, CellOf(ls[i], q));
    }
  }

  lemma OutFacts(ls: seq<Layout>, h: Heap, p: nat)
    requires HeapInv(ls, h) && Out(ls, h, p)
    ensures var i := h.ids[SlabOf(p)]; LayoutOk(ls[i]) && CellOf(ls[i], p) < ls[i].objs
    ensures SlabOf(p) % SLAB_SIZE == 0
  {
    assert CacheOk(ls, h, h.ids[SlabOf(p)]);
  }

  /** Objects that are out share no byte, whichever caches they are from. */
  lemma OutApart(ls: seq<Layout>, h: Heap, p: nat, q: nat)
    requires HeapInv(ls, h) && Out(ls, h, p) && Out(ls, h, q) && p < q
    ensures p + ls[h.ids[SlabOf(p)]].cell <= q
  {
    var a: nat, b: nat := SlabOf(p), SlabOf(q);
    var i, j := h.ids[a], h.ids[b];
    OutFacts(ls, h, p);
    OutFacts(ls, h, q);
    var c: nat, d: nat := CellOf(ls[i], p), CellOf(ls[j], q);
    CellsApart(ls[i], a, c, a, c);
    CellsApart(ls[j], b, d, b, d);
    if a == b {
      CellsApart(ls[i], a, c, a, d);
    } else {
      SlabsApart(a, b);
    }
  }

  // ----- whole runs

  /** The first class that fits, or one past the last. */
  function ClassFor(sizes: seq<nat>, size: nat, i: nat): (r: nat)
    requires i <= |sizes|
    ensures i <= r <= |sizes|
    ensures (forall j :: i <= j < r ==> sizes[j] < size) && (r < |sizes| ==> size <= sizes[r])
    decreases |sizes| - i
  {
    if i == |sizes| || size <= sizes[i] then i else ClassFor(sizes, size, i + 1)
  }

  /** A call of kmalloc, for which vm_alloc_block would return `spare`, of kfree, or of slab_cache_reserve. */
  datatype Op = Allocate(size: nat, spare: nat) | Release(p: nat) | Reserve(i: nat, blocks: seq<nat>)

  /** The caches, and the size asked for of every pointer that is out. */
  datatype System = System(heap: Heap, live: map<nat, nat>)

  ghost predicate Legal(s: System, op: Op) {
    match op
    case Allocate(size, spare) => SpareFor(s.heap, spare)
    case Release(p) => p in s.live
    case Reserve(i, blocks) => NewBlocks(s.heap, blocks)
  }

  ghost predicate LayoutsFor(sizes: seq<nat>, ls: seq<Layout>) {
    && SizesOk(sizes) && |ls| == |sizes|
    && forall i :: 0 <= i < |ls| ==> LayoutOk(ls[i]) && ls[i].cell == sizes[i] && ls[i].id == i
  }

  /** kmalloc returns null for a size over the limit. */
  function Step(sizes: seq<nat>, ls: seq<Layout>, s: System, op: Op): System {
    match op
    case Allocate(size, spare) =>
      var i := ClassFor(sizes, size, 0);
      if Takes(ls, s.heap, i, spare) then
        System(Malloc(ls, s.heap, i, spare), s.live[Pointer(ls, s.heap, i, spare) := size])
      else s
    case Release(p) => System(Kfree(ls, s.heap, p), s.live - {p})
    case Reserve(i, blocks) => if i < |ls| && i < |s.heap.caches| then s.(heap := Stock(ls, s.heap, i, blocks)) else s
  }

  /** The pointers out are those of the callers, each in a slab of the smallest class that its size fits in. */
  ghost predicate SystemInv(sizes: seq<nat>, ls: seq<Layout>, s: System) {
    && HeapInv(ls, s.heap)
    && (forall p :: p in s.live <==> Out(ls, s.heap, p))
    && (forall p :: p in s.live ==> InClass(sizes, s, p))
  }

  ghost predicate InClass(sizes: seq<nat>, s: System, p: nat)
    requires p in s.live
  {
    SlabOf(p) in s.heap.ids && IsClass(sizes, s.live[p], s.heap.ids[SlabOf(p)])
  }

  /** A pointer that nobody had is out, for this size, and no slab but its own is new. */
  ghost predicate OneMore(s: System, n: System, size: nat) {
    exists p: nat :: p !in s.live && n.live == s.live[p := size] && OneSlab(s.heap, n.heap, SlabOf(p))
  }

  ghost predicate OneSlab(h: Heap, n: Heap, slab: nat) {
    forall a :: a in n.ids <==> a in h.ids || a == slab
  }

  lemma MallocIds(ls: seq<Layout>, h: Heap, i: nat, spare: nat)
    requires HeapInv(ls, h) && i < |ls| && SpareFor(h, spare)
    ensures Takes(ls, h, i, spare) && OneSlab(h, Malloc(ls, h, i, spare), SlabOf(Pointer(ls, h, i, spare)))
  {
    MallocKeeps(ls, h, i, spare);
    if NeedsSlab(h.caches[i]) {
      SpareIsTaken(ls, h, i, spare);
    }
    hide HeapInv, SpareFor, Alloc, Pointer, Takes, SlabOf;
  }

  lemma SpareIsTaken(ls: seq<Layout>, h: Heap, i: nat, spare: nat)
    requires HeapInv(ls, h) && i < |ls| && SpareFor(h, spare) && NeedsSlab(h.caches[i]) && Takes(ls, h, i, spare)
    ensures SlabOf(Pointer(ls, h, i, spare)) == spare
  {
    assert CacheOk(ls, h, i);
    hide Inv;
    ObjectFound(ls[i], spare, NextObject(ls[i], h.caches[i], spare).1);
  }

  /** A call to kmalloc within the limit returns a pointer that nobody has; over the limit it returns null. */
  lemma AllocateReturns(sizes: seq<nat>, ls: seq<Layout>, s: System, size: nat, spare: nat)
    requires LayoutsFor(sizes, ls) && SystemInv(sizes, ls, s) && SpareFor(s.heap, spare)
    ensures size <= Largest(sizes) ==>
            OneMore(s, Step(sizes, ls, s, Allocate(size, spare)), size)
    ensures size > Largest(sizes) ==> Step(sizes, ls, s, Allocate(size, spare)) == s
  {
    var i := ClassFor(sizes, size, 0);
    if i < |sizes| {
      MallocKeeps(ls, s.heap, i, spare);
      MallocIds(ls, s.heap, i, spare);
      hide HeapInv, Out, Takes, Malloc, Pointer, ClassFor, SpareFor, OneSlab, SlabOf;
      assert Pointer(ls, s.heap, i, spare) !in s.live;
    }
  }

  /** Every pointer stays in the class of its size. */
  lemma ClassesKept(sizes: seq<nat>, s: System, n: System, p: nat, size: nat, i: nat)
    requires n.live == s.live[p := size] && SameIds(s.heap, n.heap) && forall q :: q in s.live ==> InClass(sizes, s, q)
    requires SlabOf(p) in n.heap.ids && n.heap.ids[SlabOf(p)] == i && IsClass(sizes, size, i)
    ensures forall q :: q in n.live ==> InClass(sizes, n, q)
  {
    hide SlabOf, IsClass;
    forall q | q in n.live
      ensures InClass(sizes, n, q)
    {
      if q != p {
        assert InClass(sizes, s, q);
      }
    }
  }

  lemma AllocateKeeps(sizes: seq<nat>, ls: seq<Layout>, s: System, size: nat, spare: nat)
    requires LayoutsFor(sizes, ls) && SystemInv(sizes, ls, s) && SpareFor(s.heap, spare)
    ensures SystemInv(sizes, ls, Step(sizes, ls, s, Allocate(size, spare)))
  {
    var i := ClassFor(sizes, size, 0);
    if i < |sizes| {
      MallocKeeps(ls, s.heap, i, spare);
      hide HeapInv, Out, Takes, Malloc, Pointer, ClassFor, InClass, SpareFor, SameIds;
      ClassesKept(sizes, s, Step(sizes, ls, s, Allocate(size, spare)), Pointer(ls, s.heap, i, spare), size, i);
    }
  }

  lemma ReleaseKeeps(sizes: seq<nat>, ls: seq<Layout>, s: System, p: nat)
    requires SystemInv(sizes, ls, s) && p in s.live
    ensures SystemInv(sizes, ls, Step(sizes, ls, s, Release(p)))
  {
    KfreeKeeps(ls, s.heap, p);
    var n := Step(sizes, ls, s, Release(p));
    hide HeapInv, Out, Kfree;
    forall q | q in n.live
      ensures InClass(sizes, n, q)
    {
      assert InClass(sizes, s, q);
    }
  }

  lemma ReserveKeeps(sizes: seq<nat>, ls: seq<Layout>, s: System, i: nat, blocks: seq<nat>)
    requires SystemInv(sizes, ls, s) && NewBlocks(s.heap, blocks)
    ensures SystemInv(sizes, ls, Step(sizes, ls, s, Reserve(i, blocks)))
  {
    if i < |ls| && i < |s.heap.caches| {
      StockKeeps(ls, s.heap, i, blocks);
      var n := Step(sizes, ls, s, Reserve(i, blocks));
      hide HeapInv, Out, Stock, NewBlocks, IsClass, SlabOf;
      forall q | q in n.live
        ensures InClass(sizes, n, q)
      {
        assert InClass(sizes, s, q);
      }
    }
  }

  ghost predicate Run(sizes: seq<nat>, ls: seq<Layout>, trace: seq<System>, ops: seq<Op>) {
    |trace| == |ops| + 1 && forall i :: 0 <= i < |ops| ==> StepTo(sizes, ls, trace[i], ops[i], trace[i + 1])
  }

  ghost predicate StepTo(sizes: seq<nat>, ls: seq<Layout>, s: System, op: Op, next: System) {
    Legal(s, op) && next == Step(sizes, ls, s, op)
  }

  /** Over every run of kmalloc, kfree and slab_cache_reserve, what is out is exactly what callers hold, and kfree finds
      for each pointer the cache that its size was routed to. */
  lemma {:induction false} RunKeeps(sizes: seq<nat>, ls: seq<Layout>, trace: seq<System>, ops: seq<Op>, i: nat)
    requires LayoutsFor(sizes, ls) && Run(sizes, ls, trace, ops) && SystemInv(sizes, ls, trace[0]) && i < |trace|
    ensures SystemInv(sizes, ls, trace[i])
  {
    hide SystemInv, LayoutsFor, Step;
    if i > 0 {
      RunKeeps(sizes, ls, trace, ops, i - 1);
      assert StepTo(sizes, ls, trace[i - 1], ops[i - 1], trace[i - 1 + 1]);
      match ops[i - 1]
      case Allocate(size, spare) => AllocateKeeps(sizes, ls, trace[i - 1], size, spare);
      case Release(p) => ReleaseKeeps(sizes, ls, trace[i - 1], p);
      case Reserve(j, blocks) => ReserveKeeps(sizes, ls, trace[i - 1], j, blocks);
    }
  }

  /** What a call of a run does: within the limit an allocation adds one pointer nobody has, and over it does nothing; a
      free takes exactly its pointer away; reserving adds exactly the new slabs to the free ones of that cache alone. */
  lemma RunMeans(sizes: seq<nat>, ls: seq<Layout>, trace: seq<System>, ops: seq<Op>, k: nat)
    requires LayoutsFor(sizes, ls) && Run(sizes, ls, trace, ops) && SystemInv(sizes, ls, trace[0]) && k < |ops|
    ensures var (s, n) := (trace[k], trace[k + 1]);
            match ops[k]
            case Allocate(size, spare) =>
              if size <= Largest(sizes) then OneMore(s, n, size) else n == s
            case Release(p) => p in s.live && n.live == s.live - {p}
            case Reserve(i, blocks) => n.live == s.live && (i < |ls| ==> Stocked(s.heap, n.heap, i, blocks))
  {
    hide SystemInv, LayoutsFor, Stocked, Largest, OneMore, Malloc, Kfree, Stock, NewBlocks, SpareFor;
    RunKeeps(sizes, ls, trace, ops, k);
    assert StepTo(sizes, ls, trace[k], ops[k], trace[k + 1]);
    match ops[k]
    case Allocate(size, spare) => AllocateTo(sizes, ls, trace[k], trace[k + 1], size, spare);
    case Release(p) =>
    case Reserve(i, blocks) =>
      if i < |ls| {
        HeapOf(sizes, ls, trace[k]);
        StockStocks(ls, trace[k].heap, i, blocks);
      }
  }

  lemma AllocateTo(sizes: seq<nat>, ls: seq<Layout>, s: System, n: System, size: nat, spare: nat)
    requires LayoutsFor(sizes, ls) && SystemInv(sizes, ls, s) && StepTo(sizes, ls, s, Allocate(size, spare), n)
    ensures if size <= Largest(sizes) then OneMore(s, n, size) else n == s
  {
    AllocateReturns(sizes, ls, s, size, spare);
    hide Step, SystemInv, LayoutsFor, Largest, SpareFor;
  }

  lemma HeapOf(sizes: seq<nat>, ls: seq<Layout>, s: System)
    requires SystemInv(sizes, ls, s)
    ensures HeapInv(ls, s.heap) && |s.heap.caches| == |ls|
  {
    hide CacheOk, Out, InClass;
  }

  /** Cache `i` has the new slabs, and only those, on its free list besides, with its id in their headers. */
  ghost predicate Stocked(h: Heap, n: Heap, i: nat, blocks: seq<nat>) {
    && i < |h.caches| == |n.caches| && (forall j :: 0 <= j < |h.caches| && j != i ==> n.caches[j] == h.caches[j])
    && var (s, t) := (h.caches[i], n.caches[i]);
    && t.partial == s.partial && t.full == s.full && |t.free| == |s.free| + |blocks|
    && (forall a :: a in t.chains <==> a in s.chains || a in blocks)
    && (forall a :: a in n.ids <==> a in h.ids || a in blocks) && (forall a :: a in blocks ==> n.ids[a] == i)
  }

  lemma StockStocks(ls: seq<Layout>, h: Heap, i: nat, blocks: seq<nat>)
    requires HeapInv(ls, h) && i < |ls| && NewBlocks(h, blocks)
    ensures Stocked(h, Stock(ls, h, i, blocks), i, blocks)
  {
    assert CacheOk(ls, h, i);
    forall b | b in blocks
      ensures Fresh(h.caches[i], b)
    {
      assert SpareFor(h, b);
    }
    AddSlabsKeeps(ls[i], h.caches[i], blocks, |blocks|);
    assert blocks[..|blocks|] == blocks;
    hide SlabModel.Inv, LayoutOk, AddSlabs, SameLive;
  }

  /** Over every run the bytes asked for by different callers are disjoint. */
  lemma RunApart(sizes: seq<nat>, ls: seq<Layout>, trace: seq<System>, ops: seq<Op>, i: nat, p: nat, q: nat)
    requires LayoutsFor(sizes, ls) && Run(sizes, ls, trace, ops) && SystemInv(sizes, ls, trace[0]) && i < |trace|
    requires p in trace[i].live && q in trace[i].live && p < q
    ensures p + trace[i].live[p] <= q
  {
    RunKeeps(sizes, ls, trace, ops, i);
    var s := trace[i];
    OutApart(ls, s.heap, p, q);
    assert InClass(sizes, s, p);
  }

  /** Over every run, in every cache: each slab is on the one list that its number of free cells chooses, and live and
      free objects together are the slabs times the objects of each. */
  lemma RunConserves(sizes: seq<nat>, ls: seq<Layout>, trace: seq<System>, ops: seq<Op>, k: nat, i: nat)
    requires LayoutsFor(sizes, ls) && Run(sizes, ls, trace, ops) && SystemInv(sizes, ls, trace[0]) && k < |trace| &&
             i < |ls|
    ensures i < |trace[k].heap.caches| && ByCount(ls[i], trace[k].heap.caches[i])
    ensures var s := trace[k].heap.caches[i];
      |LiveSet(ls[i], s)| + |FreeSet(s)| == (|s.free| + |s.partial| + |s.full|) * ls[i].objs
  {
    RunKeeps(sizes, ls, trace, ops, k);
    assert CacheOk(ls, trace[k].heap, i);
    Conservation(ls[i], trace[k].heap.caches[i]);
    hide LiveSet, FreeSet, LayoutOk, Run, LayoutsFor;
  }

  /** The state after kmalloc_init without its reserved slabs. */
  lemma StartOk(sizes: seq<nat>, ls: seq<Layout>)
    requires LayoutsFor(sizes, ls)
    ensures SystemInv(sizes, ls, System(Heap(seq(|ls|, i => NO_SLABS), map[]), map[]))
  {
  }
}
