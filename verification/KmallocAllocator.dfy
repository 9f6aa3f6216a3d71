/** kmalloc and kfree over slab caches that share one memory. */
module KmallocAllocator {
  import opened Lists
  import opened SlabModel
  import opened SlabStore
  import opened SlabCache
  import opened Kmalloc

  /** What another cache wrote leaves this one as it was. */
  lemma CacheFrame(l: Layout, s: Slabs, h: Headers, now: Headers, cells: map<nat, nat>, cells': map<nat, nat>,
          others: set<nat>, free: nat, partial: nat, full: nat)
    requires LayoutOk(l) && Inv(l, s) && OnlySlabs(h, now, cells, cells', others) && s.chains.Keys !! others
    requires IsList(h, free, s.free) && IsList(h, partial, s.partial) && IsList(h, full, s.full) &&
             Stored(l, s.chains, h, cells)
    ensures IsList(now, free, s.free) && IsList(now, partial, s.partial) && IsList(now, full, s.full)
    ensures Stored(l, s.chains, now, cells')
  {
    ListsApart(l, s);
    ListFrame(h, now, free, s.free);
    ListFrame(h, now, partial, s.partial);
    ListFrame(h, now, full, s.full);
    forall a | a in s.chains
      ensures IsChain(l, now, cells', a, s.chains[a])
    {
      assert IsChain(l, h, cells, a, s.chains[a]);
      OtherChain(l, h, now, cells, cells', a, s.chains[a]);
    }
  }

  /** kmalloc.c:15-17. */
  method MakeCaches(sizes: seq<nat>, mem: SlabMemory) returns (made: seq<KmemCache>)
    requires SizesOk(sizes) && Largest(sizes) <= DATA / 2
    ensures |made| == |sizes| && fresh(made) && forall j, k :: 0 <= j < k < |made| ==> made[j] != made[k]
    ensures forall j :: 0 <= j < |made| ==> NewCache(made[j], mem, sizes[j], j)
  {
    made := [];
    var i := 0;
    while i < |sizes|
      modifies {}
      invariant 0 <= i == |made| <= |sizes| && fresh(made)
      invariant forall j :: 0 <= j < i ==> NewCache(made[j], mem, sizes[j], j)
      invariant forall j, k :: 0 <= j < k < i ==> made[j] != made[k]
    {
      assert Eights(sizes[i]) && sizes[i] <= Largest(sizes);
      EightLayout(sizes[i], i);
      var cache := new KmemCache(sizes[i], 8, i, mem);
      made := made + [cache];
      i := i + 1;
    }
  }

  ghost predicate NewCache(c: KmemCache, mem: SlabMemory, size: nat, i: nat)
    reads c, c.mem
  {
    c.mem == mem && c.layout.id == i && c.layout.cell == size && c.Valid() && c.slabs == NO_SLABS
  }

  const NUM_SLABS_RESERVED: nat := 3

  lemma ThreeSlabs(l: Layout)
    requires LayoutOk(l)
    ensures l.objs > 0 && l.objs * NUM_SLABS_RESERVED < 0x1_0000
    ensures (l.objs * NUM_SLABS_RESERVED + l.objs - 1) / l.objs == NUM_SLABS_RESERVED
  {
  }

  /** The cache after an allocation, and the address it returns. */
  ghost predicate Allocated(l: Layout, s: Slabs, now: Slabs, spare: nat, p: nat) {
    && CanTake(Ready(l, s, spare)) && now == Alloc(l, s, spare)
    && p == AddrOf(l, NextObject(l, s, spare).0, NextObject(l, s, spare).1)
  }

  class Allocator {
    const sizes: seq<nat>
    const mem: SlabMemory
    const caches: seq<KmemCache>
    const cacheIdxMap: array<nat>

    ghost predicate CacheValid(i: nat)
      requires i < |caches| && i < |sizes|
      reads this, caches[i], caches[i].mem
    {
      var c := caches[i];
      c.mem == mem && c.layout.id == i && c.layout.cell == sizes[i] && c.Valid()
    }

    ghost predicate Valid()
      reads this, mem, caches, set i | 0 <= i < |caches| :: caches[i].mem, cacheIdxMap
    {
      && SizesOk(sizes) && |caches| == |sizes| && cacheIdxMap.Length == Largest(sizes) / 8 + 1
      && (forall e: nat :: e < cacheIdxMap.Length ==> IsClass(sizes, e * 8, cacheIdxMap[e]))
      && (forall i :: 0 <= i < |caches| ==> CacheValid(i))
      && (forall i, j :: 0 <= i < j < |caches| ==>
         caches[i] != caches[j] && caches[i].slabs.chains.Keys !! caches[j].slabs.chains.Keys)
    }

    /** kmalloc_init, before it reserves slabs. */
    constructor (sizes: seq<nat>, mem: SlabMemory)
      requires SizesOk(sizes) && Largest(sizes) <= DATA / 2
      ensures Valid() && this.sizes == sizes && this.mem == mem && fresh(caches) && fresh(cacheIdxMap)
      ensures forall i :: 0 <= i < |caches| ==> caches[i].slabs == NO_SLABS
    {
      var made := MakeCaches(sizes, mem);
      var idx := new nat[Largest(sizes) / 8 + 1](_ => 0);
      BuildMap(sizes, idx);
      this.sizes, this.mem, this.caches, this.cacheIdxMap := sizes, mem, made, idx;
    }

    /** The slab that vm_alloc_block would return is in no cache. */
    ghost predicate SpareFor(spare: nat)
      reads caches
    {
      forall i :: 0 <= i < |caches| ==> Fresh(caches[i].slabs, spare)
    }

    /** kmalloc: null over the limit, and else an object of the smallest class that fits; the other caches are
        untouched. */
    method Kmalloc(size: nat, spare: nat) returns (p: nat, ghost i: nat)
      requires Valid() && SpareFor(spare)
      modifies caches, mem
      ensures Valid()
      ensures size > Largest(sizes) ==> p == 0 && forall j :: 0 <= j < |caches| ==>
              caches[j].slabs == old(caches[j].slabs)
      ensures size <= Largest(sizes) ==>
              IsClass(sizes, size, i) && Allocated(caches[i].layout, old(caches[i].slabs), caches[i].slabs, spare, p)
      ensures size <= Largest(sizes) ==> forall j :: 0 <= j < |caches| && j != i ==>
              caches[j].slabs == old(caches[j].slabs)
    {
      i := 0;
      if size > Largest(sizes) {
        return 0, 0;
      }
      SlotClass(sizes, size, cacheIdxMap[Slot(size)]);
      var cache := cacheIdxMap[(size + 7) / 8];
      i := cache;
      assert CacheValid(cache) && Fresh(caches[cache].slabs, spare);
      p := caches[cache].Alloc(spare);
      Others(cache);
    }

    /** kfree of a live object of any cache: from the address alone it reaches the slab and the cache that has it. */
    method Kfree(ptr: nat, ghost i: nat, ghost a: nat, ghost c: nat)
      requires Valid() && i < |caches| && IsLive(caches[i].layout, caches[i].slabs, a, c) &&
               ptr == AddrOf(caches[i].layout, a, c)
      modifies caches, mem
      ensures Valid() && caches[i].slabs == Put(caches[i].layout, old(caches[i].slabs), a, c)
      ensures forall j :: 0 <= j < |caches| && j != i ==> caches[j].slabs == old(caches[j].slabs)
    {
      assert CacheValid(i);
      LivePlace(caches[i].layout, caches[i].slabs, mem.headers, mem.cells, a, c);
      assert IsChain(caches[i].layout, mem.headers, mem.cells, a, caches[i].slabs.chains[a]);
      var cacheIdx := mem.headers[SlabOf(ptr)].cacheId;
      if cacheIdx < |caches| {
        caches[cacheIdx].Free(ptr, a, c);
        Others(cacheIdx);
      }
    }

    /** The second half of kmalloc_init's first loop for cache `i`, where vm_alloc_block returns `blocks`. */
    method ReserveFor(i: nat, blocks: seq<nat>)
      requires Valid() && i < |caches| && NoDup(blocks) && |blocks| == NUM_SLABS_RESERVED
      requires forall b :: b in blocks ==> SpareFor(b)
      modifies caches[i], mem
      ensures Valid() && caches[i].slabs == AddSlabs(caches[i].layout, old(caches[i].slabs), blocks)
      ensures forall j :: 0 <= j < |caches| && j != i ==> caches[j].slabs == old(caches[j].slabs)
      ensures forall b :: b in caches[i].slabs.chains <==> b in old(caches[i].slabs.chains) || b in blocks
    {
      hide AddSlabs, NoDup, IsClass, SizesOk, Inv, LayoutOk;
      assert CacheValid(i);
      var cache := caches[i];
      ThreeSlabs(cache.layout);
      AddSlabsKeeps(cache.layout, cache.slabs, blocks, |blocks|);
      assert blocks[..|blocks|] == blocks;
      cache.Reserve(cache.layout.objs * NUM_SLABS_RESERVED, blocks);
      Others(i);
    }

    /** What vm_alloc_block returns for all caches is new and distinct. */
    ghost predicate AllNew(blocks: seq<seq<nat>>, from: nat)
      reads caches
    {
      && |blocks| == |caches|
      && (forall j :: from <= j < |blocks| ==> |blocks[j]| == NUM_SLABS_RESERVED && NoDup(blocks[j]))
      && (forall j, b :: from <= j < |blocks| && b in blocks[j] ==> SpareFor(b))
      && (forall j, k, b :: from <= j < k < |blocks| && b in blocks[j] ==> b !in blocks[k])
    }

    lemma AllNewGives(blocks: seq<seq<nat>>, i: nat)
      requires AllNew(blocks, i)
      ensures |blocks| == |caches|
      ensures i < |blocks| ==> NoDup(blocks[i]) && |blocks[i]| == NUM_SLABS_RESERVED
      ensures i < |blocks| ==> forall b :: b in blocks[i] ==> SpareFor(b)
    {
      hide SpareFor, NoDup;
    }

    /** Reserving for one cache leaves what is kept for those after it new. */
    method ReserveNext(i: nat, blocks: seq<seq<nat>>)
      requires Valid() && i < |caches| && AllNew(blocks, i)
      modifies caches, mem
      ensures Valid() && |blocks| == |caches| && AllNew(blocks, i + 1)
      ensures caches[i].slabs == AddSlabs(caches[i].layout, old(caches[i].slabs), blocks[i])
      ensures forall j :: 0 <= j < |caches| && j != i ==> caches[j].slabs == old(caches[j].slabs)
    {
      hide AddSlabs, NoDup;
      AllNewGives(blocks, i);
      assert forall j, b :: i < j < |blocks| && b in blocks[j] ==> SpareFor(b) && b !in blocks[i];
      ReserveFor(i, blocks[i]);
    }

    /** kmalloc_init's first loop: three slabs are reserved for every cache. */
    method ReserveAll(blocks: seq<seq<nat>>)
      requires Valid() && AllNew(blocks, 0)
      modifies caches, mem
      ensures Valid() && |blocks| == |caches|
      ensures forall j :: 0 <= j < |caches| ==>
              caches[j].slabs == AddSlabs(caches[j].layout, old(caches[j].slabs), blocks[j])
    {
      hide Valid, AllNew, AddSlabs;
      AllNewGives(blocks, 0);
      var i := 0;
      while i < |caches|
        invariant 0 <= i <= |caches| && Valid() && |blocks| == |caches| && AllNew(blocks, i)
        invariant forall j :: 0 <= j < i ==>
                  caches[j].slabs == AddSlabs(caches[j].layout, old(caches[j].slabs), blocks[j])
        invariant forall j :: i <= j < |caches| ==> caches[j].slabs == old(caches[j].slabs)
      {
        ReserveNext(i, blocks);
        i := i + 1;
      }
    }

    /** A call into cache `i` leaves the others valid. */
    twostate lemma Others(i: nat)
      requires old(Valid()) && i < |caches| && forall j :: 0 <= j < |caches| && j != i ==> unchanged(caches[j])
      requires OnlySlabs(old(mem.headers), mem.headers, old(mem.cells), mem.cells, caches[i].slabs.chains.Keys)
      requires forall j :: 0 <= j < |caches| && j != i ==> caches[j].slabs.chains.Keys !! caches[i].slabs.chains.Keys
      ensures forall j :: 0 <= j < |caches| && j != i ==> CacheValid(j)
    {
      forall j | 0 <= j < |caches| && j != i
        ensures CacheValid(j)
      {
        assert old(CacheValid(j));
        var c := caches[j];
        CacheFrame(c.layout, c.slabs, old(mem.headers), mem.headers, old(mem.cells), mem.cells,
                   caches[i].slabs.chains.Keys, c.freeSlabs, c.partialSlabs, c.fullSlabs);
      }
    }
  }
}
