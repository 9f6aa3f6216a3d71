/** kmalloc.c: one slab cache for each size class, chosen by a map, and found again from the address of the object. */
module Kmalloc {
  import opened SlabModel

  const MAX_KMALLOC_SIZE := 2040
  const KMALLOC_SIZES: seq<nat> := [8, 16, 24, 48, 96, 120, 240, 480, 1016, 2040]

  // ----- size classes

  predicate Eights(n: nat) {
    n > 0 && n % 8 == 0
  }

  /** A strictly increasing table of multiples of eight. */
  ghost predicate SizesOk(sizes: seq<nat>) {
    && 0 < |sizes| < 0x100
    && (forall i :: 0 <= i < |sizes| ==> Eights(sizes[i]))
    && (forall i, j :: 0 <= i < j < |sizes| ==> sizes[i] < sizes[j])
  }

  /** The smallest class that an allocation fits in. */
  ghost predicate IsClass(sizes: seq<nat>, size: nat, i: nat) {
    i < |sizes| && size <= sizes[i] && forall j :: 0 <= j < i ==> sizes[j] < size
  }

  function Largest(sizes: seq<nat>): nat
    requires |sizes| > 0
  {
    sizes[|sizes| - 1]
  }

  lemma EightsFacts(n: nat)
    requires Eights(n)
    ensures n / 8 * 8 == n && n / 8 >= 1
    ensures forall e: nat :: e <= n / 8 <==> e * 8 <= n
  {
  }

  /** The loops of kmalloc_init over a map that starts out zero, with a slot for every size up to the largest class. */
  method BuildMap(sizes: seq<nat>, cacheIdxMap: array<nat>)
    requires SizesOk(sizes) && cacheIdxMap.Length == Largest(sizes) / 8 + 1
    requires forall e :: 0 <= e < cacheIdxMap.Length ==> cacheIdxMap[e] == 0
    modifies cacheIdxMap
    ensures forall e: nat :: e < cacheIdxMap.Length ==> IsClass(sizes, e * 8, cacheIdxMap[e])
  {
    var prev, i := 0, 0;
    while i < |sizes|
      invariant 0 <= i <= |sizes|
      invariant prev == if i == 0 then 0 else sizes[i - 1] / 8
      invariant forall e: nat :: 0 < e <= prev && e < cacheIdxMap.Length ==> IsClass(sizes, e * 8, cacheIdxMap[e])
      invariant cacheIdxMap[0] == 0
    {
      var now := sizes[i] / 8;
      EightsFacts(sizes[i]);
      if i > 0 {
        EightsFacts(sizes[i - 1]);
      }
      EightsFacts(Largest(sizes));
      var j := prev + 1;
      while j <= now
        invariant prev + 1 <= j <= now + 1
        invariant forall e: nat :: 0 < e < j && e < cacheIdxMap.Length ==> IsClass(sizes, e * 8, cacheIdxMap[e])
        invariant cacheIdxMap[0] == 0
      {
        assert IsClass(sizes, j * 8, i);
        cacheIdxMap[j] := i;
        j := j + 1;
      }
      prev := now;
      i := i + 1;
    }
  }

  /** The slot of a size. */
  function Slot(size: nat): nat {
    (size + 7) / 8
  }

  /** Rounding up to eights does not change the class. */
  lemma SlotClass(sizes: seq<nat>, size: nat, i: nat)
    requires SizesOk(sizes)
    ensures IsClass(sizes, Slot(size) * 8, i) <==> IsClass(sizes, size, i)
  {
    forall j | 0 <= j < |sizes|
      ensures size <= sizes[j] <==> Slot(size) * 8 <= sizes[j]
    {
      EightsFacts(sizes[j]);
    }
  }

  /** The map as declared, with MAX_KMALLOC_SIZE / 8 slots, has none for the largest sizes that kmalloc accepts. */
  lemma SlotInDeclaredMap(size: nat)
    requires size <= MAX_KMALLOC_SIZE
    ensures Slot(size) < MAX_KMALLOC_SIZE / 8 <==> size <= MAX_KMALLOC_SIZE - 8
    ensures Slot(size) < MAX_KMALLOC_SIZE / 8 + 1
  {
  }

  lemma EightLayout(size: nat, id: nat)
    requires Eights(size) && size <= DATA / 2
    ensures LayoutOk(LayoutFor(size, 8, id)) && LayoutFor(size, 8, id).cell == size
  {
    assert RoundUp(size, 8) == size;
    LayoutForOk(size, 8, id);
  }

  lemma TableIncreases()
    ensures SizesOk(KMALLOC_SIZES) && Largest(KMALLOC_SIZES) == MAX_KMALLOC_SIZE
    ensures forall i :: 0 <= i < |KMALLOC_SIZES| ==> KMALLOC_SIZES[i] <= MAX_KMALLOC_SIZE
  {
  }

  /** The table of kmalloc.h fits: increasing multiples of eight up to the limit, each with two objects or more a slab.
      */
  lemma SizesFit()
    ensures SizesOk(KMALLOC_SIZES) && Largest(KMALLOC_SIZES) == MAX_KMALLOC_SIZE
    ensures forall i :: 0 <= i < |KMALLOC_SIZES| ==>
      LayoutOk(LayoutFor(KMALLOC_SIZES[i], 8, i)) && LayoutFor(KMALLOC_SIZES[i], 8, i).cell == KMALLOC_SIZES[i]
  {
    TableIncreases();
    hide KMALLOC_SIZES, LayoutFor, LayoutOk;
    forall i | 0 <= i < |KMALLOC_SIZES|
      ensures LayoutOk(LayoutFor(KMALLOC_SIZES[i], 8, i)) && LayoutFor(KMALLOC_SIZES[i], 8, i).cell == KMALLOC_SIZES[i]
    {
      EightLayout(KMALLOC_SIZES[i], i);
    }
  }
}
