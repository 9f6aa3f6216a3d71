/** phys_alloc.c: allocations of any number of pages on top of the buddy allocator. */
module PhysAllocation {
  import opened Options
  import opened Blocks
  import opened Lists
  import opened PairIndex
  import opened BuddyState
  import opened BuddySpec
  import opened BuddyAccounts
  import opened FreeStore
  import opened PhysSpec
  import opened PhysProofs
  import opened BuddyAllocation

  const FREELIST_EXPANSION_THRESHOLD: nat := MAX_ORDER + 1

  /** phys_alloc before its pool check; `MAX_ORDER - 1` spare nodes are always enough. */
  method PhysAlloc(a: BuddyAllocator, n: nat) returns (r: Option<nat>)
    requires a.Valid() && Inv(a.Pool(), a.State()) && n >= 1 && |a.spare| + 1 >= MAX_ORDER
    modifies a`nodes, a`chains, a`spare, a`freeBytes, a`allocatedBytes, a.heads, a.bitmap.base
    ensures a.Valid() && (r, a.State()) == PhysSpec.PhysAlloc(old(a.State()), n)
    ensures Inv(a.Pool(), a.State()) && Conserves(old(a.State()), a.State())
    ensures r.None? ==> a.State() == old(a.State())
    ensures r.Some? ==> Pages(r.value, r.value + n) <= FreePages(a.Pool(), old(a.State()))
    ensures r.Some? ==>
            FreePages(a.Pool(), a.State()) == FreePages(a.Pool(), old(a.State())) - Pages(r.value, r.value + n)
    ensures |a.spare| + MAX_ORDER >= old(|a.spare|) + 1
  {
    hide StoreOk, Inv, HandsOut, IndexOf, Conserves, FreePages, Pages, BuddySpec.AllocBlock, BuddySpec.ShrinkBlock,
         PhysSpec.PhysAlloc,
      BitOrder, SplitNodes, TruncBits, Aligned, InHand, Held;
    ghost var m, s := a.Pool(), a.State();
    ghost var r', t := PhysAllocKeeps(m, s, n);
    PhysAllocCases(s, n);
    if n > Pow2(MAX_ORDER) {
      return None;
    }
    var o := BitOrder(n);
    r := a.AllocBlock(o);
    if r.Some? {
      HandsOutHand(m, s, o, r.value, a.State());
      AlignedTrunc(m, a.State(), r.value, o);
      a.ShrinkBlock(r.value, o, n);
    }
  }

  /** Truncating the address of a block to the block's order changes nothing. */
  lemma AlignedTrunc(m: set<nat>, s: Buddy, b: nat, o: nat)
    requires InHand(m, s, b, o)
    ensures TruncBits(b, o) == b
  {
    AlignedShl(b, o);
  }

  /** The number of one bits of `n` below `k`. */
  function OneBits(n: nat, k: nat): nat {
    if k == 0 then 0 else (if BitAt(n, k - 1) then 1 else 0) + OneBits(n, k - 1)
  }

  /** Frees the first block of a held range, or shrinks it to its first `target` pages. */
  method FreeFirst(a: BuddyAllocator, addr: nat, o: nat, target: nat, ghost end: nat)
    requires a.Valid() && Inv(a.Pool(), a.State()) && o <= MAX_ORDER && Aligned(addr, o) && target <= Pow2(o)
    requires addr + Pow2(o) <= end && Held(a.Pool(), a.State(), addr, end)
    requires |a.spare| >= if target == 0 then 1 else SplitNodes(o, target)
    modifies a`nodes, a`chains, a`spare, a`freeBytes, a`allocatedBytes, a.heads, a.bitmap.base
    ensures a.Valid() && Inv(a.Pool(), a.State()) && Conserves(old(a.State()), a.State())
    ensures a.State() == if target == 0 then BuddySpec.FreeBlock(a.Pool(), old(a.State()), addr, o)
                         else BuddySpec.ShrinkBlock(old(a.State()), addr, o, target)
    ensures Held(a.Pool(), a.State(), addr + Pow2(o), end)
    ensures |a.spare| + (if target == 0 then 1 else SplitNodes(o, target)) >= old(|a.spare|)
  {
    hide StoreOk, Inv, HandsOut, IndexOf, Conserves, FreePages, Pages, BuddySpec.FreeBlock, BuddySpec.ShrinkBlock,
         TruncBits, InHand, Held, SplitNodes, Aligned;
    ghost var u := FreeTail(a.Pool(), a.State(), addr, o, target, Pow2(o), end);
    HeldBlock(a.Pool(), a.State(), addr, o, end);
    if target == 0 {
      a.FreeBlock(addr, o);
    } else {
      AlignedTrunc(a.Pool(), a.State(), addr, o);
      a.ShrinkBlock(addr, o, target);
    }
  }

  /** phys_block_shrink before its pool check: walks the one bits of the page count from the top. */
  method PhysBlockShrink(a: BuddyAllocator, base: nat, n: nat, target: nat)
    requires a.Valid() && Inv(a.Pool(), a.State()) && 1 <= n <= Pow2(MAX_ORDER)
    requires Aligned(base, BitOrder(n)) && Held(a.Pool(), a.State(), base, base + n)
    requires |a.spare| >= Need(n, target, BitOrder(n) + 1)
    modifies a`nodes, a`chains, a`spare, a`freeBytes, a`allocatedBytes, a.heads, a.bitmap.base
    ensures a.Valid() && Inv(a.Pool(), a.State()) && Conserves(old(a.State()), a.State())
    ensures a.State() == PhysShrink(a.Pool(), old(a.State()), base, n, target)
    ensures FreePages(a.Pool(), a.State()) ==
            FreePages(a.Pool(), old(a.State())) + Pages(base + Min(target, n), base + n)
    ensures |a.spare| + Need(n, target, BitOrder(n) + 1) >= old(|a.spare|)
  {
    hide StoreOk, Inv, IndexOf, Conserves, FreePages, Pages, BuddySpec.FreeBlock, BuddySpec.ShrinkBlock, Held, BitAt,
         ShrinkFrom, Aligned, PhysShrink, LowPages, Need, SplitNodes, BitOrder, Min;
    OrderFits(n, MAX_ORDER);
    BitOrderIsLeast(n);
    Doubles(BitOrder(n) + 1);
    LowPagesAll(n, BitOrder(n) + 1);
    PhysShrinkIs(a.Pool(), a.State(), base, n, target);
    ghost var end := PhysShrinkKeeps(a.Pool(), a.State(), base, n, target);
    var k: nat, addr: nat, t: nat := BitOrder(n) + 1, base, target;
    while k > 0
      invariant 0 <= k <= BitOrder(n) + 1 && a.Valid() && Inv(a.Pool(), a.State()) && (k > 0 ==> Aligned(addr, k - 1))
      invariant Held(a.Pool(), a.State(), addr, addr + LowPages(n, k))
      invariant ShrinkFrom(a.Pool(), a.State(), addr, n, t, k) == end
      invariant |a.spare| >= Need(n, t, k)
      invariant |a.spare| + Need(n, target, BitOrder(n) + 1) >= old(|a.spare|) + Need(n, t, k)
    {
      k := k - 1;
      addr, t := ShrinkOrder(a, addr, n, t, k);
    }
    NoOrders(a.Pool(), a.State(), addr, n, t);
  }

  /** One turn of the loop, at order `o`. */
  method ShrinkOrder(a: BuddyAllocator, addr: nat, n: nat, target: nat, o: nat) returns (next: nat, rest: nat)
    requires a.Valid() && Inv(a.Pool(), a.State()) && o <= MAX_ORDER && Aligned(addr, o)
    requires Held(a.Pool(), a.State(), addr, addr + LowPages(n, o + 1)) && |a.spare| >= Need(n, target, o + 1)
    modifies a`nodes, a`chains, a`spare, a`freeBytes, a`allocatedBytes, a.heads, a.bitmap.base
    ensures a.Valid() && Inv(a.Pool(), a.State()) && (o > 0 ==> Aligned(next, o - 1))
    ensures Held(a.Pool(), a.State(), next, next + LowPages(n, o))
    ensures ShrinkFrom(a.Pool(), a.State(), next, n, rest, o) ==
            ShrinkFrom(a.Pool(), old(a.State()), addr, n, target, o + 1)
    ensures |a.spare| >= Need(n, rest, o)
    ensures |a.spare| + Need(n, target, o + 1) >= old(|a.spare|) + Need(n, rest, o)
  {
    hide StoreOk, Inv, IndexOf, Conserves, FreePages, Pages, BuddySpec.FreeBlock, BuddySpec.ShrinkBlock, Held, BitAt,
         ShrinkFrom, Aligned, LowPages, Need, SplitNodes;
    NextAligned(addr, o);
    next, rest := addr, target;
    if !BitAt(n, o) {
      SkipOrder(a.Pool(), a.State(), addr, n, target, o);
    } else {
      CountOrder(n, o);
      next := addr + Pow2(o);
      if target <= Pow2(o) {
        if target == 0 {
          FreeAtOrder(a.Pool(), a.State(), addr, n, o, Pow2(o));
        } else {
          ShrinkAtOrder(a.Pool(), a.State(), addr, n, target, o, Pow2(o));
        }
        FreeFirst(a, addr, o, target, addr + Pow2(o) + LowPages(n, o));
        rest := 0;
      } else {
        KeepAtOrder(a.Pool(), a.State(), addr, n, target, o, Pow2(o));
        HeldRest(a.Pool(), a.State(), addr, next, next + LowPages(n, o));
        rest := target - Pow2(o);
      }
    }
  }

  lemma HeldRest(m: set<nat>, s: Buddy, lo: nat, mid: nat, hi: nat)
    requires Held(m, s, lo, hi) && lo <= mid <= hi
    ensures Held(m, s, mid, hi)
  {
    NoPages(lo);
    HeldTail(m, s, s, lo, mid, hi, Pages(lo, lo));
  }

  /** phys_free is shrinking to nothing. */
  method PhysFree(a: BuddyAllocator, base: nat, n: nat)
    requires a.Valid() && Inv(a.Pool(), a.State()) && 1 <= n <= Pow2(MAX_ORDER)
    requires Aligned(base, BitOrder(n)) && Held(a.Pool(), a.State(), base, base + n) && |a.spare| >= MAX_ORDER
    modifies a`nodes, a`chains, a`spare, a`freeBytes, a`allocatedBytes, a.heads, a.bitmap.base
    ensures a.Valid() && Inv(a.Pool(), a.State()) && Conserves(old(a.State()), a.State())
    ensures a.State() == PhysSpec.PhysFree(a.Pool(), old(a.State()), base, n)
    ensures FreePages(a.Pool(), a.State()) == FreePages(a.Pool(), old(a.State())) + Pages(base, base + n)
    ensures |a.spare| + MAX_ORDER >= old(|a.spare|)
  {
    hide StoreOk, Inv, IndexOf, Conserves, FreePages, Pages, Held, Aligned, PhysShrink, PhysSpec.PhysFree;
    PhysFreeIs(a.Pool(), a.State(), base, n);
    FreeNodes(n);
    FreeNeeds(n, BitOrder(n) + 1);
    PhysBlockShrink(a, base, n, 0);
  }

  /** Freeing never takes more than `MAX_ORDER` nodes. */
  lemma FreeNodes(n: nat)
    requires 1 <= n <= Pow2(MAX_ORDER)
    ensures OneBits(n, BitOrder(n) + 1) <= MAX_ORDER
  {
    var o := BitOrder(n);
    OrderFits(n, MAX_ORDER);
    BitOrderIsLeast(n);
    TopBit(n, o);
    OneBitsBound(n, o);
    if n == Pow2(o) {
      NoOneBits(n, o, o);
    }
  }

  /** Freeing everything takes at most one node for each block. */
  lemma {:induction false} FreeNeeds(n: nat, k: nat)
    ensures Need(n, 0, k) == OneBits(n, k)
  {
    if k > 0 {
      FreeNeeds(n, k - 1);
    }
  }

  lemma {:induction false} OneBitsBound(n: nat, k: nat)
    ensures OneBits(n, k) <= k
  {
    if k > 0 {
      OneBitsBound(n, k - 1);
    }
  }

  lemma {:induction false} NoOneBits(n: nat, o: nat, k: nat)
    requires n == Pow2(o) && k <= o
    ensures OneBits(n, k) == 0
  {
    if k > 0 {
      DropTop(n, o, k - 1);
      ShrZero(k - 1);
      NoOneBits(n, o, k - 1);
    }
  }

  /** A one bit stands for one block. */
  lemma {:induction false} OneBitPerBlock(base: nat, n: nat, k: nat)
    ensures OneBits(n, k) == |Expansion(base, n, k)|
    decreases k
  {
    if k > 0 {
      OneBitPerBlock(base, n, k - 1);
      OneBitPerBlock(base + Pow2(k - 1), n, k - 1);
    }
  }

  /** __freespace_check: below the threshold one fresh slab of cells is added, in one step. */
  method FreespaceCheck(a: BuddyAllocator, cells: seq<int>)
    requires a.Valid() && NoDup(cells) && forall c :: c in cells ==> Loose(a.chains, c) && c !in a.spare
    modifies a`spare
    ensures a.Valid() && a.State() == old(a.State())
    ensures old(|a.spare|) < FREELIST_EXPANSION_THRESHOLD ==> a.spare == cells + old(a.spare)
    ensures old(|a.spare|) >= FREELIST_EXPANSION_THRESHOLD ==> a.spare == old(a.spare)
    ensures |cells| >= FREELIST_EXPANSION_THRESHOLD ==> |a.spare| >= FREELIST_EXPANSION_THRESHOLD
  {
    if |a.spare| < FREELIST_EXPANSION_THRESHOLD {
      a.ExpandPool(cells);
    }
  }
}
