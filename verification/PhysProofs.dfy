/** What the page-count operations keep, and how they undo and compose. */
module PhysProofs {
  import opened Options
  import opened Blocks
  import opened PairIndex
  import opened BuddyState
  import opened BuddyCanonical
  import opened BuddySpec
  import opened BuddyAccounts
  import opened PhysSpec

  /** Managed pages none of which is on a free list. */
  ghost predicate Held(m: set<nat>, s: Buddy, lo: nat, hi: nat) {
    Pages(lo, hi) <= m && Pages(lo, hi) !! FreePages(m, s)
  }

  lemma HeldBlock(m: set<nat>, s: Buddy, b: nat, o: nat, hi: nat)
    requires Held(m, s, b, hi) && b + Pow2(o) <= hi && o <= MAX_ORDER && Aligned(b, o)
    ensures InHand(m, s, b, o)
  {
    hide FreePages, Pages;
    PagesJoin(b, b + Pow2(o), hi);
  }

  lemma HeldTail(m: set<nat>, s: Buddy, t: Buddy, lo: nat, mid: nat, hi: nat, freed: set<nat>)
    requires Held(m, s, lo, hi) && lo <= mid <= hi
    requires FreePages(m, t) == FreePages(m, s) + freed && freed !! Pages(mid, hi)
    ensures Held(m, t, mid, hi)
  {
    hide FreePages, Pages;
    PagesJoin(lo, mid, hi);
  }

  lemma PagesApart(lo: nat, mid: nat, hi: nat, from: nat)
    requires lo <= mid && mid <= from <= hi
    ensures Pages(lo, mid) !! Pages(from, hi)
  {
    hide Pages;
    PagesJoin(lo, mid, hi);
    PagesJoin(mid, from, hi);
  }

  function Min(a: nat, b: nat): nat {
    if a < b then a else b
  }

  lemma ConservesTrans(s: Buddy, t: Buddy, u: Buddy)
    requires Conserves(s, t) && Conserves(t, u)
    ensures Conserves(s, u)
  {
  }

  // ----- one unfolding of the loop

  lemma SkipOrder(m: set<nat>, s: Buddy, addr: nat, n: nat, target: nat, o: nat)
    requires o <= MAX_ORDER && |s.lists| == MAX_ORDER + 1 && !BitAt(n, o)
    ensures ShrinkFrom(m, s, addr, n, target, o + 1) == ShrinkFrom(m, s, addr, n, target, o)
    ensures LowPages(n, o + 1) == LowPages(n, o) && Need(n, target, o + 1) == Need(n, target, o)
  {
    hide IndexOf;
  }

  lemma CountOrder(n: nat, o: nat)
    requires BitAt(n, o)
    ensures LowPages(n, o + 1) == Pow2(o) + LowPages(n, o)
  {
  }

  lemma FreeAtOrder(m: set<nat>, s: Buddy, addr: nat, n: nat, o: nat, size: nat)
    requires o <= MAX_ORDER && |s.lists| == MAX_ORDER + 1 && BitAt(n, o) && size == Pow2(o)
    ensures ShrinkFrom(m, s, addr, n, 0, o + 1) == ShrinkFrom(m, FreeBlock(m, s, addr, o), addr + size, n, 0, o)
    ensures Need(n, 0, o + 1) == 1 + Need(n, 0, o)
  {
    hide IndexOf, FreeBlock, ShrinkBlock, BitAt;
  }

  lemma ShrinkAtOrder(m: set<nat>, s: Buddy, addr: nat, n: nat, target: nat, o: nat, size: nat)
    requires o <= MAX_ORDER && |s.lists| == MAX_ORDER + 1 && BitAt(n, o) && size == Pow2(o) && 0 < target <= size
    ensures ShrinkFrom(m, s, addr, n, target, o + 1) ==
            ShrinkFrom(m, ShrinkBlock(s, addr, o, target), addr + size, n, 0, o)
    ensures Need(n, target, o + 1) == SplitNodes(o, target) + Need(n, 0, o)
  {
    hide IndexOf, FreeBlock, ShrinkBlock, BitAt;
  }

  lemma KeepAtOrder(m: set<nat>, s: Buddy, addr: nat, n: nat, target: nat, o: nat, size: nat)
    requires o <= MAX_ORDER && |s.lists| == MAX_ORDER + 1 && BitAt(n, o) && size == Pow2(o) && target > size
    ensures ShrinkFrom(m, s, addr, n, target, o + 1) == ShrinkFrom(m, s, addr + size, n, target - size, o)
    ensures Need(n, target, o + 1) == Need(n, target - size, o)
  {
    hide IndexOf, FreeBlock, ShrinkBlock, BitAt, Need;
    KeepNeeds(n, target, o, size);
  }

  lemma KeepNeeds(n: nat, target: nat, o: nat, size: nat)
    requires BitAt(n, o) && size == Pow2(o) && target > size
    ensures Need(n, target, o + 1) == Need(n, target - size, o)
  {
    hide BitAt;
  }

  lemma NoOrders(m: set<nat>, s: Buddy, addr: nat, n: nat, target: nat)
    requires |s.lists| == MAX_ORDER + 1
    ensures ShrinkFrom(m, s, addr, n, target, 0) == s && LowPages(n, 0) == 0 && Need(n, target, 0) == 0
  {
  }

  /** An address aligned for one order, moved on by a block of it, is aligned for the next lower order. */
  lemma NextAligned(addr: nat, o: nat)
    requires Aligned(addr, o)
    ensures o > 0 ==> Aligned(addr, o - 1) && Aligned(addr + Pow2(o), o - 1)
  {
    if o > 0 {
      Halves(addr, o - 1);
      AlignedDown(addr, o - 1, o);
      ModSum(addr, Pow2(o), Pow2(o - 1));
    }
  }

  /** The shrink loop frees exactly the pages of its range past the target. */
  lemma {:induction false} ShrinkFromKeeps(m: set<nat>, s: Buddy, addr: nat, n: nat, target: nat, k: nat)
    returns (t: Buddy)
    requires Inv(m, s) && k <= MAX_ORDER + 1 && |s.lists| == MAX_ORDER + 1
    requires k > 0 ==> Aligned(addr, k - 1)
    requires Held(m, s, addr, addr + LowPages(n, k))
    ensures t == ShrinkFrom(m, s, addr, n, target, k)
    ensures Inv(m, t) && Conserves(s, t)
    ensures FreePages(m, t) == FreePages(m, s) + Pages(addr + Min(target, LowPages(n, k)), addr + LowPages(n, k))
    decreases k
  {
    hide *;
    if k == 0 {
      NoOrders(m, s, addr, n, target);
      t := s;
      NoPages(addr);
      MinFacts(target, 0);
      ConservesSelf(s);
    } else {
      var o, r := k - 1, LowPages(n, k - 1);
      var size := Pow2(o);
      NextAligned(addr, o);
      MinFacts(target, LowPages(n, k));
      if !BitAt(n, o) {
        SkipOrder(m, s, addr, n, target, o);
        t := ShrinkFromKeeps(m, s, addr, n, target, o);
      } else {
        CountOrder(n, o);
        if target <= size {
          if target == 0 {
            FreeAtOrder(m, s, addr, n, o, size);
          } else {
            ShrinkAtOrder(m, s, addr, n, target, o, size);
          }
          var u := FreeTail(m, s, addr, o, target, size, addr + size + r);
          t := ShrinkFromKeeps(m, u, addr + size, n, 0, o);
          MinFacts(0, r);
          PagesJoin(addr + target, addr + size, addr + size + r);
          ConservesTrans(s, u, t);
        } else {
          KeepAtOrder(m, s, addr, n, target, o, size);
          NoPages(addr);
          HeldTail(m, s, s, addr, addr + size, addr + size + r, Pages(addr, addr));
          t := ShrinkFromKeeps(m, s, addr + size, n, target - size, o);
          MinFacts(target - size, r);
        }
      }
    }
  }

  lemma MinFacts(a: nat, b: nat)
    ensures Min(a, b) == if a < b then a else b
  {
  }

  /** Freeing or shrinking the first block of a held range. */
  lemma FreeTail(m: set<nat>, s: Buddy, addr: nat, o: nat, target: nat, size: nat, end: nat) returns (u: Buddy)
    requires Inv(m, s) && o <= MAX_ORDER && |s.lists| == MAX_ORDER + 1 && Aligned(addr, o)
    requires size == Pow2(o) && target <= size && addr + size <= end && Held(m, s, addr, end)
    ensures u == if target == 0 then FreeBlock(m, s, addr, o) else ShrinkBlock(s, addr, o, target)
    ensures |u.lists| == |s.lists| && Inv(m, u) && Conserves(s, u) && Held(m, u, addr + size, end)
    ensures FreePages(m, u) == FreePages(m, s) + Pages(addr + target, addr + size)
  {
    hide *;
    HeldBlock(m, s, addr, o, end);
    BlockIsPages(addr, o);
    if target == 0 {
      u := FreeBlockKeeps(m, s, addr, o);
      FreeBlockConserves(m, s, addr, o);
    } else {
      u := ShrinkBlockKeeps(m, s, addr, o, target);
      ShrinkBlockConserves(s, addr, o, target);
    }
    InvShape(m, u);
    PagesApart(addr + target, addr + size, end, addr + size);
    HeldTail(m, s, u, addr, addr + size, end, Pages(addr + target, addr + size));
  }

  lemma BlockIsPages(b: nat, o: nat)
    ensures BlockPages(b, o) == Pages(b, b + Pow2(o))
  {
  }

  // ----- phys_alloc, phys_block_shrink, phys_free

  /** phys_alloc hands out `n` pages from an aligned base and takes exactly those off the lists. */
  lemma PhysAllocKeeps(m: set<nat>, s: Buddy, n: nat) returns (r: Option<nat>, t: Buddy)
    requires Inv(m, s) && n >= 1
    ensures |s.lists| == MAX_ORDER + 1 && (r, t) == PhysAlloc(s, n)
    ensures Inv(m, t) && Conserves(s, t)
    ensures r.None? ==> t == s
    ensures r.Some? ==> n <= Pow2(MAX_ORDER) && Aligned(r.value, BitOrder(n)) && Held(m, t, r.value, r.value + n)
    ensures r.Some? ==> Pages(r.value, r.value + n) <= FreePages(m, s)
    ensures r.Some? ==> FreePages(m, t) == FreePages(m, s) - Pages(r.value, r.value + n)
  {
    hide *;
    InvShape(m, s);
    PhysAllocCases(s, n);
    r, t := None, s;
    ConservesSelf(s);
    if n <= Pow2(MAX_ORDER) {
      OrderFits(n, MAX_ORDER);
      BitOrderIsLeast(n);
      var o := BitOrder(n);
      var u;
      r, u := AllocBlockKeeps(m, s, o);
      AllocBlockConserves(m, s, o);
      if r.Some? {
        t := CarveOut(m, s, u, r.value, o, n);
        ConservesTrans(s, u, t);
      }
    }
  }

  /** phys_alloc of `n` pages fails exactly when that is more than the largest block, or no aligned run of the smallest
      order that holds them is free. */
  lemma PhysAllocFailsIff(m: set<nat>, s: Buddy, n: nat, o: nat)
    requires Inv(m, s) && |s.lists| == MAX_ORDER + 1 && 1 <= n <= Pow2(o) && (o > 0 ==> Pow2(o - 1) < n)
    ensures PhysAlloc(s, n).0.None? <==>
            o > MAX_ORDER || !exists b: nat :: Aligned(b, o) && BlockPages(b, o) <= FreePages(m, s)
  {
    hide *;
    LeastOrder(n, o);
    PhysAllocCases(s, n);
    if o <= MAX_ORDER {
      OrderMonotone(o, MAX_ORDER);
      AllocFailsIffNoRun(m, s, o);
    } else {
      OrderMonotone(MAX_ORDER, o - 1);
    }
  }

  lemma OrderMonotone(a: nat, b: nat)
    requires a <= b
    ensures Pow2(a) <= Pow2(b)
  {
    if a < b {
      Pow2Monotone(a, b);
    }
    hide Pow2;
  }

  lemma LeastOrder(n: nat, o: nat)
    requires 1 <= n <= Pow2(o) && (o > 0 ==> Pow2(o - 1) < n)
    ensures BitOrder(n) == o
  {
    BitOrderIsLeast(n);
    if BitOrder(n) < o {
      OrderMonotone(BitOrder(n), o - 1);
    } else if o < BitOrder(n) {
      OrderMonotone(o, BitOrder(n) - 1);
    }
    hide BitOrder, Pow2;
  }

  lemma PhysAllocCases(s: Buddy, n: nat)
    requires n >= 1 && |s.lists| == MAX_ORDER + 1
    ensures n > Pow2(MAX_ORDER) ==> PhysAlloc(s, n) == (None, s)
    ensures n <= Pow2(MAX_ORDER) ==> BitOrder(n) <= MAX_ORDER && n <= Pow2(BitOrder(n))
    ensures n <= Pow2(MAX_ORDER) ==> var (r, u) := AllocBlock(s, BitOrder(n));
      PhysAlloc(s, n) == if r.None? then (None, s) else (r, ShrinkBlock(u, r.value, BitOrder(n), n))
  {
    hide IndexOf, AllocBlock, ShrinkBlock, BitOrder;
    BitOrderIsLeast(n);
    if n <= Pow2(MAX_ORDER) {
      OrderFits(n, MAX_ORDER);
    }
  }

  lemma CarveOut(m: set<nat>, s: Buddy, u: Buddy, b: nat, o: nat, n: nat) returns (t: Buddy)
    requires Inv(m, u) && o <= MAX_ORDER && 1 <= n <= Pow2(o) && HandsOut(m, s, o, b, u)
    ensures |u.lists| == MAX_ORDER + 1 && t == ShrinkBlock(u, b, o, n) && Aligned(b, o)
    ensures Inv(m, t) && Conserves(u, t) && Held(m, t, b, b + n)
    ensures Pages(b, b + n) <= FreePages(m, s) && FreePages(m, t) == FreePages(m, s) - Pages(b, b + n)
  {
    hide *;
    InvShape(m, u);
    HandsOutHand(m, s, o, b, u);
    t := ShrinkBlockKeeps(m, u, b, o, n);
    ShrinkBlockConserves(u, b, o, n);
    BlockIsPages(b, o);
    PagesJoin(b, b + n, b + Pow2(o));
    CarveSets(m, u, t, b, o, n, FreePages(m, s), Pages(b, b + n), Pages(b + n, b + Pow2(o)));
  }

  lemma CarveSets(m: set<nat>, u: Buddy, t: Buddy, b: nat, o: nat, n: nat, f: set<nat>, keep: set<nat>, rest: set<nat>)
    requires InHand(m, u, b, o) && BlockPages(b, o) == keep + rest && keep !! rest && keep + rest <= f
    requires FreePages(m, u) == f - (keep + rest) && FreePages(m, t) == FreePages(m, u) + rest &&
             keep == Pages(b, b + n)
    ensures FreePages(m, t) == f - keep && keep <= f && Held(m, t, b, b + n) && Aligned(b, o)
  {
    hide FreePages, BlockPages, Pages;
  }

  /** phys_block_shrink keeps the first `target` pages of an allocation of `n` and frees the rest. */
  lemma PhysShrinkKeeps(m: set<nat>, s: Buddy, base: nat, n: nat, target: nat) returns (t: Buddy)
    requires Inv(m, s) && 1 <= n <= Pow2(MAX_ORDER) && Aligned(base, BitOrder(n)) && Held(m, s, base, base + n)
    ensures |s.lists| == MAX_ORDER + 1 && t == PhysShrink(m, s, base, n, target)
    ensures Inv(m, t) && Conserves(s, t)
    ensures FreePages(m, t) == FreePages(m, s) + Pages(base + Min(target, n), base + n)
  {
    hide *;
    InvShape(m, s);
    OrderFits(n, MAX_ORDER);
    BitOrderIsLeast(n);
    PhysShrinkIs(m, s, base, n, target);
    Doubles(BitOrder(n) + 1);
    LowPagesAll(n, BitOrder(n) + 1);
    t := ShrinkFromKeeps(m, s, base, n, target, BitOrder(n) + 1);
  }

  lemma PhysShrinkIs(m: set<nat>, s: Buddy, base: nat, n: nat, target: nat)
    requires 1 <= n <= Pow2(MAX_ORDER) && |s.lists| == MAX_ORDER + 1 && BitOrder(n) <= MAX_ORDER
    ensures PhysShrink(m, s, base, n, target) == ShrinkFrom(m, s, base, n, target, BitOrder(n) + 1)
  {
    hide ShrinkFrom, BitOrder;
  }

  /** The same free pages, counted right and out of the same total, mean the same allocator up to list order. */
  ghost predicate SameState(m: set<nat>, s: Buddy, t: Buddy) {
    SameLists(m, s, t) && s.freeBytes == t.freeBytes && s.allocatedBytes == t.allocatedBytes
  }

  lemma SamePagesSameState(m: set<nat>, s: Buddy, t: Buddy)
    requires Inv(m, s) && Inv(m, t) && FreePages(m, s) == FreePages(m, t)
    requires Accounted(s) && Accounted(t) && s.freeBytes + s.allocatedBytes == t.freeBytes + t.allocatedBytes
    ensures SameState(m, s, t)
  {
    hide SameLists, Inv, FreePages, Total;
    FreePagesDecideLists(m, s, t);
    TotalIsFreePages(m, s);
    TotalIsFreePages(m, t);
  }

  lemma ConservesMeans(s: Buddy, t: Buddy)
    requires Accounted(s) && Conserves(s, t)
    ensures Accounted(t) && s.freeBytes + s.allocatedBytes == t.freeBytes + t.allocatedBytes
  {
  }

  /** phys_alloc followed by phys_free gives back the free lists, the meaningful bits and both counters. */
  lemma AllocThenFree(m: set<nat>, s: Buddy, n: nat)
    requires Inv(m, s) && Accounted(s) && n >= 1 && |s.lists| == MAX_ORDER + 1 && PhysAlloc(s, n).0.Some?
    ensures var (r, t) := PhysAlloc(s, n);
      n <= Pow2(MAX_ORDER) && |t.lists| == MAX_ORDER + 1 && SameState(m, s, PhysFree(m, t, r.value, n))
  {
    hide *;
    var r, t := PhysAllocKeeps(m, s, n);
    var u := PhysShrinkKeeps(m, t, r.value, n, 0);
    MinFacts(0, n);
    PutBack(FreePages(m, s), Pages(r.value, r.value + n));
    ConservesMeans(s, t);
    ConservesMeans(t, u);
    SamePagesSameState(m, s, u);
    PhysFreeIs(m, t, r.value, n);
  }

  lemma PhysFreeIs(m: set<nat>, s: Buddy, base: nat, n: nat)
    requires 1 <= n <= Pow2(MAX_ORDER) && |s.lists| == MAX_ORDER + 1
    ensures PhysFree(m, s, base, n) == PhysShrink(m, s, base, n, 0)
  {
  }

  lemma PutBack(f: set<nat>, x: set<nat>)
    requires x <= f
    ensures (f - x) + x == f
  {
  }

  /** Shrinking in two steps is shrinking in one. */
  lemma ShrinkTwice(m: set<nat>, s: Buddy, base: nat, n: nat, mid: nat, target: nat)
    requires Inv(m, s) && Accounted(s) && n <= Pow2(MAX_ORDER) && 1 <= target <= mid <= n
    requires Aligned(base, BitOrder(n)) && Held(m, s, base, base + n) && |s.lists| == MAX_ORDER + 1
    ensures SameState(m, PhysShrink(m, s, base, n, target),
            PhysShrink(m, PhysShrink(m, s, base, n, mid), base, mid, target))
  {
    hide *;
    var once := PhysShrinkKeeps(m, s, base, n, target);
    var half := PhysShrinkKeeps(m, s, base, n, mid);
    MinFacts(target, n);
    MinFacts(mid, n);
    MinFacts(target, mid);
    SmallerAligned(base, mid, n);
    HeldFront(m, s, half, base, mid, n);
    var twice := PhysShrinkKeeps(m, half, base, mid, target);
    PagesJoin(base + target, base + mid, base + n);
    SetRegroup(FreePages(m, s), Pages(base + mid, base + n), Pages(base + target, base + mid));
    ConservesMeans(s, once);
    ConservesMeans(s, half);
    ConservesMeans(half, twice);
    SamePagesSameState(m, once, twice);
  }

  lemma SetRegroup(f: set<nat>, x: set<nat>, y: set<nat>)
    ensures (f + x) + y == f + (y + x)
  {
  }

  lemma SmallerAligned(base: nat, mid: nat, n: nat)
    requires 1 <= mid <= n && Aligned(base, BitOrder(n))
    ensures Aligned(base, BitOrder(mid))
  {
    BitOrderIsLeast(n);
    OrderFits(mid, BitOrder(n));
    AlignedDown(base, BitOrder(mid), BitOrder(n));
  }

  lemma HeldFront(m: set<nat>, s: Buddy, t: Buddy, base: nat, mid: nat, n: nat)
    requires Held(m, s, base, base + n) && mid <= n
    requires FreePages(m, t) == FreePages(m, s) + Pages(base + mid, base + n)
    ensures Held(m, t, base, base + mid)
  {
    hide FreePages, Pages;
    PagesJoin(base, base + mid, base + n);
  }
}
