/** How many free list nodes one call of the page-count layer takes, and when the pool's threshold covers it. */
module NodeBound {
  import opened Blocks
  import opened Lists
  import opened PairIndex
  import opened BuddyState
  import opened BuddySpec
  import opened PhysSpec
  import opened PhysProofs
  import opened PhysAllocation
  import opened Populate

  /** Nodes in use: one for each listed block. */
  function NodesUpTo(lists: seq<seq<nat>>, k: nat): nat
    requires k <= |lists|
  {
    if k == 0 then 0 else NodesUpTo(lists, k - 1) + |lists[k - 1]|
  }

  function NodesInUse(s: Buddy): nat {
    NodesUpTo(s.lists, |s.lists|)
  }

  lemma {:induction false} OneListGrows(l: seq<seq<nat>>, n: seq<seq<nat>>, o: nat, k: nat, grow: int)
    requires |l| == |n| && o < |l| && k <= |l|
    requires |n[o]| == |l[o]| + grow && forall i | 0 <= i < |l| && i != o :: n[i] == l[i]
    ensures NodesUpTo(n, k) == NodesUpTo(l, k) + if o < k then grow else 0
  {
    if k > 0 {
      OneListGrows(l, n, o, k - 1, grow);
    }
  }

  lemma PushNodes(s: Buddy, t: Buddy, o: nat, b: nat)
    requires o < |s.lists| && t.lists == Push(s, o, b).lists
    ensures NodesInUse(t) == NodesInUse(s) + 1
  {
    OneListGrows(s.lists, t.lists, o, |s.lists|, 1);
  }

  lemma SameNodes(s: Buddy, t: Buddy)
    requires t.lists == s.lists
    ensures NodesInUse(t) == NodesInUse(s)
  {
  }

  // ----- one block

  /** Shrinking a block takes one node for each right half it lists. */
  lemma {:induction false} ShrinkListsNodes(s: Buddy, b: nat, o: nat, n: nat) returns (u: Buddy)
    requires 1 <= n <= Pow2(o) && o <= MAX_ORDER && |s.lists| == MAX_ORDER + 1
    ensures u == ShrinkLists(s, b, o, n) && NodesInUse(u) == NodesInUse(s) + SplitNodes(o, n)
    decreases o
  {
    hide *;
    if n == Pow2(o) {
      ShrinkNothing(s, b, o);
      u := s;
    } else {
      OrderPositive(o, n);
      Doubles(o);
      var h := Pow2(o - 1);
      if n > h {
        ShrinkBothHalves(s, b, o, h, n);
        var t := BitNodes(s, o - 1, b, false);
        u := ShrinkListsNodes(t, b + h, o - 1, n - h);
      } else {
        ShrinkLeftHalf(s, b, o, h, n);
        var t := PushBitNodes(s, o - 1, b + h, b);
        u := ShrinkListsNodes(t, b, o - 1, n);
      }
    }
  }

  lemma BitNodes(s: Buddy, o: nat, b: nat, one: bool) returns (t: Buddy)
    ensures t == PutBit(s, o, b, one) && |t.lists| == |s.lists| && NodesInUse(t) == NodesInUse(s)
  {
    hide IndexOf;
    t := PutBit(s, o, b, one);
    SameNodes(s, t);
  }

  lemma PushBitNodes(s: Buddy, o: nat, b: nat, pair: nat) returns (t: Buddy)
    requires o < |s.lists|
    ensures t == PutBit(Push(s, o, b), o, pair, true) && |t.lists| == |s.lists| && NodesInUse(t) == NodesInUse(s) + 1
  {
    hide IndexOf;
    t := PutBit(Push(s, o, b), o, pair, true);
    PushNodes(s, t, o, b);
  }

  lemma ShrinkBlockNodes(s: Buddy, b: nat, o: nat, n: nat)
    requires 1 <= n <= Pow2(o) && o <= MAX_ORDER && |s.lists| == MAX_ORDER + 1
    ensures NodesInUse(ShrinkBlock(s, b, o, n)) == NodesInUse(s) + SplitNodes(o, n)
  {
    hide ShrinkLists, SplitNodes, NodesInUse;
    var u := ShrinkListsNodes(s, b, o, n);
    SameNodes(u, ShrinkBlock(s, b, o, n));
  }

  /** A merge gives the buddy's node back. */
  lemma MergeNodes(m: set<nat>, s: Buddy, b: nat, o: nat) returns (t: Buddy)
    requires Inv(m, s) && InHand(m, s, b, o) && CanCoalesce(m, s, b, o)
    ensures t == Merge(s, b, o) && Inv(m, t) && InHand(m, t, ParentOf(b, o), o + 1) && |t.lists| == |s.lists|
    ensures NodesInUse(t) + 1 == NodesInUse(s)
  {
    hide IndexOf, InHand, PairBits, Coalesced, FreePages;
    t := MergeKeeps(m, s, b, o);
    WithoutFacts(s.lists[o], BuddyOf(b, o));
    OneListGrows(s.lists, t.lists, o, |s.lists|, -1);
  }

  lemma {:induction false} ClimbNodes(m: set<nat>, s: Buddy, b: nat, o: nat) returns (t: Buddy)
    requires Inv(m, s) && InHand(m, s, b, o) && o <= MAX_ORDER && |s.lists| == MAX_ORDER + 1
    ensures t == Climb(m, s, b, o) && NodesInUse(t) <= NodesInUse(s) + 1
    decreases MAX_ORDER - o
  {
    hide *;
    if CanCoalesce(m, s, b, o) {
      CoalesceBound(m, s, b, o);
      ClimbMore(m, s, b, o);
      var u := MergeNodes(m, s, b, o);
      t := ClimbNodes(m, u, ParentOf(b, o), o + 1);
    } else {
      ClimbLast(m, s, b, o);
      t := TogglePushNodes(s, o, b, b);
    }
  }

  lemma TogglePushNodes(s: Buddy, o: nat, b: nat, pair: nat) returns (t: Buddy)
    requires o < |s.lists|
    ensures t == Toggle(Push(s, o, b), o, pair) && |t.lists| == |s.lists| && NodesInUse(t) == NodesInUse(s) + 1
  {
    hide IndexOf;
    t := Toggle(Push(s, o, b), o, pair);
    PushNodes(s, t, o, b);
  }

  /** Freeing a block takes one node at most, and one node where it cannot merge. */
  lemma FreeBlockNodes(m: set<nat>, s: Buddy, b: nat, o: nat)
    requires Inv(m, s) && InHand(m, s, b, o) && o <= MAX_ORDER && |s.lists| == MAX_ORDER + 1
    ensures NodesInUse(FreeBlock(m, s, b, o)) <= NodesInUse(s) + 1
    ensures !CanCoalesce(m, s, b, o) ==> NodesInUse(FreeBlock(m, s, b, o)) == NodesInUse(s) + 1
  {
    hide *;
    FreeCases(m, s, b, o);
    var u;
    if CanCoalesce(m, s, b, o) {
      CoalesceBound(m, s, b, o);
      var v := MergeNodes(m, s, b, o);
      u := ClimbNodes(m, v, ParentOf(b, o), o + 1);
    } else {
      u := PushBitNodes(s, o, b, b);
    }
    AccountNodes(u, Bytes(o));
  }

  lemma AccountNodes(s: Buddy, freed: int)
    ensures NodesInUse(Account(s, freed)) == NodesInUse(s)
  {
    SameNodes(s, Account(s, freed));
  }

  /** The first block of a held range, freed or shrunk. */
  lemma FirstNodes(m: set<nat>, s: Buddy, addr: nat, o: nat, target: nat, size: nat, end: nat) returns (u: Buddy)
    requires Inv(m, s) && o <= MAX_ORDER && |s.lists| == MAX_ORDER + 1 && Aligned(addr, o)
    requires size == Pow2(o) && target <= size && addr + size <= end && Held(m, s, addr, end)
    ensures u == if target == 0 then FreeBlock(m, s, addr, o) else ShrinkBlock(s, addr, o, target)
    ensures |u.lists| == |s.lists| && Inv(m, u) && Held(m, u, addr + size, end)
    ensures FreePages(m, u) == FreePages(m, s) + Pages(addr + target, addr + size)
    ensures var cost := if target == 0 then 1 else SplitNodes(o, target);
      && NodesInUse(u) <= NodesInUse(s) + cost
      && (target > 0 || !CanCoalesce(m, s, addr, o) ==> NodesInUse(u) == NodesInUse(s) + cost)
  {
    hide *;
    u := FreeTail(m, s, addr, o, target, size, end);
    HeldBlock(m, s, addr, o, end);
    if target == 0 {
      FreeBlockNodes(m, s, addr, o);
    } else {
      ShrinkBlockNodes(s, addr, o, target);
    }
  }

  // ----- the whole call

  /** No page from `addr` on is on a free list. */
  ghost predicate AllBelow(m: set<nat>, s: Buddy, addr: nat) {
    forall p :: p in FreePages(m, s) ==> p < addr
  }

  /** A left half with nothing free to its right cannot merge. */
  lemma CannotMerge(m: set<nat>, s: Buddy, addr: nat, o: nat, end: nat)
    requires Inv(m, s) && Aligned(addr, o + 1) && AllBelow(m, s, addr) && Held(m, s, addr, end) && addr + Pow2(o) <= end
    ensures o <= MAX_ORDER ==> !CanCoalesce(m, s, addr, o)
  {
    hide IndexOf, CanCoalesce, FreePages;
    if o <= MAX_ORDER {
      Halves(addr, o);
      HeldBlock(m, s, addr, o, end);
      BuddyIsWaiting(m, s, addr, o);
      if Listed(s, o, addr + Pow2(o)) {
        assert InBlock(addr + Pow2(o), addr + Pow2(o), o) && Free(s, addr + Pow2(o));
        FreeInManaged(m, s, addr + Pow2(o));
      }
    }
  }

  lemma StillBelow(m: set<nat>, s: Buddy, u: Buddy, addr: nat, lo: nat, hi: nat)
    requires AllBelow(m, s, addr) && addr <= hi && FreePages(m, u) == FreePages(m, s) + Pages(lo, hi)
    ensures AllBelow(m, u, hi)
  {
    hide FreePages;
  }

  lemma BelowMore(m: set<nat>, s: Buddy, addr: nat, hi: nat)
    requires AllBelow(m, s, addr) && addr <= hi
    ensures AllBelow(m, s, hi)
  {
    hide FreePages;
  }

  /** Moving on by a block of order `o` from an address aligned for twice that keeps it aligned for `o`. */
  lemma NextEven(addr: nat, o: nat)
    requires Aligned(addr, o + 1)
    ensures Aligned(addr, o) && Aligned(addr + Pow2(o), o)
  {
    Halves(addr, o);
  }

  /** The loop of phys_block_shrink takes no more nodes than it needs, and exactly as many where nothing after the
      range's start is free and the start is aligned for the order above. */
  lemma {:induction false} LoopNodes(m: set<nat>, s: Buddy, addr: nat, n: nat, target: nat, k: nat) returns (t: Buddy)
    requires Inv(m, s) && k <= MAX_ORDER + 1 && |s.lists| == MAX_ORDER + 1
    requires k > 0 ==> Aligned(addr, k - 1)
    requires Held(m, s, addr, addr + LowPages(n, k))
    ensures t == ShrinkFrom(m, s, addr, n, target, k)
    ensures NodesInUse(t) <= NodesInUse(s) + Need(n, target, k)
    ensures AllBelow(m, s, addr) && Aligned(addr, k) ==> NodesInUse(t) == NodesInUse(s) + Need(n, target, k)
    decreases k
  {
    hide *;
    if k == 0 {
      NoOrders(m, s, addr, n, target);
      t := s;
    } else {
      var o, r := k - 1, LowPages(n, k - 1);
      var size := Pow2(o);
      var alone := AllBelow(m, s, addr) && Aligned(addr, k);
      NextAligned(addr, o);
      if alone {
        NextEven(addr, o);
      }
      if !BitAt(n, o) {
        SkipOrder(m, s, addr, n, target, o);
        t := LoopNodes(m, s, addr, n, target, o);
      } else {
        CountOrder(n, o);
        if target <= size {
          if target == 0 {
            FreeAtOrder(m, s, addr, n, o, size);
          } else {
            ShrinkAtOrder(m, s, addr, n, target, o, size);
          }
          var u := FirstNodes(m, s, addr, o, target, size, addr + size + r);
          if alone {
            CannotMerge(m, s, addr, o, addr + size + r);
            StillBelow(m, s, u, addr, addr + target, addr + size);
          }
          t := LoopNodes(m, u, addr + size, n, 0, o);
        } else {
          KeepAtOrder(m, s, addr, n, target, o, size);
          HeldRest(m, s, addr, addr + size, addr + size + r);
          if alone {
            BelowMore(m, s, addr, addr + size);
          }
          t := LoopNodes(m, s, addr + size, n, target - size, o);
        }
      }
    }
  }

  /** No call shrinking `n` pages to `target` takes more nodes than this. */
  function NodesFor(n: nat, target: nat): nat
    requires n >= 1
  {
    Need(n, target, BitOrder(n) + 1)
  }

  lemma ShrinkTakes(m: set<nat>, s: Buddy, base: nat, n: nat, target: nat)
    requires Inv(m, s) && 1 <= n <= Pow2(MAX_ORDER) && Aligned(base, BitOrder(n)) && Held(m, s, base, base + n)
    ensures |s.lists| == MAX_ORDER + 1 &&
            NodesInUse(PhysShrink(m, s, base, n, target)) <= NodesInUse(s) + NodesFor(n, target)
    ensures AllBelow(m, s, base) && Aligned(base, BitOrder(n) + 1) ==>
              NodesInUse(PhysShrink(m, s, base, n, target)) == NodesInUse(s) + NodesFor(n, target)
  {
    hide Inv, Aligned, Held, Need, NodesInUse, PhysShrink, ShrinkFrom, LowPages, AllBelow, BitOrder;
    InvShape(m, s);
    OrderFits(n, MAX_ORDER);
    BitOrderIsLeast(n);
    PhysShrinkIs(m, s, base, n, target);
    Doubles(BitOrder(n) + 1);
    LowPagesAll(n, BitOrder(n) + 1);
    var t := LoopNodes(m, s, base, n, target, BitOrder(n) + 1);
  }

  /** Where the call is allowed, it takes no more than `spare` nodes. */
  ghost predicate Covers(spare: nat, m: set<nat>, s: Buddy, base: nat, n: nat, target: nat)
    requires 1 <= n <= Pow2(MAX_ORDER)
  {
    Inv(m, s) && Aligned(base, BitOrder(n)) && Held(m, s, base, base + n) ==>
      |s.lists| == MAX_ORDER + 1 && NodesInUse(PhysShrink(m, s, base, n, target)) <= NodesInUse(s) + spare
  }

  /** A window wholly in use. */
  lemma FullWindow(n: nat)
    requires 1 <= n <= Pow2(MAX_ORDER)
    ensures var m := Pages(0, 128);
      && Inv(m, Empty()) && AllBelow(m, Empty(), 0) && Held(m, Empty(), 0, n)
      && Aligned(0, BitOrder(n)) && Aligned(0, BitOrder(n) + 1)
  {
    hide IndexOf, BitOrder;
    var m := Pages(0, 128);
    assert Pow2(MAX_ORDER) == 128;
    assert forall o: nat, b: nat :: !Listed(Empty(), o, b);
    assert FreePages(m, Empty()) == {};
    PagesJoin(0, n, 128);
  }

  /** The nodes that phys_block_shrink may take are exactly these: as many always suffice, and fewer do not. */
  lemma NodesSuffice(n: nat, target: nat, spare: nat)
    requires 1 <= n <= Pow2(MAX_ORDER)
    ensures NodesFor(n, target) <= spare <==>
            forall m: set<nat>, s: Buddy, base: nat :: Covers(spare, m, s, base, n, target)
  {
    hide Inv, Aligned, Held, NodesInUse, PhysShrink, BitOrder, NodesFor, AllBelow;
    if NodesFor(n, target) <= spare {
      forall m: set<nat>, s: Buddy, base: nat
        ensures Covers(spare, m, s, base, n, target)
      {
        if Inv(m, s) && Aligned(base, BitOrder(n)) && Held(m, s, base, base + n) {
          ShrinkTakes(m, s, base, n, target);
        }
      }
    } else {
      FullWindow(n);
      ShrinkTakes(Pages(0, 128), Empty(), 0, n, target);
      assert !Covers(spare, Pages(0, 128), Empty(), 0, n, target);
    }
  }

  /** Where the pool's threshold covers the call, and an input where it does not. */
  lemma ThresholdIff(n: nat, target: nat)
    requires 1 <= n <= Pow2(MAX_ORDER)
    ensures NodesFor(n, target) <= FREELIST_EXPANSION_THRESHOLD <==>
            forall m: set<nat>, s: Buddy, base: nat :: Covers(FREELIST_EXPANSION_THRESHOLD, m, s, base, n, target)
    ensures target == 0 || target >= n ==> NodesFor(n, target) <= FREELIST_EXPANSION_THRESHOLD
  {
    hide BitOrder, Covers, Need;
    NodesSuffice(n, target, FREELIST_EXPANSION_THRESHOLD);
    if target == 0 {
      FreeNodes(n);
      FreeNeeds(n, BitOrder(n) + 1);
    } else if target >= n {
      OrderFits(n, MAX_ORDER);
      BitOrderIsLeast(n);
      Doubles(BitOrder(n) + 1);
      LowPagesAll(n, BitOrder(n) + 1);
      KeepNeedsNone(n, target, BitOrder(n) + 1);
    }
  }

  /** Keeping all pages takes no node. */
  lemma {:induction false} KeepNeedsNone(n: nat, target: nat, k: nat)
    requires target >= LowPages(n, k) && (target == 0 ==> LowPages(n, k) == 0)
    ensures Need(n, target, k) == 0
    decreases k
  {
    if k > 0 {
      if !BitAt(n, k - 1) {
        KeepNeedsNone(n, target, k - 1);
      } else if target == Pow2(k - 1) {
        KeepNeedsNone(n, 0, k - 1);
      } else {
        KeepNeedsNone(n, target - Pow2(k - 1), k - 1);
      }
    }
  }

  /** Keeping one page of a block lists a right half at every order below. */
  lemma {:induction false} KeepOneNodes(o: nat)
    ensures SplitNodes(o, 1) == o
  {
    if o > 0 {
      KeepOneNodes(o - 1);
    }
  }

  /** One less than a power of two has one bits only. */
  lemma {:induction false} AllOnes(w: nat, j: nat)
    requires j < w
    ensures BitAt(Pow2(w) - 1, j)
  {
    if j > 0 {
      assert (Pow2(w) - 1) / 2 == Pow2(w - 1) - 1;
      AllOnes(w - 1, j - 1);
    }
  }

  lemma {:induction false} CountOnes(w: nat, k: nat)
    requires k <= w
    ensures OneBits(Pow2(w) - 1, k) == k
  {
    if k > 0 {
      AllOnes(w, k - 1);
      CountOnes(w, k - 1);
    }
  }

  lemma OrderOf127()
    ensures 127 <= Pow2(MAX_ORDER) && BitOrder(127) == 7 && Pow2(7) - 1 == 127 && 1 <= Pow2(6)
  {
    hide HighBit;
    HighBitOf127();
    assert Pow2(6) == 64 && Pow2(MAX_ORDER) == 128;
  }

  lemma HighBitOf127()
    ensures HighBit(127) == 6
  {
    assert HighBit(31) == 2 + HighBit(7) && HighBit(7) == 2;
    assert HighBit(127) == 2 + HighBit(31);
  }

  lemma NoTopBit()
    ensures !BitAt(127, 7)
  {
    assert Pow2(8) == 256 && Pow2(7) == 128 by {
      assert Pow2(6) == 64;
    }
    TopBit(127, 7);
  }

  lemma SplitFirst(n: nat, target: nat, o: nat)
    requires 0 < target <= Pow2(o) && !BitAt(n, o + 1) && BitAt(n, o)
    ensures Need(n, target, o + 2) == SplitNodes(o, target) + Need(n, 0, o)
  {
    hide BitAt, SplitNodes;
  }

  /** Shrinking 127 pages to one takes twelve nodes in a window wholly in use. */
  lemma ShrinkOutgrowsThreshold()
    ensures 127 <= Pow2(MAX_ORDER) && NodesFor(127, 1) == 12 > FREELIST_EXPANSION_THRESHOLD
    ensures var m, s := Pages(0, 128), Empty();
      && Inv(m, s) && Held(m, s, 0, 127) && Aligned(0, BitOrder(127)) && |s.lists| == MAX_ORDER + 1
      && NodesInUse(PhysShrink(m, s, 0, 127, 1)) == NodesInUse(s) + 12
  {
    hide Pow2, BitAt, BitOrder, SplitNodes, Need, OneBits, Inv, Held, Aligned, NodesInUse, PhysShrink, AllBelow, Pages;
    OrderOf127();
    NoTopBit();
    AllOnes(7, 6);
    KeepOneNodes(6);
    FreeNeeds(127, 6);
    CountOnes(7, 6);
    SplitFirst(127, 1, 6);
    FullWindow(127);
    ShrinkTakes(Pages(0, 128), Empty(), 0, 127, 1);
  }
}
