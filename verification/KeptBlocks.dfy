/** The blocks an allocation is left with after shrinking: the ones that phys_free will look for. */
module KeptBlocks {
  import opened Blocks
  import opened BuddyState
  import opened BuddySpec
  import opened PhysSpec
  import opened PhysProofs

  ghost function PagesOf(e: seq<Blk>): set<nat> {
    if e == [] then {} else BlockPages(e[0].base, e[0].order) + PagesOf(e[1..])
  }

  lemma {:induction false} LowPagesBound(n: nat, k: nat)
    ensures LowPages(n, k) < Pow2(k)
  {
    if k > 0 {
      LowPagesBound(n, k - 1);
    }
  }

  /** The blocks that the loop keeps are the binary expansion of the target. */
  lemma {:induction false} KeptFromIsExpansion(addr: nat, n: nat, target: nat, k: nat)
    requires 1 <= target <= LowPages(n, k)
    ensures KeptFrom(addr, n, target, k) == Expansion(addr, target, k)
    decreases k
  {
    var o := k - 1;
    var size := Pow2(o);
    LowPagesBound(n, o);
    TopBit(target, o);
    if !BitAt(n, o) {
      KeptFromIsExpansion(addr, n, target, o);
    } else if target <= size {
      KeptIsExpansion(addr, o, target);
    } else {
      KeptFromIsExpansion(addr + size, n, target - size, o);
      ExpansionDropTop(addr + size, target, o, o);
    }
  }

  /** Orders above the count's own add no block. */
  lemma {:induction false} LeadingZeros(base: nat, n: nat, j: nat, k: nat)
    requires n < Pow2(j) && j <= k
    ensures Expansion(base, n, k) == Expansion(base, n, j)
    decreases k
  {
    if j < k {
      Pow2Monotone(j, k);
      TopBit(n, k - 1);
      LeadingZeros(base, n, j, k - 1);
    }
  }

  /** An expansion covers its pages without gap. */
  lemma {:induction false} ExpansionPages(base: nat, n: nat, k: nat)
    ensures PagesOf(Expansion(base, n, k)) == Pages(base, base + LowPages(n, k))
    decreases k
  {
    hide Pages;
    if k == 0 {
      NoPages(base);
    } else if BitAt(n, k - 1) {
      var size := Pow2(k - 1);
      ExpansionPages(base + size, n, k - 1);
      PagesJoin(base, base + size, base + LowPages(n, k));
      assert Expansion(base, n, k)[1..] == Expansion(base + size, n, k - 1);
    } else {
      ExpansionPages(base, n, k - 1);
    }
  }

  lemma AllPages(base: nat, n: nat, k: nat)
    requires n < Pow2(k)
    ensures PagesOf(Expansion(base, n, k)) == Pages(base, base + n)
  {
    hide Pages, PagesOf, Expansion;
    ExpansionPages(base, n, k);
    LowPagesAll(n, k);
  }

  /** buddy_shrink_block: the kept blocks are the pages of the block that it does not list. */
  lemma KeptIsWhatStays(m: set<nat>, s: Buddy, b: nat, o: nat, n: nat)
    requires Inv(m, s) && InHand(m, s, b, o) && o <= MAX_ORDER && 1 <= n <= Pow2(o) && |s.lists| == MAX_ORDER + 1
    ensures PagesOf(Kept(b, o, n)) == BlockPages(b, o) - FreePages(m, ShrinkLists(s, b, o, n))
  {
    hide *;
    var t := ShrinkListsKeeps(m, s, b, o, n);
    KeptIsExpansion(b, o, n);
    Doubles(o + 1);
    AllPages(b, n, o + 1);
    BlockIsPages(b, o);
    PagesJoin(b, b + n, b + Pow2(o));
    HandSets(m, s, b, o);
    SetsLeft(FreePages(m, s), Pages(b, b + n), Pages(b + n, b + Pow2(o)));
  }

  lemma HandSets(m: set<nat>, s: Buddy, b: nat, o: nat)
    requires InHand(m, s, b, o)
    ensures BlockPages(b, o) !! FreePages(m, s)
  {
  }

  lemma SetsLeft(f: set<nat>, x: set<nat>, y: set<nat>)
    requires x !! y && (x + y) !! f
    ensures (x + y) - (f + y) == x
  {
  }

  /** phys_block_shrink leaves exactly the binary expansion of the target: the blocks that phys_free with the target as
      page count frees, and the pages of the allocation that are not listed afterwards. */
  lemma ShrinkLeavesExpansion(m: set<nat>, s: Buddy, base: nat, n: nat, target: nat)
    requires Inv(m, s) && 1 <= target <= n <= Pow2(MAX_ORDER) && Aligned(base, BitOrder(n)) &&
             |s.lists| == MAX_ORDER + 1
    requires Held(m, s, base, base + n)
    ensures var left := KeptFrom(base, n, target, BitOrder(n) + 1);
      && left == Expansion(base, target, BitOrder(target) + 1)
      && PagesOf(left) == Pages(base, base + n) - FreePages(m, PhysShrink(m, s, base, n, target))
  {
    hide *;
    var k := BitOrder(n);
    BitOrderIsLeast(n);
    BitOrderIsLeast(target);
    OrderFits(target, k);
    Doubles(k + 1);
    Doubles(BitOrder(target) + 1);
    LowPagesAll(n, k + 1);
    KeptFromIsExpansion(base, n, target, k + 1);
    LeadingZeros(base, target, BitOrder(target) + 1, k + 1);
    AllPages(base, target, k + 1);
    var t := PhysShrinkKeeps(m, s, base, n, target);
    MinFacts(target, n);
    PagesJoin(base, base + target, base + n);
    HeldSets(m, s, base, base + n);
    SetsLeft(FreePages(m, s), Pages(base, base + target), Pages(base + target, base + n));
  }

  lemma HeldSets(m: set<nat>, s: Buddy, lo: nat, hi: nat)
    requires Held(m, s, lo, hi)
    ensures Pages(lo, hi) !! FreePages(m, s)
  {
  }
}
