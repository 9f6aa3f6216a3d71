/** The page-count layer: any number of pages as a row of buddy blocks, one for each one bit of the count. */
module PhysSpec {
  import opened Options
  import opened Blocks
  import opened PairIndex
  import opened BuddyState
  import opened BuddySpec

  predicate BitAt(n: nat, o: nat) {
    Shr(n, o) % 2 == 1
  }

  /** Position of the highest one bit: 31 minus the count of leading zeros. */
  function HighBit(x: nat): nat
    requires x >= 1
  {
    if x == 1 then 0 else 1 + HighBit(x / 2)
  }

  /** math.h, bit_order. */
  function BitOrder(x: nat): nat
    requires x >= 1
  {
    if x == Pow2(HighBit(x)) then HighBit(x) else HighBit(x) + 1
  }

  /** The smallest order whose block holds `x` pages. */
  lemma {:induction false} BitOrderIsLeast(x: nat)
    requires x >= 1
    ensures x <= Pow2(BitOrder(x))
    ensures BitOrder(x) > 0 ==> Pow2(BitOrder(x) - 1) < x
  {
    HighBitBounds(x);
  }

  lemma {:induction false} HighBitBounds(x: nat)
    requires x >= 1
    ensures Pow2(HighBit(x)) <= x < 2 * Pow2(HighBit(x))
  {
    if x > 1 {
      HighBitBounds(x / 2);
    }
  }

  lemma OrderFits(x: nat, o: nat)
    requires 1 <= x <= Pow2(o)
    ensures BitOrder(x) <= o
  {
    BitOrderIsLeast(x);
    if o < BitOrder(x) {
      if o < BitOrder(x) - 1 {
        Pow2Monotone(o, BitOrder(x) - 1);
      }
    }
  }

  // ----- operations

  /** phys_alloc; running out of memory is passed on before anything is shrunk. */
  function PhysAlloc(s: Buddy, n: nat): (Option<nat>, Buddy)
    requires n >= 1 && |s.lists| == MAX_ORDER + 1
  {
    if n > Pow2(MAX_ORDER) then
      (None, s)
    else
      OrderFits(n, MAX_ORDER);
      BitOrderIsLeast(n);
      var o := BitOrder(n);
      var (r, t) := AllocBlock(s, o);
      if r.None? then (None, s) else (r, ShrinkBlock(t, r.value, o, n))
  }

  /** The loop of phys_block_shrink, over the orders below `k`. */
  ghost function ShrinkFrom(m: set<nat>, s: Buddy, addr: nat, n: nat, target: nat, k: nat): (t: Buddy)
    requires k <= MAX_ORDER + 1 && |s.lists| == MAX_ORDER + 1
    ensures |t.lists| == |s.lists|
    decreases k
  {
    if k == 0 then
      s
    else if !BitAt(n, k - 1) then
      ShrinkFrom(m, s, addr, n, target, k - 1)
    else
      var size := Pow2(k - 1);
      if target == 0 then
        ShrinkFrom(m, FreeBlock(m, s, addr, k - 1), addr + size, n, 0, k - 1)
      else if target <= size then
        ShrinkFrom(m, ShrinkBlock(s, addr, k - 1, target), addr + size, n, 0, k - 1)
      else
        ShrinkFrom(m, s, addr + size, n, target - size, k - 1)
  }

  ghost function PhysShrink(m: set<nat>, s: Buddy, base: nat, n: nat, target: nat): (t: Buddy)
    requires 1 <= n <= Pow2(MAX_ORDER) && |s.lists| == MAX_ORDER + 1
    ensures |t.lists| == |s.lists|
  {
    OrderFits(n, MAX_ORDER);
    ShrinkFrom(m, s, base, n, target, BitOrder(n) + 1)
  }

  ghost function PhysFree(m: set<nat>, s: Buddy, base: nat, n: nat): (t: Buddy)
    requires 1 <= n <= Pow2(MAX_ORDER) && |s.lists| == MAX_ORDER + 1
    ensures |t.lists| == |s.lists|
  {
    PhysShrink(m, s, base, n, 0)
  }

  /** Free list nodes that the loop takes when nothing it frees can be merged: one for each right half that the split
      block lists, and one for each block freed whole. */
  function Need(n: nat, target: nat, k: nat): nat
    decreases k
  {
    if k == 0 then 0
    else if !BitAt(n, k - 1) then Need(n, target, k - 1)
    else if target == 0 then 1 + Need(n, 0, k - 1)
    else if target <= Pow2(k - 1) then SplitNodes(k - 1, target) + Need(n, 0, k - 1)
    else Need(n, target - Pow2(k - 1), k - 1)
  }

  // ----- the blocks of an allocation

  datatype Blk = Blk(base: nat, order: nat)

  /** The blocks of `n` pages from `base` on, by the one bits of `n` below `k`, largest first. */
  function Expansion(base: nat, n: nat, k: nat): seq<Blk>
    decreases k
  {
    if k == 0 then []
    else if BitAt(n, k - 1) then [Blk(base, k - 1)] + Expansion(base + Pow2(k - 1), n, k - 1)
    else Expansion(base, n, k - 1)
  }

  /** The blocks that stay allocated when the loop of buddy_shrink_block has run. */
  function Kept(b: nat, o: nat, n: nat): seq<Blk>
    requires 1 <= n <= Pow2(o)
    decreases o
  {
    if n == Pow2(o) then [Blk(b, o)]
    else if n > Pow2(o - 1) then [Blk(b, o - 1)] + Kept(b + Pow2(o - 1), o - 1, n - Pow2(o - 1))
    else Kept(b, o - 1, n)
  }

  /** The blocks that stay allocated when the loop of phys_block_shrink has run over the orders below `k`. */
  function KeptFrom(addr: nat, n: nat, target: nat, k: nat): seq<Blk>
    decreases k
  {
    if k == 0 then []
    else if !BitAt(n, k - 1) then KeptFrom(addr, n, target, k - 1)
    else if target == 0 then []
    else if target <= Pow2(k - 1) then Kept(addr, k - 1, target)
    else [Blk(addr, k - 1)] + KeptFrom(addr + Pow2(k - 1), n, target - Pow2(k - 1), k - 1)
  }

  /** Pages in the blocks of `n` below order `k`. */
  function LowPages(n: nat, k: nat): nat {
    if k == 0 then 0 else (if BitAt(n, k - 1) then Pow2(k - 1) else 0) + LowPages(n, k - 1)
  }

  lemma {:induction false} LowPagesRest(n: nat, k: nat)
    ensures n == Shl(Shr(n, k), k) + LowPages(n, k)
  {
    if k > 0 {
      LowPagesRest(n, k - 1);
      ShrStep(n, k - 1);
      var h := Shr(n, k);
      ShlAdd(h, h, k - 1);
      ShlAdd(2 * h, 1, k - 1);
      ShlOne(k - 1);
    }
  }

  lemma LowPagesAll(n: nat, k: nat)
    requires n < Pow2(k)
    ensures LowPages(n, k) == n
  {
    LowPagesRest(n, k);
    ShrBound(n, k, k);
    ShlIsMul(0, k);
  }

  /** Bits below the top one do not see the top one. */
  lemma {:induction false} DropTop(n: nat, o: nat, j: nat)
    requires j < o && n >= Pow2(o)
    ensures BitAt(n - Pow2(o), j) == BitAt(n, j)
    decreases j
  {
    if j > 0 {
      DropTop(n / 2, o - 1, j - 1);
      assert (n - Pow2(o)) / 2 == n / 2 - Pow2(o - 1);
    }
  }

  lemma {:induction false} ExpansionDropTop(base: nat, n: nat, o: nat, k: nat)
    requires k <= o && n >= Pow2(o)
    ensures Expansion(base, n - Pow2(o), k) == Expansion(base, n, k)
    decreases k
  {
    if k > 0 {
      DropTop(n, o, k - 1);
      ExpansionDropTop(base, n, o, k - 1);
      ExpansionDropTop(base + Pow2(k - 1), n, o, k - 1);
    }
  }

  lemma {:induction false} TopBit(n: nat, o: nat)
    requires n < Pow2(o + 1)
    ensures BitAt(n, o) <==> n >= Pow2(o)
  {
    if o > 0 {
      TopBit(n / 2, o - 1);
    }
  }

  lemma {:induction false} NoBlocks(base: nat, k: nat)
    ensures Expansion(base, 0, k) == []
  {
    if k > 0 {
      ShrZero(k - 1);
      NoBlocks(base, k - 1);
    }
  }

  /** The blocks kept of one block are the binary expansion of the page count. */
  lemma {:induction false} KeptIsExpansion(b: nat, o: nat, n: nat)
    requires 1 <= n <= Pow2(o)
    ensures Kept(b, o, n) == Expansion(b, n, o + 1)
    decreases o
  {
    TopBit(n, o);
    if n == Pow2(o) {
      ExpansionDropTop(b + Pow2(o), n, o, o);
      NoBlocks(b + Pow2(o), o);
    } else {
      var h := Pow2(o - 1);
      TopBit(n, o - 1);
      if n > h {
        TopBit(n - h, o - 1);
        KeptIsExpansion(b + h, o - 1, n - h);
        ExpansionDropTop(b + h, n, o - 1, o - 1);
      } else {
        KeptIsExpansion(b, o - 1, n);
      }
    }
  }

  /** The blocks of an expansion follow each other without gap, and fall in size. */
  lemma {:induction false} ExpansionShape(base: nat, n: nat, k: nat, i: nat)
    requires i < |Expansion(base, n, k)|
    ensures var e := Expansion(base, n, k);
      && e[i].order < k && BitAt(n, e[i].order)
      && e[i].base == (if i == 0 then base else e[i - 1].base + Pow2(e[i - 1].order))
      && (i > 0 ==> e[i].order < e[i - 1].order)
      && (i + 1 == |e| ==> e[i].base + Pow2(e[i].order) == base + LowPages(n, k))
    decreases k
  {
    if BitAt(n, k - 1) {
      var rest := Expansion(base + Pow2(k - 1), n, k - 1);
      if i > 0 {
        ExpansionShape(base + Pow2(k - 1), n, k - 1, i - 1);
      } else if rest == [] {
        EmptyExpansion(base + Pow2(k - 1), n, k - 1);
      } else {
        ExpansionShape(base + Pow2(k - 1), n, k - 1, 0);
      }
    } else {
      ExpansionShape(base, n, k - 1, i);
    }
  }

  lemma {:induction false} EmptyExpansion(base: nat, n: nat, k: nat)
    requires Expansion(base, n, k) == []
    ensures LowPages(n, k) == 0
  {
    if k > 0 {
      EmptyExpansion(base, n, k - 1);
    }
  }
}
