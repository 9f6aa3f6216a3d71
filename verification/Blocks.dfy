/** Powers of two and the aligned blocks of pages a buddy allocator deals in. */
module Blocks {

  const MAX_ORDER: nat := 7
  const PAGE_SIZE: nat := 4096

  function Pow2(n: nat): (r: nat)
    ensures r > 0
  {
    if n == 0 then 1 else 2 * Pow2(n - 1)
  }

  lemma {:induction false} Pow2Add(m: nat, n: nat)
    ensures Pow2(m + n) == Pow2(m) * Pow2(n)
  {
    if n == 0 {
      assert Pow2(m) * 1 == Pow2(m);
    } else {
      Pow2Add(m, n - 1);
      assert Pow2(m + n) == 2 * Pow2(m + n - 1) == 2 * (Pow2(m) * Pow2(n - 1)) == Pow2(m) * (2 * Pow2(n - 1));
    }
  }

  lemma {:induction false} Pow2Monotone(m: nat, n: nat)
    requires m < n
    ensures 2 * Pow2(m) <= Pow2(n)
  {
    if m + 1 < n {
      Pow2Monotone(m, n - 1);
    }
  }

  /** A block is named by its first page and its order. */
  predicate Aligned(b: nat, o: nat) {
    b % Pow2(o) == 0
  }

  predicate InBlock(p: nat, b: nat, o: nat) {
    b <= p < b + Pow2(o)
  }

  predicate Overlap(b: nat, o: nat, c: nat, q: nat) {
    b < c + Pow2(q) && c < b + Pow2(o)
  }

  /** Every page of the block lies in `m`. */
  ghost predicate BlockIn(m: set<nat>, b: nat, o: nat) {
    forall p: nat :: InBlock(p, b, o) ==> p in m
  }

  /** First page of the other half of the pair (buddy_alloc.c, __buddy_page_offset). */
  function BuddyOf(b: nat, o: nat): (q: nat)
  {
    if b % Pow2(o + 1) != 0 && b >= Pow2(o) then b - Pow2(o) else b + Pow2(o)
  }

  /** First page of the block of order `o + 1` that the pair makes up. */
  function ParentOf(b: nat, o: nat): (q: nat)
  {
    if BuddyOf(b, o) < b then BuddyOf(b, o) else b
  }

  lemma DivBy(b: nat, d: nat)
    requires d > 0
    ensures b == (b / d) * d + b % d
  {
  }

  lemma MulAtLeast(a: int, d: int)
    requires a >= 1 && d >= 0
    ensures a * d >= d
  {
  }

  lemma MulMonotone(a: int, b: int, d: int)
    requires a <= b && d >= 0
    ensures a * d <= b * d
  {
  }

  lemma UniqueQuotient(k: int, q: int, d: int, r: int, s: int)
    requires 0 <= r < d && 0 <= s < d
    requires k * d + r == q * d + s
    ensures k == q && r == s
  {
    assert (k - q) * d == k * d - q * d;
    assert (q - k) * d == q * d - k * d;
    if k > q {
      MulAtLeast(k - q, d);
    } else if q > k {
      MulAtLeast(q - k, d);
    }
  }

  lemma ModOfMultiple(k: nat, d: nat, r: nat)
    requires r < d
    ensures (k * d + r) % d == r
    ensures (k * d + r) / d == k
  {
    var x := k * d + r;
    DivBy(x, d);
    UniqueQuotient(x / d, k, d, x % d, r);
  }

  lemma MultipleGap(x: nat, y: nat, d: nat)
    requires d > 0 && x % d == 0 && y % d == 0 && x < y
    ensures x + d <= y
  {
    DivBy(x, d);
    DivBy(y, d);
    var i, j := x / d, y / d;
    assert (j - i) * d == j * d - i * d;
    if j <= i {
      MulMonotone(j, i, d);
    } else {
      MulAtLeast(j - i, d);
    }
  }

  /** The two halves of an aligned block, seen from above. */
  lemma Halves(b: nat, o: nat)
    requires Aligned(b, o + 1)
    ensures Aligned(b, o) && Aligned(b + Pow2(o), o) && !Aligned(b + Pow2(o), o + 1)
    ensures BuddyOf(b, o) == b + Pow2(o) && BuddyOf(b + Pow2(o), o) == b
    ensures ParentOf(b, o) == b && ParentOf(b + Pow2(o), o) == b
  {
    var d := Pow2(o);
    DivBy(b, 2 * d);
    var k := b / (2 * d);
    assert b == (2 * k) * d;
    ModOfMultiple(2 * k, d, 0);
    ModOfMultiple(2 * k + 1, d, 0);
    assert b + d == (2 * k + 1) * d;
    ModOfMultiple(k, 2 * d, d);
    assert b + d == k * (2 * d) + d;
  }

  /** An aligned block is the left or the right half of its parent. */
  lemma LeftOrRight(b: nat, o: nat)
    requires Aligned(b, o)
    ensures Aligned(b, o + 1) || (b >= Pow2(o) && Aligned(b - Pow2(o), o + 1))
    ensures Aligned(ParentOf(b, o), o + 1)
    ensures b == ParentOf(b, o) || b == ParentOf(b, o) + Pow2(o)
  {
    var a := EvenMultiple(b, Pow2(o));
    Halves(a, o);
  }

  /** A multiple of `d` is an even multiple, or one `d` past one. */
  lemma EvenMultiple(b: nat, d: nat) returns (a: nat)
    requires d > 0 && b % d == 0
    ensures a % (2 * d) == 0 && (b == a || b == a + d)
  {
    DivBy(b, d);
    var h := b / d / 2;
    a := h * (2 * d);
    MulAssoc(h, 2, d);
    ModOfMultiple(h, 2 * d, 0);
    if b / d % 2 == 1 {
      OneMore(h * 2, d);
    }
  }

  lemma OneMore(k: nat, d: nat)
    ensures (k + 1) * d == k * d + d
  {
  }

  /** A half and its buddy make up the parent, and taking the buddy twice gives the half back. */
  lemma BuddyFacts(b: nat, o: nat)
    requires Aligned(b, o)
    ensures Aligned(BuddyOf(b, o), o) && BuddyOf(BuddyOf(b, o), o) == b
    ensures ParentOf(BuddyOf(b, o), o) == ParentOf(b, o) && Aligned(ParentOf(b, o), o + 1)
    ensures (b == ParentOf(b, o) && BuddyOf(b, o) == b + Pow2(o)) ||
            (b == ParentOf(b, o) + Pow2(o) && BuddyOf(b, o) == ParentOf(b, o))
  {
    LeftOrRight(b, o);
    Halves(ParentOf(b, o), o);
  }

  lemma AlignedDown(b: nat, o: nat, q: nat)
    requires o <= q && Aligned(b, q)
    ensures Aligned(b, o)
    ensures Pow2(q) % Pow2(o) == 0 && Pow2(q) >= Pow2(o)
  {
    Pow2Add(q - o, o);
    var d, e := Pow2(o), Pow2(q - o);
    var k := b / Pow2(q);
    DivBy(b, Pow2(q));
    MulAssoc(k, e, d);
    ModOfMultiple(k * e, d, 0);
    ModOfMultiple(e, d, 0);
    MulAtLeast(e, d);
  }

  lemma MulAssoc(x: int, y: int, z: int)
    ensures x * (y * z) == (x * y) * z
  {
  }

  lemma ModSum(x: nat, y: nat, d: nat)
    requires d > 0 && x % d == 0 && y % d == 0
    ensures (x + y) % d == 0
  {
    DivBy(x, d);
    DivBy(y, d);
    assert x + y == (x / d + y / d) * d;
    ModOfMultiple(x / d + y / d, d, 0);
  }

  /** Aligned blocks are nested or disjoint. */
  lemma Nested(b: nat, o: nat, c: nat, q: nat)
    requires Aligned(b, o) && Aligned(c, q) && o <= q && Overlap(b, o, c, q)
    ensures c <= b && b + Pow2(o) <= c + Pow2(q)
    ensures o == q ==> b == c
  {
    var d := Pow2(o);
    AlignedDown(c, o, q);
    ModSum(c, Pow2(q), d);
    if b < c {
      MultipleGap(b, c, d);
    }
    MultipleGap(b, c + Pow2(q), d);
    if o == q && c < b {
      MultipleGap(c, b, d);
    }
  }

  /** A block lies below an aligned block that is strictly larger exactly when its parent does. */
  lemma ParentWithin(b: nat, o: nat, c: nat, q: nat)
    requires Aligned(b, o) && Aligned(c, q) && o < q && Overlap(b, o, c, q)
    ensures c <= ParentOf(b, o) && ParentOf(b, o) + Pow2(o + 1) <= c + Pow2(q)
  {
    BuddyFacts(b, o);
    Nested(ParentOf(b, o), o + 1, c, q);
  }
}
