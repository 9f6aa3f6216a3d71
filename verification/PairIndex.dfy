/** The bitmap index of a buddy pair, and why two pairs never share one. */
module PairIndex {
  import opened Blocks

  /** Pages in one super-block, the unit the bitmap is laid out in. */
  const SUPER: nat := 256

  const MAX_BLOCK_BITS: nat := SUPER - 1

  lemma SuperIsPow2()
    ensures SUPER == Pow2(MAX_ORDER + 1)
  {
  }

  /** C's `x >> n`. */
  function Shr(x: nat, n: nat): nat {
    if n == 0 then x else Shr(x / 2, n - 1)
  }

  /** C's `x << n`, for results that do not overflow. */
  function Shl(x: nat, n: nat): nat {
    if n == 0 then x else 2 * Shl(x, n - 1)
  }

  /** `x` with its low `n` bits cleared: C's `x & ~MASK_FOR_FIRST_N_BITS(n)`. */
  function TruncBits(x: nat, n: nat): nat {
    Shl(Shr(x, n), n)
  }

  /** C's `x | (1 << n)`. */
  function TurnOn(x: nat, n: nat): (r: nat)
    ensures r >= 1
  {
    ShlOne(n);
    ShrZero(n);
    if Shr(x, n) % 2 == 1 then x else x + Shl(1, n)
  }

  function IndexOf(b: nat, o: nat): nat {
    (b / SUPER) * MAX_BLOCK_BITS + TurnOn(TruncBits(b % SUPER, o), o) - 1
  }

  function RoundUpShift(x: nat, n: nat): nat {
    if x % Pow2(n) != 0 then Shr(x, n) + 1 else Shr(x, n)
  }

  function BitmapBits(numPages: nat): nat {
    RoundUpShift(numPages, MAX_ORDER + 1) * MAX_BLOCK_BITS
  }

  // ----- shifts

  lemma {:induction false} ShrShl(x: nat, n: nat)
    ensures Shr(Shl(x, n), n) == x
  {
    if n > 0 {
      ShrShl(x, n - 1);
    }
  }

  lemma {:induction false} ShlAdd(x: nat, y: nat, n: nat)
    ensures Shl(x + y, n) == Shl(x, n) + Shl(y, n)
  {
    if n > 0 {
      ShlAdd(x, y, n - 1);
    }
  }

  lemma {:induction false} ShlOne(n: nat)
    ensures Shl(1, n) == Pow2(n)
  {
    if n > 0 {
      ShlOne(n - 1);
    }
  }

  lemma {:induction false} ShrZero(n: nat)
    ensures Shr(0, n) == 0
  {
    if n > 0 {
      ShrZero(n - 1);
    }
  }

  lemma {:induction false} ShrStep(x: nat, n: nat)
    ensures Shr(x, n + 1) == Shr(x, n) / 2
  {
    if n > 0 {
      ShrStep(x / 2, n - 1);
    }
  }

  lemma {:induction false} ShlBound(x: nat, n: nat, m: nat)
    requires x < Pow2(m)
    ensures Shl(x, n) < Pow2(m + n)
  {
    if n > 0 {
      ShlBound(x, n - 1, m);
    }
  }

  lemma {:induction false} ShrBound(x: nat, n: nat, m: nat)
    requires x < Pow2(m) && n <= m
    ensures Shr(x, n) < Pow2(m - n)
  {
    if n > 0 {
      ShrBound(x / 2, n - 1, m - 1);
    }
  }

  /** Shifting a number given by its high part `k` and its low `m` bits `r`. */
  lemma {:induction false} ShrSplit(k: nat, r: nat, m: nat, n: nat)
    requires r < Pow2(m) && n <= m
    ensures Shr(Shl(k, m) + r, n) == Shl(k, m - n) + Shr(r, n)
  {
    if n > 0 {
      assert (Shl(k, m) + r) / 2 == Shl(k, m - 1) + r / 2;
      ShrSplit(k, r / 2, m - 1, n - 1);
    }
  }

  lemma {:induction false} SplitUnique(k: nat, r: nat, j: nat, s: nat, m: nat)
    requires r < Pow2(m) && s < Pow2(m) && Shl(k, m) + r == Shl(j, m) + s
    ensures k == j && r == s
  {
    if m > 0 {
      SplitUnique(k, r / 2, j, s / 2, m - 1);
    }
  }

  lemma {:induction false} ShlIsMul(x: nat, n: nat)
    ensures Shl(x, n) == x * Pow2(n)
  {
    if n > 0 {
      ShlIsMul(x, n - 1);
      MulAssoc(2, x, Pow2(n - 1));
      MulAssoc(x, 2, Pow2(n - 1));
    }
  }

  lemma ShlAligned(x: nat, n: nat)
    ensures Aligned(Shl(x, n), n)
  {
    ShlIsMul(x, n);
    ModOfMultiple(x, Pow2(n), 0);
  }

  lemma AlignedShl(b: nat, n: nat)
    requires Aligned(b, n)
    ensures b == Shl(Shr(b, n), n)
  {
    DivBy(b, Pow2(n));
    ShlIsMul(b / Pow2(n), n);
    ShrShl(b / Pow2(n), n);
  }

  // ----- the index

  /** The one-based position inside its super-block of the `q`-th pair of order `o`. */
  function Slot(q: nat, o: nat): nat {
    Shl(2 * q + 1, o)
  }

  lemma TurnOnTruncated(x: nat, o: nat)
    ensures TurnOn(TruncBits(x, o), o) == Slot(Shr(x, o + 1), o)
  {
    ShrShl(Shr(x, o), o);
    ShrStep(x, o);
    if Shr(x, o) % 2 == 0 {
      ShlAdd(Shr(x, o), 1, o);
    }
  }

  /** Position of the pair within its super-block; always between 1 and 255. */
  lemma IndexForm(b: nat, o: nat)
    requires o <= MAX_ORDER
    ensures IndexOf(b, o) == (b / SUPER) * MAX_BLOCK_BITS + Slot(Shr(b % SUPER, o + 1), o) - 1
    ensures 1 <= Slot(Shr(b % SUPER, o + 1), o) <= MAX_BLOCK_BITS
  {
    TurnOnTruncated(b % SUPER, o);
    SuperIsPow2();
    ShrBound(b % SUPER, o + 1, MAX_ORDER + 1);
    var q := Shr(b % SUPER, o + 1);
    assert 2 * q + 1 < Pow2(MAX_ORDER + 1 - o);
    ShlBound(2 * q + 1, o, MAX_ORDER + 1 - o);
    ShlAdd(2 * q, 1, o);
    ShlOne(o);
  }

  /** The order of a slot is its number of trailing zero bits. */
  lemma {:induction false} SlotInjective(q1: nat, o1: nat, q2: nat, o2: nat)
    requires Slot(q1, o1) == Slot(q2, o2)
    ensures q1 == q2 && o1 == o2
  {
    if o1 > 0 && o2 > 0 {
      SlotInjective(q1, o1 - 1, q2, o2 - 1);
    }
  }

  lemma SuperSplit(b: nat, o: nat)
    requires o <= MAX_ORDER
    ensures Shr(b, o + 1) == Shl(b / SUPER, MAX_ORDER - o) + Shr(b % SUPER, o + 1)
    ensures Shr(b % SUPER, o + 1) < Pow2(MAX_ORDER - o)
  {
    SuperIsPow2();
    ShlIsMul(b / SUPER, MAX_ORDER + 1);
    ShrSplit(b / SUPER, b % SUPER, MAX_ORDER + 1, o + 1);
    ShrBound(b % SUPER, o + 1, MAX_ORDER + 1);
  }

  /** Two arguments share a bitmap index exactly when they name the same pair at the same order. */
  lemma IndexIdentifiesPair(b1: nat, o1: nat, b2: nat, o2: nat)
    requires o1 <= MAX_ORDER && o2 <= MAX_ORDER
    ensures IndexOf(b1, o1) == IndexOf(b2, o2) <==> o1 == o2 && TruncBits(b1, o1 + 1) == TruncBits(b2, o2 + 1)
  {
    IndexForm(b1, o1);
    IndexForm(b2, o2);
    SuperSplit(b1, o1);
    SuperSplit(b2, o2);
    var q1, q2 := Shr(b1 % SUPER, o1 + 1), Shr(b2 % SUPER, o2 + 1);
    if IndexOf(b1, o1) == IndexOf(b2, o2) {
      UniqueQuotient(b1 / SUPER, b2 / SUPER, MAX_BLOCK_BITS, Slot(q1, o1) - 1, Slot(q2, o2) - 1);
      SlotInjective(q1, o1, q2, o2);
    }
    if o1 == o2 && TruncBits(b1, o1 + 1) == TruncBits(b2, o2 + 1) {
      ShrShl(Shr(b1, o1 + 1), o1 + 1);
      ShrShl(Shr(b2, o1 + 1), o1 + 1);
      SplitUnique(b1 / SUPER, q1, b2 / SUPER, q2, MAX_ORDER - o1);
    }
  }

  lemma TruncHalf(x: nat, o: nat)
    ensures TruncBits(Shl(x, o + 1), o + 1) == Shl(x, o + 1)
    ensures TruncBits(Shl(x, o + 1) + Pow2(o), o + 1) == Shl(x, o + 1)
  {
    ShrShl(x, o + 1);
    ShlAdd(x, x, o);
    ShlAdd(2 * x, 1, o);
    ShlOne(o);
    ShrShl(2 * x + 1, o);
    ShrStep(Shl(x, o + 1) + Pow2(o), o);
  }

  lemma TruncAligned(b: nat, o: nat)
    requires Aligned(b, o)
    ensures TruncBits(b, o + 1) == ParentOf(b, o)
  {
    BuddyFacts(b, o);
    AlignedShl(ParentOf(b, o), o + 1);
    TruncHalf(Shr(ParentOf(b, o), o + 1), o);
  }

  /** For blocks: the index is that of the pair, and only the two halves have it. */
  lemma IndexOfBlock(b1: nat, o1: nat, b2: nat, o2: nat)
    requires o1 <= MAX_ORDER && o2 <= MAX_ORDER && Aligned(b1, o1) && Aligned(b2, o2)
    ensures IndexOf(b1, o1) == IndexOf(b2, o2) <==> o1 == o2 && (b1 == b2 || b1 == BuddyOf(b2, o2))
  {
    IndexIdentifiesPair(b1, o1, b2, o2);
    TruncAligned(b1, o1);
    TruncAligned(b2, o2);
    BuddyFacts(b1, o1);
    BuddyFacts(b2, o2);
  }

  /** Every page that is managed has its bits inside the bitmap. */
  lemma IndexInBitmap(b: nat, o: nat, numPages: nat)
    requires o <= MAX_ORDER && b < numPages
    ensures IndexOf(b, o) < BitmapBits(numPages)
  {
    IndexForm(b, o);
    SupersCover(b, numPages);
    MulMonotone(b / SUPER + 1, RoundUpShift(numPages, MAX_ORDER + 1), MAX_BLOCK_BITS);
  }

  /** The bitmap is as long as the super-blocks need that hold a page, and no longer. */
  lemma BitmapIsLeast(i: nat, numPages: nat)
    ensures i < BitmapBits(numPages) <==> i / MAX_BLOCK_BITS * SUPER < numPages
  {
    ShrBySuper(numPages);
    SuperIsPow2();
    ModBySuper(numPages, Pow2(MAX_ORDER + 1));
    hide Shr, Pow2;
    var r := RoundUpShift(numPages, MAX_ORDER + 1);
    assert r == if numPages % SUPER != 0 then numPages / SUPER + 1 else numPages / SUPER;
  }

  lemma SupersCover(b: nat, numPages: nat)
    requires b < numPages
    ensures b / SUPER + 1 <= RoundUpShift(numPages, MAX_ORDER + 1)
  {
    ShrBySuper(numPages);
    SuperIsPow2();
    ModBySuper(numPages, Pow2(MAX_ORDER + 1));
  }

  lemma ShrBySuper(x: nat)
    ensures Shr(x, MAX_ORDER + 1) == x / SUPER
  {
    SuperIsPow2();
    ShlIsMul(x / SUPER, MAX_ORDER + 1);
    ShrSplit(x / SUPER, x % SUPER, MAX_ORDER + 1, MAX_ORDER + 1);
    ShrBound(x % SUPER, MAX_ORDER + 1, MAX_ORDER + 1);
  }

  lemma ModBySuper(x: nat, d: nat)
    requires d == SUPER
    ensures x % d == x % SUPER
  {
  }

  /** The bits are filled without a gap: each index inside whole super-blocks belongs to a pair in them. */
  lemma EveryIndexIsAPair(i: nat, supers: nat) returns (b: nat, o: nat)
    requires i < supers * MAX_BLOCK_BITS
    ensures o <= MAX_ORDER && Aligned(b, o + 1) && b + Pow2(o + 1) <= supers * SUPER
    ensures IndexOf(b, o) == i
  {
    hide IndexOf, Slot;
    SuperIsPow2();
    var q;
    q, o := SlotOf(i % MAX_BLOCK_BITS + 1, MAX_ORDER + 1);
    b := PairAt(i / MAX_BLOCK_BITS, q, o);
  }

  lemma PairAt(k: nat, q: nat, o: nat) returns (b: nat)
    requires o <= MAX_ORDER && Slot(q, o) < Pow2(MAX_ORDER + 1)
    ensures Aligned(b, o + 1) && b + Pow2(o + 1) <= (k + 1) * SUPER
    ensures IndexOf(b, o) == k * MAX_BLOCK_BITS + Slot(q, o) - 1
  {
    b := k * SUPER + Shl(q, o + 1);
    SuperIsPow2();
    SlotFits(q, o);
    IndexInSuper(k, q, o);
    ShlIsMul(k, MAX_ORDER + 1);
    SumAligned(Shl(k, MAX_ORDER + 1), q, k, o);
  }

  lemma IndexInSuper(k: nat, q: nat, o: nat)
    requires o <= MAX_ORDER && Shl(q, o + 1) < SUPER
    ensures IndexOf(k * SUPER + Shl(q, o + 1), o) == k * MAX_BLOCK_BITS + Slot(q, o) - 1
  {
    ShrShl(q, o + 1);
    IndexForm(k * SUPER + Shl(q, o + 1), o);
  }

  lemma SumAligned(c: nat, q: nat, k: nat, o: nat)
    requires o <= MAX_ORDER && c == Shl(k, MAX_ORDER + 1)
    ensures Aligned(c + Shl(q, o + 1), o + 1)
  {
    ShlAligned(q, o + 1);
    ShlAligned(k, MAX_ORDER + 1);
    AlignedDown(c, o + 1, MAX_ORDER + 1);
    ModSum(c, Shl(q, o + 1), Pow2(o + 1));
  }

  lemma {:induction false} SlotFits(q: nat, o: nat)
    requires o <= MAX_ORDER && Slot(q, o) < Pow2(MAX_ORDER + 1)
    ensures Shl(q, o + 1) + Pow2(o + 1) <= Pow2(MAX_ORDER + 1)
  {
    ShlAdd(q, q, o);
    ShlAdd(2 * q, 1, o);
    ShlOne(o + 1);
    ShlAligned(q, o + 1);
    AlignedDown(Pow2(MAX_ORDER + 1), o + 1, MAX_ORDER + 1);
    MultipleGap(Shl(q, o + 1), Pow2(MAX_ORDER + 1), Pow2(o + 1));
  }

  lemma {:induction false} SlotOf(x: nat, n: nat) returns (q: nat, o: nat)
    requires 1 <= x < Pow2(n)
    ensures o < n && Slot(q, o) == x
  {
    if x % 2 == 1 {
      q, o := x / 2, 0;
    } else {
      var low;
      q, low := SlotOf(x / 2, n - 1);
      o := low + 1;
    }
  }
}
