/** Where the text of phys_alloc departs from what it is meant to do, and exactly when it does not. */
module PhysAsWritten {
  import opened Options
  import opened Blocks
  import opened PairIndex
  import opened BuddyState
  import opened BuddyCanonical
  import opened BuddySpec
  import opened BuddyAccounts
  import opened PhysSpec
  import opened PhysAllocation
  import opened Populate
  import opened BuddyAsWritten

  const WORD: nat := 0x1_0000_0000_0000_0000

  /** The page offset that buddy_shrink_block gets back from an address made of page offset `offset` in 64 bits. */
  function OffsetBack(offset: nat): nat {
    offset * PAGE_SIZE % WORD / PAGE_SIZE
  }

  /** phys_alloc as written: whatever buddy_alloc_block returns is shrunk as a block, the sign for none like any other.
      Bits past the end of the bitmap, which bitmap.c does not write, are bits of no pair here. */
  function PhysAllocAsWritten(s: Buddy, n: nat): Outcome<(Option<nat>, Buddy)>
    requires n >= 1 && |s.lists| == MAX_ORDER + 1
  {
    if n > Pow2(MAX_ORDER) then
      Done((None, s))
    else
      OrderFits(n, MAX_ORDER);
      BitOrderIsLeast(n);
      var o := BitOrder(n);
      match AllocAsWritten(s, o)
      case Broken => Broken
      case Done((offset, t)) =>
        Done((Some(OffsetBack(offset)), ShrinkAsWritten(t, TruncBits(OffsetBack(offset), o), o, n)))
  }

  /** Every managed page has an address of 64 bits. */
  ghost predicate Addressable(m: set<nat>) {
    forall p :: p in m ==> p * PAGE_SIZE < WORD
  }

  lemma BackAgain(offset: nat)
    requires offset * PAGE_SIZE < WORD
    ensures OffsetBack(offset) == offset
  {
  }

  lemma Cases(s: Buddy, n: nat)
    requires n >= 1 && |s.lists| == MAX_ORDER + 1
    ensures n > Pow2(MAX_ORDER) ==> PhysAllocAsWritten(s, n) == Done((None, s))
    ensures n <= Pow2(MAX_ORDER) ==> BitOrder(n) <= MAX_ORDER && n <= Pow2(BitOrder(n))
    ensures n <= Pow2(MAX_ORDER) ==> var o, w := BitOrder(n), AllocAsWritten(s, BitOrder(n));
      && (w.Broken? ==> PhysAllocAsWritten(s, n) == Broken)
      && (w.Done? ==>
            var (offset, t) := w.result;
            PhysAllocAsWritten(s, n) ==
            Done((Some(OffsetBack(offset)), ShrinkAsWritten(t, TruncBits(OffsetBack(offset), o), o, n))))
      && (PhysAllocAsWritten(s, n).Done? ==> PhysAllocAsWritten(s, n).result.0.Some?)
  {
    hide IndexOf, AllocAsWritten, ShrinkAsWritten, BitOrder, OffsetBack, TruncBits;
    BitOrderIsLeast(n);
    if n <= Pow2(MAX_ORDER) {
      OrderFits(n, MAX_ORDER);
    }
  }

  /** The block is the right one and the lists and bits are as they should be, whatever the counters say. */
  predicate SameButCounters(w: Outcome<(Option<nat>, Buddy)>, p: (Option<nat>, Buddy)) {
    w.Done? && w.result.0 == p.0 && w.result.1.lists == p.1.lists && w.result.1.bits == p.1.bits
  }

  /** Shrinking as written differs from shrinking in the counters only, and in them unless the count is a power of two.
      */
  lemma ShrinkDiffers(s: Buddy, b: nat, o: nat, n: nat)
    requires 1 <= n <= Pow2(o) && o <= MAX_ORDER && |s.lists| == MAX_ORDER + 1
    ensures var w, t := ShrinkAsWritten(s, b, o, n), ShrinkBlock(s, b, o, n);
      w.lists == t.lists && w.bits == t.bits && (w == t <==> exists k: nat :: n == Pow2(k))
  {
    hide ShrinkLists, PagesLeft, IndexOf;
    PagesLeftIff(o, n);
  }

  /** A block that is handed out comes back from its address unchanged. */
  lemma HandedBack(m: set<nat>, t: Buddy, b: nat, o: nat)
    requires Addressable(m) && InHand(m, t, b, o)
    ensures OffsetBack(b) == b && TruncBits(b, o) == b
  {
    hide TruncBits, FreePages, Aligned;
    AlignedTrunc(m, t, b, o);
    assert InRange(b, b, b + Pow2(o)) && b in BlockPages(b, o);
    BackAgain(b);
  }

  /** The text of phys_alloc returns the right block and lists exactly the right pages if and only if the count is out
      of range or an aligned run is free; its counters are right too if and only if the count is a power of two besides.
      */
  lemma PhysAllocAsWrittenIff(m: set<nat>, s: Buddy, n: nat)
    requires Inv(m, s) && Accounted(s) && n >= 1 && |s.lists| == MAX_ORDER + 1 && Addressable(m)
    ensures var o, w, p := BitOrder(n), PhysAllocAsWritten(s, n), PhysSpec.PhysAlloc(s, n);
      var run := exists b: nat :: Aligned(b, o) && BlockPages(b, o) <= FreePages(m, s);
      && (SameButCounters(w, p) <==> n > Pow2(MAX_ORDER) || run)
      && (w == Done(p) <==> n > Pow2(MAX_ORDER) || (run && exists k: nat :: n == Pow2(k)))
  {
    hide *;
    Cases(s, n);
    SpecCases(s, n);
    var o := BitOrder(n);
    if n > Pow2(MAX_ORDER) {
      SameMeans(PhysAllocAsWritten(s, n), PhysSpec.PhysAlloc(s, n));
    } else {
      AllocFailsIffNoRun(m, s, o);
      if BuddySpec.AllocBlock(s, o).0.None? {
        SameMeans(PhysAllocAsWritten(s, n), PhysSpec.PhysAlloc(s, n));
      } else {
        Found(m, s, o, n);
      }
    }
  }

  lemma SameMeans(w: Outcome<(Option<nat>, Buddy)>, p: (Option<nat>, Buddy))
    ensures w == Done(p) ==> SameButCounters(w, p)
    ensures SameButCounters(w, p) ==> w.Done? && w.result.0 == p.0
  {
  }

  lemma SpecCases(s: Buddy, n: nat)
    requires n >= 1 && |s.lists| == MAX_ORDER + 1
    ensures n > Pow2(MAX_ORDER) ==> PhysSpec.PhysAlloc(s, n) == (None, s)
    ensures n <= Pow2(MAX_ORDER) ==> BitOrder(n) <= MAX_ORDER && n <= Pow2(BitOrder(n))
    ensures n <= Pow2(MAX_ORDER) ==> var (r, u) := BuddySpec.AllocBlock(s, BitOrder(n));
      && (r.None? ==> PhysSpec.PhysAlloc(s, n) == (None, s))
      && (r.Some? ==>
            PhysSpec.PhysAlloc(s, n) == (r, ShrinkBlock(u, r.value, BitOrder(n), n)))
  {
    hide IndexOf, BuddySpec.AllocBlock, ShrinkBlock, BitOrder;
    BitOrderIsLeast(n);
    if n <= Pow2(MAX_ORDER) {
      OrderFits(n, MAX_ORDER);
    }
  }

  lemma Found(m: set<nat>, s: Buddy, o: nat, n: nat)
    requires Inv(m, s) && 1 <= n <= Pow2(MAX_ORDER) && |s.lists| == MAX_ORDER + 1 && Addressable(m)
    requires o == BitOrder(n) <= MAX_ORDER && n <= Pow2(o) && BuddySpec.AllocBlock(s, o).0.Some?
    ensures SameButCounters(PhysAllocAsWritten(s, n), PhysSpec.PhysAlloc(s, n))
    ensures PhysAllocAsWritten(s, n) == Done(PhysSpec.PhysAlloc(s, n)) <==> exists k: nat :: n == Pow2(k)
  {
    hide *;
    Cases(s, n);
    SpecCases(s, n);
    BlockFound(s, o);
    Agreed(s, o);
    var r, t := AllocBlockKeeps(m, s, o);
    HandsOutHand(m, s, o, r.value, t);
    HandedBack(m, t, r.value, o);
    ShrinkDiffers(t, r.value, o, n);
    SameWhen(PhysAllocAsWritten(s, n), PhysSpec.PhysAlloc(s, n), r, ShrinkAsWritten(t, r.value, o, n));
  }

  lemma SameWhen(w: Outcome<(Option<nat>, Buddy)>, p: (Option<nat>, Buddy), r: Option<nat>, u: Buddy)
    requires w == Done((r, u)) && p.0 == r && u.lists == p.1.lists && u.bits == p.1.bits
    ensures SameButCounters(w, p) && (w == Done(p) <==> u == p.1)
  {
  }

  lemma Agreed(s: Buddy, o: nat)
    requires |s.lists| == MAX_ORDER + 1 && o <= MAX_ORDER && AllocAgrees(s, o) && BuddySpec.AllocBlock(s, o).0.Some?
    ensures var (r, t) := BuddySpec.AllocBlock(s, o); AllocAsWritten(s, o) == Done((r.value, t))
  {
    hide AllocAsWritten, BuddySpec.AllocBlock;
  }

  // ----- a failing input

  /** The page that the offset for none becomes: the last one of the 64-bit address space. */
  const LAST_PAGE: nat := 0xF_FFFF_FFFF_FFFF

  lemma LostOffset()
    ensures OffsetBack(PAGE_OFFSET_OOB) == LAST_PAGE && TruncBits(LAST_PAGE, 2) == LAST_PAGE - 3
  {
    assert Shr(LAST_PAGE, 1) == LAST_PAGE / 2 && Shr(LAST_PAGE, 2) == LAST_PAGE / 4;
  }

  lemma OrderOf3()
    ensures BitOrder(3) == 2 && Pow2(2) == 4 && Pow2(1) == 2 && Pow2(0) == 1 && Pow2(MAX_ORDER) == 128
  {
  }

  lemma ShrinkTo3(s: Buddy, b: nat) returns (t: Buddy)
    requires |s.lists| == MAX_ORDER + 1
    ensures 3 <= Pow2(2) && t == ShrinkAsWritten(s, b, 2, 3) && Listed(t, 0, b + 3)
  {
    hide IndexOf, ShrinkLists, PagesLeft;
    OrderOf3();
    t := ShrinkAsWritten(s, b, 2, 3);
    ShrinkBothHalves(s, b, 2, 2, 3);
    var u := PutBit(s, 1, b, false);
    ShrinkLeftHalf(u, b + 2, 1, 1, 1);
    var v := PutBit(Push(u, 0, b + 3), 0, b + 2, true);
    ShrinkNothing(v, b + 2, 0);
    assert t.lists == v.lists && b + 3 in v.lists[0];
  }

  /** Asking for three pages when all are in use lists a page that is no memory, and returns an address for it. */
  lemma NoneLeftIsCarvedUp()
    ensures Inv(Pages(0, 128), Empty())
    ensures var w := PhysAllocAsWritten(Empty(), 3);
      && w.Done? && w.result.0 == Some(LAST_PAGE) && Listed(w.result.1, 0, LAST_PAGE)
      && !Inv(Pages(0, 128), w.result.1)
  {
    hide *;
    OrderOf3();
    AllocWhenFull(2);
    InvShape(Pages(0, 128), Empty());
    Cases(Empty(), 3);
    LostOffset();
    var t := ShrinkTo3(Account(Empty(), -Bytes(2)), LAST_PAGE - 3);
    OutsideMemory(t);
  }

  lemma OutsideMemory(t: Buddy)
    requires Listed(t, 0, LAST_PAGE)
    ensures !Inv(Pages(0, 128), t)
  {
    hide IndexOf, PairBits, Coalesced, Apart;
    assert InBlock(LAST_PAGE, LAST_PAGE, 0);
    assert LAST_PAGE !in Pages(0, 128);
  }
}
