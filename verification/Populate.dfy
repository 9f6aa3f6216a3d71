/** Filling the free lists from the usable regions, window by window. */
module Populate {
  import opened Blocks
  import opened PairIndex
  import opened Regions
  import opened BuddyState
  import opened BuddySpec
  import opened BuddyAccounts
  import opened PhysSpec

  /** No block listed, every bit zero. */
  function Empty(): Buddy {
    Buddy(seq(MAX_ORDER + 1, o => []), {}, 0, 0)
  }

  /** Lists one block and counts its bytes as free. */
  function Fill(s: Buddy, blk: Blk): Buddy
    requires blk.order < |s.lists|
  {
    Push(s, blk.order, blk.base).(freeBytes := s.freeBytes + Bytes(blk.order))
  }

  /** Lists the blocks of `n` pages from `base` on, by the one bits of `n` below `k`, largest first. */
  function FillExpansion(s: Buddy, base: nat, n: nat, k: nat): (t: Buddy)
    requires k <= |s.lists|
    ensures |t.lists| == |s.lists|
    decreases k
  {
    if k == 0 then s
    else if BitAt(n, k - 1) then FillExpansion(Fill(s, Blk(base, k - 1)), base + Pow2(k - 1), n, k - 1)
    else FillExpansion(s, base, n, k - 1)
  }

  /** The lists after the first `j` windows. */
  function FillWindows(rs: seq<Region>, base: nat, j: nat): (t: Buddy)
    ensures |t.lists| == MAX_ORDER + 1
  {
    if j == 0 then Empty()
    else FillExpansion(FillWindows(rs, base, j - 1), (j - 1) * WINDOW, Prefix(rs, base, (j - 1) * WINDOW, WINDOW),
      MAX_ORDER + 1)
  }

  // ----- what filling establishes

  ghost function Below(m: set<nat>, upto: nat): set<nat> {
    set p | p in m && p < upto
  }

  /** No listed block has a managed parent; each is the left half of its pair. */
  ghost predicate LeftAndMaximal(m: set<nat>, s: Buddy) {
    forall o: nat, b: nat :: Listed(s, o, b) && o < MAX_ORDER ==> Aligned(b, o + 1) && !(BlockPages(b, o + 1) <= m)
  }

  /** Exactly the managed pages below `upto` are listed. */
  ghost predicate Filling(m: set<nat>, s: Buddy, upto: nat) {
    && WellPlaced(m, s) && Apart(s) && LeftAndMaximal(m, s) && s.bits == {}
    && FreePages(m, s) == Below(m, upto) && Accounted(s) && s.allocatedBytes == 0
  }

  lemma FillingEmpty(m: set<nat>)
    ensures Filling(m, Empty(), 0)
  {
    assert forall o: nat, b: nat :: !Listed(Empty(), o, b);
    AllEmpty(m, Empty());
  }

  lemma FillOne(m: set<nat>, s: Buddy, b: nat, o: nat)
    requires Filling(m, s, b) && o <= MAX_ORDER && Aligned(b, o) && BlockPages(b, o) <= m
    requires o < MAX_ORDER ==> Aligned(b, o + 1) && !(BlockPages(b, o + 1) <= m)
    ensures Filling(m, Fill(s, Blk(b, o)), b + Pow2(o))
  {
    var t := Fill(s, Blk(b, o));
    hide FreePages, BlockPages, Pages, Accounted, Aligned, Total;
    FillPlaced(m, s, t, b, o);
    FillPages(m, s, t, b, o);
    FillAccounted(s, t, b, o);
  }

  lemma FillPlaced(m: set<nat>, s: Buddy, t: Buddy, b: nat, o: nat)
    requires WellPlaced(m, s) && Apart(s) && LeftAndMaximal(m, s) && FreePages(m, s) == Below(m, b)
    requires o <= MAX_ORDER && Aligned(b, o) && BlockPages(b, o) <= m && t.lists == Push(s, o, b).lists
    requires o < MAX_ORDER ==> Aligned(b, o + 1) && !(BlockPages(b, o + 1) <= m)
    ensures WellPlaced(m, t) && Apart(t) && LeftAndMaximal(m, t)
  {
    hide Aligned, FreePages, BlockPages, Pages, Below, Apart, InHand;
    NothingAbove(m, s, b, o);
    InHandIff(m, s, b, o);
    InHandParts(m, s, b, o);
    PushListed(s, t, o, b);
    InsertApart(s, t, o, b);
  }

  lemma InHandParts(m: set<nat>, s: Buddy, b: nat, o: nat)
    requires WellPlaced(m, s) && InHand(m, s, b, o)
    ensures Aligned(b, o) && BlockIn(m, b, o) && Clear(s, b, o)
  {
    InHandIff(m, s, b, o);
  }

  lemma NothingAbove(m: set<nat>, s: Buddy, b: nat, o: nat)
    requires FreePages(m, s) == Below(m, b) && o <= MAX_ORDER && Aligned(b, o) && BlockPages(b, o) <= m
    ensures InHand(m, s, b, o)
  {
    hide FreePages, Aligned;
    assert forall p :: p in BlockPages(b, o) ==> InRange(p, b, b + Pow2(o));
  }

  lemma FillPages(m: set<nat>, s: Buddy, t: Buddy, b: nat, o: nat)
    requires FreePages(m, s) == Below(m, b) && BlockPages(b, o) <= m && o < |s.lists| && t.lists == Push(s, o, b).lists
    ensures FreePages(m, t) == Below(m, b + Pow2(o))
  {
    hide FreePages;
    BlockInIff(m, b, o);
    InsertFree(m, s, t, o, b);
    assert forall p :: p in BlockPages(b, o) <==> InRange(p, b, b + Pow2(o));
    assert Below(m, b + Pow2(o)) == Below(m, b) + BlockPages(b, o);
  }

  lemma FillAccounted(s: Buddy, t: Buddy, b: nat, o: nat)
    requires Accounted(s) && o < |s.lists| && t == Fill(s, Blk(b, o))
    ensures Accounted(t)
  {
    PushTotal(s, t, o, b);
    Distributes(Total(s), Pow2(o), PAGE_SIZE);
  }

  /** The blocks of a count stop short of the next boundary. */
  lemma {:induction false} LowPagesBound(n: nat, k: nat)
    ensures LowPages(n, k) < Pow2(k)
  {
    if k > 0 {
      LowPagesBound(n, k - 1);
    }
  }

  /** Filling a run of managed pages that ends at a page that is not managed. */
  lemma {:induction false} FillRun(m: set<nat>, s: Buddy, b: nat, n: nat, k: nat)
    requires Filling(m, s, b) && k <= MAX_ORDER + 1 && |s.lists| == MAX_ORDER + 1 && Aligned(b, k)
    requires Pages(b, b + LowPages(n, k)) <= m
    requires k <= MAX_ORDER ==> b + LowPages(n, k) !in m
    requires k == MAX_ORDER + 1 ==> b + LowPages(n, k) !in m || n == Pow2(MAX_ORDER)
    ensures Filling(m, FillExpansion(s, b, n, k), b + LowPages(n, k))
    decreases k
  {
    hide Filling, Aligned, BitAt, Fill, FillExpansion, Pages;
    if k == 0 {
      FillNone(s, b, n);
    } else {
      var o, size := k - 1, Pow2(k - 1);
      AlignedDown(b, o, k);
      if BitAt(n, o) {
        FillBit(s, b, n, o);
        CountBit(n, o);
        PagesJoin(b, b + size, b + LowPages(n, k));
        BlockIsPages(b, o);
        if o < MAX_ORDER {
          ParentReaches(m, b, o, b + LowPages(n, k), n);
        }
        FillOne(m, s, b, o);
        ModSum(b, size, size);
        NextHalf(b, o);
        if o == MAX_ORDER && n == Pow2(MAX_ORDER) {
          TopOnly(n);
          FillZero(Fill(s, Blk(b, o)), b + size, n, o);
        } else {
          FillRun(m, Fill(s, Blk(b, o)), b + size, n, o);
        }
      } else {
        FillNoBit(s, b, n, o);
        CountNoBit(n, o);
        if o == MAX_ORDER && n == Pow2(MAX_ORDER) {
          TopBit(n, MAX_ORDER);
          assert false;
        }
        FillRun(m, s, b, n, o);
      }
    }
  }

  lemma NextHalf(b: nat, o: nat)
    requires Aligned(b, o)
    ensures Aligned(b + Pow2(o), o)
  {
    ModOfMultiple(1, Pow2(o), 0);
    ModSum(b, Pow2(o), Pow2(o));
  }

  lemma FillNone(s: Buddy, b: nat, n: nat)
    ensures FillExpansion(s, b, n, 0) == s && LowPages(n, 0) == 0
  {
  }

  lemma FillBit(s: Buddy, b: nat, n: nat, o: nat)
    requires BitAt(n, o) && o < |s.lists|
    ensures |Fill(s, Blk(b, o)).lists| == |s.lists|
    ensures FillExpansion(s, b, n, o + 1) == FillExpansion(Fill(s, Blk(b, o)), b + Pow2(o), n, o)
  {
    FillLength(s, b, o);
    FillStep(s, b, n, o);
  }

  lemma FillLength(s: Buddy, b: nat, o: nat)
    requires o < |s.lists|
    ensures |Fill(s, Blk(b, o)).lists| == |s.lists|
  {
  }

  lemma FillStep(s: Buddy, b: nat, n: nat, o: nat)
    requires BitAt(n, o) && o < |s.lists| && |Fill(s, Blk(b, o)).lists| == |s.lists|
    ensures FillExpansion(s, b, n, o + 1) == FillExpansion(Fill(s, Blk(b, o)), b + Pow2(o), n, o)
  {
    hide Fill, BitAt;
  }

  lemma FillNoBit(s: Buddy, b: nat, n: nat, o: nat)
    requires !BitAt(n, o) && o < |s.lists|
    ensures FillExpansion(s, b, n, o + 1) == FillExpansion(s, b, n, o)
  {
  }

  lemma CountBit(n: nat, o: nat)
    requires BitAt(n, o)
    ensures LowPages(n, o + 1) == Pow2(o) + LowPages(n, o)
  {
  }

  lemma CountNoBit(n: nat, o: nat)
    requires !BitAt(n, o)
    ensures LowPages(n, o + 1) == LowPages(n, o)
  {
  }

  /** Nothing is left to fill when the count below `k` is zero. */
  lemma {:induction false} FillZero(s: Buddy, b: nat, n: nat, k: nat)
    requires LowPages(n, k) == 0 && k <= |s.lists|
    ensures FillExpansion(s, b, n, k) == s
  {
    if k > 0 {
      FillZero(s, b, n, k - 1);
    }
  }

  lemma TopOnly(n: nat)
    requires n == Pow2(MAX_ORDER)
    ensures LowPages(n, MAX_ORDER) == 0
  {
    LowPagesAll(n, MAX_ORDER + 1);
    TopBit(n, MAX_ORDER);
  }

  /** The parent of a filled block contains the page at which the run ends. */
  lemma ParentReaches(m: set<nat>, b: nat, o: nat, end: nat, n: nat)
    requires end == b + LowPages(n, o + 1) && end !in m
    ensures !(BlockPages(b, o + 1) <= m)
  {
    LowPagesBound(n, o + 1);
    assert InRange(end, b, b + Pow2(o + 1));
    assert end in BlockPages(b, o + 1);
  }

  /** Managed pages run from the start of each window; between a prefix and the next window there are none. */
  lemma FillGap(m: set<nat>, s: Buddy, from: nat, to: nat)
    requires Filling(m, s, from) && from <= to && forall p :: p in m && from <= p ==> to <= p
    ensures Filling(m, s, to)
  {
    hide WellPlaced, Apart, LeftAndMaximal, FreePages, Accounted;
    assert Below(m, from) == Below(m, to);
  }

  lemma {:induction false} FillWindowsFilling(rs: seq<Region>, base: nat, windows: nat, j: nat)
    requires j <= windows
    ensures Filling(Managed(rs, base, windows), FillWindows(rs, base, j), j * WINDOW)
  {
    hide Filling, Managed, FillExpansion, Prefix, Pages;
    var m := Managed(rs, base, windows);
    if j == 0 {
      FillingEmpty(m);
    } else {
      FillWindowsFilling(rs, base, windows, j - 1);
      FillWindow(rs, base, windows, j - 1, FillWindows(rs, base, j - 1), Prefix(rs, base, (j - 1) * WINDOW, WINDOW));
    }
  }

  lemma FillWindow(rs: seq<Region>, base: nat, windows: nat, j: nat, s: Buddy, n: nat)
    requires j < windows && Filling(Managed(rs, base, windows), s, j * WINDOW) && |s.lists| == MAX_ORDER + 1
    requires n == Prefix(rs, base, j * WINDOW, WINDOW)
    ensures Filling(Managed(rs, base, windows), FillExpansion(s, j * WINDOW, n, MAX_ORDER + 1), (j + 1) * WINDOW)
  {
    hide Filling, FillExpansion, Prefix, Pages, Managed, Fill;
    var m, w := Managed(rs, base, windows), j * WINDOW;
    WindowIsPow2();
    WindowAligned(j);
    if n == WINDOW {
      StretchManaged(rs, base, windows, j, 0, WINDOW);
      TopOnly(n);
      TopBit(n, MAX_ORDER);
      FillBit(s, w, n, MAX_ORDER);
      BlockIsPages(w, MAX_ORDER);
      FillOne(m, s, w, MAX_ORDER);
      FillZero(Fill(s, Blk(w, MAX_ORDER)), w + WINDOW, n, MAX_ORDER);
    } else {
      TopBit(n, MAX_ORDER);
      FillNoBit(s, w, n, MAX_ORDER);
      LowPagesAll(n, MAX_ORDER);
      if n > 0 {
        StretchManaged(rs, base, windows, j, 0, n);
      } else {
        NoPages(w);
      }
      ManagedIff(rs, base, windows, j, n);
      FillRun(m, s, w, n, MAX_ORDER);
      AfterPrefix(rs, base, windows, j, n);
      FillGap(m, FillExpansion(s, w, n, MAX_ORDER), w + n, w + WINDOW);
    }
  }

  lemma AfterPrefix(rs: seq<Region>, base: nat, windows: nat, j: nat, n: nat)
    requires j < windows && n == Prefix(rs, base, j * WINDOW, WINDOW)
    ensures forall p :: p in Managed(rs, base, windows) && j * WINDOW + n <= p ==> j * WINDOW + WINDOW <= p
  {
    forall p | p in Managed(rs, base, windows) && j * WINDOW + n <= p < j * WINDOW + WINDOW
      ensures false
    {
      ManagedIff(rs, base, windows, j, p - j * WINDOW);
    }
  }

  lemma FilledBits(m: set<nat>, s: Buddy)
    requires WellPlaced(m, s) && LeftAndMaximal(m, s)
    ensures forall o: nat, b: nat :: PairUsable(m, b, o) ==> !Listed(s, o, b) && !Listed(s, o, BuddyOf(b, o))
  {
    forall o: nat, b: nat | PairUsable(m, b, o)
      ensures !Listed(s, o, b) && !Listed(s, o, BuddyOf(b, o))
    {
      PairNotListed(m, s, b, o);
      PairBuddy(m, b, o);
      PairNotListed(m, s, BuddyOf(b, o), o);
    }
  }

  lemma PairBuddy(m: set<nat>, b: nat, o: nat)
    requires PairUsable(m, b, o)
    ensures PairUsable(m, BuddyOf(b, o), o)
  {
    BuddyFacts(b, o);
  }

  /** A listed block is a left half whose parent is not all managed, so its pair is not usable. */
  lemma PairNotListed(m: set<nat>, s: Buddy, b: nat, o: nat)
    requires LeftAndMaximal(m, s) && PairUsable(m, b, o)
    ensures !Listed(s, o, b)
  {
    hide Pages;
    if Listed(s, o, b) {
      Halves(b, o);
      BlockInIff(m, b, o);
      BlockInIff(m, BuddyOf(b, o), o);
      HalfPages(b, o);
    }
  }

  lemma FilledCoalesced(m: set<nat>, s: Buddy)
    requires WellPlaced(m, s) && LeftAndMaximal(m, s)
    ensures Coalesced(s)
  {
    forall o: nat, b: nat | Listed(s, o, b) && o < MAX_ORDER
      ensures !Listed(s, o, BuddyOf(b, o))
    {
      Halves(b, o);
    }
  }

  /** With all managed pages listed and an all-zero bitmap, the allocator is in its invariant state. */
  lemma FilledInv(m: set<nat>, s: Buddy, upto: nat)
    requires Filling(m, s, upto) && forall p :: p in m ==> p < upto
    ensures Inv(m, s) && FreePages(m, s) == m && Accounted(s)
  {
    hide FreePages, Pages, Aligned, Accounted, IndexOf;
    FilledBits(m, s);
    FilledCoalesced(m, s);
    assert Below(m, upto) == m;
  }

  /** After initialisation every window lists its longest usable prefix, as the binary expansion of the prefix length,
      and the all-zero bitmap agrees with it. */
  lemma PopulatedInv(rs: seq<Region>, base: nat, windows: nat)
    ensures var m, s := Managed(rs, base, windows), FillWindows(rs, base, windows);
      Inv(m, s) && FreePages(m, s) == m && Accounted(s) && s.allocatedBytes == 0
  {
    hide Managed, FillWindows, Inv, FreePages, Accounted;
    FillWindowsFilling(rs, base, windows, windows);
    ManagedBelow(rs, base, windows);
    FilledInv(Managed(rs, base, windows), FillWindows(rs, base, windows), windows * WINDOW);
  }

  lemma ManagedBelow(rs: seq<Region>, base: nat, windows: nat)
    ensures forall p :: p in Managed(rs, base, windows) ==> p < windows * WINDOW
  {
  }

  // ----- the loop's test

  /** The next block of a window is usable exactly when the corresponding bit of the prefix length is one. */
  lemma UsableIsBit(rs: seq<Region>, base: nat, j: nat, n: nat, i: nat, o: nat)
    requires Separated(rs) && n == Prefix(rs, base, j * WINDOW, WINDOW) && o <= MAX_ORDER
    requires i + LowPages(n, o + 1) == n && i < WINDOW && i % Pow2(o + 1) == 0
    ensures Usable(rs, base + (j * WINDOW + i) * PAGE_SIZE, Pow2(o) * PAGE_SIZE) <==> BitAt(n, o)
  {
    hide Prefix, Usable, UsablePage, BitAt, LowPages;
    InWindow(i, o);
    var w := j * WINDOW;
    UsableIffPages(rs, base, w + i, Pow2(o));
    PrefixUsable(rs, base, w, WINDOW, i);
    PrefixUsable(rs, base, w, WINDOW, i + Pow2(o));
    LowPagesBound(n, o);
    if BitAt(n, o) {
      CountBit(n, o);
    } else {
      CountNoBit(n, o);
    }
    if forall p: nat :: w + i <= p < w + i + Pow2(o) ==> UsablePage(rs, base, p) {
      forall p: nat | w <= p < w + (i + Pow2(o))
        ensures UsablePage(rs, base, p)
      {
      }
    }
  }

  lemma InWindow(i: nat, o: nat)
    requires o <= MAX_ORDER && i < WINDOW && i % Pow2(o + 1) == 0
    ensures i + Pow2(o) <= WINDOW
  {
    WindowIsPow2();
    if o == MAX_ORDER {
      if i > 0 {
        MultipleGapZero(i, Pow2(o + 1));
      }
    } else {
      ModOfMultiple(1, Pow2(MAX_ORDER), 0);
      AlignedDown(Pow2(MAX_ORDER), o + 1, MAX_ORDER);
      MultipleGap(i, WINDOW, Pow2(o + 1));
    }
  }

  lemma MultipleGapZero(i: nat, d: nat)
    requires d > 0 && i > 0 && i % d == 0
    ensures i >= d
  {
    ModOfMultiple(0, d, 0);
    MultipleGap(0, i, d);
  }
}
