/** Where the source text departs from the allocator's own invariant, and exactly when it does not. */
module BuddyAsWritten {
  import opened Blocks
  import opened PairIndex
  import opened BuddyState
  import opened BuddyCanonical
  import opened BuddySpec
  import opened BuddyAccounts
  import opened PhysSpec
  import opened Populate

  /** `Broken`: a list past the last one is read or written, or a node that was not found is dereferenced. */
  datatype Outcome<T> = Done(result: T) | Broken

  const BELOW_TOP: nat := MAX_ORDER - 1

  // ----- buddy_free_block

  /** The loop of buddy_free_block as written; `index` is the bitmap index left over from the last order looked at. */
  ghost function ClimbAsWritten(m: set<nat>, s: Buddy, b: nat, o: nat, index: nat): Buddy
    requires o <= MAX_ORDER && |s.lists| == MAX_ORDER + 1
    decreases MAX_ORDER - o
  {
    if o < MAX_ORDER && CanCoalesce(m, s, b, o) then
      ClimbAsWritten(m, Merge(s, b, o), ParentOf(b, o), o + 1, IndexOf(b, o))
    else
      ToggleIndex(Push(s, o, b), if o < MAX_ORDER then IndexOf(b, o) else index)
  }

  function ToggleIndex(s: Buddy, i: nat): Buddy {
    s.(bits := if i in s.bits then s.bits - {i} else s.bits + {i})
  }

  /** buddy_free_block as written, without the counters. It asks whether the memory to the right of the block is usable;
      `right` is the answer. */
  ghost function FreeAsWritten(m: set<nat>, s: Buddy, b: nat, o: nat, right: bool): Outcome<Buddy>
    requires o <= MAX_ORDER && |s.lists| == MAX_ORDER + 1
  {
    if IndexOf(b, o) in s.bits && right then
      if !Listed(s, o, BuddyOf(b, o)) || o == MAX_ORDER then Broken
      else Done(ClimbAsWritten(m, Merge(s, b, o), ParentOf(b, o), o + 1, IndexOf(b, o)))
    else
      Done(PutBit(Push(s, o, b), o, b, true))
  }

  ghost predicate StaysRight(m: set<nat>, r: Outcome<Buddy>) {
    r.Done? && Inv(m, r.result)
  }

  /** Every page of the top-order block around `b` is free, apart from `b` itself. */
  ghost predicate RestOfWindowFree(m: set<nat>, s: Buddy, b: nat, o: nat) {
    exists w: nat :: Aligned(w, MAX_ORDER) && BlockPages(b, o) <= BlockPages(w, MAX_ORDER)
                  && BlockPages(w, MAX_ORDER) <= FreePages(m, s) + BlockPages(b, o)
  }

  /** What a caller can check before the call. */
  ghost predicate WrittenFreeWorks(m: set<nat>, s: Buddy, b: nat, o: nat, right: bool) {
    if IndexOf(b, o) !in s.bits then true
    else if o == MAX_ORDER then !right
    else
      && (right <==> BlockIn(m, BuddyOf(b, o), o))
      && (BlockIn(m, BuddyOf(b, o), o) ==> !RestOfWindowFree(m, s, b, o))
  }

  // ----- how far coalescing goes

  /** The block at which coalescing stops. */
  ghost function Landing(m: set<nat>, s: Buddy, b: nat, o: nat): (blk: Blk)
    requires o <= MAX_ORDER && |s.lists| == MAX_ORDER + 1
    decreases MAX_ORDER - o
  {
    if CanCoalesce(m, s, b, o) then Landing(m, Merge(s, b, o), ParentOf(b, o), o + 1) else Blk(b, o)
  }

  lemma LandingMore(m: set<nat>, s: Buddy, b: nat, o: nat)
    requires o <= MAX_ORDER && |s.lists| == MAX_ORDER + 1 && CanCoalesce(m, s, b, o)
    ensures Landing(m, s, b, o) == Landing(m, Merge(s, b, o), ParentOf(b, o), o + 1)
  {
    hide IndexOf, CanCoalesce, Merge;
    CoalesceBound(m, s, b, o);
    MergeLength(s, b, o);
  }

  lemma MergeLength(s: Buddy, b: nat, o: nat)
    requires o < |s.lists|
    ensures |Merge(s, b, o).lists| == |s.lists|
  {
  }

  /** The landing block is listed afterwards, and contains the block that was freed. */
  lemma {:induction false} LandingListed(m: set<nat>, s: Buddy, b: nat, o: nat) returns (t: Buddy, blk: Blk)
    requires Inv(m, s) && InHand(m, s, b, o) && o <= MAX_ORDER && |s.lists| == MAX_ORDER + 1
    ensures t == Climb(m, s, b, o) && blk == Landing(m, s, b, o)
    ensures Inv(m, t) && FreePages(m, t) == FreePages(m, s) + BlockPages(b, o)
    ensures Listed(t, blk.order, blk.base) && o <= blk.order <= MAX_ORDER &&
            BlockPages(b, o) <= BlockPages(blk.base, blk.order)
    decreases MAX_ORDER - o
  {
    hide *;
    t := ClimbKeeps(m, s, b, o);
    if CanCoalesce(m, s, b, o) {
      CoalesceBound(m, s, b, o);
      ClimbMore(m, s, b, o);
      LandingMore(m, s, b, o);
      var u := MergeKeeps(m, s, b, o);
      InvShape(m, u);
      var t';
      t', blk := LandingListed(m, u, ParentOf(b, o), o + 1);
      HandAligned(m, s, b, o);
      ParentPages(b, o);
    } else {
      ClimbLast(m, s, b, o);
      blk := LandingHere(m, s, b, o);
      PushedListed(s, o, b);
    }
  }

  lemma LandingHere(m: set<nat>, s: Buddy, b: nat, o: nat) returns (blk: Blk)
    requires o <= MAX_ORDER && |s.lists| == MAX_ORDER + 1 && !CanCoalesce(m, s, b, o)
    ensures blk == Landing(m, s, b, o) == Blk(b, o)
  {
    blk := Blk(b, o);
  }

  lemma HandAligned(m: set<nat>, s: Buddy, b: nat, o: nat)
    requires InHand(m, s, b, o)
    ensures Aligned(b, o) && BlockPages(b, o) <= m
  {
  }

  lemma PushedListed(s: Buddy, o: nat, b: nat)
    requires o < |s.lists|
    ensures Listed(Toggle(Push(s, o, b), o, b), o, b)
  {
    hide IndexOf;
    PushListed(s, Toggle(Push(s, o, b), o, b), o, b);
  }

  /** Coalescing reaches the top order exactly when the rest of the window is free. */
  lemma LandsOnTop(m: set<nat>, s: Buddy, b: nat, o: nat)
    requires Inv(m, s) && InHand(m, s, b, o) && o <= MAX_ORDER && |s.lists| == MAX_ORDER + 1
    ensures Landing(m, s, b, o).order == MAX_ORDER <==> RestOfWindowFree(m, s, b, o)
  {
    hide Landing, Climb, Inv, FreePages, BlockPages, Listed, Aligned, InHand;
    var t, blk := LandingListed(m, s, b, o);
    ListedIffMaximal(m, t, blk.order, blk.base);
    MaximalParts(FreePages(m, t), blk.order, blk.base);
    if blk.order == MAX_ORDER {
      assert RestOfWindowFree(m, s, b, o);
    }
    if RestOfWindowFree(m, s, b, o) {
      var w: nat :| Aligned(w, MAX_ORDER) && BlockPages(b, o) <= BlockPages(w, MAX_ORDER)
                 && BlockPages(w, MAX_ORDER) <= FreePages(m, s) + BlockPages(b, o);
      WindowListed(m, t, w);
      SharedPage(m, t, blk.order, blk.base, MAX_ORDER, w, b, o);
    }
  }

  lemma MaximalParts(f: set<nat>, o: nat, b: nat)
    requires Maximal(f, o, b)
    ensures o <= MAX_ORDER && Aligned(b, o) && BlockPages(b, o) <= f
  {
    BlockInIff(f, b, o);
  }

  lemma WindowListed(m: set<nat>, t: Buddy, w: nat)
    requires Inv(m, t) && Aligned(w, MAX_ORDER) && BlockPages(w, MAX_ORDER) <= FreePages(m, t)
    ensures Listed(t, MAX_ORDER, w)
  {
    hide Inv, Listed, FreePages, Aligned;
    BlockInIff(FreePages(m, t), w, MAX_ORDER);
    ListedIffMaximal(m, t, MAX_ORDER, w);
  }

  /** Listed blocks that share a page are the same block. */
  lemma SharedPage(m: set<nat>, t: Buddy, q: nat, c: nat, r: nat, d: nat, b: nat, o: nat)
    requires Inv(m, t) && Listed(t, q, c) && Listed(t, r, d)
    requires BlockPages(b, o) <= BlockPages(c, q) && BlockPages(b, o) <= BlockPages(d, r)
    ensures q == r && c == d
  {
    hide IndexOf, PairBits, Coalesced, WellPlaced;
    assert InRange(b, b, b + Pow2(o));
    assert b in BlockPages(b, o);
    assert b in BlockPages(c, q) && b in BlockPages(d, r);
    assert Overlap(c, q, d, r);
  }

  // ----- the theorem

  /** Below the top order the loop as written lands where it should and flips the right bit. */
  lemma {:induction false} ClimbSame(m: set<nat>, s: Buddy, b: nat, o: nat, index: nat)
    requires Inv(m, s) && InHand(m, s, b, o) && o <= MAX_ORDER && |s.lists| == MAX_ORDER + 1
    requires Landing(m, s, b, o).order < MAX_ORDER
    ensures ClimbAsWritten(m, s, b, o, index) == Climb(m, s, b, o)
    decreases MAX_ORDER - o
  {
    hide *;
    if CanCoalesce(m, s, b, o) {
      CoalesceBound(m, s, b, o);
      ClimbMore(m, s, b, o);
      LandingMore(m, s, b, o);
      WrittenMore(m, s, b, o, index);
      var u := MergeKeeps(m, s, b, o);
      InvShape(m, u);
      ClimbSame(m, u, ParentOf(b, o), o + 1, IndexOf(b, o));
    } else {
      ClimbLast(m, s, b, o);
      var blk := LandingHere(m, s, b, o);
      WrittenLast(m, s, b, o, index);
      ToggleIs(s, b, o);
    }
  }

  lemma WrittenMore(m: set<nat>, s: Buddy, b: nat, o: nat, index: nat)
    requires o < MAX_ORDER && |s.lists| == MAX_ORDER + 1 && CanCoalesce(m, s, b, o)
    ensures |Merge(s, b, o).lists| == |s.lists|
    ensures ClimbAsWritten(m, s, b, o, index) == ClimbAsWritten(m, Merge(s, b, o), ParentOf(b, o), o + 1, IndexOf(b, o))
  {
    hide IndexOf, CanCoalesce;
  }

  lemma WrittenLast(m: set<nat>, s: Buddy, b: nat, o: nat, index: nat)
    requires o <= MAX_ORDER && |s.lists| == MAX_ORDER + 1 && !CanCoalesce(m, s, b, o)
    ensures ClimbAsWritten(m, s, b, o, index) ==
            ToggleIndex(Push(s, o, b), if o < MAX_ORDER then IndexOf(b, o) else index)
  {
    hide IndexOf, CanCoalesce;
  }

  lemma ToggleIs(s: Buddy, b: nat, o: nat)
    requires o < |s.lists|
    ensures ToggleIndex(Push(s, o, b), IndexOf(b, o)) == Toggle(Push(s, o, b), o, b)
  {
    hide IndexOf;
  }

  /** A merge that reaches the top order ends by flipping the stale bit of the pair merged last. */
  lemma {:induction false} ClimbStale(m: set<nat>, s: Buddy, b: nat, o: nat, index: nat)
    requires Inv(m, s) && InHand(m, s, b, o) && o <= MAX_ORDER && |s.lists| == MAX_ORDER + 1
    requires Landing(m, s, b, o).order == MAX_ORDER
    requires o == MAX_ORDER ==> PairLost(m, s, b, index)
    ensures !Inv(m, ClimbAsWritten(m, s, b, o, index))
    decreases MAX_ORDER - o
  {
    hide *;
    if CanCoalesce(m, s, b, o) {
      CoalesceBound(m, s, b, o);
      LandingMore(m, s, b, o);
      WrittenMore(m, s, b, o, index);
      var u := MergeKeeps(m, s, b, o);
      InvShape(m, u);
      MergedPairLost(m, s, b, o);
      ClimbStale(m, u, ParentOf(b, o), o + 1, IndexOf(b, o));
    } else {
      var blk := LandingHere(m, s, b, o);
      WrittenLast(m, s, b, o, index);
      StaleBit(m, s, b, index);
    }
  }

  /** `index` is the bit, now zero, of the pair of top-order-minus-one blocks that `b` was merged from. */
  ghost predicate PairLost(m: set<nat>, s: Buddy, b: nat, index: nat) {
    exists c: nat :: index == IndexOf(c, BELOW_TOP) && PairUsable(m, c, BELOW_TOP) && ParentOf(c, BELOW_TOP) == b
                  && index !in s.bits
  }

  lemma MergedPairLost(m: set<nat>, s: Buddy, b: nat, o: nat)
    requires Inv(m, s) && InHand(m, s, b, o) && CanCoalesce(m, s, b, o) && o < MAX_ORDER && |s.lists| == MAX_ORDER + 1
    ensures o + 1 == MAX_ORDER ==> PairLost(m, Merge(s, b, o), ParentOf(b, o), IndexOf(b, o))
  {
    hide IndexOf, Inv, FreePages, Pages;
    BlockInIff(m, b, o);
    assert PairUsable(m, b, o);
    assert IndexOf(b, o) !in Merge(s, b, o).bits;
  }

  lemma StaleBit(m: set<nat>, s: Buddy, b: nat, index: nat)
    requires Inv(m, s) && InHand(m, s, b, MAX_ORDER) && |s.lists| == MAX_ORDER + 1 && PairLost(m, s, b, index)
    ensures !Inv(m, ToggleIndex(Push(s, MAX_ORDER, b), index))
  {
    hide IndexOf, FreePages, Pages;
    var t := ToggleIndex(Push(s, MAX_ORDER, b), index);
    var c: nat :| index == IndexOf(c, BELOW_TOP) && PairUsable(m, c, BELOW_TOP) && ParentOf(c, BELOW_TOP) == b
               && index !in s.bits;
    PushListed(s, t, MAX_ORDER, b);
    assert index in t.bits;
    BuddyFacts(c, BELOW_TOP);
    assert Listed(t, MAX_ORDER, b);
    assert Overlap(c, BELOW_TOP, b, MAX_ORDER) && Overlap(BuddyOf(c, BELOW_TOP), BELOW_TOP, b, MAX_ORDER);
  }

  /** A block listed beside its waiting buddy breaks the invariant. */
  lemma BothListed(m: set<nat>, s: Buddy, t: Buddy, b: nat, o: nat)
    requires o < MAX_ORDER && o < |s.lists| && Listed(s, o, BuddyOf(b, o)) && t.lists == Push(s, o, b).lists
    ensures !Inv(m, t)
  {
    PushListed(s, t, o, b);
  }

  lemma WaitingBuddy(m: set<nat>, s: Buddy, b: nat, o: nat)
    requires Inv(m, s) && InHand(m, s, b, o) && o < MAX_ORDER && IndexOf(b, o) in s.bits
    ensures BlockIn(m, BuddyOf(b, o), o) <==> Listed(s, o, BuddyOf(b, o))
    ensures CanCoalesce(m, s, b, o) <==> BlockIn(m, BuddyOf(b, o), o)
  {
    hide IndexOf, Aligned, FreePages, Pages;
    BuddyIsWaiting(m, s, b, o);
  }

  /** The source's buddy_free_block keeps the allocator's invariant exactly under this condition. */
  lemma FreeAsWrittenIff(m: set<nat>, s: Buddy, b: nat, o: nat, right: bool)
    requires Inv(m, s) && InHand(m, s, b, o) && o <= MAX_ORDER && |s.lists| == MAX_ORDER + 1
    ensures StaysRight(m, FreeAsWritten(m, s, b, o, right)) <==> WrittenFreeWorks(m, s, b, o, right)
  {
    hide IndexOf, Inv, InHand, BlockIn, RestOfWindowFree, Listed, CanCoalesce, Merge, Push, PutBit, ClimbAsWritten,
         Climb;
    CoalesceNeeds(m, s, b, o);
    if IndexOf(b, o) !in s.bits || (o == MAX_ORDER && !right) {
      PlainPush(m, s, b, o);
    } else if o < MAX_ORDER {
      WaitingBuddy(m, s, b, o);
      if right {
        if BlockIn(m, BuddyOf(b, o), o) {
          MergedIff(m, s, b, o);
        }
      } else if BlockIn(m, BuddyOf(b, o), o) {
        PushBeside(m, s, b, o);
      } else {
        PlainPush(m, s, b, o);
      }
    }
  }

  lemma CoalesceNeeds(m: set<nat>, s: Buddy, b: nat, o: nat)
    ensures CanCoalesce(m, s, b, o) ==> IndexOf(b, o) in s.bits
  {
    hide IndexOf;
  }

  lemma PlainPush(m: set<nat>, s: Buddy, b: nat, o: nat)
    requires Inv(m, s) && InHand(m, s, b, o) && o <= MAX_ORDER && |s.lists| == MAX_ORDER + 1 &&
             (o < MAX_ORDER ==> !CanCoalesce(m, s, b, o))
    ensures Inv(m, PutBit(Push(s, o, b), o, b, true))
  {
    hide IndexOf, Inv, InHand, FreePages;
    if CanCoalesce(m, s, b, o) {
      CoalesceBound(m, s, b, o);
    }
    var t := LandKeeps(m, s, b, o, PutBit(Push(s, o, b), o, b, true));
  }

  lemma PushBeside(m: set<nat>, s: Buddy, b: nat, o: nat)
    requires o < MAX_ORDER && o < |s.lists| && Listed(s, o, BuddyOf(b, o))
    ensures !Inv(m, PutBit(Push(s, o, b), o, b, true))
  {
    hide IndexOf, Inv;
    BothListed(m, s, PutBit(Push(s, o, b), o, b, true), b, o);
  }

  lemma MergedIff(m: set<nat>, s: Buddy, b: nat, o: nat)
    requires Inv(m, s) && InHand(m, s, b, o) && o < MAX_ORDER && |s.lists| == MAX_ORDER + 1 && CanCoalesce(m, s, b, o)
    ensures |Merge(s, b, o).lists| == MAX_ORDER + 1
    ensures Inv(m, ClimbAsWritten(m, Merge(s, b, o), ParentOf(b, o), o + 1, IndexOf(b, o))) <==>
            !RestOfWindowFree(m, s, b, o)
  {
    hide *;
    var u := MergeKeeps(m, s, b, o);
    InvShape(m, u);
    LandsOnTop(m, s, b, o);
    LandingMore(m, s, b, o);
    var t, blk := LandingListed(m, u, ParentOf(b, o), o + 1);
    if blk.order < MAX_ORDER {
      ClimbSame(m, u, ParentOf(b, o), o + 1, IndexOf(b, o));
    } else {
      MergedPairLost(m, s, b, o);
      ClimbStale(m, u, ParentOf(b, o), o + 1, IndexOf(b, o));
    }
  }

  // ----- a failing input

  /** The one window of 128 pages, all free. */
  function OneWindow(): Buddy {
    Buddy([[], [], [], [], [], [], [], [0]], {}, 128 * PAGE_SIZE, 0)
  }

  lemma OneWindowInv()
    ensures Inv(Pages(0, 128), OneWindow()) && FreePages(Pages(0, 128), OneWindow()) == Pages(0, 128)
    ensures Accounted(OneWindow()) && OneWindow().allocatedBytes == 0
  {
    hide IndexOf;
    var m, s := Pages(0, 128), OneWindow();
    assert Pow2(MAX_ORDER) == 128;
    assert forall o: nat, b: nat :: Listed(s, o, b) <==> o == MAX_ORDER && b == 0;
    assert forall p: nat :: p in m <==> InRange(p, 0, 128);
    assert forall p: nat :: InBlock(p, 0, MAX_ORDER) <==> InRange(p, 0, 128);
    forall p | p in m
      ensures Free(s, p)
    {
      assert Listed(s, MAX_ORDER, 0) && InBlock(p, 0, MAX_ORDER);
    }
  }

  /** Allocating one page of an untouched window and freeing it again, as written, breaks the invariant, whatever lies
      to the right of the page. */
  lemma AllocThenFreeAsWritten(right: bool)
    ensures var m, s := Pages(0, 128), OneWindow();
      var (r, t) := BuddySpec.AllocBlock(s, 0);
      Inv(m, s) && Accounted(s) && r.Some? && Inv(m, t) && !StaysRight(m, FreeAsWritten(m, t, r.value, 0, right))
  {
    hide *;
    var m, s := Pages(0, 128), OneWindow();
    OneWindowInv();
    InvShape(m, s);
    AllocOne(m, s);
    var r, t := AllocBlockKeeps(m, s, 0);
    InvShape(m, t);
    HandsOutHand(m, s, 0, r.value, t);
    LastPiece(m, s, t, r.value, right);
    FreeAsWrittenIff(m, t, r.value, 0, right);
  }

  lemma AllocOne(m: set<nat>, s: Buddy)
    requires s == OneWindow()
    ensures |s.lists| == MAX_ORDER + 1 && BuddySpec.AllocBlock(s, 0).0.Some?
  {
    hide IndexOf, SplitDown, PopHead;
    assert s.lists[MAX_ORDER] == [0];
    var q := FindOrder(s, 1);
    assert forall r: nat | 1 <= r < q :: s.lists[r] == [];
  }

  lemma LastPiece(m: set<nat>, s: Buddy, t: Buddy, b: nat, right: bool)
    requires Inv(m, s) && Inv(m, t) && m == Pages(0, 128) == FreePages(m, s) &&
             FreePages(m, t) == FreePages(m, s) - BlockPages(b, 0)
    requires BlockPages(b, 0) <= FreePages(m, s) && InHand(m, t, b, 0)
    ensures !WrittenFreeWorks(m, t, b, 0, right)
  {
    hide IndexOf, Inv, InHand, FreePages;
    WindowPages();
    assert Aligned(0, MAX_ORDER);
    assert BlockPages(0, MAX_ORDER) <= FreePages(m, t) + BlockPages(b, 0);
    assert RestOfWindowFree(m, t, b, 0);
    BuddyListedThere(m, t, b);
  }

  lemma WindowPages()
    ensures BlockPages(0, MAX_ORDER) == Pages(0, 128)
  {
  }

  /** With the rest of the window free, the buddy of the missing page is on its list and its bit is one. */
  lemma BuddyListedThere(m: set<nat>, t: Buddy, b: nat)
    requires Inv(m, t) && m == Pages(0, 128) && FreePages(m, t) == m - BlockPages(b, 0) && BlockPages(b, 0) <= m &&
             InHand(m, t, b, 0)
    ensures IndexOf(b, 0) in t.bits && BlockIn(m, BuddyOf(b, 0), 0)
  {
    hide IndexOf, FreePages;
    assert InRange(b, b, b + 1) && b in BlockPages(b, 0);
    var c := BuddyOf(b, 0);
    BuddyFacts(b, 0);
    assert c < 128 && c != b;
    assert forall p: nat :: InBlock(p, c, 0) <==> p == c;
    assert forall p: nat :: InBlock(p, b, 0) <==> p == b;
    ListedIffMaximal(m, t, 0, c);
    assert InBlock(b, ParentOf(c, 0), 1);
    assert PairUsable(m, b, 0);
  }

  // ----- buddy_shrink_block

  /** What is left in `num_pages` when the loop of buddy_shrink_block ends. */
  function PagesLeft(o: nat, n: nat): nat
    requires 1 <= n <= Pow2(o)
    decreases o
  {
    if n == Pow2(o) then n
    else if n > Pow2(o - 1) then PagesLeft(o - 1, n - Pow2(o - 1))
    else PagesLeft(o - 1, n)
  }

  /** buddy_shrink_block as written: the counters move by the block less what is left in `num_pages`. */
  function ShrinkAsWritten(s: Buddy, b: nat, o: nat, n: nat): Buddy
    requires 1 <= n <= Pow2(o) && o <= MAX_ORDER && |s.lists| == MAX_ORDER + 1
  {
    Account(ShrinkLists(s, b, o, n), (Pow2(o) - PagesLeft(o, n)) * PAGE_SIZE)
  }

  /** The loop ends with the lowest one bit of the count. */
  lemma {:induction false} PagesLeftIff(o: nat, n: nat)
    requires 1 <= n <= Pow2(o)
    ensures PagesLeft(o, n) <= n
    ensures PagesLeft(o, n) == n <==> exists k: nat :: n == Pow2(k)
    decreases o
  {
    if n == Pow2(o) {
    } else if n > Pow2(o - 1) {
      PagesLeftIff(o - 1, n - Pow2(o - 1));
      forall k: nat
        ensures n != Pow2(k)
      {
        if k < o - 1 {
          Pow2Monotone(k, o - 1);
        } else if k > o {
          Pow2Monotone(o, k);
        }
      }
    } else {
      PagesLeftIff(o - 1, n);
    }
  }

  /** Where the loop ends at a single page the order below has wrapped around in eight bits, and the test of the loop
      shifts by 256: that is so exactly for odd page counts. */
  lemma {:induction false} ShiftsTooFarIff(o: nat, n: nat)
    requires 1 <= n <= Pow2(o)
    ensures PagesLeft(o, n) == 1 <==> n % 2 == 1
    decreases o
  {
    hide *;
    LeftCases(o, n);
    if n == Pow2(o) {
      OddPower(o);
    } else if n > Pow2(o - 1) {
      ShiftsTooFarIff(o - 1, n - Pow2(o - 1));
      OddPower(o - 1);
      SameParity(n, Pow2(o - 1));
    } else {
      ShiftsTooFarIff(o - 1, n);
    }
  }

  lemma LeftCases(o: nat, n: nat)
    requires 1 <= n <= Pow2(o)
    ensures n == Pow2(o) ==> PagesLeft(o, n) == n
    ensures n != Pow2(o) ==> o > 0
    ensures n != Pow2(o) && n > Pow2(o - 1) ==>
            o > 1 && n - Pow2(o - 1) <= Pow2(o - 1) && PagesLeft(o, n) == PagesLeft(o - 1, n - Pow2(o - 1))
    ensures n != Pow2(o) && n <= Pow2(o - 1) ==> PagesLeft(o, n) == PagesLeft(o - 1, n)
  {
  }

  lemma OddPower(o: nat)
    ensures o == 0 ==> Pow2(o) == 1
    ensures o > 0 ==> Pow2(o) % 2 == 0 && Pow2(o) > 1
  {
  }

  lemma SameParity(n: nat, h: nat)
    requires h <= n && h % 2 == 0
    ensures (n - h) % 2 == n % 2
  {
  }

  /** The counters stay right exactly when the page count kept is a power of two. */
  lemma ShrinkAsWrittenIff(s: Buddy, b: nat, o: nat, n: nat)
    requires 1 <= n <= Pow2(o) && o <= MAX_ORDER && |s.lists| == MAX_ORDER + 1 && Accounted(s)
    ensures Accounted(ShrinkAsWritten(s, b, o, n)) <==> exists k: nat :: n == Pow2(k)
  {
    hide IndexOf, ShrinkLists, Total, PagesLeft;
    PagesLeftIff(o, n);
    var u := ShrinkTotal(s, b, o, n);
    SameCount(u, ShrinkAsWritten(s, b, o, n));
    Distributes(Total(s), Pow2(o) - n, PAGE_SIZE);
  }

  /** Keeping three pages of a block of four is counted as keeping one. */
  lemma ShrinkToThreeMiscounts(s: Buddy, b: nat)
    requires |s.lists| == MAX_ORDER + 1 && Accounted(s)
    ensures !Accounted(ShrinkAsWritten(s, b, 2, 3))
  {
    ShrinkAsWrittenIff(s, b, 2, 3);
    forall k: nat
      ensures 3 != Pow2(k)
    {
      if k > 2 {
        Pow2Monotone(2, k);
      }
    }
  }

  // ----- buddy_alloc_block

  const PAGE_OFFSET_OOB: nat := 0xFFFF_FFFF_FFFF_FFFF

  /** buddy_alloc_block as written. With its own list empty, the top order goes on to the list after the last; and when
      no block is found the counters move all the same. */
  function AllocAsWritten(s: Buddy, o: nat): (w: Outcome<(nat, Buddy)>)
    requires |s.lists| == MAX_ORDER + 1 && o <= MAX_ORDER
    ensures w.Done? ==> |w.result.1.lists| == |s.lists|
  {
    if s.lists[o] != [] then
      Done((s.lists[o][0], Account(PopHead(s, o), -Bytes(o))))
    else if o == MAX_ORDER then
      Broken
    else
      var (r, t) := FindOrSplit(s, o);
      Done((if r.None? then PAGE_OFFSET_OOB else r.value, Account(t, -Bytes(o))))
  }

  /** The text does what was meant: the same block, or its sign for none, and the same state. */
  predicate AllocAgrees(s: Buddy, o: nat)
    requires |s.lists| == MAX_ORDER + 1 && o <= MAX_ORDER
  {
    var (r, t) := BuddySpec.AllocBlock(s, o);
    AllocAsWritten(s, o) == Done((if r.None? then PAGE_OFFSET_OOB else r.value, t))
  }

  /** The text agrees, and its counters stay right, exactly when some aligned run of that many pages is free; with none
      free, the top order reads past the last list. */
  lemma AllocAsWrittenIff(m: set<nat>, s: Buddy, o: nat)
    requires Inv(m, s) && Accounted(s) && o <= MAX_ORDER && |s.lists| == MAX_ORDER + 1
    ensures var run := exists b: nat :: Aligned(b, o) && BlockPages(b, o) <= FreePages(m, s);
      && (AllocAgrees(s, o) <==> run)
      && (AllocAsWritten(s, o).Done? && Accounted(AllocAsWritten(s, o).result.1) <==> run)
      && (AllocAsWritten(s, o).Broken? <==> o == MAX_ORDER && !run)
  {
    hide IndexOf, Inv, FreePages, BlockPages, Aligned, AllocAsWritten, AllocAgrees, Total, Conserves,
         BuddySpec.AllocBlock;
    AllocFailsIffNoRun(m, s, o);
    AllocBlockConserves(m, s, o);
    if BuddySpec.AllocBlock(s, o).0.None? {
      NothingFound(s, o);
    } else {
      ConservesAccounts(s, BuddySpec.AllocBlock(s, o).1);
      BlockFound(s, o);
    }
  }

  lemma BlockFound(s: Buddy, o: nat)
    requires o <= MAX_ORDER && |s.lists| == MAX_ORDER + 1 && BuddySpec.AllocBlock(s, o).0.Some?
    ensures AllocAgrees(s, o) && AllocAsWritten(s, o).Done? &&
            AllocAsWritten(s, o).result.1 == BuddySpec.AllocBlock(s, o).1
  {
    hide IndexOf, PopHead, SplitDown, Account;
  }

  lemma NothingFound(s: Buddy, o: nat)
    requires o <= MAX_ORDER && |s.lists| == MAX_ORDER + 1 && Accounted(s) && BuddySpec.AllocBlock(s, o).0.None?
    ensures !AllocAgrees(s, o)
    ensures o == MAX_ORDER ==> AllocAsWritten(s, o) == Broken
    ensures o < MAX_ORDER ==> AllocAsWritten(s, o) == Done((PAGE_OFFSET_OOB, Account(s, -Bytes(o))))
    ensures !Accounted(Account(s, -Bytes(o)))
  {
    hide IndexOf, PopHead, SplitDown, Total;
    SameCount(s, Account(s, -Bytes(o)));
  }

  lemma ConservesAccounts(s: Buddy, t: Buddy)
    requires Conserves(s, t) && Accounted(s)
    ensures Accounted(t)
  {
  }

  /** With every page of a window in use, asking for the top order reads past the last list, and asking for less takes
      memory off the counters that was never handed out. */
  lemma AllocWhenFull(o: nat)
    requires o <= MAX_ORDER
    ensures Inv(Pages(0, 128), Empty()) && Accounted(Empty()) && !AllocAgrees(Empty(), o)
    ensures AllocAsWritten(Empty(), o) == if o ==
            MAX_ORDER then Broken else Done((PAGE_OFFSET_OOB, Account(Empty(), -Bytes(o))))
  {
    hide IndexOf;
    assert forall q: nat, b: nat :: !Listed(Empty(), q, b);
    AllEmpty(Pages(0, 128), Empty());
    assert forall q: nat | q <= MAX_ORDER :: Empty().lists[q] == [];
    NothingFound(Empty(), o);
  }
}
