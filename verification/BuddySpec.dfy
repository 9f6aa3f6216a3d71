/** What the buddy allocator's operations do to its state, and what they keep. */
module BuddySpec {
  import opened Options
  import opened Blocks
  import opened PairIndex
  import opened BuddyState
  import opened BuddyCanonical

  // ----- operations

  /** The smallest order from `o` on with a waiting block, or `MAX_ORDER + 1`. */
  function FindOrder(s: Buddy, o: nat): (q: nat)
    requires |s.lists| == MAX_ORDER + 1 && o <= MAX_ORDER + 1
    ensures o <= q <= MAX_ORDER + 1
    ensures q <= MAX_ORDER ==> s.lists[q] != []
    ensures forall r: nat | o <= r < q :: s.lists[r] == []
    decreases MAX_ORDER + 1 - o
  {
    if o > MAX_ORDER || s.lists[o] != [] then o else FindOrder(s, o + 1)
  }

  /** Takes the head of a free list and flips its pair's bit. */
  function PopHead(s: Buddy, o: nat): Buddy
    requires o < |s.lists| && s.lists[o] != []
  {
    Toggle(Remove(s, o, s.lists[o][0]), o, s.lists[o][0])
  }

  /** Halves block `b` of order `q` down to `target`; the right half is listed, except the last time. */
  function SplitDown(s: Buddy, b: nat, q: nat, target: nat): (t: Buddy)
    requires target < q <= MAX_ORDER && |s.lists| == MAX_ORDER + 1
    ensures |t.lists| == |s.lists| && t.freeBytes == s.freeBytes && t.allocatedBytes == s.allocatedBytes
    decreases q
  {
    var o := q - 1;
    if o == target then
      Toggle(Push(s, o, b), o, b)
    else
      SplitDown(Toggle(Push(s, o, b + Pow2(o)), o, b), b, o, target)
  }

  /** __find_or_split_block, with the bound `target <= MAX_ORDER` on the first list it reads. */
  function FindOrSplit(s: Buddy, target: nat): (p: (Option<nat>, Buddy))
    requires |s.lists| == MAX_ORDER + 1 && target <= MAX_ORDER
    ensures |p.1.lists| == |s.lists|
  {
    var q := FindOrder(s, target + 1);
    if q > MAX_ORDER then
      (None, s)
    else
      var b := s.lists[q][0];
      (Some(b + Pow2(target)), SplitDown(PopHead(s, q), b, q, target))
  }

  function Bytes(o: nat): int {
    Pow2(o) * PAGE_SIZE
  }

  function Account(s: Buddy, freed: int): Buddy {
    s.(freeBytes := s.freeBytes + freed, allocatedBytes := s.allocatedBytes - freed)
  }

  /** buddy_alloc_block; running out of memory is a result of its own and is not accounted. */
  function AllocBlock(s: Buddy, o: nat): (p: (Option<nat>, Buddy))
    requires |s.lists| == MAX_ORDER + 1 && o <= MAX_ORDER
    ensures |p.1.lists| == |s.lists|
  {
    if s.lists[o] != [] then
      (Some(s.lists[o][0]), Account(PopHead(s, o), -Bytes(o)))
    else
      var (r, t) := FindOrSplit(s, o);
      if r.None? then (None, s) else (r, Account(t, -Bytes(o)))
  }

  /** The buddy is waiting, by its bit, and is memory at all. */
  ghost predicate CanCoalesce(m: set<nat>, s: Buddy, b: nat, o: nat) {
    o < MAX_ORDER && IndexOf(b, o) in s.bits && BlockIn(m, BuddyOf(b, o), o)
  }

  ghost function Merge(s: Buddy, b: nat, o: nat): Buddy
    requires o < |s.lists|
  {
    PutBit(Remove(s, o, BuddyOf(b, o)), o, b, false)
  }

  /** The coalescing loop: block `b` of order `o` is in hand and on no list. */
  ghost function Climb(m: set<nat>, s: Buddy, b: nat, o: nat): (t: Buddy)
    requires o <= MAX_ORDER && |s.lists| == MAX_ORDER + 1
    ensures |t.lists| == |s.lists| && t.freeBytes == s.freeBytes && t.allocatedBytes == s.allocatedBytes
    decreases MAX_ORDER - o
  {
    if CanCoalesce(m, s, b, o) then
      Climb(m, Merge(s, b, o), ParentOf(b, o), o + 1)
    else
      Toggle(Push(s, o, b), o, b)
  }

  /** buddy_free_block, asking about the true buddy and stopping at `MAX_ORDER`. */
  ghost function FreeBlock(m: set<nat>, s: Buddy, b: nat, o: nat): (t: Buddy)
    requires o <= MAX_ORDER && |s.lists| == MAX_ORDER + 1
    ensures |t.lists| == |s.lists|
  {
    Account(
      if CanCoalesce(m, s, b, o) then
        Climb(m, Merge(s, b, o), ParentOf(b, o), o + 1)
      else
        PutBit(Push(s, o, b), o, b, true),
      Bytes(o))
  }

  /** The loop of buddy_shrink_block: keep the first `n` pages of block `b`, list the rest. */
  function ShrinkLists(s: Buddy, b: nat, o: nat, n: nat): (t: Buddy)
    requires 1 <= n <= Pow2(o) && o <= MAX_ORDER && |s.lists| == MAX_ORDER + 1
    ensures |t.lists| == |s.lists| && t.freeBytes == s.freeBytes && t.allocatedBytes == s.allocatedBytes
    decreases o
  {
    if n == Pow2(o) then
      s
    else if n > Pow2(o - 1) then
      ShrinkLists(PutBit(s, o - 1, b, false), b + Pow2(o - 1), o - 1, n - Pow2(o - 1))
    else
      ShrinkLists(PutBit(Push(s, o - 1, b + Pow2(o - 1)), o - 1, b, true), b, o - 1, n)
  }

  /** Right halves that the loop of buddy_shrink_block lists: the nodes it takes. */
  function SplitNodes(o: nat, n: nat): (nodes: nat)
    requires 1 <= n <= Pow2(o)
    ensures nodes <= o
    decreases o
  {
    if n == Pow2(o) then 0
    else if n > Pow2(o - 1) then SplitNodes(o - 1, n - Pow2(o - 1))
    else 1 + SplitNodes(o - 1, n)
  }

  function ShrinkBlock(s: Buddy, b: nat, o: nat, n: nat): (t: Buddy)
    requires 1 <= n <= Pow2(o) && o <= MAX_ORDER && |s.lists| == MAX_ORDER + 1
    ensures |t.lists| == |s.lists|
  {
    Account(ShrinkLists(s, b, o, n), (Pow2(o) - n) * PAGE_SIZE)
  }

  // ----- one unfolding of each loop

  lemma SplitLast(s: Buddy, b: nat, o: nat)
    requires o < MAX_ORDER && |s.lists| == MAX_ORDER + 1
    ensures SplitDown(s, b, o + 1, o) == Toggle(Push(s, o, b), o, b)
  {
    hide IndexOf;
  }

  lemma SplitMore(s: Buddy, b: nat, o: nat, target: nat)
    requires target < o < MAX_ORDER && |s.lists| == MAX_ORDER + 1
    ensures SplitDown(s, b, o + 1, target) == SplitDown(Toggle(Push(s, o, b + Pow2(o)), o, b), b, o, target)
  {
    hide IndexOf;
  }

  lemma ShrinkBothHalves(s: Buddy, b: nat, o: nat, h: nat, n: nat)
    requires 0 < o <= MAX_ORDER && |s.lists| == MAX_ORDER + 1 && h == Pow2(o - 1) && h < n < 2 * h
    ensures ShrinkLists(s, b, o, n) == ShrinkLists(PutBit(s, o - 1, b, false), b + h, o - 1, n - h)
    ensures SplitNodes(o, n) == SplitNodes(o - 1, n - h)
  {
    hide PutBit, Push, SplitNodes;
    SplitBothHalves(o, h, n);
  }

  lemma SplitBothHalves(o: nat, h: nat, n: nat)
    requires 0 < o && h == Pow2(o - 1) && h < n < 2 * h
    ensures SplitNodes(o, n) == SplitNodes(o - 1, n - h)
  {
  }

  lemma ShrinkLeftHalf(s: Buddy, b: nat, o: nat, h: nat, n: nat)
    requires 0 < o <= MAX_ORDER && |s.lists| == MAX_ORDER + 1 && h == Pow2(o - 1) && 1 <= n <= h
    ensures ShrinkLists(s, b, o, n) == ShrinkLists(PutBit(Push(s, o - 1, b + h), o - 1, b, true), b, o - 1, n)
    ensures SplitNodes(o, n) == 1 + SplitNodes(o - 1, n)
  {
    hide PutBit, Push, SplitNodes;
    SplitLeftHalf(o, h, n);
  }

  lemma SplitLeftHalf(o: nat, h: nat, n: nat)
    requires 0 < o && h == Pow2(o - 1) && 1 <= n <= h
    ensures SplitNodes(o, n) == 1 + SplitNodes(o - 1, n)
  {
  }

  lemma ShrinkNothing(s: Buddy, b: nat, o: nat)
    requires o <= MAX_ORDER && |s.lists| == MAX_ORDER + 1
    ensures ShrinkLists(s, b, o, Pow2(o)) == s && SplitNodes(o, Pow2(o)) == 0
  {
    hide PutBit, Push;
  }

  lemma ClimbMore(m: set<nat>, s: Buddy, b: nat, o: nat)
    requires |s.lists| == MAX_ORDER + 1 && CanCoalesce(m, s, b, o)
    ensures Climb(m, s, b, o) == Climb(m, Merge(s, b, o), ParentOf(b, o), o + 1)
  {
    hide IndexOf;
  }

  lemma ClimbLast(m: set<nat>, s: Buddy, b: nat, o: nat)
    requires o <= MAX_ORDER && |s.lists| == MAX_ORDER + 1 && !CanCoalesce(m, s, b, o)
    ensures Climb(m, s, b, o) == Toggle(Push(s, o, b), o, b)
  {
    hide IndexOf;
  }

  // ----- what they keep

  lemma InvShape(m: set<nat>, s: Buddy)
    requires Inv(m, s)
    ensures |s.lists| == MAX_ORDER + 1
  {
  }

  lemma Doubles(o: nat)
    requires o > 0
    ensures Pow2(o) == 2 * Pow2(o - 1)
  {
  }

  lemma AccountKeeps(m: set<nat>, s: Buddy, freed: int)
    requires Inv(m, s)
    ensures Inv(m, Account(s, freed)) && FreePages(m, Account(s, freed)) == FreePages(m, s)
  {
    assert forall o: nat, b: nat :: Listed(Account(s, freed), o, b) <==> Listed(s, o, b);
    SameListsKeeps(m, s, Account(s, freed));
  }

  /** Block `b` was free in `s`; in `t` exactly its pages have left the lists. */
  ghost predicate HandsOut(m: set<nat>, s: Buddy, o: nat, b: nat, t: Buddy) {
    InHand(m, t, b, o) && BlockPages(b, o) <= FreePages(m, s) && FreePages(m, t) == FreePages(m, s) - BlockPages(b, o)
  }

  /** Removing the head of a list leaves its block in hand. */
  lemma PopHeadKeeps(m: set<nat>, s: Buddy, o: nat) returns (b: nat, t: Buddy)
    requires Inv(m, s) && o <= MAX_ORDER && s.lists[o] != []
    ensures b == s.lists[o][0] && t == PopHead(s, o)
    ensures Inv(m, t) && HandsOut(m, s, o, b, t)
  {
    b, t := s.lists[o][0], PopHead(s, o);
    assert Listed(s, o, b);
    assert PairUsable(m, b, o) ==> IndexOf(b, o) in s.bits;
    RemoveKeeps(m, s, t, o, b);
  }

  lemma HalfPages(b: nat, o: nat)
    ensures BlockPages(b, o + 1) == BlockPages(b, o) + BlockPages(b + Pow2(o), o)
    ensures BlockPages(b, o) !! BlockPages(b + Pow2(o), o)
  {
    var l, r, w := BlockPages(b, o), BlockPages(b + Pow2(o), o), BlockPages(b, o + 1);
    assert Pow2(o + 1) == 2 * Pow2(o);
    assert forall p: nat :: p in w <==> InRange(p, b, b + Pow2(o + 1));
    assert forall p: nat :: p in l <==> InRange(p, b, b + Pow2(o));
    assert forall p: nat :: p in r <==> InRange(p, b + Pow2(o), b + Pow2(o) + Pow2(o));
  }

  /** The two halves of a block in hand. */
  lemma SplitHand(m: set<nat>, s: Buddy, b: nat, o: nat)
    requires InHand(m, s, b, o + 1)
    ensures InHand(m, s, b, o) && InHand(m, s, b + Pow2(o), o)
    ensures BuddyOf(b, o) == b + Pow2(o) && BuddyOf(b + Pow2(o), o) == b
  {
    Halves(b, o);
    HalfPages(b, o);
  }

  /** The buddy of a block whose whole pair is in hand is not waiting. */
  lemma NotWaiting(m: set<nat>, s: Buddy, b: nat, o: nat)
    requires Inv(m, s) && InHand(m, s, b, o)
    ensures !Listed(s, o, b)
  {
    InHandIff(m, s, b, o);
    assert Overlap(b, o, b, o);
  }

  /** Both halves of a pair have the same index. */
  lemma PairSharesIndex(b: nat, o: nat)
    requires o <= MAX_ORDER && Aligned(b, o)
    ensures IndexOf(BuddyOf(b, o), o) == IndexOf(b, o)
  {
    BuddyFacts(b, o);
    IndexOfBlock(BuddyOf(b, o), o, b, o);
  }

  /** While neither half is listed, the bit of a usable pair is zero. */
  lemma ClearPairBit(m: set<nat>, s: Buddy, b: nat, o: nat)
    requires Inv(m, s) && PairUsable(m, b, o) && !Listed(s, o, b) && !Listed(s, o, BuddyOf(b, o))
    ensures IndexOf(b, o) !in s.bits
  {
  }

  /** Listing one half of a pair in hand, with the pair's bit set, leaves the other half in hand. */
  lemma ListHalf(m: set<nat>, s: Buddy, t: Buddy, o: nat, listed: nat, kept: nat)
    requires Inv(m, s) && InHand(m, s, listed, o) && InHand(m, s, kept, o) && o < MAX_ORDER
    requires kept == BuddyOf(listed, o) && BlockPages(listed, o) !! BlockPages(kept, o)
    requires t.lists == Push(s, o, listed).lists && OneBitApart(m, s, t, o, listed, true)
    ensures Inv(m, t) && InHand(m, t, kept, o) && FreePages(m, t) == FreePages(m, s) + BlockPages(listed, o)
  {
    NotWaiting(m, s, kept, o);
    InsertKeeps(m, s, t, o, listed);
  }

  /** Splitting a block in hand: one half is listed and its pair's bit, zero before, is flipped. */
  lemma ToggleHalf(m: set<nat>, s: Buddy, b: nat, o: nat, listed: nat, kept: nat) returns (t: Buddy)
    requires Inv(m, s) && InHand(m, s, b, o + 1) && o < MAX_ORDER && |s.lists| == MAX_ORDER + 1
    requires (listed == b && kept == b + Pow2(o)) || (listed == b + Pow2(o) && kept == b)
    ensures t == Toggle(Push(s, o, listed), o, b) && |t.lists| == |s.lists|
    ensures Inv(m, t) && InHand(m, t, kept, o) && FreePages(m, t) == FreePages(m, s) + BlockPages(listed, o)
  {
    hide IndexOf, Inv;
    t := Toggle(Push(s, o, listed), o, b);
    SplitHand(m, s, b, o);
    HalfPages(b, o);
    PairSharesIndex(b, o);
    NotWaiting(m, s, listed, o);
    NotWaiting(m, s, kept, o);
    FlipApart(m, s, t, listed, o);
    ListHalf(m, s, t, o, listed, kept);
  }

  lemma FlipApart(m: set<nat>, s: Buddy, t: Buddy, b: nat, o: nat)
    requires Inv(m, s) && t.bits == Toggle(s, o, b).bits
    requires PairUsable(m, b, o) ==> !Listed(s, o, b) && !Listed(s, o, BuddyOf(b, o))
    ensures OneBitApart(m, s, t, o, b, true)
  {
    if PairUsable(m, b, o) {
      ClearPairBit(m, s, b, o);
    }
  }

  /** Splitting leaves exactly one block of the target order in hand. */
  lemma {:induction false} SplitDownKeeps(m: set<nat>, s: Buddy, b: nat, q: nat, target: nat) returns (t: Buddy)
    requires Inv(m, s) && target < q <= MAX_ORDER && InHand(m, s, b, q) && |s.lists| == MAX_ORDER + 1
    ensures t == SplitDown(s, b, q, target)
    ensures Inv(m, t) && InHand(m, t, b + Pow2(target), target)
    ensures BlockPages(b + Pow2(target), target) <= BlockPages(b, q)
    ensures FreePages(m, t) == FreePages(m, s) + (BlockPages(b, q) - BlockPages(b + Pow2(target), target))
    decreases q
  {
    hide *;
    var o := q - 1;
    HalfPages(b, o);
    if o == target {
      SplitLast(s, b, o);
      t := ToggleHalf(m, s, b, o, b, b + Pow2(o));
      SetHalf(BlockPages(b, q), BlockPages(b, o), BlockPages(b + Pow2(o), o));
    } else {
      SplitMore(s, b, o, target);
      var u := ToggleHalf(m, s, b, o, b + Pow2(o), b);
      t := SplitDownKeeps(m, u, b, o, target);
      SetJoin(BlockPages(b, q), BlockPages(b, o), BlockPages(b + Pow2(o), o), BlockPages(b + Pow2(target), target),
        FreePages(m, s));
    }
  }

  lemma SetHalf(w: set<nat>, l: set<nat>, r: set<nat>)
    requires w == l + r && l !! r
    ensures w - r == l && r <= w
  {
  }

  lemma SetJoin(w: set<nat>, l: set<nat>, r: set<nat>, x: set<nat>, f: set<nat>)
    requires w == l + r && l !! r && x <= l
    ensures (f + r) + (l - x) == f + (w - x) && x <= w
  {
  }

  /** Allocation hands out an aligned block of free pages and takes exactly those pages off the lists. */
  lemma AllocBlockKeeps(m: set<nat>, s: Buddy, o: nat) returns (r: Option<nat>, t: Buddy)
    requires Inv(m, s) && o <= MAX_ORDER
    ensures (r, t) == AllocBlock(s, o)
    ensures Inv(m, t)
    ensures if r.None? then t == s else HandsOut(m, s, o, r.value, t)
  {
    hide *;
    InvShape(m, s);
    AllocCases(s, o);
    if s.lists[o] != [] {
      var b, u := PopHeadKeeps(m, s, o);
      r, t := Some(b), Account(u, -Bytes(o));
      AccountHandsOut(m, s, o, b, u);
    } else if FindOrder(s, o + 1) <= MAX_ORDER {
      var q := FindOrder(s, o + 1);
      var u := PopAndSplit(m, s, q, o);
      r, t := Some(s.lists[q][0] + Pow2(o)), Account(u, -Bytes(o));
      AccountHandsOut(m, s, o, r.value, u);
    } else {
      r, t := None, s;
    }
  }

  lemma AllocCases(s: Buddy, o: nat)
    requires |s.lists| == MAX_ORDER + 1 && o <= MAX_ORDER
    ensures AllocBlock(s, o) ==
            if s.lists[o] != [] then (Some(s.lists[o][0]), Account(PopHead(s, o), -Bytes(o)))
            else var q := FindOrder(s, o + 1);
              if q > MAX_ORDER then (None, s)
              else (Some(s.lists[q][0] + Pow2(o)), Account(SplitDown(PopHead(s, q), s.lists[q][0], q, o), -Bytes(o)))
  {
    hide IndexOf, PopHead, SplitDown, Account;
  }

  lemma AccountHandsOut(m: set<nat>, s: Buddy, o: nat, b: nat, u: Buddy)
    requires Inv(m, u) && HandsOut(m, s, o, b, u)
    ensures Inv(m, Account(u, -Bytes(o))) && HandsOut(m, s, o, b, Account(u, -Bytes(o)))
  {
    AccountKeeps(m, u, -Bytes(o));
  }

  lemma PopAndSplit(m: set<nat>, s: Buddy, q: nat, o: nat) returns (t: Buddy)
    requires Inv(m, s) && o < q <= MAX_ORDER && s.lists[q] != []
    ensures t == SplitDown(PopHead(s, q), s.lists[q][0], q, o)
    ensures Inv(m, t) && HandsOut(m, s, o, s.lists[q][0] + Pow2(o), t)
  {
    hide *;
    InvShape(m, s);
    var b, u := PopHeadKeeps(m, s, q);
    InvShape(m, u);
    HandsOutHand(m, s, q, b, u);
    t := SplitDownKeeps(m, u, b, q, o);
    SetTake(FreePages(m, s), BlockPages(b, q), BlockPages(b + Pow2(o), o));
    HandsOutFrom(m, s, o, b + Pow2(o), t);
  }

  lemma HandsOutHand(m: set<nat>, s: Buddy, o: nat, b: nat, t: Buddy)
    requires HandsOut(m, s, o, b, t)
    ensures InHand(m, t, b, o) && BlockPages(b, o) <= FreePages(m, s) &&
            FreePages(m, t) == FreePages(m, s) - BlockPages(b, o)
  {
  }

  lemma HandsOutFrom(m: set<nat>, s: Buddy, o: nat, b: nat, t: Buddy)
    requires InHand(m, t, b, o) && BlockPages(b, o) <= FreePages(m, s) &&
             FreePages(m, t) == FreePages(m, s) - BlockPages(b, o)
    ensures HandsOut(m, s, o, b, t)
  {
  }

  lemma SetTake(f: set<nat>, w: set<nat>, x: set<nat>)
    requires w <= f && x <= w
    ensures (f - w) + (w - x) == f - x && x <= f
  {
  }

  /** Splitting lists the right half of every order in between, and at the end the left half of the order asked for. */
  lemma {:induction false} SplitLists(s: Buddy, b: nat, q: nat, target: nat)
    requires target < q <= MAX_ORDER && |s.lists| == MAX_ORDER + 1
    ensures var t := SplitDown(s, b, q, target);
            && t.lists[target] == [b] + s.lists[target]
            && (forall r: nat | target < r < q :: t.lists[r] == [b + Pow2(r)] + s.lists[r])
            && (forall r: nat | r <= MAX_ORDER && (r < target || q <= r) :: t.lists[r] == s.lists[r])
    decreases q
  {
    var o := q - 1;
    hide SplitDown, IndexOf;
    if o == target {
      SplitLast(s, b, o);
    } else {
      SplitMore(s, b, o, target);
      SplitLists(Toggle(Push(s, o, b + Pow2(o)), o, b), b, o, target);
    }
  }

  /** Allocation takes the head of the smallest order that has a block. Of a larger block it hands out the second part of
      the order asked for; the first part stays free, and so does one block of every order in between. */
  lemma AllocTakesSmallest(m: set<nat>, s: Buddy, o: nat, q: nat)
    requires Inv(m, s) && o <= q <= MAX_ORDER && |s.lists| == MAX_ORDER + 1
    requires s.lists[q] != [] && forall r: nat | o <= r < q :: s.lists[r] == []
    ensures var (p, t) := AllocBlock(s, o);
            && p == Some(s.lists[q][0] + if q == o then 0 else Pow2(o))
            && t.lists[q] == s.lists[q][1..]
            && (q > o ==> t.lists[o] == [s.lists[q][0]])
            && (forall r: nat | o < r < q :: t.lists[r] == [s.lists[q][0] + Pow2(r)])
            && (forall r: nat | r <= MAX_ORDER && (r < o || q < r) :: t.lists[r] == s.lists[r])
  {
    hide *;
    AllocCases(s, o);
    PopLists(s, q);
    AccountLists(PopHead(s, q), -Bytes(o));
    if q > o {
      FirstOrder(s, o, q);
      SplitLists(PopHead(s, q), s.lists[q][0], q, o);
      AccountLists(SplitDown(PopHead(s, q), s.lists[q][0], q, o), -Bytes(o));
    }
  }

  lemma PopLists(s: Buddy, o: nat)
    requires o < |s.lists| && s.lists[o] != []
    ensures PopHead(s, o).lists == s.lists[o := s.lists[o][1..]]
  {
    hide IndexOf;
  }

  lemma AccountLists(s: Buddy, freed: int)
    ensures Account(s, freed).lists == s.lists
  {
  }

  lemma FirstOrder(s: Buddy, o: nat, q: nat)
    requires |s.lists| == MAX_ORDER + 1 && o < q <= MAX_ORDER && s.lists[q] != []
    requires forall r: nat | o <= r < q :: s.lists[r] == []
    ensures FindOrder(s, o + 1) == q
  {
  }

  /** Allocation fails only when no aligned run of that many pages is free. */
  lemma AllocFailsIffNoRun(m: set<nat>, s: Buddy, o: nat)
    requires Inv(m, s) && o <= MAX_ORDER
    ensures AllocBlock(s, o).0.None? <==> !exists b: nat :: Aligned(b, o) && BlockPages(b, o) <= FreePages(m, s)
  {
    var r, t := AllocBlockKeeps(m, s, o);
    if r.None? {
      forall b: nat | Aligned(b, o) && BlockPages(b, o) <= FreePages(m, s)
        ensures false
      {
        BlockInIff(FreePages(m, s), b, o);
        BlockFreeIffIn(m, s, b, o);
        var q, c := Covering(m, s, b, o);
      }
    }
  }

  /** While merging, the buddy really is on its list: its bit can be trusted. */
  lemma BuddyIsWaiting(m: set<nat>, s: Buddy, b: nat, o: nat)
    requires Inv(m, s) && InHand(m, s, b, o)
    ensures CanCoalesce(m, s, b, o) <==> o < MAX_ORDER && Listed(s, o, BuddyOf(b, o))
  {
    NotWaiting(m, s, b, o);
    BlockInIff(m, b, o);
    BuddyFacts(b, o);
    if o < MAX_ORDER && Listed(s, o, BuddyOf(b, o)) {
      assert PairUsable(m, b, o);
    }
    if CanCoalesce(m, s, b, o) {
      assert PairUsable(m, b, o);
    }
  }

  lemma ParentPages(b: nat, o: nat)
    requires Aligned(b, o)
    ensures BlockPages(ParentOf(b, o), o + 1) == BlockPages(b, o) + BlockPages(BuddyOf(b, o), o)
  {
    BuddyFacts(b, o);
    HalfPages(ParentOf(b, o), o);
  }

  /** One merge: the buddy leaves its list and the block in hand becomes the parent. */
  lemma MergeKeeps(m: set<nat>, s: Buddy, b: nat, o: nat) returns (t: Buddy)
    requires Inv(m, s) && InHand(m, s, b, o) && CanCoalesce(m, s, b, o)
    ensures t == Merge(s, b, o) && Listed(s, o, BuddyOf(b, o))
    ensures Inv(m, t) && InHand(m, t, ParentOf(b, o), o + 1)
    ensures FreePages(m, t) + BlockPages(ParentOf(b, o), o + 1) == FreePages(m, s) + BlockPages(b, o)
  {
    t := Merge(s, b, o);
    BuddyIsWaiting(m, s, b, o);
    BuddyFacts(b, o);
    PairSharesIndex(b, o);
    RemoveKeeps(m, s, t, o, BuddyOf(b, o));
    ParentPages(b, o);
    SetMerge(FreePages(m, s), BlockPages(BuddyOf(b, o), o), BlockPages(b, o));
  }

  lemma SetMerge(f: set<nat>, c: set<nat>, b: set<nat>)
    requires c <= f && b !! f
    ensures (f - c) + (b + c) == f + b && (b + c) !! (f - c)
  {
  }

  /** Coalescing lists the block in hand, whole, in canonical form. */
  lemma {:induction false} ClimbKeeps(m: set<nat>, s: Buddy, b: nat, o: nat) returns (t: Buddy)
    requires Inv(m, s) && InHand(m, s, b, o) && o <= MAX_ORDER && |s.lists| == MAX_ORDER + 1
    ensures t == Climb(m, s, b, o)
    ensures Inv(m, t) && FreePages(m, t) == FreePages(m, s) + BlockPages(b, o)
    decreases MAX_ORDER - o
  {
    hide *;
    if CanCoalesce(m, s, b, o) {
      CoalesceBound(m, s, b, o);
      ClimbMore(m, s, b, o);
      var u := MergeKeeps(m, s, b, o);
      InvShape(m, u);
      t := ClimbKeeps(m, u, ParentOf(b, o), o + 1);
    } else {
      ClimbLast(m, s, b, o);
      t := LandKeeps(m, s, b, o, Toggle(Push(s, o, b), o, b));
    }
  }

  lemma CoalesceBound(m: set<nat>, s: Buddy, b: nat, o: nat)
    requires CanCoalesce(m, s, b, o)
    ensures o < MAX_ORDER
  {
  }

  lemma LandKeeps(m: set<nat>, s: Buddy, b: nat, o: nat, end: Buddy) returns (t: Buddy)
    requires Inv(m, s) && InHand(m, s, b, o) && !CanCoalesce(m, s, b, o) && o < |s.lists|
    requires end == Toggle(Push(s, o, b), o, b) || end == PutBit(Push(s, o, b), o, b, true)
    ensures t == end && Inv(m, t) && FreePages(m, t) == FreePages(m, s) + BlockPages(b, o)
  {
    t := end;
    BuddyIsWaiting(m, s, b, o);
    NotWaiting(m, s, b, o);
    if t == Toggle(Push(s, o, b), o, b) {
      FlipApart(m, s, t, b, o);
    }
    InsertKeeps(m, s, t, o, b);
  }

  /** Freeing gives exactly the block's pages back to the lists. */
  lemma FreeBlockKeeps(m: set<nat>, s: Buddy, b: nat, o: nat) returns (t: Buddy)
    requires Inv(m, s) && InHand(m, s, b, o) && o <= MAX_ORDER && |s.lists| == MAX_ORDER + 1
    ensures t == FreeBlock(m, s, b, o)
    ensures Inv(m, t) && FreePages(m, t) == FreePages(m, s) + BlockPages(b, o)
  {
    hide *;
    FreeCases(m, s, b, o);
    var u;
    if CanCoalesce(m, s, b, o) {
      CoalesceBound(m, s, b, o);
      var v := MergeKeeps(m, s, b, o);
      InvShape(m, v);
      u := ClimbKeeps(m, v, ParentOf(b, o), o + 1);
    } else {
      u := LandKeeps(m, s, b, o, PutBit(Push(s, o, b), o, b, true));
    }
    t := Account(u, Bytes(o));
    AccountKeeps(m, u, Bytes(o));
  }

  lemma FreeCases(m: set<nat>, s: Buddy, b: nat, o: nat)
    requires o <= MAX_ORDER && |s.lists| == MAX_ORDER + 1
    ensures CanCoalesce(m, s, b, o) ==> o < MAX_ORDER && |Merge(s, b, o).lists| == |s.lists|
    ensures CanCoalesce(m, s, b, o) ==>
            FreeBlock(m, s, b, o) == Account(Climb(m, Merge(s, b, o), ParentOf(b, o), o + 1), Bytes(o))
    ensures !CanCoalesce(m, s, b, o) ==> FreeBlock(m, s, b, o) == Account(PutBit(Push(s, o, b), o, b, true), Bytes(o))
  {
    hide IndexOf;
  }

  /** Shrinking frees exactly the pages past the first `n`. */
  lemma {:induction false} ShrinkListsKeeps(m: set<nat>, s: Buddy, b: nat, o: nat, n: nat) returns (u: Buddy)
    requires Inv(m, s) && InHand(m, s, b, o) && o <= MAX_ORDER && 1 <= n <= Pow2(o) && |s.lists| == MAX_ORDER + 1
    ensures u == ShrinkLists(s, b, o, n)
    ensures Inv(m, u) && FreePages(m, u) == FreePages(m, s) + Pages(b + n, b + Pow2(o))
    decreases o
  {
    hide *;
    if n == Pow2(o) {
      ShrinkNothing(s, b, o);
      u := s;
      NoPages(b + n);
    } else {
      OrderPositive(o, n);
      Doubles(o);
      var h := Pow2(o - 1);
      if n > h {
        ShrinkBothHalves(s, b, o, h, n);
        var t := BitOnlyKeeps(m, s, b, o - 1, h);
        u := ShrinkListsKeeps(m, t, b + h, o - 1, n - h);
      } else {
        ShrinkLeftHalf(s, b, o, h, n);
        var t := RightHalfKeeps(m, s, b, o - 1, h);
        u := ShrinkListsKeeps(m, t, b, o - 1, n);
        PagesJoin(b + n, b + h, b + h + h);
      }
    }
  }

  lemma OrderPositive(o: nat, n: nat)
    requires 1 <= n <= Pow2(o) && n != Pow2(o)
    ensures o > 0
  {
  }

  lemma NoPages(p: nat)
    ensures Pages(p, p) == {}
  {
  }

  lemma PagesJoin(lo: nat, mid: nat, hi: nat)
    requires lo <= mid <= hi
    ensures Pages(lo, hi) == Pages(lo, mid) + Pages(mid, hi) && Pages(lo, mid) !! Pages(mid, hi)
  {
    assert forall p: nat :: p in Pages(lo, hi) <==> InRange(p, lo, hi);
    assert forall p: nat :: p in Pages(lo, mid) <==> InRange(p, lo, mid);
    assert forall p: nat :: p in Pages(mid, hi) <==> InRange(p, mid, hi);
  }

  lemma RightHalfKeeps(m: set<nat>, s: Buddy, b: nat, o: nat, h: nat) returns (t: Buddy)
    requires Inv(m, s) && InHand(m, s, b, o + 1) && h == Pow2(o) && o < MAX_ORDER && |s.lists| == MAX_ORDER + 1
    ensures t == PutBit(Push(s, o, b + h), o, b, true) && |t.lists| == |s.lists|
    ensures Inv(m, t) && InHand(m, t, b, o) && FreePages(m, t) == FreePages(m, s) + Pages(b + h, b + h + h)
  {
    hide IndexOf;
    t := PutBit(Push(s, o, b + h), o, b, true);
    SplitHand(m, s, b, o);
    HalfPages(b, o);
    PairSharesIndex(b, o);
    ListHalf(m, s, t, o, b + h, b);
  }

  /** Clearing the bit of a pair neither half of which is listed. */
  lemma BitOnlyKeeps(m: set<nat>, s: Buddy, b: nat, o: nat, h: nat) returns (t: Buddy)
    requires Inv(m, s) && InHand(m, s, b, o + 1) && h == Pow2(o) && o < MAX_ORDER
    ensures t == PutBit(s, o, b, false) && |t.lists| == |s.lists|
    ensures Inv(m, t) && InHand(m, t, b + h, o) && FreePages(m, t) == FreePages(m, s)
  {
    hide IndexOf;
    t := PutBit(s, o, b, false);
    SplitHand(m, s, b, o);
    NotWaiting(m, s, b, o);
    NotWaiting(m, s, b + h, o);
    PairBitsFollow(m, s, t, o, b, false);
    SameListsKeeps(m, s, t);
  }

  /** buddy_shrink_block keeps the first `n` pages of the block and frees the others. */
  lemma ShrinkBlockKeeps(m: set<nat>, s: Buddy, b: nat, o: nat, n: nat) returns (t: Buddy)
    requires Inv(m, s) && InHand(m, s, b, o) && o <= MAX_ORDER && 1 <= n <= Pow2(o) && |s.lists| == MAX_ORDER + 1
    ensures t == ShrinkBlock(s, b, o, n)
    ensures Inv(m, t) && FreePages(m, t) == FreePages(m, s) + Pages(b + n, b + Pow2(o))
  {
    hide ShrinkLists, FreePages, Pages, Inv, InHand;
    var u := ShrinkListsKeeps(m, s, b, o, n);
    t := Account(u, (Pow2(o) - n) * PAGE_SIZE);
    AccountKeeps(m, u, (Pow2(o) - n) * PAGE_SIZE);
  }
}
