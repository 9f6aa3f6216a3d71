/** The buddy allocator's state as a value, its invariant, and the two primitive changes made to it. */
module BuddyState {
  import opened Blocks
  import opened Lists
  import opened PairIndex

  /** One free list per order, the set of one bits of the pair bitmap, and the two byte counters. */
  datatype Buddy = Buddy(lists: seq<seq<nat>>, bits: set<nat>, freeBytes: int, allocatedBytes: int)

  predicate Listed(s: Buddy, o: nat, b: nat) {
    o < |s.lists| && b in s.lists[o]
  }

  /** Page `p` lies in some block on a free list. */
  ghost predicate Free(s: Buddy, p: nat) {
    exists o: nat, b: nat :: Listed(s, o, b) && InBlock(p, b, o)
  }

  ghost function FreePages(m: set<nat>, s: Buddy): set<nat> {
    set p | p in m && Free(s, p)
  }

  /** No page of the block is on a free list. */
  ghost predicate Clear(s: Buddy, b: nat, o: nat) {
    forall q: nat, c: nat :: Listed(s, q, c) ==> !Overlap(b, o, c, q)
  }

  predicate InRange(p: nat, lo: nat, hi: nat) {
    lo <= p < hi
  }

  /** The pages from `lo` up to, not including, `hi`. */
  ghost function Pages(lo: nat, hi: nat): set<nat> {
    set p: nat | p < hi && InRange(p, lo, hi)
  }

  ghost function BlockPages(b: nat, o: nat): set<nat> {
    Pages(b, b + Pow2(o))
  }

  /** An aligned block of managed pages none of which is on a free list: allocated, or being worked on. */
  ghost predicate InHand(m: set<nat>, s: Buddy, b: nat, o: nat) {
    o <= MAX_ORDER && Aligned(b, o) && BlockPages(b, o) <= m && BlockPages(b, o) !! FreePages(m, s)
  }

  ghost predicate WellPlaced(m: set<nat>, s: Buddy) {
    && |s.lists| == MAX_ORDER + 1
    && (forall o: nat, b: nat :: Listed(s, o, b) ==> Aligned(b, o) && BlockIn(m, b, o))
  }

  ghost predicate Apart(s: Buddy) {
    && (forall o: nat | o < |s.lists| :: NoDup(s.lists[o]))
    && (forall o: nat, b: nat, q: nat, c: nat ::
          Listed(s, o, b) && Listed(s, q, c) && Overlap(b, o, c, q) ==> o == q && b == c)
  }

  /** No two buddies wait on a list together. */
  ghost predicate Coalesced(s: Buddy) {
    forall o: nat, b: nat :: Listed(s, o, b) && o < MAX_ORDER ==> !Listed(s, o, BuddyOf(b, o))
  }

  ghost predicate PairUsable(m: set<nat>, b: nat, o: nat) {
    o < MAX_ORDER && Aligned(b, o) && BlockIn(m, b, o) && BlockIn(m, BuddyOf(b, o), o)
  }

  /** buddy_alloc.h:31-33. The bit of a pair is one exactly when one half of it is on the free list. */
  ghost predicate PairBits(m: set<nat>, s: Buddy) {
    forall o: nat, b: nat :: PairUsable(m, b, o) ==>
      (IndexOf(b, o) in s.bits <==> Listed(s, o, b) || Listed(s, o, BuddyOf(b, o)))
  }

  ghost predicate Inv(m: set<nat>, s: Buddy) {
    WellPlaced(m, s) && Apart(s) && Coalesced(s) && PairBits(m, s)
  }

  // ----- changing one list and one bit

  function Push(s: Buddy, o: nat, b: nat): Buddy
    requires o < |s.lists|
  {
    s.(lists := s.lists[o := [b] + s.lists[o]])
  }

  function Remove(s: Buddy, o: nat, b: nat): Buddy
    requires o < |s.lists|
  {
    s.(lists := s.lists[o := Without(s.lists[o], b)])
  }

  function PutBit(s: Buddy, o: nat, b: nat, one: bool): Buddy {
    s.(bits := if one then s.bits + {IndexOf(b, o)} else s.bits - {IndexOf(b, o)})
  }

  function Toggle(s: Buddy, o: nat, b: nat): Buddy {
    PutBit(s, o, b, IndexOf(b, o) !in s.bits)
  }

  /** `t` is `s` with the bit of one pair possibly changed; `one` says what it is now, where that matters. */
  ghost predicate OneBitApart(m: set<nat>, s: Buddy, t: Buddy, o: nat, b: nat, one: bool) {
    && (forall i: nat :: i != IndexOf(b, o) ==> (i in t.bits <==> i in s.bits))
    && (PairUsable(m, b, o) ==> (IndexOf(b, o) in t.bits <==> one))
  }

  lemma PushListed(s: Buddy, t: Buddy, o: nat, b: nat)
    requires o < |s.lists| && t.lists == Push(s, o, b).lists
    ensures forall q: nat, c: nat :: Listed(t, q, c) <==> Listed(s, q, c) || (q == o && c == b)
  {
  }

  lemma RemoveListed(s: Buddy, t: Buddy, o: nat, b: nat)
    requires Apart(s) && Listed(s, o, b) && t.lists == Remove(s, o, b).lists
    ensures forall q: nat, c: nat :: Listed(t, q, c) <==> Listed(s, q, c) && !(q == o && c == b)
    ensures forall q: nat | q < |t.lists| :: NoDup(t.lists[q])
  {
    WithoutFacts(s.lists[o], b);
  }

  /** Changing the bit of one pair leaves what the bits of all other pairs say. */
  lemma OtherPairs(m: set<nat>, s: Buddy, t: Buddy, o: nat, b: nat, one: bool)
    requires o <= MAX_ORDER && Aligned(b, o) && OneBitApart(m, s, t, o, b, one)
    ensures forall q: nat, c: nat :: PairUsable(m, c, q) && !(q == o && (c == b || c == BuddyOf(b, o)))
              ==> (IndexOf(c, q) in t.bits <==> IndexOf(c, q) in s.bits)
  {
    forall q: nat, c: nat | PairUsable(m, c, q) && !(q == o && (c == b || c == BuddyOf(b, o)))
      ensures IndexOf(c, q) in t.bits <==> IndexOf(c, q) in s.bits
    {
      IndexOfBlock(c, q, b, o);
    }
  }

  /** When only the listing of `b` at order `o` changes, the bits stay right if that pair's bit is. */
  lemma PairBitsFollow(m: set<nat>, s: Buddy, t: Buddy, o: nat, b: nat, one: bool)
    requires PairBits(m, s) && o <= MAX_ORDER && Aligned(b, o) && OneBitApart(m, s, t, o, b, one)
    requires forall q: nat, c: nat :: !(q == o && c == b) ==> (Listed(t, q, c) <==> Listed(s, q, c))
    requires one <==> Listed(t, o, b) || Listed(t, o, BuddyOf(b, o))
    ensures PairBits(m, t)
  {
    OtherPairs(m, s, t, o, b, one);
    BuddyFacts(b, o);
    forall q: nat, c: nat | PairUsable(m, c, q)
      ensures IndexOf(c, q) in t.bits <==> Listed(t, q, c) || Listed(t, q, BuddyOf(c, q))
    {
      BuddyFacts(c, q);
      if q == o && (c == b || c == BuddyOf(b, o)) {
        IndexOfBlock(c, q, b, o);
      }
    }
  }

  lemma BlockInIff(m: set<nat>, b: nat, o: nat)
    ensures BlockIn(m, b, o) <==> BlockPages(b, o) <= m
  {
    assert forall p: nat :: InBlock(p, b, o) <==> p in BlockPages(b, o);
  }

  lemma FreeInManaged(m: set<nat>, s: Buddy, p: nat)
    requires WellPlaced(m, s)
    ensures Free(s, p) <==> p in FreePages(m, s)
  {
    if Free(s, p) {
      var o: nat, b: nat :| Listed(s, o, b) && InBlock(p, b, o);
      assert BlockIn(m, b, o);
    }
  }

  lemma OverlapFree(m: set<nat>, s: Buddy, b: nat, o: nat, q: nat, c: nat)
    requires WellPlaced(m, s) && Listed(s, q, c) && Overlap(b, o, c, q)
    ensures !(BlockPages(b, o) !! FreePages(m, s))
  {
    var p := if b < c then c else b;
    assert InBlock(p, c, q) && Free(s, p);
    FreeInManaged(m, s, p);
    assert p in BlockPages(b, o);
  }

  lemma FreeMeets(s: Buddy, b: nat, o: nat, p: nat)
    requires p in BlockPages(b, o) && Free(s, p)
    ensures !Clear(s, b, o)
  {
    var q: nat, c: nat :| Listed(s, q, c) && InBlock(p, c, q);
    assert Overlap(b, o, c, q);
  }

  /** What being in hand means block by block. */
  lemma InHandIff(m: set<nat>, s: Buddy, b: nat, o: nat)
    requires WellPlaced(m, s)
    ensures InHand(m, s, b, o) <==> o <= MAX_ORDER && Aligned(b, o) && BlockIn(m, b, o) && Clear(s, b, o)
  {
    BlockInIff(m, b, o);
    forall q: nat, c: nat | Listed(s, q, c) && Overlap(b, o, c, q)
      ensures !(BlockPages(b, o) !! FreePages(m, s))
    {
      OverlapFree(m, s, b, o, q, c);
    }
    forall p: nat | p in BlockPages(b, o) && p in FreePages(m, s)
      ensures !Clear(s, b, o)
    {
      FreeMeets(s, b, o, p);
    }
  }

  /** Putting a block on its list keeps the invariant, provided its buddy is not waiting there. */
  lemma InsertKeeps(m: set<nat>, s: Buddy, t: Buddy, o: nat, b: nat)
    requires Inv(m, s) && InHand(m, s, b, o)
    requires o < MAX_ORDER ==> !Listed(s, o, BuddyOf(b, o))
    requires t.lists == Push(s, o, b).lists && OneBitApart(m, s, t, o, b, true)
    ensures Inv(m, t) && FreePages(m, t) == FreePages(m, s) + BlockPages(b, o)
  {
    InHandIff(m, s, b, o);
    PushListed(s, t, o, b);
    PairBitsFollow(m, s, t, o, b, true);
    InsertApart(s, t, o, b);
    InsertCoalesced(s, t, o, b);
    InsertFree(m, s, t, o, b);
  }

  lemma InsertCoalesced(s: Buddy, t: Buddy, o: nat, b: nat)
    requires Coalesced(s) && o < |s.lists| && t.lists == Push(s, o, b).lists && Aligned(b, o)
    requires forall q: nat, c: nat :: Listed(s, q, c) ==> Aligned(c, q)
    requires o < MAX_ORDER ==> !Listed(s, o, BuddyOf(b, o))
    ensures Coalesced(t)
  {
    PushListed(s, t, o, b);
    BuddyFacts(b, o);
    forall q: nat, c: nat | Listed(t, q, c) && q < MAX_ORDER
      ensures !Listed(t, q, BuddyOf(c, q))
    {
      BuddyFacts(c, q);
    }
  }

  lemma InsertApart(s: Buddy, t: Buddy, o: nat, b: nat)
    requires Apart(s) && o < |s.lists| && Clear(s, b, o) && t.lists == Push(s, o, b).lists
    ensures Apart(t)
  {
    PushListed(s, t, o, b);
    assert Overlap(b, o, b, o);
    assert !Listed(s, o, b);
    forall q: nat | q < |t.lists|
      ensures NoDup(t.lists[q])
    {
      assert NoDup(s.lists[q]);
    }
  }

  lemma InsertFree(m: set<nat>, s: Buddy, t: Buddy, o: nat, b: nat)
    requires o < |s.lists| && t.lists == Push(s, o, b).lists && BlockIn(m, b, o)
    ensures FreePages(m, t) == FreePages(m, s) + BlockPages(b, o)
  {
    PushListed(s, t, o, b);
    forall p: nat
      ensures p in FreePages(m, t) <==> p in FreePages(m, s) || p in BlockPages(b, o)
    {
      assert p in BlockPages(b, o) <==> InBlock(p, b, o);
      if Free(s, p) {
        var q: nat, c: nat :| Listed(s, q, c) && InBlock(p, c, q);
        assert Listed(t, q, c);
      }
      if InBlock(p, b, o) {
        assert Listed(t, o, b);
      }
    }
  }

  /** Taking a block off its list keeps the invariant and leaves it in hand. */
  lemma RemoveKeeps(m: set<nat>, s: Buddy, t: Buddy, o: nat, b: nat)
    requires Inv(m, s) && Listed(s, o, b)
    requires t.lists == Remove(s, o, b).lists && OneBitApart(m, s, t, o, b, false)
    ensures Inv(m, t) && InHand(m, t, b, o)
    ensures BlockPages(b, o) <= FreePages(m, s) && FreePages(m, t) == FreePages(m, s) - BlockPages(b, o)
  {
    RemoveListed(s, t, o, b);
    BuddyFacts(b, o);
    if o < MAX_ORDER {
      assert !Listed(t, o, BuddyOf(b, o));
      PairBitsFollow(m, s, t, o, b, false);
    } else {
      TopBitFree(m, s, t, b, false);
    }
    RemoveFree(m, s, t, o, b);
    InHandIff(m, t, b, o);
  }

  /** Bits of pairs of the top order mean nothing, so they may hold anything. */
  lemma TopBitFree(m: set<nat>, s: Buddy, t: Buddy, b: nat, one: bool)
    requires PairBits(m, s) && Aligned(b, MAX_ORDER) && OneBitApart(m, s, t, MAX_ORDER, b, one)
    requires forall q: nat, c: nat :: q < MAX_ORDER ==> (Listed(t, q, c) <==> Listed(s, q, c))
    ensures PairBits(m, t)
  {
    OtherPairs(m, s, t, MAX_ORDER, b, one);
  }

  lemma RemoveFree(m: set<nat>, s: Buddy, t: Buddy, o: nat, b: nat)
    requires Apart(s) && Listed(s, o, b) && t.lists == Remove(s, o, b).lists && BlockIn(m, b, o)
    ensures BlockPages(b, o) <= FreePages(m, s) && FreePages(m, t) == FreePages(m, s) - BlockPages(b, o)
  {
    RemoveListed(s, t, o, b);
    forall p: nat
      ensures p in BlockPages(b, o) ==> p in FreePages(m, s)
      ensures p in FreePages(m, t) <==> p in FreePages(m, s) && p !in BlockPages(b, o)
    {
      RemoveFreeAt(s, t, o, b, p);
    }
  }

  lemma RemoveFreeAt(s: Buddy, t: Buddy, o: nat, b: nat, p: nat)
    requires Apart(s) && Listed(s, o, b)
    requires forall q: nat, c: nat :: Listed(t, q, c) <==> Listed(s, q, c) && !(q == o && c == b)
    ensures Free(t, p) <==> Free(s, p) && !InBlock(p, b, o)
    ensures p in BlockPages(b, o) <==> InBlock(p, b, o)
  {
    if Free(s, p) && !InBlock(p, b, o) {
      var q: nat, c: nat :| Listed(s, q, c) && InBlock(p, c, q);
      assert Listed(t, q, c);
    }
    if Free(t, p) {
      var q: nat, c: nat :| Listed(t, q, c) && InBlock(p, c, q);
      assert Listed(s, q, c);
      if InBlock(p, b, o) {
        assert Overlap(b, o, c, q);
      }
    }
  }

  /** Changing a bit that means nothing, or to what it should be, keeps the invariant. */
  lemma SameListsKeeps(m: set<nat>, s: Buddy, t: Buddy)
    requires Inv(m, s) && t.lists == s.lists && PairBits(m, t)
    ensures Inv(m, t) && FreePages(m, t) == FreePages(m, s)
  {
    assert forall o: nat, b: nat :: Listed(t, o, b) <==> Listed(s, o, b);
    forall p: nat
      ensures Free(t, p) <==> Free(s, p)
    {
      if Free(s, p) {
        var o: nat, b: nat :| Listed(s, o, b) && InBlock(p, b, o);
        assert Listed(t, o, b);
      }
      if Free(t, p) {
        var o: nat, b: nat :| Listed(t, o, b) && InBlock(p, b, o);
        assert Listed(s, o, b);
      }
    }
  }
}
