/** The free lists are determined by the free pages. */
module BuddyCanonical {
  import opened Blocks
  import opened BuddyState
  import opened Lists
  import PairIndex

  /** A block of free pages that is not half of a larger one the allocator could list. */
  ghost predicate Maximal(free: set<nat>, o: nat, b: nat) {
    && o <= MAX_ORDER && Aligned(b, o) && BlockIn(free, b, o)
    && (o < MAX_ORDER ==> !BlockIn(free, ParentOf(b, o), o + 1))
  }

  ghost predicate BlockFree(s: Buddy, b: nat, o: nat) {
    forall p: nat :: InBlock(p, b, o) ==> Free(s, p)
  }

  /** An aligned run of free pages lies inside a single listed block. */
  lemma {:induction false} Covering(m: set<nat>, s: Buddy, b: nat, o: nat) returns (q: nat, c: nat)
    requires Inv(m, s) && o <= MAX_ORDER && Aligned(b, o) && BlockFree(s, b, o)
    ensures Listed(s, q, c) && o <= q && c <= b && b + Pow2(o) <= c + Pow2(q)
    ensures o == q ==> b == c
    decreases o
  {
    if o == 0 {
      q, c := CoveringPage(m, s, b);
    } else {
      Halves(b, o - 1);
      CoveringHalf(s, b, o);
      q, c := Covering(m, s, b, o - 1);
      if q < o {
        q, c := Covering(m, s, b + Pow2(o - 1), o - 1);
        NotBothHalves(s, b, o - 1, q);
      }
      GrowCover(m, s, b, o, q, c);
    }
  }

  lemma CoveringPage(m: set<nat>, s: Buddy, b: nat) returns (q: nat, c: nat)
    requires WellPlaced(m, s) && BlockFree(s, b, 0)
    ensures Listed(s, q, c) && c <= b && b + Pow2(0) <= c + Pow2(q)
    ensures 0 == q ==> b == c
  {
    assert InBlock(b, b, 0);
    q, c :| Listed(s, q, c) && InBlock(b, c, q);
  }

  lemma NotBothHalves(s: Buddy, b: nat, o: nat, q: nat)
    requires Coalesced(s) && o < MAX_ORDER && Aligned(b, o + 1) && Listed(s, o, b) && o <= q
    requires q == o ==> Listed(s, o, b + Pow2(o))
    ensures o < q
  {
    Halves(b, o);
  }

  /** A listed block of at least order `o` that meets an aligned block of order `o` contains it. */
  lemma GrowCover(m: set<nat>, s: Buddy, b: nat, o: nat, q: nat, c: nat)
    requires WellPlaced(m, s) && Listed(s, q, c) && o <= q && Aligned(b, o) && Overlap(b, o, c, q)
    ensures c <= b && b + Pow2(o) <= c + Pow2(q)
    ensures o == q ==> b == c
  {
    Nested(b, o, c, q);
  }

  lemma CoveringHalf(s: Buddy, b: nat, o: nat)
    requires o > 0 && BlockFree(s, b, o)
    ensures BlockFree(s, b, o - 1) && BlockFree(s, b + Pow2(o - 1), o - 1)
  {
    forall p: nat | InBlock(p, b, o - 1) || InBlock(p, b + Pow2(o - 1), o - 1)
      ensures Free(s, p)
    {
      assert InBlock(p, b, o);
    }
  }

  lemma BlockFreeIffIn(m: set<nat>, s: Buddy, b: nat, o: nat)
    requires Inv(m, s)
    ensures BlockFree(s, b, o) <==> BlockIn(FreePages(m, s), b, o)
  {
    forall p: nat
      ensures Free(s, p) <==> p in FreePages(m, s)
    {
      FreeInManaged(m, s, p);
    }
  }

  /** Canonical form: a block is listed exactly when it is a maximal aligned block of free pages. */
  lemma ListedIffMaximal(m: set<nat>, s: Buddy, o: nat, b: nat)
    requires Inv(m, s)
    ensures Listed(s, o, b) <==> Maximal(FreePages(m, s), o, b)
  {
    BlockFreeIffIn(m, s, b, o);
    if Listed(s, o, b) {
      assert BlockFree(s, b, o);
      if o < MAX_ORDER && BlockIn(FreePages(m, s), ParentOf(b, o), o + 1) {
        BuddyFacts(b, o);
        BlockFreeIffIn(m, s, ParentOf(b, o), o + 1);
        var q, c := Covering(m, s, ParentOf(b, o), o + 1);
        assert Overlap(b, o, c, q);
        assert false;
      }
    }
    if Maximal(FreePages(m, s), o, b) {
      var q, c := Covering(m, s, b, o);
      if o < q {
        ParentWithin(b, o, c, q);
        BlockFreeIffIn(m, s, c, q);
      }
    }
  }

  /** Two lists without repetition that hold the same elements are permutations of each other. */
  lemma {:induction false} SameElements<T>(l: seq<T>, k: seq<T>)
    requires NoDup(l) && NoDup(k) && forall x :: x in l <==> x in k
    ensures multiset(l) == multiset(k)
  {
    forall x: T
      ensures multiset(l)[x] == multiset(k)[x]
    {
      NoDupCount(l, x);
      NoDupCount(k, x);
    }
  }

  lemma {:induction false} NoDupCount<T>(l: seq<T>, x: T)
    requires NoDup(l)
    ensures multiset(l)[x] == if x in l then 1 else 0
  {
    if l != [] {
      NoDupCount(l[1..], x);
      assert l == [l[0]] + l[1..];
    }
  }

  /** The same free lists up to order, and the same meaning of every pair bit. */
  ghost predicate SameLists(m: set<nat>, s: Buddy, t: Buddy) {
    && |s.lists| == |t.lists|
    && (forall o: nat | o < |s.lists| :: multiset(s.lists[o]) == multiset(t.lists[o]))
    && (forall o: nat, b: nat :: PairUsable(m, b, o) ==>
       (PairIndex.IndexOf(b, o) in s.bits <==> PairIndex.IndexOf(b, o) in t.bits))
  }

  /** History does not matter: equal free pages give equal free lists and equal meaningful bits. */
  lemma FreePagesDecideLists(m: set<nat>, s: Buddy, t: Buddy)
    requires Inv(m, s) && Inv(m, t) && FreePages(m, s) == FreePages(m, t)
    ensures SameLists(m, s, t)
  {
    forall o: nat, b: nat
      ensures Listed(s, o, b) <==> Listed(t, o, b)
    {
      ListedIffMaximal(m, s, o, b);
      ListedIffMaximal(m, t, o, b);
    }
    forall o: nat | o < |s.lists|
      ensures multiset(s.lists[o]) == multiset(t.lists[o])
    {
      assert forall b: nat :: b in s.lists[o] <==> Listed(s, o, b);
      assert forall b: nat :: b in t.lists[o] <==> Listed(t, o, b);
      SameElements(s.lists[o], t.lists[o]);
    }
  }
}
