/** The byte counters agree with the free lists and with the set of free pages. */
module BuddyAccounts {
  import opened Blocks
  import opened Lists
  import opened PairIndex
  import opened BuddyState
  import opened BuddySpec

  /** Pages on the first `k` free lists. */
  function CountUpTo(lists: seq<seq<nat>>, k: nat): nat
    requires k <= |lists|
  {
    if k == 0 then 0 else CountUpTo(lists, k - 1) + |lists[k - 1]| * Pow2(k - 1)
  }

  function Total(s: Buddy): nat {
    CountUpTo(s.lists, |s.lists|)
  }

  /** free_space_bytes is the sum over the free lists. */
  predicate Accounted(s: Buddy) {
    s.freeBytes == Total(s) * PAGE_SIZE
  }

  lemma {:induction false} OneListLonger(l: seq<seq<nat>>, n: seq<seq<nat>>, o: nat, k: nat, grow: int)
    requires |l| == |n| && o < |l| && k <= |l|
    requires |n[o]| == |l[o]| + grow && forall i | 0 <= i < |l| && i != o :: n[i] == l[i]
    ensures CountUpTo(n, k) == CountUpTo(l, k) + if o < k then grow * Pow2(o) else 0
  {
    if k > 0 {
      OneListLonger(l, n, o, k - 1, grow);
      if k - 1 == o {
        Distributes(|l[o]|, grow, Pow2(o));
      }
    }
  }

  lemma Distributes(a: int, b: int, d: int)
    ensures (a + b) * d == a * d + b * d
  {
  }

  lemma PushTotal(s: Buddy, t: Buddy, o: nat, b: nat)
    requires o < |s.lists| && t.lists == Push(s, o, b).lists
    ensures Total(t) == Total(s) + Pow2(o)
  {
    OneListLonger(s.lists, t.lists, o, |s.lists|, 1);
  }

  lemma RemoveTotal(s: Buddy, t: Buddy, o: nat, b: nat)
    requires Apart(s) && Listed(s, o, b) && t.lists == Remove(s, o, b).lists
    ensures Total(t) == Total(s) - Pow2(o)
  {
    WithoutFacts(s.lists[o], b);
    OneListLonger(s.lists, t.lists, o, |s.lists|, -1);
  }

  lemma SameCount(s: Buddy, t: Buddy)
    requires t.lists == s.lists
    ensures Total(t) == Total(s)
  {
  }

  lemma {:induction false} SplitDownTotal(s: Buddy, b: nat, q: nat, target: nat) returns (t: Buddy)
    requires target < q <= MAX_ORDER && |s.lists| == MAX_ORDER + 1
    ensures t == SplitDown(s, b, q, target)
    ensures Total(t) == Total(s) + Pow2(q) - Pow2(target)
    decreases q
  {
    hide *;
    var o := q - 1;
    Doubles(q);
    if o == target {
      SplitLast(s, b, o);
      t := TogglePushed(s, o, b, b);
    } else {
      SplitMore(s, b, o, target);
      var u := TogglePushed(s, o, b + Pow2(o), b);
      t := SplitDownTotal(u, b, o, target);
    }
  }

  lemma TogglePushed(s: Buddy, o: nat, b: nat, pair: nat) returns (t: Buddy)
    requires o < |s.lists|
    ensures t == Toggle(Push(s, o, b), o, pair)
    ensures |t.lists| == |s.lists| && Total(t) == Total(s) + Pow2(o)
  {
    hide IndexOf;
    t := Toggle(Push(s, o, b), o, pair);
    PushTotal(s, t, o, b);
  }

  /** The two counters stay exact, and their sum stays the same. */
  predicate Conserves(s: Buddy, t: Buddy) {
    (Accounted(s) ==> Accounted(t)) && t.freeBytes + t.allocatedBytes == s.freeBytes + s.allocatedBytes
  }

  lemma AccountMoves(s: Buddy, u: Buddy, pages: int)
    requires u.freeBytes == s.freeBytes && u.allocatedBytes == s.allocatedBytes
    requires Total(u) == Total(s) + pages
    ensures Conserves(s, Account(u, pages * PAGE_SIZE))
  {
    SameCount(u, Account(u, pages * PAGE_SIZE));
    Distributes(Total(s), pages, PAGE_SIZE);
  }

  lemma PopTotal(s: Buddy, o: nat) returns (t: Buddy)
    requires Apart(s) && o < |s.lists| && s.lists[o] != []
    ensures t == PopHead(s, o) && |t.lists| == |s.lists|
    ensures Total(t) == Total(s) - Pow2(o) && t.freeBytes == s.freeBytes && t.allocatedBytes == s.allocatedBytes
  {
    hide IndexOf;
    t := PopHead(s, o);
    assert Listed(s, o, s.lists[o][0]);
    RemoveTotal(s, t, o, s.lists[o][0]);
  }

  lemma InvApart(m: set<nat>, s: Buddy)
    requires Inv(m, s)
    ensures Apart(s) && |s.lists| == MAX_ORDER + 1
  {
  }

  lemma AllocBlockConserves(m: set<nat>, s: Buddy, o: nat)
    requires Inv(m, s) && o <= MAX_ORDER
    ensures Conserves(s, AllocBlock(s, o).1)
  {
    hide *;
    InvApart(m, s);
    AllocCases(s, o);
    if s.lists[o] != [] {
      var u := PopTotal(s, o);
      BytesTaken(s, u, o);
    } else if FindOrder(s, o + 1) <= MAX_ORDER {
      var q := FindOrder(s, o + 1);
      var u := PopTotal(s, q);
      var t := SplitDownTotal(u, s.lists[q][0], q, o);
      BytesTaken(s, t, o);
    } else {
      ConservesSelf(s);
    }
  }

  lemma BytesTaken(s: Buddy, u: Buddy, o: nat)
    requires u.freeBytes == s.freeBytes && u.allocatedBytes == s.allocatedBytes && Total(u) == Total(s) - Pow2(o)
    ensures Conserves(s, Account(u, -Bytes(o)))
  {
    AccountMoves(s, u, 0 - Pow2(o));
  }

  lemma BytesGiven(s: Buddy, u: Buddy, o: nat)
    requires u.freeBytes == s.freeBytes && u.allocatedBytes == s.allocatedBytes && Total(u) == Total(s) + Pow2(o)
    ensures Conserves(s, Account(u, Bytes(o)))
  {
    AccountMoves(s, u, Pow2(o));
  }

  lemma ConservesSelf(s: Buddy)
    ensures Conserves(s, s)
  {
  }

  lemma MergeTotal(m: set<nat>, s: Buddy, b: nat, o: nat) returns (t: Buddy)
    requires Inv(m, s) && InHand(m, s, b, o) && CanCoalesce(m, s, b, o)
    ensures t == Merge(s, b, o) && Inv(m, t) && InHand(m, t, ParentOf(b, o), o + 1) && |t.lists| == |s.lists|
    ensures Total(t) == Total(s) - Pow2(o) && t.freeBytes == s.freeBytes && t.allocatedBytes == s.allocatedBytes
  {
    hide IndexOf, InHand, PairBits, Coalesced, FreePages;
    t := MergeKeeps(m, s, b, o);
    RemoveTotal(s, t, o, BuddyOf(b, o));
  }

  lemma {:induction false} ClimbTotal(m: set<nat>, s: Buddy, b: nat, o: nat) returns (t: Buddy)
    requires Inv(m, s) && InHand(m, s, b, o) && o <= MAX_ORDER && |s.lists| == MAX_ORDER + 1
    ensures t == Climb(m, s, b, o)
    ensures Total(t) == Total(s) + Pow2(o)
    decreases MAX_ORDER - o
  {
    hide *;
    if CanCoalesce(m, s, b, o) {
      CoalesceBound(m, s, b, o);
      ClimbMore(m, s, b, o);
      Doubles(o + 1);
      var u := MergeTotal(m, s, b, o);
      t := ClimbTotal(m, u, ParentOf(b, o), o + 1);
    } else {
      ClimbLast(m, s, b, o);
      t := TogglePushed(s, o, b, b);
    }
  }

  lemma FreeBlockConserves(m: set<nat>, s: Buddy, b: nat, o: nat)
    requires Inv(m, s) && InHand(m, s, b, o) && o <= MAX_ORDER && |s.lists| == MAX_ORDER + 1
    ensures Conserves(s, FreeBlock(m, s, b, o))
  {
    hide *;
    FreeCases(m, s, b, o);
    if CanCoalesce(m, s, b, o) {
      CoalesceBound(m, s, b, o);
      Doubles(o + 1);
      var v := MergeTotal(m, s, b, o);
      var u := ClimbTotal(m, v, ParentOf(b, o), o + 1);
      BytesGiven(s, u, o);
    } else {
      var u := BitPushed(s, o, b, b);
      BytesGiven(s, u, o);
    }
  }

  lemma BitPushed(s: Buddy, o: nat, b: nat, pair: nat) returns (t: Buddy)
    requires o < |s.lists|
    ensures t == PutBit(Push(s, o, b), o, pair, true) && |t.lists| == |s.lists|
    ensures Total(t) == Total(s) + Pow2(o) && t.freeBytes == s.freeBytes && t.allocatedBytes == s.allocatedBytes
  {
    hide IndexOf;
    t := PutBit(Push(s, o, b), o, pair, true);
    PushTotal(s, t, o, b);
  }

  lemma BitOnly(s: Buddy, o: nat, b: nat, one: bool) returns (t: Buddy)
    ensures t == PutBit(s, o, b, one) && t.lists == s.lists
    ensures Total(t) == Total(s)
  {
    hide IndexOf;
    t := PutBit(s, o, b, one);
    SameCount(s, t);
  }

  lemma {:induction false} ShrinkTotal(s: Buddy, b: nat, o: nat, n: nat) returns (u: Buddy)
    requires 1 <= n <= Pow2(o) && o <= MAX_ORDER && |s.lists| == MAX_ORDER + 1
    ensures u == ShrinkLists(s, b, o, n)
    ensures Total(u) == Total(s) + Pow2(o) - n
    decreases o
  {
    hide *;
    if n == Pow2(o) {
      ShrinkNothing(s, b, o);
      u := s;
    } else {
      OrderPositive(o, n);
      Doubles(o);
      var h := Pow2(o - 1);
      if n > h {
        ShrinkBothHalves(s, b, o, h, n);
        var t := BitOnly(s, o - 1, b, false);
        u := ShrinkTotal(t, b + h, o - 1, n - h);
      } else {
        ShrinkLeftHalf(s, b, o, h, n);
        var t := BitPushed(s, o - 1, b + h, b);
        u := ShrinkTotal(t, b, o - 1, n);
      }
    }
  }

  lemma ShrinkBlockConserves(s: Buddy, b: nat, o: nat, n: nat)
    requires 1 <= n <= Pow2(o) && o <= MAX_ORDER && |s.lists| == MAX_ORDER + 1
    ensures Conserves(s, ShrinkBlock(s, b, o, n))
  {
    hide IndexOf, Conserves, ShrinkLists, Total;
    var u := ShrinkTotal(s, b, o, n);
    AccountMoves(s, u, Pow2(o) - n);
  }

  // ----- counting pages

  lemma {:induction false} PagesCount(lo: nat, hi: nat)
    requires lo <= hi
    ensures |Pages(lo, hi)| == hi - lo
    decreases hi - lo
  {
    if lo < hi {
      PagesCount(lo + 1, hi);
      PagesJoin(lo, lo + 1, hi);
      OnePage(lo);
    } else {
      NoPages(lo);
    }
  }

  lemma OnePage(p: nat)
    ensures Pages(p, p + 1) == {p}
  {
    var top := p + 1;
    assert forall q: nat :: q in Pages(p, top) <==> InRange(q, p, top);
  }

  /** The pages counted over the lists are as many as there are free pages. */
  lemma {:induction false} TotalIsFreePages(m: set<nat>, s: Buddy)
    requires Inv(m, s)
    ensures Total(s) == |FreePages(m, s)|
    decreases Total(s)
  {
    hide Total, FreePages, Inv, IndexOf;
    if o: nat, b: nat :| Listed(s, o, b) {
      var t := TakeOff(m, s, o, b);
      TotalIsFreePages(m, t);
    } else {
      AllEmpty(m, s);
    }
  }

  lemma TakeOff(m: set<nat>, s: Buddy, o: nat, b: nat) returns (t: Buddy)
    requires Inv(m, s) && Listed(s, o, b)
    ensures Inv(m, t) && Total(t) == Total(s) - Pow2(o)
    ensures |FreePages(m, s)| == |FreePages(m, t)| + Pow2(o)
  {
    hide IndexOf, FreePages, Total, Pages;
    t := PutBit(Remove(s, o, b), o, b, false);
    RemoveKeeps(m, s, t, o, b);
    RemoveTotal(s, t, o, b);
    PagesCount(b, b + Pow2(o));
    SetSplit(FreePages(m, s), FreePages(m, t), BlockPages(b, o));
  }

  lemma SetSplit(a: set<nat>, b: set<nat>, c: set<nat>)
    requires c <= a && b == a - c
    ensures |a| == |b| + |c|
  {
    assert a == b + c;
    assert b !! c;
  }

  lemma AllEmpty(m: set<nat>, s: Buddy)
    requires forall o: nat, b: nat :: !Listed(s, o, b)
    ensures Total(s) == 0 && FreePages(m, s) == {}
  {
    forall o | 0 <= o < |s.lists|
      ensures s.lists[o] == []
    {
      if s.lists[o] != [] {
        assert Listed(s, o, s.lists[o][0]);
      }
    }
    EmptyTotal(s.lists, |s.lists|);
  }

  lemma {:induction false} EmptyTotal(lists: seq<seq<nat>>, k: nat)
    requires k <= |lists| && forall o | 0 <= o < |lists| :: lists[o] == []
    ensures CountUpTo(lists, k) == 0
  {
    if k > 0 {
      EmptyTotal(lists, k - 1);
    }
  }
}
