/** The buddy allocator as the kernel keeps it: list heads, linked nodes, a byte bitmap and two counters. */
module BuddyAllocation {
  import opened Options
  import opened Blocks
  import opened Lists
  import opened PairIndex
  import opened Bitmaps
  import opened Regions
  import opened BuddyState
  import opened BuddySpec
  import opened FreeStore
  import opened PhysSpec
  import opened Populate

  class BuddyAllocator {
    const regions: seq<Region>
    const baseAddr: nat
    const endAddr: nat
    const bitmap: Bitmap
    const heads: array<int>

    /** Memory of the free list nodes, and the addresses that the node cache still has to give. */
    var nodes: Memory
    var spare: seq<int>

    var freeBytes: int
    var allocatedBytes: int

    /** The addresses of the nodes of each list, in order. */
    ghost var chains: seq<seq<int>>

    /** buddy_init up to the population of the lists: no list entry, an all-zero bitmap, `pool` as spare nodes. */
    constructor (rs: seq<Region>, base: nat, end: nat, pool: seq<int>)
      requires Separated(rs) && NoDup(pool) && 0 !in pool
      ensures Valid() && fresh(heads) && fresh(bitmap) && fresh(bitmap.base)
      ensures regions == rs && baseAddr == base && endAddr == end && spare == pool
      ensures State() == Empty()
    {
      regions, baseAddr, endAddr := rs, base, end;
      bitmap := new Bitmap(BitmapBits(if end >= base then (end - base) / PAGE_SIZE else 0));
      heads := new int[MAX_ORDER + 1](_ => 0);
      nodes, spare := map[], pool;
      freeBytes, allocatedBytes := 0, 0;
      chains := seq(MAX_ORDER + 1, o => []);
      new;
      NoLists(MAX_ORDER + 1);
    }

    ghost function NumPages(): nat {
      if endAddr >= baseAddr then (endAddr - baseAddr) / PAGE_SIZE else 0
    }

    ghost function Windows(): nat {
      (NumPages() + WINDOW - 1) / WINDOW
    }

    /** The pages this allocator took over at initialisation. */
    ghost function Pool(): set<nat> {
      Managed(regions, baseAddr, Windows())
    }

    ghost predicate Valid()
      reads this, heads
    {
      && heads.Length == MAX_ORDER + 1 && |chains| == MAX_ORDER + 1 && heads as object != bitmap.base
      && Separated(regions) && BitmapBits(NumPages()) <= 8 * bitmap.base.Length
      && StoreOk(nodes, heads[..], chains, spare)
    }

    /** The allocator as a value. */
    ghost function State(): Buddy
      reads this, bitmap, bitmap.base
    {
      Buddy(ListsOf(nodes, chains), bitmap.Ones(), freeBytes, allocatedBytes)
    }

    ghost predicate Detached(a: int)
      reads this
    {
      Loose(chains, a) && a !in spare
    }

    // ----- one bit

    method ToggleBit(b: nat, o: nat)
      requires Valid() && o <= MAX_ORDER && b < Windows() * WINDOW
      modifies bitmap.base
      ensures Valid() && State() == Toggle(old(State()), o, b)
    {
      hide IndexOf, StoreOk, BitmapBits;
      IndexFits(b, o, NumPages());
      ghost var h := heads[..];
      var was := bitmap.ToggleBit(IndexOf(b, o));
      assert heads[..] == h;
    }

    method PutPairBit(b: nat, o: nat, value: bv8)
      requires Valid() && o <= MAX_ORDER && b < Windows() * WINDOW
      modifies bitmap.base
      ensures Valid() && State() == PutBit(old(State()), o, b, value > 0)
    {
      hide IndexOf, StoreOk, BitmapBits;
      IndexFits(b, o, NumPages());
      ghost var h := heads[..];
      var ok := bitmap.SetBit(IndexOf(b, o), value);
      assert heads[..] == h;
    }

    // ----- one list

    /** Links a detached node at the front of a list, as a block starting at `page`. */
    method Link(a: int, page: nat, o: nat)
      requires Valid() && o <= MAX_ORDER && Detached(a)
      modifies this`nodes, this`chains, heads
      ensures Valid() && State() == Push(old(State()), o, page)
      ensures forall x :: old(Detached(x)) && x != a ==> Detached(x) && PageOf(nodes, x) == old(PageOf(nodes, x))
    {
      hide StoreOk, IsChain;
      forall x | Detached(x) && x != a
        ensures Loose(chains[o := [a] + chains[o]], x)
      {
        PushLoose(chains, o, a, x);
      }
      PushNode(nodes, heads[..], chains, spare, o, a, page);
      ghost var before := heads[..];
      nodes := nodes[a := Node(LinkTo(a, heads[o]), page)];
      chains := chains[o := [a] + chains[o]];
      heads[o] := a;
      assert heads[..] == before[o := a];
      assert State().lists == Push(old(State()), o, page).lists;
    }

    /** Takes the first node off a list. */
    method Unlink(o: nat) returns (a: int)
      requires Valid() && o <= MAX_ORDER && heads[o] != 0
      modifies this`chains, heads
      ensures Valid() && Detached(a) && a in nodes
      ensures var l := old(State()).lists[o];
              l != [] && State() == Remove(old(State()), o, l[0]) && nodes[a].page == l[0]
      ensures forall x :: old(Detached(x)) ==> x != a && Detached(x)
    {
      hide StoreOk, IsChain;
      PopNode(nodes, heads[..], chains, spare, o);
      ghost var before := heads[..];
      a := heads[o];
      heads[o] := Follow(nodes, a);
      chains := chains[o := chains[o][1..]];
      assert heads[..] == before[o := Follow(nodes, a)];
      assert State().lists == Remove(old(State()), o, old(State()).lists[o][0]).lists;
    }

    /** __allocate_freelist_entry. */
    method AllocateEntry(page: nat, o: nat)
      requires Valid() && o <= MAX_ORDER && spare != []
      modifies this`nodes, this`chains, this`spare, heads
      ensures Valid() && State() == Push(old(State()), o, page) && |spare| == old(|spare|) - 1
      ensures forall x :: old(Detached(x)) ==> Detached(x) && PageOf(nodes, x) == old(PageOf(nodes, x))
    {
      hide StoreOk, IsChain;
      TakeSpare(nodes, heads[..], chains, spare);
      var a := spare[0];
      spare := spare[1..];
      assert forall x :: old(Detached(x)) ==> Detached(x) && x != a;
      Link(a, page, o);
    }

    /** __release_freelist_entry. */
    method ReleaseEntry(a: int)
      requires Valid() && Detached(a)
      modifies this`spare
      ensures Valid() && State() == old(State()) && |spare| == old(|spare|) + 1
      ensures forall x :: old(Detached(x)) && x != a ==> Detached(x)
    {
      hide StoreOk, IsChain;
      GiveSpare(nodes, heads[..], chains, spare, a);
      spare := [a] + spare;
    }

    /** __pop_freelist_entry: walks the list for the block, unlinks its node, or answers zero. */
    method PopEntry(page: nat, o: nat) returns (a: int)
      requires Valid() && o <= MAX_ORDER
      modifies this`nodes, this`chains, heads
      ensures Valid() && (a != 0 <==> page in old(State()).lists[o])
      ensures a == 0 ==> State() == old(State())
      ensures a != 0 ==> State() == Remove(old(State()), o, page) && Detached(a)
      ensures forall x :: old(Detached(x)) ==> x != a && Detached(x) && PageOf(nodes, x) == old(PageOf(nodes, x))
    {
      hide StoreOk, IsChain;
      ghost var c := chains[o];
      ghost var k := 0;
      ghost var hs := heads[..];
      var prev, entry := 0, heads[o];
      ChainStart(nodes, hs, chains, spare, o);
      while entry != 0 && nodes[entry].page != page
        invariant 0 <= k <= |c| && entry == (if k < |c| then c[k] else 0) && prev == (if k > 0 then c[k - 1] else 0)
        invariant (entry != 0 ==> entry in nodes) && (k > 0 ==> prev in nodes)
        invariant heads[..] == hs
        invariant entry == 0 ==> k == |c|
        invariant forall j | 0 <= j < k :: PageOf(nodes, c[j]) != page
        decreases |c| - k
        modifies {}
      {
        ChainNext(nodes, hs, chains, spare, o, k);
        prev, entry := entry, Follow(nodes, entry);
        k := k + 1;
      }
      if entry == 0 {
        return 0;
      }
      assert PageOf(nodes, c[k]) == page && State().lists[o][k] == page;
      if entry == heads[o] {
        ChainOnce(nodes, hs, chains, spare, o, 0, k);
        a := Unlink(o);
      } else {
        a := Cut(o, k, prev, entry);
      }
    }

    /** Unlinks a node that is not the first by changing the link before it. */
    method Cut(o: nat, ghost k: nat, prev: int, entry: int) returns (a: int)
      requires Valid() && o <= MAX_ORDER && 0 < k < |chains[o]| && chains[o][k - 1] == prev && chains[o][k] == entry
      requires forall j | 0 <= j < k :: PageOf(nodes, chains[o][j]) != PageOf(nodes, chains[o][k])
      requires prev in nodes && entry in nodes
      modifies this`nodes, this`chains
      ensures a == entry && Valid() && Detached(a) && State() == Remove(old(State()), o, old(nodes[entry].page))
      ensures forall x :: old(Detached(x)) ==> x != a && Detached(x) && PageOf(nodes, x) == old(PageOf(nodes, x))
    {
      hide StoreOk, IsChain;
      CutNode(nodes, heads[..], chains, spare, o, k);
      assert prev in chains[o] && entry in chains[o];
      assert forall x :: Detached(x) ==> x != entry;
      a := entry;
      nodes := nodes[prev := nodes[prev].(next := LinkTo(prev, Follow(nodes, entry)))];
      chains := chains[o := chains[o][..k] + chains[o][k + 1..]];
      assert State().lists == Remove(old(State()), o, old(nodes[entry].page)).lists;
    }

    // ----- allocation

    /** The search loop of __find_or_split_block. */
    method FirstList(from: nat) returns (o: nat)
      requires Valid() && from <= MAX_ORDER + 1
      ensures o == FindOrder(State(), from)
      ensures o <= MAX_ORDER ==> heads[o] != 0
    {
      hide StoreOk, IsChain;
      o := from;
      while o <= MAX_ORDER && heads[o] == 0
        invariant from <= o <= MAX_ORDER + 1 && FindOrder(State(), from) == FindOrder(State(), o)
        decreases MAX_ORDER + 1 - o
      {
        ChainStart(nodes, heads[..], chains, spare, o);
        o := o + 1;
      }
      if o <= MAX_ORDER {
        ChainStart(nodes, heads[..], chains, spare, o);
      }
    }

    /** Takes the first block of a list in hand and flips the bit of its pair. */
    method TakeHead(o: nat) returns (a: int, page: nat)
      requires Valid() && o <= MAX_ORDER && heads[o] != 0 && Inv(Pool(), State())
      modifies this`chains, heads, bitmap.base
      ensures Valid() && Detached(a) && PageOf(nodes, a) == page
      ensures old(State()).lists[o] != [] && page == old(State()).lists[o][0] && State() == PopHead(old(State()), o)
      ensures Inv(Pool(), State()) && HandsOut(Pool(), old(State()), o, page, State())
    {
      hide StoreOk, IsChain, Inv, HandsOut, IndexOf, FreePages, Managed;
      ghost var s := State();
      ChainStart(nodes, heads[..], chains, spare, o);
      ghost var b, t := PopHeadKeeps(Pool(), s, o);
      HandInWindows(regions, baseAddr, Windows(), s, t, b, o);
      a := Unlink(o);
      page := nodes[a].page;
      ToggleBit(page, o);
    }

    /** One level of splitting: lists the right half of the block in hand and flips the bit of the pair. */
    method SplitOnce(page: nat, o: nat, ghost hand: int)
      requires Valid() && o < MAX_ORDER && spare != [] && Inv(Pool(), State()) && InHand(Pool(), State(), page, o + 1)
      requires Detached(hand)
      modifies this`nodes, this`chains, this`spare, heads, bitmap.base
      ensures Valid() && State() == Toggle(Push(old(State()), o, page + Pow2(o)), o, page) &&
              |spare| == old(|spare|) - 1
      ensures Inv(Pool(), State()) && InHand(Pool(), State(), page, o)
      ensures Detached(hand) && PageOf(nodes, hand) == old(PageOf(nodes, hand))
    {
      hide StoreOk, IsChain, Inv, IndexOf, Aligned, FreePages, BlockPages, Managed;
      ghost var t := ToggleHalf(Pool(), State(), page, o, page + Pow2(o), page);
      AllocateEntry(page + Pow2(o), o);
      InHandInWindows(regions, baseAddr, Windows(), t, page, o);
      ToggleBit(page, o);
    }

    /** The last level: the node in hand becomes the left half's, the right half stays in hand. */
    method SplitLastLevel(a: int, page: nat, o: nat)
      requires Valid() && o < MAX_ORDER && Detached(a) && Inv(Pool(), State()) && InHand(Pool(), State(), page, o + 1)
      modifies this`nodes, this`chains, heads, bitmap.base
      ensures Valid() && State() == Toggle(Push(old(State()), o, page), o, page)
    {
      hide StoreOk, IsChain, Inv, IndexOf, Aligned, FreePages, BlockPages, Managed;
      ghost var t := SplitHandLeft(Pool(), State(), page, o);
      InHandInWindows(regions, baseAddr, Windows(), t, page, o);
      Link(a, page, o);
      ToggleBit(page, o);
    }

    /** __find_or_split_block; no list above the top order is read, and finding nothing is a result of its own. */
    method FindOrSplitBlock(target: nat) returns (r: Option<nat>)
      requires Valid() && target <= MAX_ORDER && Inv(Pool(), State()) && |spare| + target + 1 >= MAX_ORDER
      modifies this`nodes, this`chains, this`spare, heads, bitmap.base
      ensures Valid() && (r, State()) == FindOrSplit(old(State()), target)
      ensures r.None? ==> spare == old(spare)
      ensures r.Some? ==> |spare| + MAX_ORDER >= old(|spare|) + target + 1
    {
      hide StoreOk, IsChain, Inv, InHand, HandsOut, IndexOf, FindOrder, SplitDown, PopHead, Push, Toggle;
      SplitCases(State(), target);
      var q := FirstList(target + 1);
      if q > MAX_ORDER {
        return None;
      }
      var a, page := TakeHead(q);
      ghost var taken := State();
      HandsOutHand(Pool(), old(State()), q, page, taken);
      var o := q - 1;
      while o > target
        invariant target <= o < q && Valid() && Detached(a) && PageOf(nodes, a) == page
        invariant Inv(Pool(), State()) && InHand(Pool(), State(), page, o + 1)
        invariant SplitDown(State(), page, o + 1, target) == SplitDown(taken, page, q, target)
        invariant |spare| + (q - 1 - o) == old(|spare|)
      {
        SplitMore(State(), page, o, target);
        SplitOnce(page, o, a);
        o := o - 1;
      }
      SplitLast(State(), page, target);
      SplitLastLevel(a, page, target);
      r := Some(page + Pow2(target));
    }

    method MoveCounters(freed: int)
      modifies this`freeBytes, this`allocatedBytes
      ensures State() == Account(old(State()), freed)
      ensures old(Valid()) ==> Valid()
    {
      freeBytes, allocatedBytes := freeBytes + freed, allocatedBytes - freed;
    }

    /** buddy_alloc_block, in page offsets; out of memory is a result of its own and moves no counter. */
    method AllocBlock(o: nat) returns (r: Option<nat>)
      requires Valid() && o <= MAX_ORDER && Inv(Pool(), State()) && |spare| + o + 1 >= MAX_ORDER
      modifies this`nodes, this`chains, this`spare, this`freeBytes, this`allocatedBytes, heads, bitmap.base
      ensures Valid() && (r, State()) == BuddySpec.AllocBlock(old(State()), o)
      ensures Inv(Pool(), State()) &&
              if r.None? then State() == old(State()) else HandsOut(Pool(), old(State()), o, r.value, State())
      ensures |spare| + MAX_ORDER >= old(|spare|) + o + 1 || |spare| > old(|spare|) || (r.None? && spare == old(spare))
    {
      hide StoreOk, IsChain, Inv, InHand, HandsOut, IndexOf, FindOrSplit, PopHead, Account, BuddySpec.AllocBlock;
      ghost var s := State();
      ghost var r', t := AllocBlockKeeps(Pool(), s, o);
      AllocBlockIs(s, o);
      assert s.lists[o] == [] <==> chains[o] == [];
      ChainStart(nodes, heads[..], chains, spare, o);
      if heads[o] != 0 {
        var a, page := TakeHead(o);
        ReleaseEntry(a);
        MoveCounters(-(Pow2(o) * PAGE_SIZE));
        r := Some(page);
      } else {
        r := FindOrSplitBlock(o);
        if r.Some? {
          MoveCounters(-(Pow2(o) * PAGE_SIZE));
        }
      }
    }

    // ----- freeing

    /** __can_coalesce with the loop's bound on the order: the pair's bit is one and the buddy is memory. */
    method BuddyWaits(b: nat, o: nat) returns (waits: bool)
      requires Valid() && Inv(Pool(), State()) && InHand(Pool(), State(), b, o)
      ensures waits == CanCoalesce(Pool(), State(), b, o)
    {
      hide StoreOk, IsChain, Inv, IndexOf, FreePages, Managed, BlockPages, Usable;
      if o >= MAX_ORDER {
        return false;
      }
      BuddyUsable(regions, baseAddr, Windows(), b, o);
      BlockInIff(Pool(), BuddyOf(b, o), o);
      var bit := bitmap.GetBit(IndexOf(b, o));
      var usable := IsBlockUsable(regions, baseAddr + BuddyOf(b, o) * PAGE_SIZE, Pow2(o) * PAGE_SIZE);
      waits := bit == 1 && usable;
    }

    /** One merge: the waiting buddy's node is taken off its list and the pair's bit is cleared. */
    method MergeBuddy(b: nat, o: nat) returns (a: int)
      requires Valid() && Inv(Pool(), State()) && InHand(Pool(), State(), b, o) && CanCoalesce(Pool(), State(), b, o)
      modifies this`nodes, this`chains, heads, bitmap.base
      ensures Valid() && Detached(a) && State() == Merge(old(State()), b, o)
      ensures Inv(Pool(), State()) && InHand(Pool(), State(), ParentOf(b, o), o + 1)
      ensures forall x :: old(Detached(x)) ==> x != a && Detached(x)
    {
      hide StoreOk, IsChain, Inv, IndexOf, FreePages, Managed, BlockPages, Aligned;
      InHandInWindows(regions, baseAddr, Windows(), State(), b, o);
      CoalesceBound(Pool(), State(), b, o);
      ghost var t := MergeKeeps(Pool(), State(), b, o);
      a := PopEntry(BuddyOf(b, o), o);
      PutPairBit(b, o, 0);
    }

    /** Puts a detached node back as the merged block, and flips its pair's bit. */
    method Land(a: int, b: nat, o: nat)
      requires Valid() && Detached(a) && InHand(Pool(), State(), b, o) && o <= MAX_ORDER
      modifies this`nodes, this`chains, heads, bitmap.base
      ensures Valid() && State() == Toggle(Push(old(State()), o, b), o, b)
    {
      hide StoreOk, IsChain, IndexOf, Managed, InHand;
      InHandInWindows(regions, baseAddr, Windows(), State(), b, o);
      Link(a, b, o);
      ToggleBit(b, o);
    }

    /** buddy_free_block, in page offsets, asking about the true buddy and merging up to the top order only. */
    method FreeBlock(b: nat, o: nat)
      requires Valid() && Inv(Pool(), State()) && InHand(Pool(), State(), b, o) && spare != []
      modifies this`nodes, this`chains, this`spare, this`freeBytes, this`allocatedBytes, heads, bitmap.base
      ensures o <= MAX_ORDER && Valid() && State() == BuddySpec.FreeBlock(Pool(), old(State()), b, o)
      ensures Inv(Pool(), State()) && FreePages(Pool(), State()) == FreePages(Pool(), old(State())) + BlockPages(b, o)
      ensures |spare| + 1 >= old(|spare|)
    {
      hide StoreOk, IsChain, Inv, InHand, IndexOf, CanCoalesce, Merge, Push, Toggle, PutBit, Climb, BuddySpec.FreeBlock,
           Account,
        FreePages, BlockPages;
      ghost var t := FreedState(Pool(), State(), b, o);
      HandBound(Pool(), State(), b, o);
      FreeBlockIs(Pool(), State(), b, o);
      var waits := BuddyWaits(b, o);
      if waits {
        CoalesceBound(Pool(), State(), b, o);
        var node := MergeBuddy(b, o);
        ghost var merged := State();
        Coalesce(node, ParentOf(b, o), o + 1);
      } else {
        InHandInWindows(regions, baseAddr, Windows(), State(), b, o);
        AllocateEntry(b, o);
        PutPairBit(b, o, 1);
      }
      MoveCounters(Pow2(o) * PAGE_SIZE);
    }

    /** The coalescing loop of buddy_free_block. */
    method Coalesce(node: int, b: nat, o: nat)
      requires Valid() && Inv(Pool(), State()) && InHand(Pool(), State(), b, o) && Detached(node)
      modifies this`nodes, this`chains, this`spare, heads, bitmap.base
      ensures o <= MAX_ORDER && Valid() && State() == Climb(Pool(), old(State()), b, o) && |spare| >= old(|spare|)
    {
      hide StoreOk, IsChain, Inv, InHand, IndexOf, CanCoalesce, Merge, Push, Toggle, PutBit, Climb;
      HandBound(Pool(), State(), b, o);
      var c, k := b, o;
      var waits := BuddyWaits(c, k);
      while waits
        invariant k <= MAX_ORDER && Valid() && Detached(node)
        invariant Inv(Pool(), State()) && InHand(Pool(), State(), c, k)
        invariant Climb(Pool(), State(), c, k) == Climb(Pool(), old(State()), b, o)
        invariant waits == CanCoalesce(Pool(), State(), c, k) && |spare| >= old(|spare|)
        decreases MAX_ORDER - k
      {
        CoalesceBound(Pool(), State(), c, k);
        ClimbMore(Pool(), State(), c, k);
        var upper := MergeBuddy(c, k);
        ReleaseEntry(upper);
        c, k := ParentOf(c, k), k + 1;
        waits := BuddyWaits(c, k);
      }
      ClimbLast(Pool(), State(), c, k);
      Land(node, c, k);
    }

    // ----- shrinking

    /** Both halves stay allocated: the pair's bit is cleared and the right half is worked on. */
    method KeepLeft(b: nat, o: nat)
      requires Valid() && o < MAX_ORDER && Inv(Pool(), State()) && InHand(Pool(), State(), b, o + 1)
      modifies bitmap.base
      ensures Valid() && State() == PutBit(old(State()), o, b, false)
      ensures Inv(Pool(), State()) && InHand(Pool(), State(), b + Pow2(o), o)
    {
      hide StoreOk, IsChain, Inv, IndexOf, Aligned, FreePages, BlockPages, Managed, InHand;
      InHandInWindows(regions, baseAddr, Windows(), State(), b, o + 1);
      ghost var t := BitOnlyKeeps(Pool(), State(), b, o, Pow2(o));
      PutPairBit(b, o, 0);
    }

    /** The right half is freed: it is listed, and the pair's bit is set. */
    method FreeRight(b: nat, o: nat)
      requires Valid() && o < MAX_ORDER && Inv(Pool(), State()) && InHand(Pool(), State(), b, o + 1) && spare != []
      modifies this`nodes, this`chains, this`spare, heads, bitmap.base
      ensures Valid() && State() == PutBit(Push(old(State()), o, b + Pow2(o)), o, b, true) &&
              |spare| == old(|spare|) - 1
      ensures Inv(Pool(), State()) && InHand(Pool(), State(), b, o)
    {
      hide StoreOk, IsChain, Inv, IndexOf, Aligned, FreePages, BlockPages, Managed, InHand;
      InHandInWindows(regions, baseAddr, Windows(), State(), b, o + 1);
      ghost var t := RightHalfKeeps(Pool(), State(), b, o, Pow2(o));
      AllocateEntry(b + Pow2(o), o);
      PutPairBit(b, o, 1);
    }

    /** buddy_shrink_block, in page offsets; the counters move by what the loop freed. */
    method ShrinkBlock(offset: nat, o: nat, numPages: nat)
      requires Valid() && Inv(Pool(), State()) && InHand(Pool(), State(), TruncBits(offset, o), o) && o <= MAX_ORDER
      requires 1 <= numPages <= Pow2(o) && |spare| >= SplitNodes(o, numPages)
      modifies this`nodes, this`chains, this`spare, this`freeBytes, this`allocatedBytes, heads, bitmap.base
      ensures Valid() && State() == BuddySpec.ShrinkBlock(old(State()), TruncBits(offset, o), o, numPages)
      ensures Inv(Pool(), State())
      ensures FreePages(Pool(), State()) ==
              FreePages(Pool(), old(State())) + Pages(TruncBits(offset, o) + numPages, TruncBits(offset, o) + Pow2(o))
      ensures |spare| + SplitNodes(o, numPages) == old(|spare|)
    {
      hide StoreOk, IsChain, Inv, InHand, IndexOf, PutBit, Push, ShrinkLists, SplitNodes, Account, TruncBits, FreePages,
           Pages;
      var b, k, n := TruncBits(offset, o), o, numPages;
      ghost var t := ShrinkBlockKeeps(Pool(), State(), b, o, n);
      while n != Pow2(k)
        invariant 0 <= k <= o && 1 <= n <= Pow2(k) && Valid()
        invariant Inv(Pool(), State()) && InHand(Pool(), State(), b, k)
        invariant ShrinkLists(State(), b, k, n) == ShrinkLists(old(State()), TruncBits(offset, o), o, numPages)
        invariant |spare| + SplitNodes(o, numPages) == old(|spare|) + SplitNodes(k, n)
        invariant freeBytes == old(freeBytes) && allocatedBytes == old(allocatedBytes)
        decreases k
      {
        OrderPositive(k, n);
        Doubles(k);
        var h := Pow2(k - 1);
        if n > h {
          ShrinkBothHalves(State(), b, k, h, n);
          KeepLeft(b, k - 1);
          b, n := b + h, n - h;
        } else {
          ShrinkLeftHalf(State(), b, k, h, n);
          FreeRight(b, k - 1);
        }
        k := k - 1;
      }
      ShrinkNothing(State(), b, k);
      MoveCounters((Pow2(o) - numPages) * PAGE_SIZE);
    }

    /** buddy_freelist_pool_expand: the cells of a fresh slab become spare nodes. */
    method ExpandPool(cells: seq<int>)
      requires Valid() && NoDup(cells) && forall c :: c in cells ==> Loose(chains, c) && c !in spare
      modifies this`spare
      ensures Valid() && State() == old(State()) && spare == cells + old(spare)
    {
      hide StoreOk, IsChain;
      GiveAll(nodes, heads[..], chains, spare, cells);
      spare := cells + spare;
    }

    // ----- initial population

    /** One turn of the inner loop of __populate_initial_freelists. */
    method FillOrder(ghost j: nat, ghost n: nat, w: nat, i: nat, o: nat) returns (next: nat)
      requires Valid() && spare != [] && o <= MAX_ORDER && w == j * WINDOW && n == Prefix(regions, baseAddr, w, WINDOW)
      requires i + LowPages(n, o + 1) == n && i < WINDOW && i % Pow2(o + 1) == 0
      modifies this`nodes, this`chains, this`spare, this`freeBytes, heads
      ensures Valid() && next + LowPages(n, o) == n && next % Pow2(o) == 0 && |spare| + 1 >= old(|spare|)
      ensures FillExpansion(State(), w + next, n, o) == FillExpansion(old(State()), w + i, n, o + 1)
    {
      hide StoreOk, IsChain, Prefix, Usable, BitAt, LowPages, FillExpansion, Separated;
      UsableIsBit(regions, baseAddr, j, n, i, o);
      AlignedDown(i, o, o + 1);
      var usable := IsBlockUsable(regions, baseAddr + (w + i) * PAGE_SIZE, Pow2(o) * PAGE_SIZE);
      next := i;
      if usable {
        CountBit(n, o);
        FillBit(State(), w + i, n, o);
        NextHalf(i, o);
        AllocateEntry(w + i, o);
        freeBytes := freeBytes + Pow2(o) * PAGE_SIZE;
        next := i + Pow2(o);
      } else {
        CountNoBit(n, o);
        FillNoBit(State(), w + i, n, o);
      }
    }

    /** The inner loop: the largest usable blocks of one window, from its start. */
    method FillOneWindow(ghost j: nat, w: nat)
      requires Valid() && |spare| >= MAX_ORDER + 1 && w == j * WINDOW && State() == FillWindows(regions, baseAddr, j)
      modifies this`nodes, this`chains, this`spare, this`freeBytes, heads
      ensures Valid() && State() == FillWindows(regions, baseAddr, j + 1) && |spare| + MAX_ORDER + 1 >= old(|spare|)
    {
      hide StoreOk, IsChain, Prefix, Usable, BitAt, LowPages, FillExpansion, Separated;
      ghost var n := Prefix(regions, baseAddr, w, WINDOW);
      ghost var final := FillExpansion(State(), w, n, MAX_ORDER + 1);
      WholeWindow(n);
      var i: nat, k: nat := 0, MAX_ORDER + 1;
      while k > 0 && i < WINDOW
        invariant 0 <= k <= MAX_ORDER + 1 && Valid()
        invariant i + LowPages(n, k) == n && i % Pow2(k) == 0
        invariant FillExpansion(State(), w + i, n, k) == final
        invariant |spare| + (MAX_ORDER + 1 - k) >= old(|spare|)
      {
        k := k - 1;
        i := FillOrder(j, n, w, i, k);
      }
      if k == 0 {
        FillNone(State(), w + i, n);
      } else {
        FillZero(State(), w + i, n, k);
      }
    }

    /** __populate_initial_freelists, for a node pool that is large enough. */
    method PopulateInitialFreelists()
      requires Valid() && State() == Empty() && |spare| >= Windows() * (MAX_ORDER + 1)
      modifies this`nodes, this`chains, this`spare, this`freeBytes, heads
      ensures Valid() && State() == FillWindows(regions, baseAddr, Windows())
      ensures Inv(Pool(), State()) && FreePages(Pool(), State()) == Pool()
      ensures forall p: nat :: p < (endAddr - baseAddr) / PAGE_SIZE && RowUsable(regions, baseAddr, p) ==>
              Free(State(), p)
      ensures forall p: nat :: Free(State(), p) ==>
              p / WINDOW * WINDOW < (endAddr - baseAddr) / PAGE_SIZE && RowUsable(regions, baseAddr, p)
    {
      hide StoreOk, IsChain, Prefix, Separated, Inv, FreePages, Managed, FillWindows, BitmapBits, ListsOf, RowUsable,
           Free;
      FillWindowsStart(regions, baseAddr);
      var cursor, maxPage := 0, if endAddr >= baseAddr then (endAddr - baseAddr) / PAGE_SIZE else 0;
      ghost var j := 0;
      while cursor < maxPage
        invariant 0 <= j <= Windows() && cursor == j * WINDOW && Valid()
        invariant State() == FillWindows(regions, baseAddr, j)
        invariant |spare| >= (Windows() - j) * (MAX_ORDER + 1)
      {
        FillOneWindow(j, cursor);
        cursor := cursor + WINDOW;
        j := j + 1;
      }
      PopulatedPool(regions, baseAddr, Windows());
      PoolRows(regions, baseAddr, NumPages(), State());
    }
  }

  lemma PopulatedPool(rs: seq<Region>, base: nat, windows: nat)
    ensures var m, s := Managed(rs, base, windows), FillWindows(rs, base, windows); Inv(m, s) && FreePages(m, s) == m
  {
    PopulatedInv(rs, base, windows);
  }

  /** Which pages are free when the managed ones are. */
  lemma PoolRows(rs: seq<Region>, base: nat, numPages: nat, s: Buddy)
    requires var m := Managed(rs, base, (numPages + WINDOW - 1) / WINDOW); Inv(m, s) && FreePages(m, s) == m
    ensures forall p: nat :: Free(s, p) <==> p / WINDOW * WINDOW < numPages && RowUsable(rs, base, p)
  {
    hide Managed, RowUsable, Free, FreePages, IndexOf;
    var m := Managed(rs, base, (numPages + WINDOW - 1) / WINDOW);
    forall p: nat
      ensures Free(s, p) <==> p / WINDOW * WINDOW < numPages && RowUsable(rs, base, p)
    {
      FreeInManaged(m, s, p);
      ManagedRows(rs, base, numPages, p);
    }
  }

  lemma FillWindowsStart(rs: seq<Region>, base: nat)
    ensures FillWindows(rs, base, 0) == Empty()
  {
  }

  lemma WholeWindow(n: nat)
    requires n <= WINDOW
    ensures LowPages(n, MAX_ORDER + 1) == n && 0 % Pow2(MAX_ORDER + 1) == 0
  {
    WindowIsPow2();
    LowPagesAll(n, MAX_ORDER + 1);
  }

  lemma FreedState(m: set<nat>, s: Buddy, b: nat, o: nat) returns (t: Buddy)
    requires Inv(m, s) && InHand(m, s, b, o)
    ensures |s.lists| == MAX_ORDER + 1 && o <= MAX_ORDER && t == BuddySpec.FreeBlock(m, s, b, o)
    ensures Inv(m, t) && FreePages(m, t) == FreePages(m, s) + BlockPages(b, o)
  {
    hide *;
    InvShape(m, s);
    HandBound(m, s, b, o);
    t := FreeBlockKeeps(m, s, b, o);
  }

  lemma HandBound(m: set<nat>, s: Buddy, b: nat, o: nat)
    requires InHand(m, s, b, o)
    ensures o <= MAX_ORDER
  {
  }

  lemma FreeBlockIs(m: set<nat>, s: Buddy, b: nat, o: nat)
    requires o <= MAX_ORDER && |s.lists| == MAX_ORDER + 1
    ensures CanCoalesce(m, s, b, o) ==> o < MAX_ORDER && |Merge(s, b, o).lists| == |s.lists|
    ensures BuddySpec.FreeBlock(m, s, b, o) ==
            Account(if CanCoalesce(m, s, b, o) then Climb(m, Merge(s, b, o), ParentOf(b, o), o + 1)
                    else PutBit(Push(s, o, b), o, b, true),
                    Pow2(o) * PAGE_SIZE)
  {
    hide IndexOf, Account, Climb;
  }

  lemma AllocBlockIs(s: Buddy, o: nat)
    requires |s.lists| == MAX_ORDER + 1 && o <= MAX_ORDER
    ensures BuddySpec.AllocBlock(s, o) ==
            if s.lists[o] != [] then (Some(s.lists[o][0]), Account(PopHead(s, o), -(Pow2(o) * PAGE_SIZE)))
            else var (r, t) := FindOrSplit(s, o); if r.None? then (None, s) else (r, Account(t, -(Pow2(o) * PAGE_SIZE)))
    ensures FindOrSplit(s, o).0.None? ==> FindOrSplit(s, o).1 == s
  {
    hide IndexOf, PopHead, Account, SplitDown;
  }

  lemma SplitCases(s: Buddy, target: nat)
    requires |s.lists| == MAX_ORDER + 1 && target <= MAX_ORDER
    ensures FindOrSplit(s, target) == var q := FindOrder(s, target + 1);
              if q > MAX_ORDER then (None, s)
              else (Some(s.lists[q][0] + Pow2(target)), SplitDown(PopHead(s, q), s.lists[q][0], q, target))
  {
    hide IndexOf, PopHead, SplitDown;
  }

  lemma SplitHandLeft(m: set<nat>, s: Buddy, b: nat, o: nat) returns (t: Buddy)
    requires InHand(m, s, b, o + 1)
    ensures t == s && InHand(m, t, b, o)
  {
    SplitHand(m, s, b, o);
    t := s;
  }

  lemma InHandInWindows(rs: seq<Region>, base: nat, windows: nat, t: Buddy, b: nat, o: nat)
    requires InHand(Managed(rs, base, windows), t, b, o)
    ensures b < windows * WINDOW
  {
    hide Managed, FreePages, Pages, Aligned;
    BlockIsPages(b, o);
    FirstManaged(rs, base, windows, b, b + Pow2(o));
  }

  lemma HandInWindows(rs: seq<Region>, base: nat, windows: nat, s: Buddy, t: Buddy, b: nat, o: nat)
    requires HandsOut(Managed(rs, base, windows), s, o, b, t)
    ensures b < windows * WINDOW
  {
    InHandInWindows(rs, base, windows, t, b, o);
  }

  lemma IndexFits(b: nat, o: nat, numPages: nat)
    requires o <= MAX_ORDER && b < (numPages + WINDOW - 1) / WINDOW * WINDOW
    ensures IndexOf(b, o) < BitmapBits(numPages)
  {
    hide BitmapBits, RoundUpShift, IndexOf;
    SupersOfWindows(b, numPages);
    SuperIndex(b, o, numPages);
  }

  /** A page of the last window is in a super-block that the pages reach. */
  lemma SupersOfWindows(b: nat, numPages: nat)
    requires b < (numPages + WINDOW - 1) / WINDOW * WINDOW
    ensures b / SUPER + 1 <= RoundUpShift(numPages, MAX_ORDER + 1)
  {
    hide RoundUpShift;
    var last := LastPage(b, numPages);
    SupersCover(last, numPages);
  }

  lemma LastPage(b: nat, numPages: nat) returns (last: nat)
    requires b < (numPages + WINDOW - 1) / WINDOW * WINDOW
    ensures last < numPages && b / SUPER == last / SUPER
  {
    last := b;
    if b >= numPages {
      last := numPages - 1;
      WindowCount(numPages);
      SameWindow(b, last, last / WINDOW);
      TwoWindows(b);
      TwoWindows(last);
    }
  }

  lemma WindowCount(numPages: nat)
    ensures numPages == 0 ==> (numPages + WINDOW - 1) / WINDOW == 0
    ensures numPages > 0 ==> (numPages + WINDOW - 1) / WINDOW == (numPages - 1) / WINDOW + 1
  {
  }

  lemma SameWindow(b: nat, last: nat, w: nat)
    requires w == last / WINDOW && last <= b < (w + 1) * WINDOW
    ensures b / WINDOW == w
  {
  }

  lemma TwoWindows(x: nat)
    ensures x / SUPER == x / WINDOW / 2
  {
  }

  lemma SuperIndex(b: nat, o: nat, numPages: nat)
    requires o <= MAX_ORDER && b / SUPER + 1 <= RoundUpShift(numPages, MAX_ORDER + 1)
    ensures IndexOf(b, o) < BitmapBits(numPages)
  {
    hide RoundUpShift, IndexOf, Slot;
    IndexForm(b, o);
    OneMore(b / SUPER, MAX_BLOCK_BITS);
    MulMonotone(b / SUPER + 1, RoundUpShift(numPages, MAX_ORDER + 1), MAX_BLOCK_BITS);
  }
}
