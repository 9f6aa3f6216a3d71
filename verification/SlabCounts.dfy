/** The counters of a slab cache: what they should be, and what the source text makes of them. */
module SlabCounts {
  import opened Arithmetic
  import opened Lists
  import opened SlabModel

  ghost function LiveSet(l: Layout, s: Slabs): set<(nat, nat)> {
    set a, c | a in s.chains && c in UpTo(l.objs) && IsLive(l, s, a, c) :: (a, c)
  }

  ghost function FreeSet(s: Slabs): set<(nat, nat)> {
    set a, c | a in s.chains && c in s.chains[a] :: (a, c)
  }

  ghost function Grid(slabs: set<nat>, n: nat): set<(nat, nat)> {
    set a, c | a in slabs && c in UpTo(n) :: (a, c)
  }

  lemma {:induction false} GridCount(slabs: set<nat>, n: nat)
    ensures |Grid(slabs, n)| == |slabs| * n
  {
    if slabs == {} {
      assert Grid(slabs, n) == {};
    } else {
      var a :| a in slabs;
      GridCount(slabs - {a}, n);
      GridRow(slabs - {a}, a, n);
      assert slabs - {a} + {a} == slabs;
      TimesNext(|slabs - {a}|, n);
    }
  }

  lemma GridRow(slabs: set<nat>, a: nat, n: nat)
    requires a !in slabs
    ensures |Grid(slabs + {a}, n)| == |Grid(slabs, n)| + n
  {
    RowCount(a, UpTo(n));
    UpToCount(n);
    assert Grid(slabs + {a}, n) == Grid(slabs, n) + Row(a, UpTo(n));
    assert Grid(slabs, n) !! Row(a, UpTo(n));
  }

  ghost function Row(a: nat, cells: set<nat>): set<(nat, nat)> {
    set c | c in cells :: (a, c)
  }

  lemma {:induction false} RowCount(a: nat, cells: set<nat>)
    ensures |Row(a, cells)| == |cells|
  {
    if cells != {} {
      var c :| c in cells;
      RowCount(a, cells - {c});
      assert Row(a, cells) == Row(a, cells - {c}) + {(a, c)};
    }
  }

  /** Live and free objects together are the slabs times the objects of each. */
  lemma Conservation(l: Layout, s: Slabs)
    requires LayoutOk(l) && Inv(l, s)
    ensures |LiveSet(l, s)| + |FreeSet(s)| == |s.chains.Keys| * l.objs
    ensures |s.chains.Keys| == |s.free| + |s.partial| + |s.full|
  {
    LiveOrFree(l, s);
    GridCount(s.chains.Keys, l.objs);
    EverySlabListed(l, s);
  }

  lemma LiveOrFree(l: Layout, s: Slabs)
    requires ChainsOk(l, s)
    ensures LiveSet(l, s) + FreeSet(s) == Grid(s.chains.Keys, l.objs) && LiveSet(l, s) !! FreeSet(s)
  {
    forall a: nat, c: nat
      ensures (a, c) in LiveSet(l, s) + FreeSet(s) <==> (a, c) in Grid(s.chains.Keys, l.objs)
    {
      if a in s.chains {
        assert ChainOk(l, s.chains[a]);
        assert c in UpTo(l.objs) <==> c < l.objs;
      }
    }
  }

  lemma EverySlabListed(l: Layout, s: Slabs)
    requires Inv(l, s) && l.objs > 0
    ensures |s.chains.Keys| == |s.free| + |s.partial| + |s.full|
  {
    SetOfList(s.free);
    SetOfList(s.partial);
    SetOfList(s.full);
    var f, p, u := set a | a in s.free, set a | a in s.partial, set a | a in s.full;
    forall a: nat
      ensures OnOneList(a, s.chains.Keys, f, p, u)
    {
      assert ListedByCount(l, s, a);
      if a in s.chains {
        ChainLength(l, s.chains[a]) by {
          assert ChainsOk(l, s);
        }
      }
    }
    hide Inv;
    ThreeParts(s.chains.Keys, f, p, u);
  }

  predicate OnOneList(a: nat, k: set<nat>, f: set<nat>, p: set<nat>, u: set<nat>) {
    && (a in k <==> a in f || a in p || a in u)
    && !(a in f && a in p) && !(a in f && a in u) && !(a in p && a in u)
  }

  lemma ThreeParts(k: set<nat>, f: set<nat>, p: set<nat>, u: set<nat>)
    requires forall a: nat :: OnOneList(a, k, f, p, u)
    ensures |k| == |f| + |p| + |u|
  {
    forall a: nat
      ensures a in k <==> a in f + p + u
      ensures !(a in f && a in p) && !(a in f + p && a in u)
    {
      assert OnOneList(a, k, f, p, u);
    }
    assert k == f + p + u && f !! p && f + p !! u;
  }

  lemma ChainLength(l: Layout, chain: seq<nat>)
    requires ChainOk(l, chain)
    ensures |chain| <= l.objs
  {
    SetOfList(chain);
    UpToCount(l.objs);
    var s := set c | c in chain;
    SubsetCount(s, UpTo(l.objs));
  }

  // ----- the counters of a cache

  /** Slab counters hold 16 bits, object counters 32. */
  datatype Counters = Counters(free: nat, partial: nat, full: nat, inUse: nat, freeObjects: nat)

  function W16(x: int): nat {
    x % 0x1_0000
  }

  function W32(x: int): nat {
    x % 0x1_0000_0000
  }

  /** What test_slab.c:73-81 checks: the lengths of the lists, and the live and free objects. */
  ghost function TrueCounters(l: Layout, s: Slabs): Counters {
    Counters(W16(|s.free|), W16(|s.partial|), W16(|s.full|), W32(|LiveSet(l, s)|), W32(|FreeSet(s)|))
  }

  function Moved(k: Counters, free: int, partial: int, full: int): Counters {
    k.(free := W16(k.free + free), partial := W16(k.partial + partial), full := W16(k.full + full))
  }

  function Counted(k: Counters, inUse: int, freeObjects: int): Counters {
    k.(inUse := W32(k.inUse + inUse), freeObjects := W32(k.freeObjects + freeObjects))
  }

  /** How far the sizes of `t` are from those of `s`. */
  ghost predicate Differ(l: Layout, s: Slabs, t: Slabs, free: int, partial: int, full: int, live: int, spare: int) {
    && |t.free| == |s.free| + free && |t.partial| == |s.partial| + partial && |t.full| == |s.full| + full
    && |LiveSet(l, t)| == |LiveSet(l, s)| + live && |FreeSet(t)| == |FreeSet(s)| + spare
  }

  lemma MovesTrue(l: Layout, s: Slabs, t: Slabs, free: int, partial: int, full: int, live: int, spare: int)
    requires Differ(l, s, t, free, partial, full, live, spare)
    ensures Counted(Moved(TrueCounters(l, s), free, partial, full), live, spare) == TrueCounters(l, t)
  {
    hide LiveSet, FreeSet, W16, W32;
    W16Twice(|s.free|, 0, free);
    W16Twice(|s.partial|, 0, partial);
    W16Twice(|s.full|, 0, full);
    W32Twice(|LiveSet(l, s)|, 0, live);
    W32Twice(|FreeSet(s)|, 0, spare);
  }

  lemma SameLiveCount(l: Layout, s: Slabs, t: Slabs)
    requires SameLive(l, s, t)
    ensures |LiveSet(l, s)| == |LiveSet(l, t)|
  {
    forall a: nat, c: nat
      ensures (a, c) in LiveSet(l, s) <==> (a, c) in LiveSet(l, t)
    {
      assert IsLive(l, s, a, c) <==> IsLive(l, t, a, c);
    }
    assert LiveSet(l, s) == LiveSet(l, t);
  }

  lemma OneMoreCount(l: Layout, s: Slabs, t: Slabs, a: nat, c: nat)
    requires OneMoreLive(l, s, t, a, c)
    ensures |LiveSet(l, t)| == |LiveSet(l, s)| + 1
  {
    assert IsLive(l, t, a, c);
    forall b: nat, d: nat
      ensures (b, d) in LiveSet(l, t) <==> (b, d) in LiveSet(l, s) + {(a, c)}
    {
      assert IsLive(l, t, b, d) <==> IsLive(l, s, b, d) || (b == a && d == c);
    }
    assert LiveSet(l, t) == LiveSet(l, s) + {(a, c)} && (a, c) !in LiveSet(l, s);
  }

  /** Free objects make up for live ones. */
  lemma FreeCount(l: Layout, s: Slabs, t: Slabs)
    requires LayoutOk(l) && Inv(l, s) && Inv(l, t)
    ensures t.chains.Keys == s.chains.Keys ==> |FreeSet(t)| - |FreeSet(s)| == |LiveSet(l, s)| - |LiveSet(l, t)|
    ensures |t.chains.Keys| == |s.chains.Keys| + 1 ==>
            |FreeSet(t)| - |FreeSet(s)| == |LiveSet(l, s)| - |LiveSet(l, t)| + l.objs
  {
    Conservation(l, s);
    Conservation(l, t);
    hide Inv, LayoutOk, FreeSet, LiveSet;
    TimesNext(|s.chains.Keys|, l.objs);
  }

  // ----- the arithmetic of the code

  /** slab.c:86 and 89 for one slab. */
  function ReserveCounters(l: Layout, k: Counters): Counters {
    Counted(Moved(k, 1, 0, 0), 0, l.objs)
  }

  /** The same for `n` slabs. */
  function ReserveMany(l: Layout, k: Counters, n: nat): Counters {
    if n == 0 then k else ReserveCounters(l, ReserveMany(l, k, n - 1))
  }

  /** The loop of slab.c:92-99, which leaves the number of free slabs as it was. */
  function PreallocAsWritten(l: Layout, k: Counters, n: nat): Counters {
    if n == 0 then k else Counted(PreallocAsWritten(l, k, n - 1), 0, l.objs)
  }

  /** slab.c:116-117 and 109-110; a new slab brings its objects with it. */
  function ReadyCounters(l: Layout, k: Counters, s: Slabs): Counters {
    if s.partial != [] then k
    else if s.free != [] then Moved(k, -1, 1, 0)
    else Counted(Moved(k, 0, 1, 0), 0, l.objs)
  }

  /** slab.c:109-110 leaves them out. */
  function ReadyAsWritten(l: Layout, k: Counters, s: Slabs): Counters {
    if s.partial != [] then k
    else if s.free != [] then Moved(k, -1, 1, 0)
    else Moved(k, 0, 1, 0)
  }

  /** slab.c:133-138. */
  function TakeCounters(k: Counters, s: Slabs): Counters
    requires CanTake(s)
  {
    Counted(if |s.chains[s.partial[0]]| == 1 then Moved(k, 0, -1, 1) else k, 1, -1)
  }

  /** slab.c:160-172; a slab that becomes free leaves the partial ones. */
  function PutCounters(l: Layout, k: Counters, s: Slabs, a: nat): Counters
    requires a in s.chains
  {
    Counted(if s.chains[a] == [] then Moved(k, 0, 1, -1)
            else if |s.chains[a]| + 1 == l.objs then Moved(k, 1, -1, 0)
            else k, -1, 1)
  }

  /** slab.c:167-168 counts it as a full slab that becomes partial. */
  function PutAsWritten(l: Layout, k: Counters, s: Slabs, a: nat): Counters
    requires a in s.chains
  {
    Counted(if s.chains[a] == [] || |s.chains[a]| + 1 == l.objs then Moved(k, 0, 1, -1) else k, -1, 1)
  }

  // ----- and what it comes to

  lemma ReserveDiffer(l: Layout, s: Slabs, a: nat)
    requires LayoutOk(l) && Inv(l, s) && Fresh(s, a)
    ensures Differ(l, s, AddSlab(l, s, a), 1, 0, 0, 0, l.objs)
  {
    var t := AddSlab(l, s, a);
    AddSlabKeeps(l, s, a);
    SameLiveCount(l, s, t);
    assert t.chains.Keys == s.chains.Keys + {a};
    FreeCount(l, s, t);
    hide Inv, LiveSet, FreeSet, SameLive, LayoutOk;
  }

  /** Adding a slab as slab_cache_reserve does keeps the counters true. */
  lemma ReserveCounts(l: Layout, s: Slabs, a: nat)
    requires LayoutOk(l) && Inv(l, s) && Fresh(s, a)
    ensures ReserveCounters(l, TrueCounters(l, s)) == TrueCounters(l, AddSlab(l, s, a))
  {
    ReserveDiffer(l, s, a);
    MovesTrue(l, s, AddSlab(l, s, a), 1, 0, 0, 0, l.objs);
    hide Inv, LiveSet, FreeSet, LayoutOk, Fresh, AddSlab, Differ;
  }

  lemma AddedParts(l: Layout, k: Counters)
    requires InWords(k)
    ensures Counted(k, 0, l.objs) == k.(freeObjects := W32(k.freeObjects + l.objs))
    ensures InWords(Counted(k, 0, l.objs))
  {
  }

  lemma FreeInWord(k: Counters, x: int)
    requires InWords(k)
    ensures InWords(k.(free := W16(x)))
  {
  }

  lemma LagStep(l: Layout, a: Counters, b: Counters, f: nat, n: nat)
    requires n > 0 && InWords(b) && a == b.(free := W16(f + n - 1))
    ensures ReserveCounters(l, a) == Counted(b, 0, l.objs).(free := W16(f + n))
    ensures InWords(Counted(b, 0, l.objs)) && Counted(b, 0, l.objs).free == b.free
  {
    hide *;
    FreeInWord(b, f + n - 1);
    ReserveParts(l, a);
    AddedParts(l, b);
    W16Twice(f, n - 1, 1);
  }

  /** The two loops differ in the number of free slabs only. */
  lemma {:induction false} PreallocLags(l: Layout, k: Counters, n: nat)
    requires InWords(k)
    ensures ReserveMany(l, k, n) == PreallocAsWritten(l, k, n).(free := W16(k.free + n))
    ensures PreallocAsWritten(l, k, n).free == k.free && InWords(PreallocAsWritten(l, k, n))
  {
    if n > 0 {
      hide InWords, W16, ReserveCounters, Counted;
      PreallocLags(l, k, n - 1);
      LagStep(l, ReserveMany(l, k, n - 1), PreallocAsWritten(l, k, n - 1), k.free, n);
    }
  }

  lemma {:induction false} ReserveManyTrue(l: Layout, s: Slabs, blocks: seq<nat>, n: nat)
    requires LayoutOk(l) && Inv(l, s) && AllFresh(s, blocks) && n <= |blocks|
    ensures TrueCounters(l, AddSlabs(l, s, blocks[..n])) == ReserveMany(l, TrueCounters(l, s), n)
  {
    hide Inv, LiveSet, FreeSet, LayoutOk, Fresh, AllFresh, AddSlab, SameLive, TrueCounters, ReserveCounters;
    if n > 0 {
      ReserveManyTrue(l, s, blocks, n - 1);
      AddSlabsKeeps(l, s, blocks, n - 1);
      ReserveCounts(l, AddSlabs(l, s, blocks[..n - 1]), blocks[n - 1]);
    }
  }

  /** slab_cache_prealloc as written keeps the counters true exactly when it adds no slab, or a multiple of 65536, which
      its argument of eight bits cannot be. */
  lemma PreallocCounts(l: Layout, s: Slabs, blocks: seq<nat>)
    requires LayoutOk(l) && Inv(l, s) && AllFresh(s, blocks)
    ensures PreallocAsWritten(l, TrueCounters(l, s), |blocks|) == TrueCounters(l, AddSlabs(l, s, blocks)) <==>
            |blocks| % 0x1_0000 == 0
  {
    hide Inv, LiveSet, FreeSet, LayoutOk, Fresh, AllFresh, AddSlabs, SameLive, ReserveMany, PreallocAsWritten;
    ReserveManyTrue(l, s, blocks, |blocks|);
    assert blocks[..|blocks|] == blocks;
    TrueInWords(l, s);
    PreallocLags(l, TrueCounters(l, s), |blocks|);
    WordLags(|s.free|, |blocks|);
  }

  lemma WordLags(x: nat, n: nat)
    ensures W16(W16(x) + n) == W16(x) <==> n % 0x1_0000 == 0
  {
  }

  /** In the middle of slab_cache_reserve the number of free slabs is still that of `s0`. */
  lemma ReserveMove(l: Layout, k: Counters, s: Slabs, a: nat)
    requires LayoutOk(l) && Inv(l, s) && Fresh(s, a) && k == TrueCounters(l, s).(free := k.free)
    ensures k.(freeObjects := W32(k.freeObjects + l.objs)) == TrueCounters(l, AddSlab(l, s, a)).(free := k.free)
  {
    hide *;
    ReserveCounts(l, s, a);
    TrueInWords(l, s);
    NoMove(TrueCounters(l, s));
    ReserveParts(l, TrueCounters(l, s));
  }

  lemma ReserveParts(l: Layout, k: Counters)
    requires InWords(k)
    ensures ReserveCounters(l, k) == k.(free := W16(k.free + 1), freeObjects := W32(k.freeObjects + l.objs))
  {
  }

  /** slab.c:89. */
  lemma ReserveEnds(l: Layout, k: Counters, s0: Slabs, s: Slabs, n: nat)
    requires k == TrueCounters(l, s).(free := W16(|s0.free|)) && |s.free| == |s0.free| + n
    ensures k.(free := W16(k.free + n)) == TrueCounters(l, s)
  {
    hide LiveSet, FreeSet;
  }

  function If(b: bool): int {
    if b then 1 else 0
  }

  /** Objects that come with the new slab of an allocation that needs one. */
  function Added(l: Layout, s: Slabs): nat {
    if s.partial == [] && s.free == [] then l.objs else 0
  }

  lemma AllocKeys(l: Layout, s: Slabs, spare: nat)
    requires LayoutOk(l) && Inv(l, s) && SpareOk(s, spare) && CanTake(Ready(l, s, spare))
    ensures Alloc(l, s, spare).chains.Keys == if s.partial == [] &&
            s.free == [] then s.chains.Keys + {spare} else s.chains.Keys
  {
    if s.partial != [] {
      assert s.partial[0] in s.partial && ListedByCount(l, s, s.partial[0]);
    } else if s.free != [] {
      assert s.free[0] in s.free && ListedByCount(l, s, s.free[0]);
    }
  }

  /** The slab used last cell of. */
  predicate Fills(l: Layout, s: Slabs, spare: nat)
    requires CanTake(Ready(l, s, spare))
  {
    |Ready(l, s, spare).chains[Ready(l, s, spare).partial[0]]| == 1
  }

  lemma AllocLengths(l: Layout, s: Slabs, spare: nat)
    requires CanTake(Ready(l, s, spare))
    ensures var t := Alloc(l, s, spare); var full := If(Fills(l, s, spare));
      && |t.free| == |s.free| - If(s.partial == [] && s.free != [])
      && |t.partial| == |s.partial| + If(s.partial == []) - full
      && |t.full| == |s.full| + full
  {
  }

  lemma AllocDiffer(l: Layout, s: Slabs, spare: nat)
    requires LayoutOk(l) && Inv(l, s) && SpareOk(s, spare)
    ensures CanTake(Ready(l, s, spare))
    ensures Differ(l, s, Alloc(l, s, spare), 0 - If(s.partial == [] && s.free != []),
                   If(s.partial == []) - If(Fills(l, s, spare)), If(Fills(l, s, spare)), 1,
                   Added(l, s) - 1)
  {
    AllocKeeps(l, s, spare);
    var t := Alloc(l, s, spare);
    var (a, c) := NextObject(l, s, spare);
    OneMoreCount(l, s, t, a, c);
    AllocKeys(l, s, spare);
    assert SpareOk(s, spare) && Fresh(s, spare) ==> spare !in s.chains;
    FreeCount(l, s, t);
    AllocLengths(l, s, spare);
    hide Inv, LiveSet, FreeSet, OneMoreLive, LayoutOk, Fills, Alloc, NextObject, Ready;
  }

  /** The values a counter word can hold. */
  ghost predicate InWords(k: Counters) {
    && k.free < 0x1_0000 && k.partial < 0x1_0000 && k.full < 0x1_0000
    && k.inUse < 0x1_0000_0000 && k.freeObjects < 0x1_0000_0000
  }

  lemma TrueInWords(l: Layout, s: Slabs)
    ensures InWords(TrueCounters(l, s))
  {
  }

  lemma W16Twice(x: int, a: int, b: int)
    ensures W16(W16(x + a) + b) == W16(x + a + b)
  {
  }

  lemma W32Twice(x: int, a: int, b: int)
    ensures W32(W32(x + a) + b) == W32(x + a + b)
  {
  }

  /** slab.c:103-138 in one move; `added` objects come with a new slab. */
  lemma AllocMoves(k: Counters, free: int, partial: int, added: int, full: int)
    requires InWords(k)
    ensures Counted(Moved(Counted(Moved(k, free, partial, 0), 0, added), 0, -full, full), 1, -1)
      == Counted(Moved(k, free, partial - full, full), 1, added - 1)
  {
    W16Twice(k.free, free, 0);
    W16Twice(k.partial, partial, -full);
    W16Twice(k.full, 0, full);
    W32Twice(k.inUse, 0, 1);
    W32Twice(k.freeObjects, added, -1);
    hide W16, W32;
  }

  lemma ReadyMove(l: Layout, k: Counters, s: Slabs)
    requires InWords(k)
    ensures ReadyCounters(l, k, s) == Counted(Moved(k, 0 - If(s.partial == [] && s.free != []), If(s.partial == []), 0),
                                              0, Added(l, s))
    ensures ReadyAsWritten(l, k, s) ==
            Counted(Moved(k, 0 - If(s.partial == [] && s.free != []), If(s.partial == []), 0), 0, 0)
  {
  }

  lemma TakeMove(k: Counters, t: Slabs)
    requires InWords(k) && CanTake(t)
    ensures TakeCounters(k, t) ==
            Counted(Moved(k, 0, -If(|t.chains[t.partial[0]]| == 1), If(|t.chains[t.partial[0]]| == 1)), 1, -1)
  {
    NoMove(k);
    hide W16, W32;
  }

  lemma NoMove(k: Counters)
    requires InWords(k)
    ensures Moved(k, 0, 0, 0) == k
  {
  }

  /** Too few free objects by `n`. */
  lemma OffBy(k: Counters, n: nat)
    requires n < 0x1_0000_0000
    ensures Counted(k, 1, -1) == Counted(k, 1, n - 1) <==> n == 0
  {
  }

  lemma MoveStays(k: Counters, f: int, p: int, u: int, a: int, o: int)
    ensures InWords(k) ==> InWords(Counted(Moved(k, f, p, u), a, o))
  {
  }

  /** An allocation keeps the counters true if the objects of a new slab are counted; as written it does so exactly when
      no new slab was needed. */
  lemma AllocCounts(l: Layout, s: Slabs, spare: nat)
    requires LayoutOk(l) && Inv(l, s) && SpareOk(s, spare)
    ensures CanTake(Ready(l, s, spare))
    ensures TakeCounters(ReadyCounters(l, TrueCounters(l, s), s), Ready(l, s, spare)) ==
            TrueCounters(l, Alloc(l, s, spare))
    ensures TakeCounters(ReadyAsWritten(l, TrueCounters(l, s), s), Ready(l, s, spare)) ==
            TrueCounters(l, Alloc(l, s, spare))
      <==> s.partial != [] || s.free != []
  {
    AllocDiffer(l, s, spare);
    var k, t := TrueCounters(l, s), Ready(l, s, spare);
    var d, p, fills := If(s.partial == [] && s.free != []), If(s.partial == []), If(Fills(l, s, spare));
    var added: int := Added(l, s);
    assert added == 0 <==> s.partial != [] || s.free != [];
    assert fills == If(|t.chains[t.partial[0]]| == 1);
    TrueInWords(l, s);
    ObjsBound(l);
    MovesTrue(l, s, Alloc(l, s, spare), 0 - d, p - fills, fills, 1, added - 1);
    ReadyMove(l, k, s);
    hide *;
    MoveStays(k, 0 - d, p, 0, 0, added);
    MoveStays(k, 0 - d, p, 0, 0, 0);
    TakeMove(ReadyCounters(l, k, s), t);
    TakeMove(ReadyAsWritten(l, k, s), t);
    AllocMoves(k, 0 - d, p, added, fills);
    AllocMoves(k, 0 - d, p, 0, fills);
    OffBy(Moved(k, 0 - d, p - fills, fills), added);
  }

  lemma ObjsBound(l: Layout)
    requires LayoutOk(l)
    ensures 2 <= l.objs <= DATA && l.cell > 0
  {
    TimesMore(1, l.cell, l.objs);
  }

  lemma PutDiffer(l: Layout, s: Slabs, a: nat, c: nat)
    requires LayoutOk(l) && Inv(l, s) && IsLive(l, s, a, c)
    ensures var full, empty := If(s.chains[a] == []), If(s.chains[a] != [] && |s.chains[a]| + 1 == l.objs);
      Differ(l, s, Put(l, s, a, c), empty, full - empty, 0 - full, -1, 1)
  {
    var t := Put(l, s, a, c);
    PutKeeps(l, s, a, c);
    OneMoreCount(l, t, s, a, c);
    assert t.chains.Keys == s.chains.Keys;
    FreeCount(l, s, t);
    PutLengths(l, s, a, c);
    hide Inv, LiveSet, FreeSet, OneMoreLive, LayoutOk, Put;
  }

  lemma PutLengths(l: Layout, s: Slabs, a: nat, c: nat)
    requires LayoutOk(l) && Inv(l, s) && IsLive(l, s, a, c)
    ensures var t := Put(l, s, a, c);
      var full, empty := If(s.chains[a] == []), If(s.chains[a] != [] && |s.chains[a]| + 1 == l.objs);
      |t.free| == |s.free| + empty && |t.partial| == |s.partial| + full - empty && |t.full| == |s.full| - full
  {
    assert ListedByCount(l, s, a);
    if s.chains[a] == [] {
      WithoutFacts(s.full, a);
    } else if |s.chains[a]| + 1 == l.objs {
      WithoutFacts(s.partial, a);
    }
  }

  /** The first allocation of an empty cache is such a case. */
  lemma FirstAllocMiscounts(l: Layout, spare: nat)
    requires LayoutOk(l) && Fresh(NO_SLABS, spare)
    ensures Inv(l, NO_SLABS) && CanTake(Ready(l, NO_SLABS, spare))
    ensures TakeCounters(ReadyAsWritten(l, TrueCounters(l, NO_SLABS), NO_SLABS), Ready(l, NO_SLABS, spare)) !=
            TrueCounters(l, Alloc(l, NO_SLABS, spare))
  {
    EmptyInv(l);
    hide Inv, LayoutOk, Fresh, TrueCounters, TakeCounters, ReadyAsWritten, Ready, Alloc, CanTake;
    AllocCounts(l, NO_SLABS, spare);
  }

  lemma EmptyInv(l: Layout)
    ensures Inv(l, NO_SLABS)
  {
  }

  /** A free keeps the counters true if a slab that becomes free is counted as such; as written it does so exactly when
      no slab becomes free. */
  lemma PutCounts(l: Layout, s: Slabs, a: nat, c: nat)
    requires LayoutOk(l) && Inv(l, s) && IsLive(l, s, a, c)
    ensures PutCounters(l, TrueCounters(l, s), s, a) == TrueCounters(l, Put(l, s, a, c))
    ensures PutAsWritten(l, TrueCounters(l, s), s, a) == TrueCounters(l, Put(l, s, a, c)) <==>
            |s.chains[a]| + 1 < l.objs
  {
    PutDiffer(l, s, a, c);
    ChainMore(l, s.chains[a], c);
    var k := TrueCounters(l, s);
    var full, empty := If(s.chains[a] == []), If(s.chains[a] != [] && |s.chains[a]| + 1 == l.objs);
    TrueInWords(l, s);
    MovesTrue(l, s, Put(l, s, a, c), empty, full - empty, 0 - full, -1, 1);
    PutMove(l, k, s, a);
    hide Inv, LiveSet, FreeSet, TrueCounters, Put, PutCounters, PutAsWritten, Differ, W16, W32;
  }

  /** Freeing the only object of a slab is such a case. */
  lemma OnlyObjectMiscounts(l: Layout, spare: nat)
    requires LayoutOk(l) && Fresh(NO_SLABS, spare)
    ensures CanTake(Ready(l, NO_SLABS, spare))
    ensures var s, c := Alloc(l, NO_SLABS, spare), NextObject(l, NO_SLABS, spare).1;
            && Inv(l, s) && IsLive(l, s, spare, c) && spare in s.chains
            && PutAsWritten(l, TrueCounters(l, s), s, spare) != TrueCounters(l, Put(l, s, spare, c))
  {
    EmptyInv(l);
    AllocKeeps(l, NO_SLABS, spare);
    FirstObject(l, spare);
    hide Inv, LayoutOk, Fresh, TrueCounters, PutCounters, PutAsWritten, Put, Alloc, NextObject, IsLive, Ready, CanTake;
    PutCounts(l, Alloc(l, NO_SLABS, spare), spare, NextObject(l, NO_SLABS, spare).1);
  }

  lemma FirstObject(l: Layout, spare: nat)
    requires LayoutOk(l) && CanTake(Ready(l, NO_SLABS, spare))
    requires var (a, c) := NextObject(l, NO_SLABS, spare);
             c < l.objs && OneMoreLive(l, NO_SLABS, Alloc(l, NO_SLABS, spare), a, c)
    ensures var s, c := Alloc(l, NO_SLABS, spare), NextObject(l, NO_SLABS, spare).1;
            IsLive(l, s, spare, c) && spare in s.chains && |s.chains[spare]| + 1 == l.objs
  {
  }

  lemma PutMove(l: Layout, k: Counters, s: Slabs, a: nat)
    requires InWords(k) && a in s.chains
    ensures var full, empty := If(s.chains[a] == []), If(s.chains[a] != [] && |s.chains[a]| + 1 == l.objs);
      PutCounters(l, k, s, a) == Counted(Moved(k, empty, full - empty, 0 - full), -1, 1)
    ensures PutCounters(l, k, s, a) == PutAsWritten(l, k, s, a) <==> s.chains[a] == [] || |s.chains[a]| + 1 != l.objs
  {
    hide W16, W32, InWords;
    NoMove(k);
    OneMoreMoves(k);
  }

  lemma OneMoreMoves(k: Counters)
    requires InWords(k)
    ensures W16(k.free + 1) != W16(k.free + 0)
  {
  }
}
