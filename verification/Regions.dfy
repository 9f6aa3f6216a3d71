/** Usable physical memory, early reservations from it, and the pages the buddy allocator takes over. */
module Regions {
  import opened Blocks
  import opened BuddyState

  /** Free bytes from `freeStart` up to `end`. */
  datatype Region = Region(freeStart: nat, end: nat)

  /** Regions are in order within themselves, disjoint, and do not touch. */
  predicate Separated(rs: seq<Region>) {
    && (forall i | 0 <= i < |rs| :: rs[i].freeStart <= rs[i].end)
    && (forall i, j :: 0 <= i < |rs| && 0 <= j < |rs| && i != j ==>
       rs[i].end < rs[j].freeStart || rs[j].end < rs[i].freeStart)
  }

  predicate Inside(r: Region, base: nat, bytes: nat) {
    r.freeStart <= base && base + bytes <= r.end
  }

  predicate Usable(rs: seq<Region>, base: nat, bytes: nat) {
    exists i :: 0 <= i < |rs| && Inside(rs[i], base, bytes)
  }

  /** boot_mmap.c, is_block_usable: walks the regions for one that holds the whole block. */
  method IsBlockUsable(rs: seq<Region>, base: nat, bytes: nat) returns (usable: bool)
    ensures usable == Usable(rs, base, bytes)
    ensures usable <==> exists i :: 0 <= i < |rs| && rs[i].freeStart <= base && base + bytes <= rs[i].end
  {
    var i := 0;
    while i < |rs|
      invariant 0 <= i <= |rs|
      invariant forall j | 0 <= j < i :: !Inside(rs[j], base, bytes)
    {
      if Inside(rs[i], base, bytes) {
        assert rs[i].freeStart <= base;
        return true;
      }
      i := i + 1;
    }
    usable := false;
  }

  predicate UsablePage(rs: seq<Region>, base: nat, p: nat) {
    Usable(rs, base + p * PAGE_SIZE, PAGE_SIZE)
  }

  /** In separated regions a row of pages is usable as a block exactly when each of its pages is. */
  lemma {:induction false} UsableIffPages(rs: seq<Region>, base: nat, lo: nat, n: nat)
    requires Separated(rs) && n >= 1
    ensures Usable(rs, base + lo * PAGE_SIZE, n * PAGE_SIZE) <==> forall p: nat :: lo <= p < lo + n ==>
            UsablePage(rs, base, p)
  {
    if Usable(rs, base + lo * PAGE_SIZE, n * PAGE_SIZE) {
      var i :| 0 <= i < |rs| && Inside(rs[i], base + lo * PAGE_SIZE, n * PAGE_SIZE);
      forall p: nat | lo <= p < lo + n
        ensures UsablePage(rs, base, p)
      {
        assert Inside(rs[i], base + p * PAGE_SIZE, PAGE_SIZE);
      }
    }
    if forall p: nat :: lo <= p < lo + n ==> UsablePage(rs, base, p) {
      var i := OneRegion(rs, base, lo, n);
    }
  }

  lemma {:induction false} OneRegion(rs: seq<Region>, base: nat, lo: nat, n: nat) returns (i: nat)
    requires Separated(rs) && n >= 1 && forall p: nat :: lo <= p < lo + n ==> UsablePage(rs, base, p)
    ensures i < |rs| && Inside(rs[i], base + lo * PAGE_SIZE, n * PAGE_SIZE)
    decreases n
  {
    var last := lo + n - 1;
    assert UsablePage(rs, base, last);
    var j :| 0 <= j < |rs| && Inside(rs[j], base + last * PAGE_SIZE, PAGE_SIZE);
    i := j;
    if n > 1 {
      i := OneRegion(rs, base, lo, n - 1);
    }
  }

  // ----- the pages taken over

  const WINDOW: nat := 128

  lemma WindowIsPow2()
    ensures WINDOW == Pow2(MAX_ORDER)
  {
  }

  /** How many usable pages in a row start at `start`, up to `k`. */
  function Prefix(rs: seq<Region>, base: nat, start: nat, k: nat): (n: nat)
    ensures n <= k
    decreases k
  {
    if k == 0 || !UsablePage(rs, base, start) then 0 else 1 + Prefix(rs, base, start + 1, k - 1)
  }

  lemma {:induction false} PrefixUsable(rs: seq<Region>, base: nat, start: nat, k: nat, n: nat)
    requires n <= k
    ensures n <= Prefix(rs, base, start, k) <==> forall p: nat :: start <= p < start + n ==> UsablePage(rs, base, p)
    decreases k
  {
    if n > 0 {
      if UsablePage(rs, base, start) {
        PrefixUsable(rs, base, start + 1, k - 1, n - 1);
      }
    }
  }

  /** The pages found at initialisation: of every window the longest usable prefix. */
  ghost predicate ManagedPage(rs: seq<Region>, base: nat, windows: nat, p: nat) {
    p / WINDOW < windows && p % WINDOW < Prefix(rs, base, p / WINDOW * WINDOW, WINDOW)
  }

  ghost function Managed(rs: seq<Region>, base: nat, windows: nat): set<nat> {
    set p: nat | p < windows * WINDOW && ManagedPage(rs, base, windows, p)
  }

  lemma ManagedIff(rs: seq<Region>, base: nat, windows: nat, j: nat, i: nat)
    requires j < windows && i < WINDOW
    ensures j * WINDOW + i in Managed(rs, base, windows) <==> i < Prefix(rs, base, j * WINDOW, WINDOW)
  {
    hide Prefix;
    assert (j * WINDOW + i) / WINDOW == j && (j * WINDOW + i) % WINDOW == i;
  }

  /** The page and those before it in its window are usable. */
  ghost predicate RowUsable(rs: seq<Region>, base: nat, p: nat) {
    forall q: nat :: p / WINDOW * WINDOW <= q <= p ==> UsablePage(rs, base, q)
  }

  /** With as many windows as `numPages` pages reach, the managed pages are those with a usable row in such a window. */
  lemma ManagedRows(rs: seq<Region>, base: nat, numPages: nat, p: nat)
    ensures p in Managed(rs, base, (numPages + WINDOW - 1) / WINDOW) <==>
            p / WINDOW * WINDOW < numPages && RowUsable(rs, base, p)
  {
    hide Prefix, UsablePage;
    var w, i := p / WINDOW * WINDOW, p % WINDOW;
    PrefixUsable(rs, base, w, WINDOW, i + 1);
    assert p == w + i;
    assert RowUsable(rs, base, p) <==> forall q: nat :: w <= q < w + (i + 1) ==> UsablePage(rs, base, q);
    WindowsReach(numPages, p / WINDOW);
  }

  lemma WindowsReach(numPages: nat, j: nat)
    ensures j < (numPages + WINDOW - 1) / WINDOW <==> j * WINDOW < numPages
  {
  }

  /** A stretch of a window is managed exactly when it ends within the usable prefix. */
  lemma StretchManaged(rs: seq<Region>, base: nat, windows: nat, j: nat, i: nat, n: nat)
    requires j < windows && n >= 1 && i + n <= WINDOW
    ensures Pages(j * WINDOW + i, j * WINDOW + i + n) <= Managed(rs, base, windows)
       <==> i + n <= Prefix(rs, base, j * WINDOW, WINDOW)
  {
    hide Prefix, Managed;
    var m, w, len := Managed(rs, base, windows), j * WINDOW, Prefix(rs, base, j * WINDOW, WINDOW);
    if i + n <= len {
      forall p | p in Pages(w + i, w + i + n)
        ensures p in m
      {
        ManagedIff(rs, base, windows, j, p - w);
      }
    }
    if Pages(w + i, w + i + n) <= m {
      var last := w + i + n - 1;
      assert InRange(last, w + i, w + i + n);
      assert last in Pages(w + i, w + i + n);
      ManagedIff(rs, base, windows, j, i + n - 1);
    }
  }

  /** A block next to the managed front of a window is managed exactly when it is usable. */
  lemma NextBlockUsable(rs: seq<Region>, base: nat, windows: nat, j: nat, i: nat, n: nat)
    requires Separated(rs) && j < windows && n >= 1 && i + n <= WINDOW && i <= Prefix(rs, base, j * WINDOW, WINDOW)
    ensures Usable(rs, base + (j * WINDOW + i) * PAGE_SIZE, n * PAGE_SIZE) <==>
            Pages(j * WINDOW + i, j * WINDOW + i + n) <= Managed(rs, base, windows)
  {
    var w := j * WINDOW;
    StretchManaged(rs, base, windows, j, i, n);
    UsableIffPages(rs, base, w + i, n);
    PrefixUsable(rs, base, w, WINDOW, i);
    PrefixUsable(rs, base, w, WINDOW, i + n);
  }

  /** An aligned block below the top order lies, with its buddy, in one window. */
  lemma PairInWindow(b: nat, o: nat) returns (j: nat)
    requires o < MAX_ORDER && Aligned(b, o)
    ensures j * WINDOW <= ParentOf(b, o) && ParentOf(b, o) + 2 * Pow2(o) <= j * WINDOW + WINDOW
  {
    hide Aligned, ParentOf, BuddyOf;
    BuddyFacts(b, o);
    var a := ParentOf(b, o);
    j := a / WINDOW;
    WindowIsPow2();
    WindowAligned(j);
    Nested(a, o + 1, j * WINDOW, MAX_ORDER);
  }

  lemma WindowAligned(j: nat)
    ensures Aligned(j * WINDOW, MAX_ORDER)
  {
    WindowIsPow2();
    ModOfMultiple(j, Pow2(MAX_ORDER), 0);
  }

  /** The usability test made while coalescing says whether the buddy is managed. */
  lemma BuddyUsable(rs: seq<Region>, base: nat, windows: nat, b: nat, o: nat)
    requires Separated(rs) && o < MAX_ORDER && Aligned(b, o) && BlockPages(b, o) <= Managed(rs, base, windows)
    ensures Usable(rs, base + BuddyOf(b, o) * PAGE_SIZE, Pow2(o) * PAGE_SIZE) <==>
            BlockPages(BuddyOf(b, o), o) <= Managed(rs, base, windows)
  {
    hide *;
    BuddyFacts(b, o);
    var j := PairInWindow(b, o);
    BlockIsPages(b, o);
    BlockIsPages(BuddyOf(b, o), o);
    HalfUsable(rs, base, windows, j, ParentOf(b, o), Pow2(o), b, BuddyOf(b, o));
  }

  lemma HalfUsable(rs: seq<Region>, base: nat, windows: nat, j: nat, a: nat, n: nat, b: nat, c: nat)
    requires Separated(rs) && n >= 1 && j * WINDOW <= a && a + 2 * n <= j * WINDOW + WINDOW
    requires (b == a && c == a + n) || (b == a + n && c == a)
    requires Pages(b, b + n) <= Managed(rs, base, windows)
    ensures Usable(rs, base + c * PAGE_SIZE, n * PAGE_SIZE) <==> Pages(c, c + n) <= Managed(rs, base, windows)
  {
    hide *;
    FirstManaged(rs, base, windows, b, b + n);
    StretchManaged(rs, base, windows, j, b - j * WINDOW, n);
    NextBlockUsable(rs, base, windows, j, c - j * WINDOW, n);
  }

  lemma BlockIsPages(b: nat, o: nat)
    ensures BlockPages(b, o) == Pages(b, b + Pow2(o)) && Pow2(o) >= 1
  {
  }

  lemma FirstManaged(rs: seq<Region>, base: nat, windows: nat, b: nat, hi: nat)
    requires b < hi && Pages(b, hi) <= Managed(rs, base, windows)
    ensures b < windows * WINDOW
  {
    assert InRange(b, b, hi);
    assert b in Pages(b, hi);
  }

  // ----- early reservations

  /** Index of the first region with more than `size` bytes left, or the number of regions. */
  function FindRegion(rs: seq<Region>, size: nat, i: nat): (k: nat)
    requires i <= |rs|
    ensures i <= k <= |rs| && (k < |rs| ==> rs[k].freeStart + size < rs[k].end)
    ensures forall j | i <= j < k :: rs[j].end - rs[j].freeStart <= size
    decreases |rs| - i
  {
    if i == |rs| || rs[i].freeStart + size < rs[i].end then i else FindRegion(rs, size, i + 1)
  }

  function Reserved(rs: seq<Region>, size: nat): seq<Region> {
    var k := FindRegion(rs, size, 0);
    if k == |rs| then rs else rs[k := rs[k].(freeStart := rs[k].freeStart + size)]
  }

  /** Region `k` is the first with more than `size` bytes left. */
  predicate FirstWithRoom(rs: seq<Region>, size: nat, k: nat)
    requires k < |rs|
  {
    rs[k].end - rs[k].freeStart > size && forall j :: 0 <= j < k ==> rs[j].end - rs[j].freeStart <= size
  }

  /** The region list of boot_mmap.c. */
  class BootMap {
    var regions: seq<Region>

    constructor (rs: seq<Region>)
      ensures regions == rs
    {
      regions := rs;
    }

    /** reserve_physmem_region; the address zero stands for failure. */
    method Reserve(numPages: nat) returns (start: nat)
      requires forall i | 0 <= i < |regions| :: regions[i].freeStart <= regions[i].end
      modifies this
      ensures regions == Reserved(old(regions), numPages * PAGE_SIZE)
      ensures var k := FindRegion(old(regions), numPages * PAGE_SIZE, 0);
        start == if k < |old(regions)| then old(regions)[k].freeStart else 0
      ensures (forall j :: 0 <= j < |old(regions)| ==>
                old(regions)[j].end - old(regions)[j].freeStart <= numPages * PAGE_SIZE) ==>
              start == 0 && regions == old(regions)
      ensures forall k :: 0 <= k < |old(regions)| && FirstWithRoom(old(regions), numPages * PAGE_SIZE, k) ==>
              && start == old(regions)[k].freeStart
              && regions == old(regions)[k := Region(start + numPages * PAGE_SIZE, old(regions)[k].end)]
    {
      var size := numPages * PAGE_SIZE;
      var i := 0;
      while i < |regions| && regions[i].end - regions[i].freeStart <= size
        invariant 0 <= i <= |regions| && regions == old(regions)
        invariant FindRegion(regions, size, 0) == FindRegion(regions, size, i)
      {
        i := i + 1;
      }
      if i < |regions| {
        start := regions[i].freeStart;
        regions := regions[i := regions[i].(freeStart := start + size)];
      } else {
        start := 0;
      }
    }
  }

  datatype Range = Range(start: nat, size: nat)

  predicate Disjoint(a: Range, b: Range) {
    a.start + a.size <= b.start || b.start + b.size <= a.start
  }

  /** A run of reservations: the regions left and the ranges handed out, latest first. */
  function ReserveAll(rs: seq<Region>, sizes: seq<nat>): (seq<Region>, seq<Range>)
    decreases |sizes|
  {
    if sizes == [] then (rs, [])
    else
      var n := |sizes| - 1;
      var (now, got) := ReserveAll(rs, sizes[..n]);
      var k := FindRegion(now, sizes[n], 0);
      (Reserved(now, sizes[n]), if k < |now| then [Range(now[k].freeStart, sizes[n])] + got else got)
  }

  /** The step from `now` and `got` to `next` and `all` takes `size` bytes off the front of the first region with room
      to spare, and changes nothing if no region has. */
  ghost predicate TakesFront(now: seq<Region>, got: seq<Range>, next: seq<Region>, all: seq<Range>, size: nat) {
    && (forall k: nat :: k < |now| && FirstWithRoom(now, size, k) ==>
          && all == [Range(now[k].freeStart, size)] + got
          && next == now[k := Region(now[k].freeStart + size, now[k].end)])
    && ((forall j :: 0 <= j < |now| ==> now[j].end - now[j].freeStart <= size) ==> all == got && next == now)
  }

  /** Every reservation of a run succeeds if any region left has room to spare, and takes the front of the first. */
  lemma RunReserves(rs: seq<Region>, sizes: seq<nat>, size: nat)
    ensures ReserveAll(rs, []) == (rs, [])
    ensures TakesFront(ReserveAll(rs, sizes).0, ReserveAll(rs, sizes).1, ReserveAll(rs, sizes + [size]).0,
                       ReserveAll(rs, sizes + [size]).1, size)
  {
    assert ReserveAll(rs, []) == (rs, []);
    hide *;
    ReserveStepIs(rs, sizes, size);
    FrontTaken(ReserveAll(rs, sizes).0, ReserveAll(rs, sizes).1, size);
  }

  lemma FrontTaken(now: seq<Region>, got: seq<Range>, size: nat)
    ensures var k := FindRegion(now, size, 0);
            TakesFront(now, got, Reserved(now, size), if k < |now| then [Range(now[k].freeStart, size)] + got else got,
              size)
  {
    var k := FindRegion(now, size, 0);
    forall j: nat | j < |now| && FirstWithRoom(now, size, j)
      ensures j == k
    {
    }
  }

  lemma ReserveStepIs(rs: seq<Region>, sizes: seq<nat>, size: nat)
    ensures var now := ReserveAll(rs, sizes).0;
            var k := FindRegion(now, size, 0);
            ReserveAll(rs, sizes + [size]) ==
            (Reserved(now, size),
             if k < |now| then [Range(now[k].freeStart, size)] + ReserveAll(rs, sizes).1 else ReserveAll(rs, sizes).1)
  {
    assert (sizes + [size])[..|sizes|] == sizes;
    hide FindRegion, Reserved;
  }

  ghost predicate Behind(orig: seq<Region>, now: seq<Region>, r: Range) {
    exists i :: 0 <= i < |orig| && i < |now| && orig[i].freeStart <= r.start && r.start + r.size <= now[i].freeStart
  }

  /** What a run of reservations keeps. */
  ghost predicate ReservedOk(orig: seq<Region>, now: seq<Region>, got: seq<Range>) {
    && Separated(now) && |now| == |orig|
    && (forall i | 0 <= i < |orig| :: now[i].end == orig[i].end && orig[i].freeStart <= now[i].freeStart)
    && (forall a | 0 <= a < |got| :: Behind(orig, now, got[a]))
    && (forall a, b :: 0 <= a < b < |got| ==> Disjoint(got[a], got[b]))
  }

  lemma StaysSeparated(now: seq<Region>, size: nat, k: nat)
    requires Separated(now) && k < |now| && now[k].freeStart + size < now[k].end
    ensures Separated(now[k := now[k].(freeStart := now[k].freeStart + size)])
  {
  }

  lemma ReserveStep(orig: seq<Region>, now: seq<Region>, got: seq<Range>, size: nat, k: nat)
    requires Separated(orig) && ReservedOk(orig, now, got) && k < |now| && now[k].freeStart + size < now[k].end
    ensures ReservedOk(orig, now[k := now[k].(freeStart := now[k].freeStart + size)],
            [Range(now[k].freeStart, size)] + got)
  {
    var next := now[k := now[k].(freeStart := now[k].freeStart + size)];
    var r := Range(now[k].freeStart, size);
    StaysSeparated(now, size, k);
    forall a | 0 <= a < |got|
      ensures Behind(orig, next, got[a]) && Disjoint(r, got[a])
    {
      assert Behind(orig, now, got[a]);
      var i :| 0 <= i < |orig| && i < |now| && orig[i].freeStart <= got[a].start &&
        got[a].start + got[a].size <= now[i].freeStart;
      assert got[a].start + got[a].size <= next[i].freeStart;
    }
    assert orig[k].freeStart <= r.start && r.start + r.size <= next[k].freeStart;
    assert Behind(orig, next, r);
  }

  /** Over any run the reservations are disjoint and lie in the original regions, and nothing usable afterwards meets
      one. */
  lemma {:induction false} ReservationsSafe(rs: seq<Region>, sizes: seq<nat>)
    requires Separated(rs)
    ensures var (now, got) := ReserveAll(rs, sizes); ReservedOk(rs, now, got)
    decreases |sizes|
  {
    hide Separated, Behind, Disjoint;
    if sizes != [] {
      hide ReservedOk;
      var n := |sizes| - 1;
      ReservationsSafe(rs, sizes[..n]);
      var (now, got) := ReserveAll(rs, sizes[..n]);
      var k := FindRegion(now, sizes[n], 0);
      if k < |now| {
        ReserveStep(rs, now, got, sizes[n], k);
      }
    }
  }

  predicate InRegion(r: Region, x: nat) {
    r.freeStart <= x < r.end
  }

  predicate ByteOf(r: Range, x: nat) {
    r.start <= x < r.start + r.size
  }

  ghost predicate InRegions(rs: seq<Region>, x: nat) {
    exists i :: 0 <= i < |rs| && InRegion(rs[i], x)
  }

  ghost predicate InRanges(got: seq<Range>, x: nat) {
    exists a :: 0 <= a < |got| && ByteOf(got[a], x)
  }

  /** One reservation divides the bytes of its region, and leaves every other region. */
  lemma ReserveDivides(now: seq<Region>, size: nat, k: nat, x: nat)
    requires Separated(now) && k < |now| && now[k].freeStart + size < now[k].end
    ensures var next, r := now[k := Region(now[k].freeStart + size, now[k].end)], Range(now[k].freeStart, size);
            && (InRegions(now, x) <==> InRegions(next, x) || ByteOf(r, x))
            && !(InRegions(next, x) && ByteOf(r, x))
  {
    var next, r := now[k := Region(now[k].freeStart + size, now[k].end)], Range(now[k].freeStart, size);
    if InRegions(now, x) {
      var i :| 0 <= i < |now| && InRegion(now[i], x);
      assert i != k ==> InRegion(next[i], x);
      assert i == k && !ByteOf(r, x) ==> InRegion(next[k], x);
    }
    if InRegions(next, x) {
      var i :| 0 <= i < |next| && InRegion(next[i], x);
      assert InRegion(now[i], x);
      assert now[i].end < now[k].freeStart || now[k].end < now[i].freeStart || i == k;
    }
    if ByteOf(r, x) {
      assert InRegion(now[k], x);
    }
  }

  lemma RangesMore(got: seq<Range>, r: Range, x: nat)
    ensures InRanges([r] + got, x) <==> ByteOf(r, x) || InRanges(got, x)
  {
    if InRanges(got, x) {
      var a :| 0 <= a < |got| && ByteOf(got[a], x);
      assert ByteOf(([r] + got)[a + 1], x);
    }
    if ByteOf(r, x) {
      assert ByteOf(([r] + got)[0], x);
    }
  }

  /** Over any run every byte there was is in a region that is left or in a reservation, and never in both. */
  lemma {:induction false} ReservationsConserve(rs: seq<Region>, sizes: seq<nat>, x: nat)
    requires Separated(rs)
    ensures var (now, got) := ReserveAll(rs, sizes);
            && (InRegions(rs, x) <==> InRegions(now, x) || InRanges(got, x))
            && !(InRegions(now, x) && InRanges(got, x))
    decreases |sizes|
  {
    if sizes == [] {
    } else {
      hide *;
      var n := |sizes| - 1;
      assert sizes == sizes[..n] + [sizes[n]];
      ReservationsConserve(rs, sizes[..n], x);
      SeparatedLeft(rs, sizes[..n]);
      ReserveStepIs(rs, sizes[..n], sizes[n]);
      ConservesOne(ReserveAll(rs, sizes[..n]).0, ReserveAll(rs, sizes[..n]).1, sizes[n], x);
    }
  }

  lemma SeparatedLeft(rs: seq<Region>, sizes: seq<nat>)
    requires Separated(rs)
    ensures Separated(ReserveAll(rs, sizes).0)
  {
    ReservationsSafe(rs, sizes);
    hide Separated, ReserveAll;
  }

  lemma ConservesOne(now: seq<Region>, got: seq<Range>, size: nat, x: nat)
    requires Separated(now) && !(InRegions(now, x) && InRanges(got, x))
    ensures var k := FindRegion(now, size, 0);
            var (next, all) :=
              (Reserved(now, size), if k < |now| then [Range(now[k].freeStart, size)] + got else got);
            && (InRegions(now, x) || InRanges(got, x) <==> InRegions(next, x) || InRanges(all, x))
            && !(InRegions(next, x) && InRanges(all, x))
  {
    hide Separated, InRegions, InRanges, ByteOf;
    var k := FindRegion(now, size, 0);
    if k < |now| {
      ReserveDivides(now, size, k, x);
      RangesMore(got, Range(now[k].freeStart, size), x);
    }
  }

  /** No block that is usable after a run of reservations overlaps any of them. */
  lemma UsableMissesReserved(rs: seq<Region>, sizes: seq<nat>, a: nat, base: nat, bytes: nat)
    requires Separated(rs) && a < |ReserveAll(rs, sizes).1| && Usable(ReserveAll(rs, sizes).0, base, bytes)
    ensures Disjoint(ReserveAll(rs, sizes).1[a], Range(base, bytes))
    ensures Usable(rs, ReserveAll(rs, sizes).1[a].start, ReserveAll(rs, sizes).1[a].size)
  {
    var (now, got) := ReserveAll(rs, sizes);
    ReservationsSafe(rs, sizes);
    assert Behind(rs, now, got[a]);
    var i :| 0 <= i < |rs| && i < |now| && rs[i].freeStart <= got[a].start &&
      got[a].start + got[a].size <= now[i].freeStart;
    assert Inside(rs[i], got[a].start, got[a].size);
    var j :| 0 <= j < |now| && Inside(now[j], base, bytes);
    assert now[i].freeStart <= now[i].end;
  }

  /** The buddy allocator, set up from the regions left, manages no page that meets a reservation. */
  lemma ManagedMissesReserved(rs: seq<Region>, sizes: seq<nat>, a: nat, base: nat, windows: nat, p: nat)
    requires Separated(rs) && a < |ReserveAll(rs, sizes).1| && p in Managed(ReserveAll(rs, sizes).0, base, windows)
    ensures Disjoint(ReserveAll(rs, sizes).1[a], Range(base + p * PAGE_SIZE, PAGE_SIZE))
  {
    hide Usable, Disjoint, ReserveAll, Prefix;
    var now := ReserveAll(rs, sizes).0;
    var w, i := p / WINDOW * WINDOW, p % WINDOW;
    PrefixUsable(now, base, w, WINDOW, i + 1);
    assert w <= p < w + (i + 1);
    assert UsablePage(now, base, p);
    UsableMissesReserved(rs, sizes, a, base + p * PAGE_SIZE, PAGE_SIZE);
  }
}
