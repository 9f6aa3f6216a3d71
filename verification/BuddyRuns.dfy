/** Whole runs of the physical allocator: any sequence of allocations, shrinks and frees. */
module BuddyRuns {
  import opened Blocks
  import opened BuddyState
  import opened BuddyCanonical
  import opened BuddySpec
  import opened BuddyAccounts
  import opened PhysSpec
  import opened PhysProofs

  /** The allocator together with what its callers hold: page counts by base. */
  datatype System = System(buddy: Buddy, live: map<nat, nat>)

  datatype Op = Alloc(n: nat) | Shrink(base: nat, target: nat) | Release(base: nat)

  /** Callers ask for at least one page and give back only what they hold. */
  predicate Allowed(sys: System, op: Op) {
    match op
    case Alloc(n) => n >= 1
    case Shrink(base, target) => base in sys.live && target >= 1
    case Release(base) => base in sys.live
  }

  ghost function Step(m: set<nat>, sys: System, op: Op): System
    requires |sys.buddy.lists| == MAX_ORDER + 1 && Allowed(sys, op)
    requires forall b :: b in sys.live ==> 1 <= sys.live[b] <= Pow2(MAX_ORDER)
  {
    match op
    case Alloc(n) =>
      var (r, t) := PhysAlloc(sys.buddy, n);
      if r.None? then System(t, sys.live) else System(t, sys.live[r.value := n])
    case Shrink(base, target) =>
      System(PhysShrink(m, sys.buddy, base, sys.live[base], target), sys.live[base := Min(target, sys.live[base])])
    case Release(base) =>
      System(PhysFree(m, sys.buddy, base, sys.live[base]), sys.live - {base})
  }

  ghost predicate LiveOk(m: set<nat>, sys: System) {
    forall b :: b in sys.live ==>
      1 <= sys.live[b] <= Pow2(MAX_ORDER) && Aligned(b, BitOrder(sys.live[b])) && Held(m, sys.buddy, b, b + sys.live[b])
  }

  ghost predicate LiveApart(sys: System) {
    forall b, c :: b in sys.live && c in sys.live && b != c ==> Pages(b, b + sys.live[b]) !! Pages(c, c + sys.live[c])
  }

  ghost predicate LivePage(sys: System, p: nat) {
    exists b :: b in sys.live && p in Pages(b, b + sys.live[b])
  }

  /** Every managed page is free or belongs to a live allocation. */
  ghost predicate Covered(m: set<nat>, sys: System) {
    forall p :: p in m ==> p in FreePages(m, sys.buddy) || LivePage(sys, p)
  }

  ghost predicate SystemInv(m: set<nat>, sys: System) {
    && Inv(m, sys.buddy) && Accounted(sys.buddy) && sys.buddy.freeBytes + sys.buddy.allocatedBytes == |m| * PAGE_SIZE
    && LiveOk(m, sys) && LiveApart(sys) && Covered(m, sys)
  }

  ghost predicate Initial(m: set<nat>, sys: System) {
    && Inv(m, sys.buddy) && FreePages(m, sys.buddy) == m && Accounted(sys.buddy)
    && sys.buddy.allocatedBytes == 0 && sys.live == map[]
  }

  lemma InitialKeeps(m: set<nat>, sys: System)
    requires Initial(m, sys)
    ensures SystemInv(m, sys)
  {
    TotalIsFreePages(m, sys.buddy);
  }

  // ----- one step

  lemma FirstPage(b: nat, n: nat)
    requires n >= 1
    ensures b in Pages(b, b + n)
  {
    assert InRange(b, b, b + n);
  }

  /** Free pages are in no live allocation. */
  lemma FreshApart(m: set<nat>, sys: System, b: nat, n: nat)
    requires LiveOk(m, sys) && n >= 1 && Pages(b, b + n) <= FreePages(m, sys.buddy)
    ensures b !in sys.live && forall c :: c in sys.live ==> Pages(c, c + sys.live[c]) !! Pages(b, b + n)
  {
    hide FreePages, Pages, Aligned, BitOrder;
    FirstPage(b, n);
    if b in sys.live {
      FirstPage(b, sys.live[b]);
    }
  }

  /** A new allocation takes only free pages. */
  lemma AllocLive(m: set<nat>, sys: System, t: Buddy, b: nat, n: nat)
    requires LiveOk(m, sys) && LiveApart(sys) && Covered(m, sys)
    requires 1 <= n <= Pow2(MAX_ORDER) && Aligned(b, BitOrder(n)) && Held(m, t, b, b + n)
    requires Pages(b, b + n) <= FreePages(m, sys.buddy) && FreePages(m, t) == FreePages(m, sys.buddy) - Pages(b, b + n)
    ensures b !in sys.live
    ensures var now := System(t, sys.live[b := n]); LiveOk(m, now) && LiveApart(now) && Covered(m, now)
  {
    hide FreePages, Aligned, BitOrder, Pages, Covered;
    FreshApart(m, sys, b, n);
    AllocCovers(m, sys, t, b, n);
  }

  lemma AllocCovers(m: set<nat>, sys: System, t: Buddy, b: nat, n: nat)
    requires Covered(m, sys) && b !in sys.live && FreePages(m, t) == FreePages(m, sys.buddy) - Pages(b, b + n)
    ensures Covered(m, System(t, sys.live[b := n]))
  {
    hide FreePages, Pages;
    var now := System(t, sys.live[b := n]);
    forall p | p in m
      ensures p in FreePages(m, t) || LivePage(now, p)
    {
      if p !in FreePages(m, t) {
        if p in Pages(b, b + n) {
          assert b in now.live && p in Pages(b, b + now.live[b]);
        } else {
          var c :| c in sys.live && p in Pages(c, c + sys.live[c]);
          assert c in now.live && p in Pages(c, c + now.live[c]);
        }
      }
    }
  }

  /** Shrinking allocation `b` to its first `k` pages frees the rest of it and touches no other. */
  lemma ShrinkLive(m: set<nat>, sys: System, t: Buddy, b: nat, k: nat)
    requires LiveOk(m, sys) && LiveApart(sys) && Covered(m, sys) && b in sys.live && 1 <= k <= sys.live[b]
    requires FreePages(m, t) == FreePages(m, sys.buddy) + Pages(b + k, b + sys.live[b])
    ensures var now := System(t, sys.live[b := k]); LiveOk(m, now) && LiveApart(now) && Covered(m, now)
  {
    hide FreePages, Aligned, BitOrder, Pages, Covered;
    SmallerAligned(b, k, sys.live[b]);
    ShrinkSets(m, sys, t, b, k, sys.live[b]);
    ShrinkCovers(m, sys, t, b, k, sys.live[b]);
  }

  lemma ShrinkCovers(m: set<nat>, sys: System, t: Buddy, b: nat, k: nat, n: nat)
    requires Covered(m, sys) && b in sys.live && n == sys.live[b]
    requires FreePages(m, t) == FreePages(m, sys.buddy) + Pages(b + k, b + n)
    requires Pages(b, b + n) == Pages(b, b + k) + Pages(b + k, b + n)
    ensures Covered(m, System(t, sys.live[b := k]))
  {
    hide FreePages, Pages;
    var now := System(t, sys.live[b := k]);
    forall p | p in m
      ensures p in FreePages(m, t) || LivePage(now, p)
    {
      if p !in FreePages(m, t) {
        var c :| c in sys.live && p in Pages(c, c + sys.live[c]);
        assert c in now.live && p in Pages(c, c + now.live[c]);
      }
    }
  }

  lemma ShrinkSets(m: set<nat>, sys: System, t: Buddy, b: nat, k: nat, n: nat)
    requires LiveOk(m, sys) && LiveApart(sys) && b in sys.live && n == sys.live[b] && 1 <= k <= n
    requires FreePages(m, t) == FreePages(m, sys.buddy) + Pages(b + k, b + n)
    requires Aligned(b, BitOrder(k))
    ensures var now := System(t, sys.live[b := k]); LiveOk(m, now) && LiveApart(now)
    ensures Pages(b, b + n) == Pages(b, b + k) + Pages(b + k, b + n)
  {
    hide FreePages, Aligned, BitOrder, Pages;
    PagesJoin(b, b + k, b + n);
  }

  lemma ReleaseLive(m: set<nat>, sys: System, t: Buddy, b: nat)
    requires LiveOk(m, sys) && LiveApart(sys) && Covered(m, sys) && b in sys.live
    requires FreePages(m, t) == FreePages(m, sys.buddy) + Pages(b, b + sys.live[b])
    ensures var now := System(t, sys.live - {b}); LiveOk(m, now) && LiveApart(now) && Covered(m, now)
  {
    hide FreePages, Aligned, BitOrder, Pages, Covered;
    ReleaseCovers(m, sys, t, b);
  }

  lemma ReleaseCovers(m: set<nat>, sys: System, t: Buddy, b: nat)
    requires Covered(m, sys) && b in sys.live
    requires FreePages(m, t) == FreePages(m, sys.buddy) + Pages(b, b + sys.live[b])
    ensures Covered(m, System(t, sys.live - {b}))
  {
    hide FreePages, Pages;
    var now := System(t, sys.live - {b});
    forall p | p in m
      ensures p in FreePages(m, t) || LivePage(now, p)
    {
      if p !in FreePages(m, t) {
        var c :| c in sys.live && p in Pages(c, c + sys.live[c]);
        assert c in now.live && p in Pages(c, c + now.live[c]);
      }
    }
  }

  lemma CountersStay(m: set<nat>, s: Buddy, t: Buddy)
    requires Accounted(s) && s.freeBytes + s.allocatedBytes == |m| * PAGE_SIZE && Conserves(s, t)
    ensures Accounted(t) && t.freeBytes + t.allocatedBytes == |m| * PAGE_SIZE
  {
  }

  lemma StepKeeps(m: set<nat>, sys: System, op: Op)
    requires SystemInv(m, sys) && Allowed(sys, op)
    ensures |sys.buddy.lists| == MAX_ORDER + 1 && SystemInv(m, Step(m, sys, op))
  {
    hide Inv, Accounted, Conserves, FreePages, Pages, Aligned, BitOrder, Held, LiveApart, Covered, PhysAlloc,
         PhysShrink, PhysFree;
    InvShape(m, sys.buddy);
    match op
    case Alloc(n) =>
      var r, t := PhysAllocKeeps(m, sys.buddy, n);
      CountersStay(m, sys.buddy, t);
      if r.Some? {
        AllocLive(m, sys, t, r.value, n);
      }
    case Shrink(base, target) =>
      var n := sys.live[base];
      var t := PhysShrinkKeeps(m, sys.buddy, base, n, target);
      CountersStay(m, sys.buddy, t);
      ShrinkLive(m, sys, t, base, Min(target, n));
    case Release(base) =>
      var n := sys.live[base];
      var t := PhysShrinkKeeps(m, sys.buddy, base, n, 0);
      PhysFreeIs(m, sys.buddy, base, n);
      CountersStay(m, sys.buddy, t);
      ReleaseLive(m, sys, t, base);
  }

  // ----- runs

  /** `trace` is a run: it starts initially and each state follows from the one before by an allowed operation. */
  ghost predicate Run(m: set<nat>, trace: seq<System>, ops: seq<Op>) {
    && |trace| == |ops| + 1 && Initial(m, trace[0])
    && forall i :: 0 <= i < |ops| ==> Allowed(trace[i], ops[i]) && Follows(m, trace[i], ops[i], trace[i + 1])
  }

  ghost predicate Follows(m: set<nat>, sys: System, op: Op, next: System) {
    && |sys.buddy.lists| == MAX_ORDER + 1 && Allowed(sys, op)
    && (forall b :: b in sys.live ==> 1 <= sys.live[b] <= Pow2(MAX_ORDER))
    && next == Step(m, sys, op)
  }

  /** Every state of every run satisfies the invariant. */
  lemma {:induction false} RunKeeps(m: set<nat>, trace: seq<System>, ops: seq<Op>, i: nat)
    requires Run(m, trace, ops) && i < |trace|
    ensures SystemInv(m, trace[i])
  {
    hide SystemInv, Initial, Step;
    if i == 0 {
      InitialKeeps(m, trace[0]);
    } else {
      RunKeeps(m, trace, ops, i - 1);
      assert Follows(m, trace[i - 1], ops[i - 1], trace[i - 1 + 1]);
      StepKeeps(m, trace[i - 1], ops[i - 1]);
    }
  }

  ghost predicate FreeRun(m: set<nat>, s: Buddy, b: nat, o: nat) {
    Aligned(b, o) && BlockPages(b, o) <= FreePages(m, s)
  }

  /** In every run an allocation of `n` pages succeeds exactly when an aligned run of the smallest order that holds them
      is free; then it adds `n` free pages to what callers hold, and otherwise nothing happens. */
  lemma RunAllocates(m: set<nat>, trace: seq<System>, ops: seq<Op>, i: nat, n: nat, o: nat)
    requires Run(m, trace, ops) && i < |ops| && ops[i] == Alloc(n) && 1 <= n <= Pow2(o) && (o > 0 ==> Pow2(o - 1) < n)
    ensures var (s, t) := (trace[i], trace[i + 1]);
            if o <= MAX_ORDER && exists b: nat :: FreeRun(m, s.buddy, b, o) then
              exists b: nat :: b !in s.live && t.live == s.live[b := n] && Pages(b, b + n) <= FreePages(m, s.buddy)
            else t == s
  {
    hide *;
    RunStep(m, trace, ops, i);
    RunKeeps(m, trace, ops, i);
    SystemGives(m, trace[i]);
    var r, t := PhysAllocKeeps(m, trace[i].buddy, n);
    PhysAllocFailsIff(m, trace[i].buddy, n, o);
    AllocStep(m, trace[i], n, trace[i + 1]);
    FreeRuns(m, trace[i].buddy, o);
    if r.Some? {
      FreshApart(m, trace[i], r.value, n);
    }
  }

  lemma FreeRuns(m: set<nat>, s: Buddy, o: nat)
    ensures (exists b: nat :: FreeRun(m, s, b, o)) <==>
            exists b: nat :: Aligned(b, o) && BlockPages(b, o) <= FreePages(m, s)
  {
    hide Aligned, BlockPages, FreePages;
    if b: nat :| Aligned(b, o) && BlockPages(b, o) <= FreePages(m, s) {
      assert FreeRun(m, s, b, o);
    }
  }

  lemma RunStep(m: set<nat>, trace: seq<System>, ops: seq<Op>, i: nat)
    requires Run(m, trace, ops) && i < |ops|
    ensures |trace| == |ops| + 1 && Follows(m, trace[i], ops[i], trace[i + 1])
  {
    hide Initial, Follows, Allowed;
  }

  lemma SystemGives(m: set<nat>, sys: System)
    requires SystemInv(m, sys)
    ensures Inv(m, sys.buddy) && LiveOk(m, sys) && |sys.buddy.lists| == MAX_ORDER + 1
  {
    InvShape(m, sys.buddy);
    hide Inv, LiveOk;
  }

  lemma AllocStep(m: set<nat>, sys: System, n: nat, next: System)
    requires Follows(m, sys, Alloc(n), next)
    ensures n >= 1 && |sys.buddy.lists| == MAX_ORDER + 1
    ensures var (r, t) := PhysAlloc(sys.buddy, n);
            next == if r.None? then System(t, sys.live) else System(t, sys.live[r.value := n])
  {
    hide PhysAlloc;
  }

  /** In every run a shrink keeps the first pages of the allocation, a release none, and the rest of it becomes free. */
  lemma RunGivesBack(m: set<nat>, trace: seq<System>, ops: seq<Op>, i: nat, base: nat)
    requires Run(m, trace, ops) && i < |ops| && !ops[i].Alloc? && ops[i].base == base
    ensures var (s, t) := (trace[i], trace[i + 1]);
            && base in s.live
            && var k :=
                 if ops[i].Release? then 0 else if ops[i].target < s.live[base] then ops[i].target else s.live[base];
            && t.live == (if ops[i].Release? then s.live - {base} else s.live[base := k])
            && FreePages(m, t.buddy) == FreePages(m, s.buddy) + Pages(base + k, base + s.live[base])
  {
    hide *;
    RunStep(m, trace, ops, i);
    RunKeeps(m, trace, ops, i);
    SystemGives(m, trace[i]);
    GiveBackStep(m, trace[i], ops[i], trace[i + 1]);
    var n := trace[i].live[base];
    HeldAt(m, trace[i], base);
    var t := PhysShrinkKeeps(m, trace[i].buddy, base, n, if ops[i].Release? then 0 else ops[i].target);
    PhysFreeIs(m, trace[i].buddy, base, n);
    MinFacts(0, n);
    if ops[i].Shrink? {
      MinFacts(ops[i].target, n);
    }
  }

  lemma HeldAt(m: set<nat>, sys: System, base: nat)
    requires LiveOk(m, sys) && base in sys.live
    ensures 1 <= sys.live[base] <= Pow2(MAX_ORDER) && Aligned(base, BitOrder(sys.live[base]))
    ensures Held(m, sys.buddy, base, base + sys.live[base])
  {
    hide Held, Aligned, BitOrder, Pow2;
  }

  lemma GiveBackStep(m: set<nat>, sys: System, op: Op, next: System)
    requires Follows(m, sys, op, next) && !op.Alloc?
    ensures op.base in sys.live && 1 <= sys.live[op.base] <= Pow2(MAX_ORDER) && |sys.buddy.lists| == MAX_ORDER + 1
    ensures op.Shrink? ==> next == System(PhysShrink(m, sys.buddy, op.base, sys.live[op.base], op.target),
                                          sys.live[op.base := Min(op.target, sys.live[op.base])]) && op.target >= 1
    ensures op.Release? ==> next == System(PhysFree(m, sys.buddy, op.base, sys.live[op.base]), sys.live - {op.base})
  {
    hide PhysShrink, PhysFree, Min;
  }

  /** At every point of every run the free lists are the maximal aligned blocks of free pages. */
  lemma RunCanonical(m: set<nat>, trace: seq<System>, ops: seq<Op>, i: nat, o: nat, b: nat)
    requires Run(m, trace, ops) && i < |trace|
    ensures Listed(trace[i].buddy, o, b) <==> Maximal(FreePages(m, trace[i].buddy), o, b)
  {
    hide Run, Maximal, Listed, FreePages;
    RunKeeps(m, trace, ops, i);
    ListedIffMaximal(m, trace[i].buddy, o, b);
  }

  /** A page is free exactly when it is managed and no live allocation has it. */
  lemma FreeIffNotLive(m: set<nat>, sys: System, p: nat)
    requires SystemInv(m, sys)
    ensures p in FreePages(m, sys.buddy) <==> p in m && !LivePage(sys, p)
  {
    hide Inv, Accounted, LiveApart, Pages, Aligned, BitOrder;
    if LivePage(sys, p) {
      var b :| b in sys.live && p in Pages(b, b + sys.live[b]);
      assert Held(m, sys.buddy, b, b + sys.live[b]);
    }
  }

  /** Two runs, however different, that end with the same pages in use leave the same allocator. */
  lemma HistoryIndependence(m: set<nat>, t1: seq<System>, ops1: seq<Op>, t2: seq<System>, ops2: seq<Op>, i: nat, j: nat)
    requires Run(m, t1, ops1) && Run(m, t2, ops2) && i < |t1| && j < |t2|
    requires forall p :: p in m ==> (LivePage(t1[i], p) <==> LivePage(t2[j], p))
    ensures SameState(m, t1[i].buddy, t2[j].buddy)
  {
    hide Run, SameState, Inv, Accounted, LiveOk, LiveApart, Covered, FreePages, LivePage;
    RunKeeps(m, t1, ops1, i);
    RunKeeps(m, t2, ops2, j);
    forall p: nat
      ensures p in FreePages(m, t1[i].buddy) <==> p in FreePages(m, t2[j].buddy)
    {
      FreeIffNotLive(m, t1[i], p);
      FreeIffNotLive(m, t2[j], p);
    }
    SamePagesSameState(m, t1[i].buddy, t2[j].buddy);
  }

  /** Conservation: the counters are the pages on the lists and the pages in use, times the page size. */
  lemma RunCounts(m: set<nat>, trace: seq<System>, ops: seq<Op>, i: nat)
    requires Run(m, trace, ops) && i < |trace|
    ensures var s := trace[i].buddy;
      && s.freeBytes == Total(s) * PAGE_SIZE == |FreePages(m, s)| * PAGE_SIZE
      && s.allocatedBytes == |m - FreePages(m, s)| * PAGE_SIZE
    ensures forall p :: p in m - FreePages(m, trace[i].buddy) <==> p in m && LivePage(trace[i], p)
  {
    hide Run, Inv, LiveOk, LiveApart, Covered, LivePage, Total;
    RunKeeps(m, trace, ops, i);
    TotalIsFreePages(m, trace[i].buddy);
    forall p: nat
      ensures p in FreePages(m, trace[i].buddy) <==> p in m && !LivePage(trace[i], p)
    {
      FreeIffNotLive(m, trace[i], p);
    }
    assert FreePages(m, trace[i].buddy) <= m;
    SetSplit(m, m - FreePages(m, trace[i].buddy), FreePages(m, trace[i].buddy));
  }
}
