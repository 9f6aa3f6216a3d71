/** The pool of free list nodes over whole runs: what the threshold keeps ready is enough for the next call. */
module PoolRuns {
  import opened Options
  import opened Blocks
  import opened Lists
  import opened PairIndex
  import opened BuddyState
  import opened BuddySpec
  import opened PhysSpec
  import opened PhysProofs
  import opened PhysAllocation
  import opened NodeBound
  import opened BuddyRuns

  // ----- nodes that an allocation takes

  lemma PopNodes(s: Buddy, o: nat) returns (t: Buddy)
    requires o < |s.lists| && s.lists[o] != [] && NoDup(s.lists[o])
    ensures t == PopHead(s, o) && |t.lists| == |s.lists| && NodesInUse(t) + 1 == NodesInUse(s)
  {
    hide IndexOf;
    t := PopHead(s, o);
    WithoutFacts(s.lists[o], s.lists[o][0]);
    OneListGrows(s.lists, t.lists, o, |s.lists|, -1);
  }

  lemma {:induction false} SplitNodesTaken(s: Buddy, b: nat, q: nat, target: nat) returns (t: Buddy)
    requires target < q <= MAX_ORDER && |s.lists| == MAX_ORDER + 1
    ensures t == SplitDown(s, b, q, target) && |t.lists| == |s.lists| && NodesInUse(t) == NodesInUse(s) + q - target
    decreases q
  {
    hide *;
    var o := q - 1;
    if o == target {
      SplitLast(s, b, o);
      t := TogglePushNodes(s, o, b, b);
    } else {
      SplitMore(s, b, o, target);
      var u := TogglePushNodes(s, o, b + Pow2(o), b);
      t := SplitNodesTaken(u, b, o, target);
    }
  }

  lemma ListDistinct(m: set<nat>, s: Buddy, o: nat)
    requires Inv(m, s) && o <= MAX_ORDER
    ensures |s.lists| == MAX_ORDER + 1 && NoDup(s.lists[o])
  {
  }

  lemma AllocBlockNodes(m: set<nat>, s: Buddy, o: nat) returns (r: Option<nat>, t: Buddy)
    requires Inv(m, s) && o <= MAX_ORDER
    ensures |s.lists| == MAX_ORDER + 1 && (r, t) == AllocBlock(s, o) && |t.lists| == |s.lists|
    ensures NodesInUse(t) <= NodesInUse(s) + if o < MAX_ORDER then MAX_ORDER - 1 - o else 0
  {
    hide *;
    InvShape(m, s);
    AllocCases(s, o);
    if s.lists[o] != [] {
      ListDistinct(m, s, o);
      var u := PopNodes(s, o);
      r, t := Some(s.lists[o][0]), Account(u, -Bytes(o));
      AccountNodes(u, -Bytes(o));
      SameShape(u, -Bytes(o));
    } else if FindOrder(s, o + 1) <= MAX_ORDER {
      var q := FindOrder(s, o + 1);
      ListDistinct(m, s, q);
      var u := PopNodes(s, q);
      var v := SplitNodesTaken(u, s.lists[q][0], q, o);
      r, t := Some(s.lists[q][0] + Pow2(o)), Account(v, -Bytes(o));
      AccountNodes(v, -Bytes(o));
      SameShape(v, -Bytes(o));
    } else {
      r, t := None, s;
    }
  }

  lemma SameShape(s: Buddy, freed: int)
    ensures |Account(s, freed).lists| == |s.lists|
  {
  }

  /** phys_alloc never takes more than `MAX_ORDER - 1` nodes. */
  lemma PhysAllocNodes(m: set<nat>, s: Buddy, n: nat)
    requires Inv(m, s) && n >= 1
    ensures |s.lists| == MAX_ORDER + 1
    ensures NodesInUse(PhysSpec.PhysAlloc(s, n).1) + 1 <= NodesInUse(s) + MAX_ORDER
  {
    assert MAX_ORDER >= 1;
    hide *;
    InvShape(m, s);
    PhysAllocCases(s, n);
    if n <= Pow2(MAX_ORDER) {
      var o := BitOrder(n);
      var r, t := AllocBlockNodes(m, s, o);
      if r.Some? {
        ShrinkBlockNodes(t, r.value, o, n);
        FewSplits(n);
      }
    }
  }

  /** A block of the least order that holds the pages is split below its upper half only. */
  lemma FewSplits(n: nat)
    requires n >= 1
    ensures n <= Pow2(BitOrder(n)) && SplitNodes(BitOrder(n), n) <= BitOrder(n)
    ensures BitOrder(n) > 0 ==> SplitNodes(BitOrder(n), n) + 1 <= BitOrder(n)
  {
    hide BitOrder;
    BitOrderIsLeast(n);
  }

  // ----- runs

  /** Nodes that must be at hand when the call begins, for it to end without growing the pool. */
  ghost function Asked(sys: System, op: Op): nat
    requires Allowed(sys, op) && (op.Shrink? ==> sys.live[op.base] >= 1)
  {
    match op
    case Alloc(n) => MAX_ORDER - 1
    case Shrink(base, target) => NodesFor(sys.live[base], target)
    case Release(base) => MAX_ORDER
  }

  /** The spare nodes after a call and the check of the pool that ends it, where a new slab has `cells` of them. */
  function SpareAfter(spare: int, s: Buddy, t: Buddy, cells: nat): int {
    var left := spare + NodesInUse(s) - NodesInUse(t);
    if left < FREELIST_EXPANSION_THRESHOLD then left + cells else left
  }

  /** The spare nodes along a run that begins with the threshold met; a slab has as many cells or more. */
  ghost predicate Pooled(trace: seq<System>, ops: seq<Op>, spares: seq<int>, cells: nat) {
    && |spares| == |trace| == |ops| + 1 && cells >= FREELIST_EXPANSION_THRESHOLD &&
       spares[0] >= FREELIST_EXPANSION_THRESHOLD
    && forall i :: 0 <= i < |ops| ==> spares[i + 1] == SpareAfter(spares[i], trace[i].buddy, trace[i + 1].buddy, cells)
  }

  /** No shrink of the run needs more nodes than the threshold. */
  ghost predicate SmallShrinks(trace: seq<System>, ops: seq<Op>)
    requires |trace| == |ops| + 1
  {
    forall i :: 0 <= i < |ops| && ops[i].Shrink? ==> SmallShrink(trace[i], ops[i].base, ops[i].target)
  }

  ghost predicate SmallShrink(sys: System, base: nat, target: nat) {
    base in sys.live && sys.live[base] >= 1 ==> NodesFor(sys.live[base], target) <= FREELIST_EXPANSION_THRESHOLD
  }

  /** One call takes no more nodes than it asks for. */
  lemma StepNodes(m: set<nat>, sys: System, op: Op)
    requires SystemInv(m, sys) && Allowed(sys, op)
    ensures |sys.buddy.lists| == MAX_ORDER + 1 && (op.Shrink? ==> sys.live[op.base] >= 1)
    ensures NodesInUse(Step(m, sys, op).buddy) <= NodesInUse(sys.buddy) + Asked(sys, op)
  {
    hide Inv, FreePages, Pages, Aligned, BitOrder, Held, LiveApart, Covered, PhysSpec.PhysAlloc, PhysShrink,
         PhysSpec.PhysFree, NodesInUse, NodesFor;
    InvShape(m, sys.buddy);
    match op
    case Alloc(n) =>
      PhysAllocNodes(m, sys.buddy, n);
    case Shrink(base, target) =>
      ShrinkTakes(m, sys.buddy, base, sys.live[base], target);
    case Release(base) =>
      ShrinkTakes(m, sys.buddy, base, sys.live[base], 0);
      PhysFreeIs(m, sys.buddy, base, sys.live[base]);
      FreeAsks(sys.live[base]);
  }

  lemma FreeAsks(n: nat)
    requires 1 <= n <= Pow2(MAX_ORDER)
    ensures NodesFor(n, 0) <= MAX_ORDER
  {
    hide BitOrder;
    FreeNodes(n);
    FreeNeeds(n, BitOrder(n) + 1);
  }

  /** Over every run whose shrinks need no more than the threshold, each call finds the nodes it asks for in the pool,
      so that the pool grows between calls only. */
  lemma {:induction false} PoolSuffices(m: set<nat>, trace: seq<System>, ops: seq<Op>, spares: seq<int>, cells: nat,
          i: nat)
    requires BuddyRuns.Run(m, trace, ops) && Pooled(trace, ops, spares, cells) && SmallShrinks(trace, ops) &&
             i < |trace|
    ensures spares[i] >= FREELIST_EXPANSION_THRESHOLD
    ensures i < |ops| ==> Allowed(trace[i], ops[i]) && (ops[i].Shrink? ==> trace[i].live[ops[i].base] >= 1)
    ensures i < |ops| ==> Asked(trace[i], ops[i]) <= spares[i]
    ensures i < |ops| ==> NodesInUse(trace[i + 1].buddy) - NodesInUse(trace[i].buddy) <= spares[i]
  {
    hide SystemInv, Initial, Step, NodesInUse, NodesFor;
    if i > 0 {
      PoolSuffices(m, trace, ops, spares, cells, i - 1);
      assert spares[i - 1 + 1] == SpareAfter(spares[i - 1], trace[i - 1].buddy, trace[i - 1 + 1].buddy, cells);
    }
    if i < |ops| {
      RunKeeps(m, trace, ops, i);
      assert Allowed(trace[i], ops[i]) && Follows(m, trace[i], ops[i], trace[i + 1]);
      StepNodes(m, trace[i], ops[i]);
      AskedLittle(trace[i], ops[i]);
    }
  }

  lemma AskedLittle(sys: System, op: Op)
    requires Allowed(sys, op) && (op.Shrink? ==> sys.live[op.base] >= 1 && SmallShrink(sys, op.base, op.target))
    ensures Asked(sys, op) <= FREELIST_EXPANSION_THRESHOLD
  {
    hide NodesFor;
  }
}
