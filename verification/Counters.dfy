/** The compare-and-swap retry loops of atomic.h and page.c (reference counters, page flags) as interleaved accesses
    of any number of threads to one 16-bit word. */
module Counters {

  /** A thread is outside the loop, or holds the value it will pass to its next compare-and-swap. */
  datatype Pc<W, Op> = Idle | Trying(op: Op, current: W)

  /** A finished call and the value it returned. */
  datatype Done<W, Op> = Done(op: Op, result: W)

  /** The word, the threads, and the calls finished so far in the order of their successful compare-and-swaps. */
  datatype Memory<W, Op> = Memory(value: W, threads: map<nat, Pc<W, Op>>, done: seq<Done<W, Op>>)

  /** One access to the word by thread `t`: the first read, or one compare-and-swap. */
  datatype Action<Op> = Load(t: nat, op: Op) | Cas(t: nat)

  predicate Enabled<W, Op>(s: Memory<W, Op>, a: Action<Op>) {
    a.t in s.threads && (s.threads[a.t].Idle? <==> a.Load?)
  }

  predicate Succeeds<W(==), Op>(s: Memory<W, Op>, a: Action<Op>)
    requires Enabled(s, a)
  {
    a.Cas? && s.value == s.threads[a.t].current
  }

  /** A failed compare-and-swap returns the value in memory, and the loop goes round with it. */
  function Step<W(==), Op>(apply: (Op, W) -> W, s: Memory<W, Op>, a: Action<Op>): Memory<W, Op>
    requires Enabled(s, a)
  {
    match a
    case Load(t, op) => s.(threads := s.threads[t := Trying(op, s.value)])
    case Cas(t) =>
      var op := s.threads[t].op;
      if Succeeds(s, a) then
        var v := apply(op, s.threads[t].current);
        Memory(v, s.threads[t := Idle], s.done + [Done(op, v)])
      else s.(threads := s.threads[t := Trying(op, s.value)])
  }

  ghost predicate StepTo<W, Op>(apply: (Op, W) -> W, s: Memory<W, Op>, a: Action<Op>, next: Memory<W, Op>) {
    Enabled(s, a) && next == Step(apply, s, a)
  }

  /** An interleaving from a state in which nothing has been called yet. */
  ghost predicate Run<W, Op>(apply: (Op, W) -> W, trace: seq<Memory<W, Op>>, actions: seq<Action<Op>>) {
    && |trace| == |actions| + 1
    && trace[0].done == []
    && (forall t :: t in trace[0].threads ==> trace[0].threads[t].Idle?)
    && forall i :: 0 <= i < |actions| ==> StepTo(apply, trace[i], actions[i], trace[i + 1])
  }

  /** The same operations one after another, with no interleaving. */
  function Replay<W, Op>(apply: (Op, W) -> W, start: W, done: seq<Done<W, Op>>): W {
    if done == [] then start
    else apply(done[|done| - 1].op, Replay(apply, start, done[..|done| - 1]))
  }

  /** Every finished call returned what it left in the word when the calls are taken one after another. */
  ghost predicate Sequential<W, Op>(apply: (Op, W) -> W, start: W, done: seq<Done<W, Op>>) {
    forall i :: 0 <= i < |done| ==> done[i].result == Replay(apply, start, done[..i + 1])
  }

  lemma SequentialMore<W, Op>(apply: (Op, W) -> W, start: W, done: seq<Done<W, Op>>, d: Done<W, Op>)
    requires Sequential(apply, start, done) && d.result == apply(d.op, Replay(apply, start, done))
    ensures Replay(apply, start, done + [d]) == d.result && Sequential(apply, start, done + [d])
  {
    var more := done + [d];
    assert more[..|done|] == done && more[..|more|] == more;
    forall i | 0 <= i < |more|
      ensures more[i].result == Replay(apply, start, more[..i + 1])
    {
      if i < |done| {
        assert more[..i + 1] == done[..i + 1];
      }
    }
  }

  /** In every interleaving no update is lost: the word holds what all finished calls make of it one after another, and
      each call returned the value it gave the word. */
  lemma {:induction false} NoLostUpdate<W,
          Op>(apply: (Op, W) -> W, trace: seq<Memory<W, Op>>, actions: seq<Action<Op>>, i: nat)
    requires Run(apply, trace, actions) && i < |trace|
    ensures trace[i].value == Replay(apply, trace[0].value, trace[i].done)
    ensures Sequential(apply, trace[0].value, trace[i].done)
  {
    hide Step, Enabled;
    if i > 0 {
      NoLostUpdate(apply, trace, actions, i - 1);
      assert StepTo(apply, trace[i - 1], actions[i - 1], trace[i - 1 + 1]);
      hide Replay, Sequential, Run, StepTo;
      StepSequential(apply, trace[0].value, trace[i - 1], actions[i - 1], trace[i]);
    }
  }

  lemma StepSequential<W, Op>(apply: (Op, W) -> W, start: W, s: Memory<W, Op>, a: Action<Op>, next: Memory<W, Op>)
    requires StepTo(apply, s, a, next) && s.value == Replay(apply, start, s.done) && Sequential(apply, start, s.done)
    ensures next.value == Replay(apply, start, next.done) && Sequential(apply, start, next.done)
  {
    if Succeeds(s, a) {
      var op := s.threads[a.t].op;
      SequentialMore(apply, start, s.done, Done(op, apply(op, s.value)));
    }
    hide Replay, Sequential;
  }

  /** Access `i` of a thread leaves it in the loop, and it does not run again before `j`. */
  ghost predicate WaitsUntil<W(!new), Op(!new)>(trace: seq<Memory<W, Op>>, actions: seq<Action<Op>>, i: nat, j: nat) {
    && i < j < |trace| && |trace| == |actions| + 1
    && Enabled(trace[i], actions[i]) && !Succeeds(trace[i], actions[i])
    && forall k :: i < k < j ==> actions[k].t != actions[i].t
  }

  lemma {:induction false} HeldValue<W(!new),
          Op(!new)>(apply: (Op, W) -> W, trace: seq<Memory<W, Op>>, actions: seq<Action<Op>>, i: nat, j: nat)
    requires Run(apply, trace, actions) && WaitsUntil(trace, actions, i, j)
    ensures var t := actions[i].t;
            t in trace[j].threads && trace[j].threads[t].Trying? && trace[j].threads[t].current == trace[i].value
    ensures |trace[i].done| <= |trace[j].done| &&
            (|trace[i].done| == |trace[j].done| ==> trace[j].value == trace[i].value)
    decreases j
  {
    assert StepTo(apply, trace[j - 1], actions[j - 1], trace[j - 1 + 1]);
    if j > i + 1 {
      HeldValue(apply, trace, actions, i, j - 1);
    }
  }

  /** Lock freedom: a compare-and-swap fails only if another call has finished since this thread last looked. */
  lemma RetryMeansProgress<W(!new),
          Op(!new)>(apply: (Op, W) -> W, trace: seq<Memory<W, Op>>, actions: seq<Action<Op>>, i: nat, j: nat)
    requires Run(apply, trace, actions) && WaitsUntil(trace, actions, i, j) && j < |actions| &&
             actions[j] == Cas(actions[i].t)
    requires Enabled(trace[j], actions[j]) && !Succeeds(trace[j], actions[j])
    ensures |trace[j].done| > |trace[i].done|
  {
    HeldValue(apply, trace, actions, i, j);
  }

  /** A compare-and-swap finishes its call exactly when the word is as the thread last saw it, and then the call is done
      on that word; otherwise the thread goes round again with the same call. */
  lemma CasFinishesIff<W(!new),
          Op(!new)>(apply: (Op, W) -> W, trace: seq<Memory<W, Op>>, actions: seq<Action<Op>>, i: nat, j: nat)
    requires Run(apply, trace, actions) && WaitsUntil(trace, actions, i, j) && j < |actions| &&
             actions[j] == Cas(actions[i].t)
    ensures var (t, now, next) := (actions[j].t, trace[j], trace[j + 1]);
            && t in now.threads && now.threads[t].Trying? && t in next.threads
            && if now.value == trace[i].value
               then && next.value == apply(now.threads[t].op, now.value) && next.threads[t].Idle?
                    && next.done == now.done + [Done(now.threads[t].op, next.value)]
               else next.value == now.value && next.done == now.done && next.threads[t].Trying?
                    && next.threads[t].op == now.threads[t].op
  {
    HeldValue(apply, trace, actions, i, j);
    assert StepTo(apply, trace[j], actions[j], trace[j + 1]);
  }

  /** Until a thread finishes a call, the call it has is the one it began with. */
  lemma {:induction false} KeepsCall<W(!new),
          Op(!new)>(apply: (Op, W) -> W, trace: seq<Memory<W, Op>>, actions: seq<Action<Op>>, i: nat, j: nat)
    requires Run(apply, trace, actions) && i < j < |trace| && actions[i].Load?
    requires forall k :: i < k < j && actions[k].t == actions[i].t ==> trace[k + 1].done == trace[k].done
    ensures var t := actions[i].t;
            t in trace[j].threads && trace[j].threads[t].Trying? && trace[j].threads[t].op == actions[i].op
    decreases j
  {
    assert StepTo(apply, trace[j - 1], actions[j - 1], trace[j - 1 + 1]);
    if j > i + 1 {
      KeepsCall(apply, trace, actions, i, j - 1);
    }
  }

  // ----- reference counters

  /** Values of a 16-bit word. */
  const WORD := 0x1_0000

  /** counter16_increment_atomic: the increment wraps around in 16 bits. */
  function Add(delta: int, v: nat): nat {
    (v + delta) % WORD
  }

  /** References taken less references dropped by the first `k` calls, starting from `start`. */
  function Count(start: int, done: seq<Done<nat, int>>, k: nat): int
    requires k <= |done|
  {
    if k == 0 then start else Count(start, done, k - 1) + done[k - 1].op
  }

  /** The word is the count in 16 bits. */
  lemma {:induction false} WordIsCount(start: nat, done: seq<Done<nat, int>>, k: nat)
    requires start < WORD && k <= |done|
    ensures Replay(Add, start, done[..k]) == Count(start, done, k) % WORD
  {
    if k > 0 {
      WordIsCount(start, done, k - 1);
      assert done[..k][..k - 1] == done[..k - 1];
    }
  }

  /** A call returns the true count at its own compare-and-swap exactly when that count fits: with 2^16 live references
      the word reads zero. */
  lemma ReturnsCountIff(trace: seq<Memory<nat, int>>, actions: seq<Action<int>>, i: nat, k: nat)
    requires Run(Add, trace, actions) && i < |trace| && trace[0].value < WORD && k < |trace[i].done|
    ensures var c := Count(trace[0].value, trace[i].done, k + 1); trace[i].done[k].result == c <==> 0 <= c < WORD
  {
    NoLostUpdate(Add, trace, actions, i);
    WordIsCount(trace[0].value, trace[i].done, k + 1);
  }

  /** Callers drop only references they hold, and never hold 2^16. */
  ghost predicate Bounded(start: nat, done: seq<Done<nat, int>>) {
    forall k :: 0 <= k <= |done| ==> 0 <= Count(start, done, k) < WORD
  }

  /** reference_page and drop_page_reference. */
  ghost predicate References(done: seq<Done<nat, int>>) {
    forall k :: 0 <= k < |done| ==> done[k].op == 1 || done[k].op == -1
  }

  /** Exactly one drop of each fall to zero returns 0: a call returns 0 if and only if it drops the last reference, and
      the call right after such a drop takes the first reference again. */
  lemma OneDropReturnsZero(trace: seq<Memory<nat, int>>, actions: seq<Action<int>>, i: nat, k: nat)
    requires Run(Add, trace, actions) && i < |trace| && trace[0].value < WORD && k < |trace[i].done|
    requires References(trace[i].done) && Bounded(trace[0].value, trace[i].done)
    ensures var d := trace[i].done; d[k].result == 0 <==> d[k].op == -1 && Count(trace[0].value, d, k) == 1
    ensures var d := trace[i].done; d[k].result == 0 && k + 1 < |d| ==> d[k + 1].op == 1 && d[k + 1].result == 1
  {
    hide Run;
    var d, n := trace[i].done, trace[0].value;
    ReturnsCountIff(trace, actions, i, k);
    assert 0 <= Count(n, d, k) && 0 <= Count(n, d, k + 1);
    if d[k].result == 0 && k + 1 < |d| {
      ReturnsCountIff(trace, actions, i, k + 1);
      assert 0 <= Count(n, d, k + 2);
    }
  }

  // ----- page flags

  /** set_page_flags_atomic and unset_page_flags_atomic; flags are the set of the bits that are 1. */
  datatype FlagOp = SetFlags(mask: set<nat>) | UnsetFlags(mask: set<nat>)

  function Flag(op: FlagOp, v: set<nat>): set<nat> {
    match op
    case SetFlags(mask) => v + mask
    case UnsetFlags(mask) => v - mask
  }

  /** Call `k` is the last of the first `n` that names this bit. */
  predicate LastToName(done: seq<Done<set<nat>, FlagOp>>, k: nat, n: nat, bit: nat) {
    k < n <= |done| && bit in done[k].op.mask && forall j :: k < j < n ==> bit !in done[j].op.mask
  }

  lemma {:induction false} LastFlagStays(start: set<nat>, done: seq<Done<set<nat>, FlagOp>>, k: nat, n: nat, bit: nat)
    requires LastToName(done, k, n, bit)
    ensures bit in Replay(Flag, start, done[..n]) <==> done[k].op.SetFlags?
    decreases n
  {
    assert done[..n][..n - 1] == done[..n - 1];
    if k < n - 1 {
      LastFlagStays(start, done, k, n - 1, bit);
    }
  }

  /** A flag bit that no call names is as it was at the start. */
  lemma {:induction false} UnnamedStays(start: set<nat>, done: seq<Done<set<nat>, FlagOp>>, n: nat, bit: nat)
    requires n <= |done| && forall j :: 0 <= j < n ==> bit !in done[j].op.mask
    ensures bit in Replay(Flag, start, done[..n]) <==> bit in start
  {
    if n > 0 {
      assert done[..n][..n - 1] == done[..n - 1];
      UnnamedStays(start, done, n - 1, bit);
    }
  }

  lemma FlagsKeepUnnamed(trace: seq<Memory<set<nat>, FlagOp>>, actions: seq<Action<FlagOp>>, i: nat, bit: nat)
    requires Run(Flag, trace, actions) && i < |trace|
    requires forall k :: 0 <= k < |trace[i].done| ==> bit !in trace[i].done[k].op.mask
    ensures bit in trace[i].value <==> bit in trace[0].value
  {
    NoLostUpdate(Flag, trace, actions, i);
    hide Run;
    var d := trace[i].done;
    UnnamedStays(trace[0].value, d, |d|, bit);
    assert d[..|d|] == d;
  }

  /** Racing flag updates never undo each other: in every interleaving each bit is as the last call that names it left
      it. */
  lemma FlagsKeepLastCall(trace: seq<Memory<set<nat>, FlagOp>>, actions: seq<Action<FlagOp>>, i: nat, k: nat, bit: nat)
    requires Run(Flag, trace, actions) && i < |trace| && LastToName(trace[i].done, k, |trace[i].done|, bit)
    ensures bit in trace[i].value <==> trace[i].done[k].op.SetFlags?
  {
    NoLostUpdate(Flag, trace, actions, i);
    hide Run;
    var d := trace[i].done;
    LastFlagStays(trace[0].value, d, k, |d|, bit);
    assert d[..|d|] == d;
  }
}
