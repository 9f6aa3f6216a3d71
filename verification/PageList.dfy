/** The lock-free page list of page_alloc.c as interleaved memory accesses of any number of threads. */
module PageList {

  /** A page information record by address; zero is null. */
  type Page = nat

  /** Where a thread is, with its local variables. */
  datatype Pc =
    | Idle
    | AllocRead(head: Page)                  // has read the list head
    | AllocLinked(head: Page, next: Page)    // has read next_free of that head
    | FreeRead(page: Page, current: Page)    // has read the list head
    | FreeLinked(page: Page, current: Page)  // has stored it in next_free of its page

  /** Shared memory, the threads, and the pages handed out to callers. */
  datatype State = State(head: Page, next: map<Page, Page>, threads: map<nat, Pc>, owned: set<Page>)

  /** One memory access of thread `t`; the owner of a page may write anything into its record. */
  datatype Action =
    | StartAlloc(t: nat)
    | ReadNext(t: nat)
    | CasAlloc(t: nat)
    | StartFree(t: nat, page: Page)
    | StoreNext(t: nat)
    | CasFree(t: nat)
    | OwnerWrites(page: Page, value: Page)

  function At(s: State, t: nat, pc: Pc): State {
    s.(threads := s.threads[t := pc])
  }

  predicate Enabled(s: State, a: Action) {
    match a
    case StartAlloc(t) => t in s.threads && s.threads[t].Idle?
    case ReadNext(t) => t in s.threads && s.threads[t].AllocRead? && s.threads[t].head in s.next
    case CasAlloc(t) => t in s.threads && s.threads[t].AllocLinked?
    case StartFree(t, p) => t in s.threads && s.threads[t].Idle? && p in s.owned
    case StoreNext(t) => t in s.threads && s.threads[t].FreeRead?
    case CasFree(t) => t in s.threads && s.threads[t].FreeLinked?
    case OwnerWrites(p, v) => p in s.owned
  }

  /** pfa_alloc_page and _pfa_free_page; a failed compare-and-swap that finds the list empty gives up like the first
      read. */
  function Step(s: State, a: Action): State
    requires Enabled(s, a)
  {
    match a
    case StartAlloc(t) => if s.head == 0 then s else At(s, t, AllocRead(s.head))
    case ReadNext(t) => At(s, t, AllocLinked(s.threads[t].head, s.next[s.threads[t].head]))
    case CasAlloc(t) =>
      var pc := s.threads[t];
      if s.head == pc.head then At(s, t, Idle).(head := pc.next, owned := s.owned + {pc.head})
      else At(s, t, if s.head == 0 then Idle else AllocRead(s.head))
    case StartFree(t, p) => At(s, t, FreeRead(p, s.head)).(owned := s.owned - {p})
    case StoreNext(t) =>
      var pc := s.threads[t];
      At(s, t, FreeLinked(pc.page, pc.current)).(next := s.next[pc.page := pc.current])
    case CasFree(t) =>
      var pc := s.threads[t];
      if s.head == pc.current then At(s, t, Idle).(head := pc.page)
      else At(s, t, FreeRead(pc.page, s.head))
    case OwnerWrites(p, v) => s.(next := s.next[p := v])
  }

  predicate Freeing(pc: Pc) {
    pc.FreeRead? || pc.FreeLinked?
  }

  predicate Allocating(pc: Pc) {
    pc.AllocRead? || pc.AllocLinked?
  }

  /** No page goes back on the list while an allocation that has read it as head is in flight. */
  ghost predicate Disciplined(s: State, a: Action)
    requires Enabled(s, a)
  {
    a.CasFree? && s.head == s.threads[a.t].current ==>
      forall u :: u in s.threads && Allocating(s.threads[u]) ==> s.threads[u].head != s.threads[a.t].page
  }

  // ----- the list as a stack

  ghost predicate IsList(next: map<Page, Page>, head: Page, stack: seq<Page>)
    decreases |stack|
  {
    if stack == [] then head == 0
    else head != 0 && head == stack[0] && head in next && IsList(next, next[head], stack[1..])
  }

  predicate SamePageFreed(a: Pc, b: Pc) {
    Freeing(a) && Freeing(b) && a.page == b.page
  }

  /** Each page is on the list, or owned, or being freed by one thread, and never two of these. */
  ghost predicate OnePlace(s: State, stack: seq<Page>) {
    && (forall p :: p in stack ==> p !in s.owned)
    && (forall i, j :: 0 <= i < j < |stack| ==> stack[i] != stack[j])
    && (forall t :: t in s.threads && Freeing(s.threads[t]) ==>
       s.threads[t].page !in stack && s.threads[t].page !in s.owned)
    && (forall t, u :: t in s.threads && u in s.threads && SamePageFreed(s.threads[t], s.threads[u]) ==> t == u)
  }

  /** The thread has read the successor of a page that is (still) on the list. */
  predicate StillLinked(pc: Pc, stack: seq<Page>) {
    pc.AllocLinked? && pc.head in stack
  }

  /** What the local variables of the threads still say about memory. */
  ghost predicate LocalsOk(s: State, stack: seq<Page>) {
    && (forall t :: t in s.threads && Freeing(s.threads[t]) ==> s.threads[t].page != 0)
    && (forall t :: t in s.threads && Allocating(s.threads[t]) ==>
       s.threads[t].head != 0 && s.threads[t].head in s.next)
    && (forall t :: t in s.threads && s.threads[t].FreeLinked? ==>
       s.threads[t].page in s.next && s.next[s.threads[t].page] == s.threads[t].current)
    && (forall t :: t in s.threads && StillLinked(s.threads[t], stack) && s.threads[t].head in s.next
          ==> s.next[s.threads[t].head] == s.threads[t].next)
  }

  ghost predicate Inv(s: State, stack: seq<Page>) {
    IsList(s.next, s.head, stack) && OnePlace(s, stack) && LocalsOk(s, stack) && 0 !in s.owned
  }

  lemma {:induction false} ListFrame(next: map<Page, Page>, now: map<Page, Page>, head: Page, stack: seq<Page>)
    requires IsList(next, head, stack)
    requires forall p :: p in stack && p in next ==> p in now && now[p] == next[p]
    ensures IsList(now, head, stack)
    decreases |stack|
  {
    if stack != [] {
      ListFrame(next, now, next[head], stack[1..]);
    }
  }

  lemma {:induction false} ListKnown(next: map<Page, Page>, head: Page, stack: seq<Page>)
    requires IsList(next, head, stack)
    ensures forall p :: p in stack ==> p != 0 && p in next
    decreases |stack|
  {
    if stack != [] {
      ListKnown(next, next[head], stack[1..]);
      assert stack == [stack[0]] + stack[1..];
    }
  }

  // ----- every access

  /** What an access does to the stack that the list stands for. */
  ghost function Effect(s: State, a: Action, stack: seq<Page>): seq<Page>
    requires Enabled(s, a)
  {
    if a.CasAlloc? && s.head == s.threads[a.t].head && stack != [] then stack[1..]
    else if a.CasFree? && s.head == s.threads[a.t].current then [s.threads[a.t].page] + stack
    else stack
  }

  /** A successful compare-and-swap of an allocation pops the page on top, which nobody else has. */
  lemma PopKeeps(s: State, t: nat, stack: seq<Page>)
    requires Inv(s, stack) && Enabled(s, CasAlloc(t)) && s.head == s.threads[t].head
    ensures stack != [] && s.threads[t].head == stack[0] && stack[0] !in s.owned
    ensures Inv(Step(s, CasAlloc(t)), stack[1..])
  {
    hide OnePlace, LocalsOk;
    HeadKnown(s, t, stack);
    ListKnown(s.next, s.head, stack);
    PopPlaces(s, t, stack);
    PopLocals(s, t, stack);
  }

  lemma HeadKnown(s: State, t: nat, stack: seq<Page>)
    requires Inv(s, stack) && Enabled(s, CasAlloc(t)) && s.head == s.threads[t].head
    ensures stack != [] && s.head == stack[0] && s.head != 0 && s.head in s.next && s.next[s.head] == s.threads[t].next
  {
    assert Allocating(s.threads[t]);
    assert stack != [] ==> stack[0] in stack;
    assert stack != [] ==> StillLinked(s.threads[t], stack);
  }

  lemma PopPlaces(s: State, t: nat, stack: seq<Page>)
    requires OnePlace(s, stack) && 0 !in s.owned && Enabled(s, CasAlloc(t)) && s.head == s.threads[t].head != 0
    requires stack != [] && stack[0] == s.head
    ensures stack[0] !in s.owned && OnePlace(Step(s, CasAlloc(t)), stack[1..]) && 0 !in Step(s, CasAlloc(t)).owned
  {
    assert stack[0] in stack;
    assert forall p :: p in stack[1..] ==> p in stack && p != stack[0];
  }

  lemma PopLocals(s: State, t: nat, stack: seq<Page>)
    requires LocalsOk(s, stack) && Enabled(s, CasAlloc(t)) && s.head == s.threads[t].head && stack != []
    ensures LocalsOk(Step(s, CasAlloc(t)), stack[1..])
  {
    assert forall p :: p in stack[1..] ==> p in stack;
  }

  /** A successful compare-and-swap of a free pushes the page. */
  lemma PushKeeps(s: State, t: nat, stack: seq<Page>)
    requires Inv(s, stack) && Enabled(s, CasFree(t)) && s.head == s.threads[t].current && Disciplined(s, CasFree(t))
    ensures Inv(Step(s, CasFree(t)), [s.threads[t].page] + stack)
  {
    hide OnePlace, LocalsOk;
    var p := s.threads[t].page;
    FreedKnown(s, t, stack);
    assert ([p] + stack)[1..] == stack;
    PushPlaces(s, t, stack);
    PushLocals(s, t, stack);
  }

  lemma FreedKnown(s: State, t: nat, stack: seq<Page>)
    requires LocalsOk(s, stack) && Enabled(s, CasFree(t))
    ensures var pc := s.threads[t]; pc.page != 0 && pc.page in s.next && s.next[pc.page] == pc.current
  {
    assert Freeing(s.threads[t]);
  }

  lemma PushPlaces(s: State, t: nat, stack: seq<Page>)
    requires OnePlace(s, stack) && Enabled(s, CasFree(t)) && s.head == s.threads[t].current
    ensures OnePlace(Step(s, CasFree(t)), [s.threads[t].page] + stack)
  {
    var p, n := s.threads[t].page, Step(s, CasFree(t));
    assert Freeing(s.threads[t]);
    forall u | u in n.threads && Freeing(n.threads[u])
      ensures n.threads[u].page != p
    {
      assert u != t;
      if n.threads[u].page == p {
        assert SamePageFreed(s.threads[t], s.threads[u]);
      }
    }
  }

  lemma PushLocals(s: State, t: nat, stack: seq<Page>)
    requires LocalsOk(s, stack) && Enabled(s, CasFree(t)) && s.head == s.threads[t].current &&
             Disciplined(s, CasFree(t))
    ensures LocalsOk(Step(s, CasFree(t)), [s.threads[t].page] + stack)
  {
    var p, n := s.threads[t].page, Step(s, CasFree(t));
    forall u | u in n.threads && StillLinked(n.threads[u], [p] + stack)
      ensures StillLinked(s.threads[u], stack)
    {
      assert Allocating(s.threads[u]);
    }
  }

  /** The other accesses leave the list as it is. */
  lemma OthersKeep(s: State, a: Action, stack: seq<Page>)
    requires Inv(s, stack) && Enabled(s, a)
    requires a.CasAlloc? ==> s.head != s.threads[a.t].head
    requires a.CasFree? ==> s.head != s.threads[a.t].current
    ensures Inv(Step(s, a), stack)
  {
    hide Inv, Step, Enabled;
    match a
    case StartAlloc(t) => ReadKeeps(s, a, t, stack);
    case ReadNext(t) => ReadKeeps(s, a, t, stack);
    case CasAlloc(t) => ReadKeeps(s, a, t, stack);
    case StartFree(t, p) => StartFreeKeeps(s, t, p, stack);
    case StoreNext(t) => StoreKeeps(s, t, stack);
    case CasFree(t) => RetryKeeps(s, t, stack);
    case OwnerWrites(p, v) => OwnerEnabled(s, p, v); WriteKeeps(s, p, v, stack);
  }

  lemma OwnerEnabled(s: State, p: Page, v: Page)
    requires Enabled(s, OwnerWrites(p, v))
    ensures p in s.owned
  {
  }

  /** Reading on behalf of an allocation changes only that thread's local variables. */
  lemma ReadKeeps(s: State, a: Action, t: nat, stack: seq<Page>)
    requires Inv(s, stack) && Enabled(s, a)
    requires a == StartAlloc(t) || a == ReadNext(t) || (a == CasAlloc(t) && s.head != s.threads[t].head)
    ensures Inv(Step(s, a), stack)
  {
    hide IsList;
    HeadInMemory(s, stack);
    ListKnown(s.next, s.head, stack);
    hide OnePlace;
    ReadPlaces(s, a, t, stack);
  }

  lemma ReadPlaces(s: State, a: Action, t: nat, stack: seq<Page>)
    requires OnePlace(s, stack) && Enabled(s, a)
    requires a == StartAlloc(t) || a == ReadNext(t) || (a == CasAlloc(t) && s.head != s.threads[t].head)
    ensures OnePlace(Step(s, a), stack)
  {
  }

  lemma HeadInMemory(s: State, stack: seq<Page>)
    requires IsList(s.next, s.head, stack)
    ensures s.head != 0 ==> s.head in s.next
  {
  }

  lemma StartFreeKeeps(s: State, t: nat, p: Page, stack: seq<Page>)
    requires Inv(s, stack) && Enabled(s, StartFree(t, p))
    ensures Inv(Step(s, StartFree(t, p)), stack)
  {
    hide IsList;
    var n := Step(s, StartFree(t, p));
    forall u | u in s.threads && Freeing(s.threads[u])
      ensures s.threads[u].page != p
    {
    }
    assert p !in stack;
  }

  lemma RetryKeeps(s: State, t: nat, stack: seq<Page>)
    requires Inv(s, stack) && Enabled(s, CasFree(t)) && s.head != s.threads[t].current
    ensures Inv(Step(s, CasFree(t)), stack)
  {
    hide IsList;
    var n := Step(s, CasFree(t));
    assert Freeing(s.threads[t]) && n.threads[t].page == s.threads[t].page;
    forall u, v | u in n.threads && v in n.threads && SamePageFreed(n.threads[u], n.threads[v])
      ensures u == v
    {
      assert SamePageFreed(s.threads[u], s.threads[v]);
    }
  }

  /** A thread stores only into the record of the page it is freeing, which is not on the list. */
  lemma StoreKeeps(s: State, t: nat, stack: seq<Page>)
    requires Inv(s, stack) && Enabled(s, StoreNext(t))
    ensures Inv(Step(s, StoreNext(t)), stack)
  {
    var p, n := s.threads[t].page, Step(s, StoreNext(t));
    assert Freeing(s.threads[t]);
    ListKnown(s.next, s.head, stack);
    ListFrame(s.next, n.next, s.head, stack);
    hide IsList;
    forall u, v | u in n.threads && v in n.threads && SamePageFreed(n.threads[u], n.threads[v])
      ensures u == v
    {
      assert SamePageFreed(s.threads[u], s.threads[v]);
    }
    forall u | u in n.threads && n.threads[u].FreeLinked? && u != t
      ensures n.threads[u].page != p
    {
      assert s.threads[u].page == p ==> SamePageFreed(s.threads[u], s.threads[t]);
    }
  }

  lemma WriteKeeps(s: State, p: Page, v: Page, stack: seq<Page>)
    requires Inv(s, stack) && p in s.owned
    ensures Inv(Step(s, OwnerWrites(p, v)), stack)
  {
    var n := Step(s, OwnerWrites(p, v));
    assert p !in stack;
    ListFrame(s.next, n.next, s.head, stack);
    hide IsList;
    forall u | u in s.threads && Freeing(s.threads[u])
      ensures s.threads[u].page != p
    {
    }
  }

  /** Every access of every thread keeps the list a stack, and is a push, a pop or nothing to it. */
  lemma StepKeeps(s: State, a: Action, stack: seq<Page>)
    requires Inv(s, stack) && Enabled(s, a) && Disciplined(s, a)
    ensures Inv(Step(s, a), Effect(s, a, stack))
  {
    hide Inv, Step;
    if a.CasAlloc? && s.head == s.threads[a.t].head {
      PopKeeps(s, a.t, stack);
    } else if a.CasFree? && s.head == s.threads[a.t].current {
      PushKeeps(s, a.t, stack);
    } else {
      OthersKeep(s, a, stack);
    }
  }

  // ----- whole runs

  ghost predicate Run(trace: seq<State>, actions: seq<Action>) {
    && |trace| == |actions| + 1
    && forall i :: 0 <= i < |actions| ==> StepTo(trace[i], actions[i], trace[i + 1])
  }

  ghost predicate StepTo(s: State, a: Action, next: State) {
    Enabled(s, a) && Disciplined(s, a) && next == Step(s, a)
  }

  /** The stack after the first `i` accesses, by the pushes and pops alone. */
  ghost function StackAt(trace: seq<State>, actions: seq<Action>, stack: seq<Page>, i: nat): seq<Page>
    requires Run(trace, actions) && i < |trace|
  {
    if i == 0 then stack
    else
      assert StepTo(trace[i - 1], actions[i - 1], trace[i - 1 + 1]);
      Effect(trace[i - 1], actions[i - 1], StackAt(trace, actions, stack, i - 1))
  }

  /** In every interleaving the list in memory is the stack that the successful operations so far make, in their order.
      */
  lemma {:induction false} RunIsStack(trace: seq<State>, actions: seq<Action>, stack: seq<Page>, i: nat)
    requires Run(trace, actions) && i < |trace| && Inv(trace[0], stack)
    ensures Inv(trace[i], StackAt(trace, actions, stack, i))
  {
    hide Inv, Step, Effect;
    if i > 0 {
      RunIsStack(trace, actions, stack, i - 1);
      assert StepTo(trace[i - 1], actions[i - 1], trace[i - 1 + 1]);
      StepKeeps(trace[i - 1], actions[i - 1], StackAt(trace, actions, stack, i - 1));
    }
  }

  /** Pages on the list, handed out, or on their way back. */
  ghost function AllPages(s: State, stack: seq<Page>): set<Page> {
    (set p | p in stack) + s.owned + (set t | t in s.threads && Freeing(s.threads[t]) :: s.threads[t].page)
  }

  /** No access loses or makes up a page. */
  lemma StepConserves(s: State, a: Action, stack: seq<Page>)
    requires Inv(s, stack) && Enabled(s, a)
    ensures AllPages(Step(s, a), Effect(s, a, stack)) == AllPages(s, stack)
  {
    hide IsList, LocalsOk;
    var n, now := Step(s, a), Effect(s, a, stack);
    forall p
      ensures p in AllPages(n, now) <==> p in AllPages(s, stack)
    {
      SamePlaces(s, a, stack, p);
    }
  }

  lemma SamePlaces(s: State, a: Action, stack: seq<Page>, p: Page)
    requires Inv(s, stack) && Enabled(s, a)
    ensures p in AllPages(Step(s, a), Effect(s, a, stack)) <==> p in AllPages(s, stack)
  {
    hide LocalsOk, OnePlace, Effect, IsList;
    EffectPlaces(s, a, stack, p);
    if a.CasAlloc? && s.head == s.threads[a.t].head {
      HeadKnown(s, a.t, stack);
    }
    if p in AllPages(s, stack) {
      StaysPlaced(s, a, stack, p);
    }
    if p in AllPages(Step(s, a), Effect(s, a, stack)) {
      WasPlaced(s, a, stack, p);
    }
  }

  ghost predicate Pops(s: State, a: Action) {
    Enabled(s, a) && a.CasAlloc? && s.head == s.threads[a.t].head
  }

  ghost predicate Pushes(s: State, a: Action) {
    Enabled(s, a) && a.CasFree? && s.head == s.threads[a.t].current
  }

  ghost predicate PlacesMove(s: State, a: Action, stack: seq<Page>, p: Page)
    requires Enabled(s, a)
  {
    && (Pops(s, a) ==> (p in stack <==> p in Effect(s, a, stack) || p == s.threads[a.t].head))
    && (Pushes(s, a) ==> (p in Effect(s, a, stack) <==> p in stack || p == s.threads[a.t].page))
    && (!Pops(s, a) && !Pushes(s, a) ==> Effect(s, a, stack) == stack)
  }

  lemma StaysPlaced(s: State, a: Action, stack: seq<Page>, p: Page)
    requires Enabled(s, a) && PlacesMove(s, a, stack, p) && p in AllPages(s, stack)
    ensures p in AllPages(Step(s, a), Effect(s, a, stack))
  {
    hide Effect;
    var n := Step(s, a);
    if p in s.owned {
      if a.StartFree? && a.page == p {
        assert a.t in n.threads && Freeing(n.threads[a.t]) && n.threads[a.t].page == p;
      }
    } else if p !in stack {
      var t :| t in s.threads && Freeing(s.threads[t]) && s.threads[t].page == p;
      assert t in n.threads;
    }
  }

  lemma WasPlaced(s: State, a: Action, stack: seq<Page>, p: Page)
    requires Enabled(s, a) && PlacesMove(s, a, stack, p) && p in AllPages(Step(s, a), Effect(s, a, stack))
    ensures p in AllPages(s, stack)
  {
    hide Effect;
    var n := Step(s, a);
    if Pushes(s, a) && p == s.threads[a.t].page {
      assert a.t in s.threads && Freeing(s.threads[a.t]);
    } else if p !in Effect(s, a, stack) && p !in n.owned {
      var t :| t in n.threads && Freeing(n.threads[t]) && n.threads[t].page == p;
      assert t in s.threads;
      if Freeing(s.threads[t]) {
        assert s.threads[t].page == p;
      }
    }
  }

  lemma EffectPlaces(s: State, a: Action, stack: seq<Page>, p: Page)
    requires Inv(s, stack) && Enabled(s, a)
    ensures PlacesMove(s, a, stack, p)
  {
    hide LocalsOk, OnePlace, IsList;
    if Pops(s, a) {
      HeadKnown(s, a.t, stack);
      assert stack == [stack[0]] + stack[1..];
    }
  }

  // ----- the source text

  /** As written, a failed compare-and-swap is followed by reading next_free of whatever it returned. */
  predicate DereferencesNull(s: State, a: Action)
    requires Enabled(s, a)
  {
    a.CasAlloc? && s.head != s.threads[a.t].head && s.head == 0
  }

  /** The source dereferences null exactly when an allocation reaches its compare-and-swap after the list was emptied.
      */
  lemma NullIffEmptied(s: State, t: nat, stack: seq<Page>)
    requires Inv(s, stack) && Enabled(s, CasAlloc(t))
    ensures DereferencesNull(s, CasAlloc(t)) <==> stack == []
  {
    assert Allocating(s.threads[t]);
  }

  /** Pages that callers have, or are on their way back. */
  ghost function Out(s: State): set<Page> {
    s.owned + (set t | t in s.threads && Freeing(s.threads[t]) :: s.threads[t].page)
  }

  /** Access `i` of the run reads through a null head as written. */
  ghost predicate NullAt(trace: seq<State>, actions: seq<Action>, i: nat)
    requires Run(trace, actions)
  {
    i < |actions| && StepTo(trace[i], actions[i], trace[i + 1]) && DereferencesNull(trace[i], actions[i])
  }

  /** Access `i` is the compare-and-swap of an allocation, and no page is left for it. */
  ghost predicate LateAt(trace: seq<State>, actions: seq<Action>, all: set<Page>, i: nat)
    requires Run(trace, actions)
  {
    i < |actions| && actions[i].CasAlloc? && all <= Out(trace[i])
  }

  /** The pages of a run are the same throughout. */
  lemma {:induction false} RunConserves(trace: seq<State>, actions: seq<Action>, stack: seq<Page>, i: nat)
    requires Run(trace, actions) && i < |trace| && Inv(trace[0], stack)
    ensures AllPages(trace[i], StackAt(trace, actions, stack, i)) == AllPages(trace[0], stack)
  {
    hide Inv, Step, Effect, AllPages;
    if i > 0 {
      RunConserves(trace, actions, stack, i - 1);
      RunIsStack(trace, actions, stack, i - 1);
      assert StepTo(trace[i - 1], actions[i - 1], trace[i - 1 + 1]);
      StepConserves(trace[i - 1], actions[i - 1], StackAt(trace, actions, stack, i - 1));
    }
  }

  lemma EmptyIffOut(s: State, stack: seq<Page>)
    requires Inv(s, stack)
    ensures stack == [] <==> AllPages(s, stack) <= Out(s)
  {
    hide IsList, LocalsOk;
    if stack != [] {
      assert stack[0] in stack && stack[0] in AllPages(s, stack);
    }
  }

  /** Over a whole run, the text reads through null if and only if an allocation gets to its compare-and-swap when every
      page there is has been taken. */
  lemma RunReadsNullIff(trace: seq<State>, actions: seq<Action>, stack: seq<Page>)
    requires Run(trace, actions) && Inv(trace[0], stack)
    ensures (exists i: nat :: NullAt(trace, actions, i)) <==>
            (exists i: nat :: LateAt(trace, actions, AllPages(trace[0], stack), i))
  {
    hide Inv, Step, AllPages, Out, StackAt;
    forall i: nat
      ensures NullAt(trace, actions, i) <==> LateAt(trace, actions, AllPages(trace[0], stack), i)
    {
      if i < |actions| {
        assert StepTo(trace[i], actions[i], trace[i + 1]);
        RunIsStack(trace, actions, stack, i);
        RunConserves(trace, actions, stack, i);
        EmptyIffOut(trace[i], StackAt(trace, actions, stack, i));
        if actions[i].CasAlloc? {
          NullIffEmptied(trace[i], actions[i].t, StackAt(trace, actions, stack, i));
        }
      }
    }
  }

  // ----- when an allocation ends

  /** An access of an allocation after which its thread is idle. */
  predicate EndsAlloc(s: State, a: Action) {
    Enabled(s, a) && (a.StartAlloc? || a.ReadNext? || a.CasAlloc?) && Step(s, a).threads[a.t].Idle?
  }

  /** An access that looks at the list head for the page to take, and does not take it at once. */
  predicate LooksAtHead(s: State, a: Action) {
    a.StartAlloc? || (a.CasAlloc? && Enabled(s, a) && s.head != s.threads[a.t].head)
  }

  /** An allocation ends with the page on top, which is then its own, or with none, and then no page is listed. */
  lemma AllocEnds(s: State, a: Action, stack: seq<Page>)
    requires Inv(s, stack) && EndsAlloc(s, a)
    ensures if LooksAtHead(s, a) then stack == [] && Step(s, a).owned == s.owned
            else stack != [] && stack[0] !in s.owned && Step(s, a).owned == s.owned + {stack[0]}
  {
    if a.CasAlloc? && s.head == s.threads[a.t].head {
      HeadKnown(s, a.t, stack);
      assert stack[0] in stack;
    }
  }

  /** An allocation that looks at the head of a list with pages on it goes on with the page on top. */
  lemma AllocGoesOn(s: State, a: Action, stack: seq<Page>)
    requires Inv(s, stack) && Enabled(s, a) && LooksAtHead(s, a)
    ensures stack != [] ==> Step(s, a).threads[a.t] == AllocRead(stack[0])
    ensures stack == [] ==> Step(s, a).threads[a.t] == Idle
  {
  }

  /** Access `i` ends an allocation that has got no page. */
  ghost predicate EmptyHandedAt(trace: seq<State>, actions: seq<Action>, i: nat)
    requires Run(trace, actions)
  {
    i < |actions| && EndsAlloc(trace[i], actions[i]) && trace[i + 1].owned == trace[i].owned
  }

  /** Over a whole run, an allocation ends without a page if and only if it looks at the head when every page there is
      has been taken. */
  lemma RunGivesUpIff(trace: seq<State>, actions: seq<Action>, stack: seq<Page>, i: nat)
    requires Run(trace, actions) && Inv(trace[0], stack) && i < |actions|
    ensures EmptyHandedAt(trace, actions, i) <==>
            LooksAtHead(trace[i], actions[i]) && AllPages(trace[0], stack) <= Out(trace[i])
  {
    hide Inv, Step, AllPages, Out, StackAt, EndsAlloc, LooksAtHead;
    var now := StackAt(trace, actions, stack, i);
    assert StepTo(trace[i], actions[i], trace[i + 1]);
    RunIsStack(trace, actions, stack, i);
    RunConserves(trace, actions, stack, i);
    EmptyIffOut(trace[i], now);
    GivesUpIff(trace[i], actions[i], now);
  }

  lemma GivesUpIff(s: State, a: Action, stack: seq<Page>)
    requires Inv(s, stack) && Enabled(s, a)
    ensures EndsAlloc(s, a) && Step(s, a).owned == s.owned <==> LooksAtHead(s, a) && stack == []
  {
    hide Inv;
    if EndsAlloc(s, a) {
      AllocEnds(s, a, stack);
    }
    if LooksAtHead(s, a) {
      AllocGoesOn(s, a, stack);
    }
  }

  /** A free ends only with its page on top of the list, and goes on with the same page and the head it has seen until
      then. */
  lemma FreeEnds(s: State, a: Action, stack: seq<Page>)
    requires Inv(s, stack) && Enabled(s, a) && (a.StartFree? || a.StoreNext? || a.CasFree?)
    ensures var p := if a.StartFree? then a.page else s.threads[a.t].page;
            var (next, pc) := (Step(s, a), Step(s, a).threads[a.t]);
            if pc.Idle? then a.CasFree? && IsList(next.next, next.head, [p] + stack) && next.owned == s.owned
            else Freeing(pc) && pc.page == p && next.head == s.head && p !in next.owned
                 && (a.StoreNext? || pc.current == s.head)
  {
    if a.CasFree? && s.head == s.threads[a.t].current {
      assert ([s.threads[a.t].page] + stack)[1..] == stack;
    }
  }

  /** A run in which nothing is asked of the callers. */
  ghost predicate Path(trace: seq<State>, actions: seq<Action>) {
    && |trace| == |actions| + 1
    && forall i :: 0 <= i < |actions| ==> Moves(trace[i], actions[i], trace[i + 1])
  }

  ghost predicate Moves(s: State, a: Action, next: State) {
    Enabled(s, a) && next == Step(s, a)
  }

  lemma PathOne(s: State, a: Action, next: State)
    requires Moves(s, a, next)
    ensures Path([s, next], [a])
  {
  }

  lemma PathJoin(t: seq<State>, a: seq<Action>, s: State, b: Action, next: State)
    requires Path(t, a) && t[|t| - 1] == s && Moves(s, b, next)
    ensures Path(t + [next], a + [b])
  {
    hide Moves;
    var u, c := t + [next], a + [b];
    forall i | 0 <= i < |c|
      ensures Moves(u[i], c[i], u[i + 1])
    {
      if i < |a| {
        assert Moves(t[i], a[i], t[i + 1]);
      }
    }
  }

  /** Memory and the locals of two threads. */
  function Two(head: Page, next: map<Page, Page>, first: Pc, second: Pc, owned: set<Page>): State {
    State(head, next, map[0 := first, 1 := second], owned)
  }

  lemma Extend(t: seq<State>, a: seq<Action>, s: State, b: Action, next: State)
    returns (t': seq<State>, a': seq<Action>)
    requires |t| > 0 && Path(t, a) && t[|t| - 1] == s && Moves(s, b, next)
    ensures |t'| > 0 && Path(t', a') && t'[0] == t[0] && t'[|t'| - 1] == next
  {
    hide Moves;
    PathJoin(t, a, s, b, next);
    t', a' := t + [next], a + [b];
  }

  lemma StartMoves(head: Page, m: map<Page, Page>, pc: Pc, owned: set<Page>)
    requires head != 0
    ensures Moves(Two(head, m, Idle, pc, owned), StartAlloc(0), Two(head, m, AllocRead(head), pc, owned))
    ensures Moves(Two(head, m, pc, Idle, owned), StartAlloc(1), Two(head, m, pc, AllocRead(head), owned))
  {
  }

  lemma ReadMoves(head: Page, m: map<Page, Page>, p: Page, pc: Pc, owned: set<Page>)
    requires p in m
    ensures Moves(Two(head, m, AllocRead(p), pc, owned), ReadNext(0), Two(head, m, AllocLinked(p, m[p]), pc, owned))
    ensures Moves(Two(head, m, pc, AllocRead(p), owned), ReadNext(1), Two(head, m, pc, AllocLinked(p, m[p]), owned))
  {
  }

  lemma TakeMoves(head: Page, m: map<Page, Page>, next: Page, pc: Pc, owned: set<Page>)
    ensures Moves(Two(head, m, AllocLinked(head, next), pc, owned), CasAlloc(0), Two(next, m, Idle, pc, owned + {head}))
    ensures Moves(Two(head, m, pc, AllocLinked(head, next), owned), CasAlloc(1), Two(next, m, pc, Idle, owned + {head}))
  {
  }

  lemma GiveMoves(head: Page, m: map<Page, Page>, p: Page, pc: Pc, owned: set<Page>)
    requires p in owned
    ensures Moves(Two(head, m, pc, Idle, owned), StartFree(1, p), Two(head, m, pc, FreeRead(p, head), owned - {p}))
  {
  }

  lemma LinkMoves(head: Page, m: map<Page, Page>, p: Page, pc: Pc, owned: set<Page>)
    ensures Moves(Two(head, m, pc, FreeRead(p, head), owned), StoreNext(1),
            Two(head, m[p := head], pc, FreeLinked(p, head), owned))
    ensures Moves(Two(head, m, pc, FreeLinked(p, head), owned), CasFree(1), Two(p, m, pc, Idle, owned))
  {
  }

  /** The first thread reads the list head and its successor, and pauses. */
  lemma FirstPauses(head: Page, m: map<Page, Page>) returns (trace: seq<State>, actions: seq<Action>)
    requires head != 0 && head in m
    ensures |trace| > 0 && Path(trace, actions) && trace[0] == Two(head, m, Idle, Idle, {})
    ensures trace[|trace| - 1] == Two(head, m, AllocLinked(head, m[head]), Idle, {})
  {
    hide *;
    StartMoves(head, m, Idle, {});
    ReadMoves(head, m, head, Idle, {});
    var s, r := Two(head, m, Idle, Idle, {}), Two(head, m, AllocRead(head), Idle, {});
    PathOne(s, StartAlloc(0), r);
    trace, actions := Extend([s, r], [StartAlloc(0)], r, ReadNext(0),
      Two(head, m, AllocLinked(head, m[head]), Idle, {}));
  }

  /** The second thread allocates the top page, undisturbed. */
  lemma SecondTakes(t: seq<State>, a: seq<Action>, head: Page, m: map<Page, Page>, pc: Pc, owned: set<Page>)
    returns (trace: seq<State>, actions: seq<Action>)
    requires |t| > 0 && Path(t, a) && t[|t| - 1] == Two(head, m, pc, Idle, owned) && head != 0 && head in m
    ensures |trace| > 0 && Path(trace, actions) && trace[0] == t[0]
    ensures trace[|trace| - 1] == Two(m[head], m, pc, Idle, owned + {head})
  {
    hide *;
    StartMoves(head, m, pc, owned);
    ReadMoves(head, m, head, pc, owned);
    TakeMoves(head, m, m[head], pc, owned);
    var r := Two(head, m, pc, AllocRead(head), owned);
    var l := Two(head, m, pc, AllocLinked(head, m[head]), owned);
    trace, actions := Extend(t, a, Two(head, m, pc, Idle, owned), StartAlloc(1), r);
    trace, actions := Extend(trace, actions, r, ReadNext(1), l);
    trace, actions := Extend(trace, actions, l, CasAlloc(1), Two(m[head], m, pc, Idle, owned + {head}));
  }

  /** The second thread frees a page, undisturbed. */
  lemma SecondGives(t: seq<State>, a: seq<Action>, head: Page, m: map<Page, Page>, p: Page, pc: Pc, owned: set<Page>)
    returns (trace: seq<State>, actions: seq<Action>)
    requires |t| > 0 && Path(t, a) && t[|t| - 1] == Two(head, m, pc, Idle, owned) && p in owned
    ensures |trace| > 0 && Path(trace, actions) && trace[0] == t[0]
    ensures trace[|trace| - 1] == Two(p, m[p := head], pc, Idle, owned - {p})
  {
    hide *;
    GiveMoves(head, m, p, pc, owned);
    LinkMoves(head, m, p, pc, owned - {p});
    LinkMoves(head, m[p := head], p, pc, owned - {p});
    var r := Two(head, m, pc, FreeRead(p, head), owned - {p});
    var l := Two(head, m[p := head], pc, FreeLinked(p, head), owned - {p});
    trace, actions := Extend(t, a, Two(head, m, pc, Idle, owned), StartFree(1, p), r);
    trace, actions := Extend(trace, actions, r, StoreNext(1), l);
    trace, actions := Extend(trace, actions, l, CasFree(1), Two(p, m[p := head], pc, Idle, owned - {p}));
  }

  /** Two threads race for the last page: the slower one's compare-and-swap returns null. */
  lemma LastPageRace() returns (trace: seq<State>, actions: seq<Action>)
    ensures |trace| > 0 && Path(trace, actions) && Inv(trace[0], [1])
    ensures var s := trace[|trace| - 1]; Enabled(s, CasAlloc(0)) && DereferencesNull(s, CasAlloc(0))
  {
    hide *;
    OnePageList();
    var m := map[1 := 0];
    trace, actions := FirstPauses(1, m);
    trace, actions := SecondTakes(trace, actions, 1, m, AllocLinked(1, 0), {});
    LateSwap(m, {1});
    assert {} + {1} == {1};
  }

  lemma OnePageList()
    ensures Inv(Two(1, map[1 := 0], Idle, Idle, {}), [1])
  {
    assert IsList(map[1 := 0], 0, []) && [1][1..] == [];
  }

  lemma LateSwap(m: map<Page, Page>, owned: set<Page>)
    ensures var s := Two(0, m, AllocLinked(1, 0), Idle, owned);
            Enabled(s, CasAlloc(0)) && DereferencesNull(s, CasAlloc(0))
  {
  }

  /** Without the discipline: page 1 is taken and given back while another thread still holds it as the head it read;
      that thread then makes page 2, which is in use, the head of the list. */
  lemma PageGivenBackTooSoon() returns (trace: seq<State>, actions: seq<Action>)
    ensures |trace| > 0 && Path(trace, actions) && Inv(trace[0], [1, 2])
    ensures var s := trace[|trace| - 1]; s.head != 0 && s.head in s.owned && forall stack :: !Inv(s, stack)
  {
    hide *;
    TwoPageList();
    var m, stuck := map[1 := 2, 2 := 0], AllocLinked(1, 2);
    trace, actions := FirstPauses(1, m);
    trace, actions := SecondTakes(trace, actions, 1, m, stuck, {});
    trace, actions := SecondTakes(trace, actions, 2, m, stuck, {} + {1});
    var owned := {} + {1} + {2};
    trace, actions := SecondGives(trace, actions, 0, m, 1, stuck, owned);
    TakeMoves(1, m[1 := 0], 2, Idle, owned - {1});
    var before, after := Two(1, m[1 := 0], stuck, Idle, owned - {1}), Two(2, m[1 := 0], Idle, Idle, owned - {1} + {1});
    trace, actions := Extend(trace, actions, before, CasAlloc(0), after);
    HeadInUse(m[1 := 0], owned - {1} + {1});
  }

  lemma TwoPageList()
    ensures Inv(Two(1, map[1 := 2, 2 := 0], Idle, Idle, {}), [1, 2])
  {
    var m := map[1 := 2, 2 := 0];
    assert IsList(m, 0, []) && [1, 2][1..] == [2] && [2][1..] == [] && IsList(m, 2, [2]);
  }

  lemma HeadInUse(m: map<Page, Page>, owned: set<Page>)
    requires 2 in owned
    ensures var s := Two(2, m, Idle, Idle, owned); s.head != 0 && s.head in s.owned && forall stack :: !Inv(s, stack)
  {
    var s := Two(2, m, Idle, Idle, owned);
    forall stack
      ensures !Inv(s, stack)
    {
      assert stack != [] ==> stack[0] in stack;
    }
  }
}
