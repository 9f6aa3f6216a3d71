/** The free lists in memory: nodes that name their successor by its distance, zero standing for none. */
module FreeStore {
  import opened Lists

  datatype Node = Node(next: int, page: nat)

  type Memory = map<int, Node>

  /** The address that node `a` links to, or zero. */
  function Follow(nodes: Memory, a: int): int
    requires a in nodes
  {
    if nodes[a].next == 0 then 0 else a + nodes[a].next
  }

  /** The distance to store in node `a` so that it links to `target`. */
  function LinkTo(a: int, target: int): (d: int)
    ensures target == 0 ==> d == 0
    ensures target != 0 ==> a + d == target
  {
    if target == 0 then 0 else target - a
  }

  /** From `head` on, the nodes are those of `c`, in order. */
  ghost predicate IsChain(nodes: Memory, head: int, c: seq<int>)
    decreases |c|
  {
    if c == [] then head == 0
    else head != 0 && head == c[0] && head in nodes && IsChain(nodes, Follow(nodes, head), c[1..])
  }

  ghost function PageOf(nodes: Memory, a: int): nat {
    if a in nodes then nodes[a].page else 0
  }

  ghost function PagesOf(nodes: Memory, c: seq<int>): seq<nat> {
    seq(|c|, i requires 0 <= i < |c| => PageOf(nodes, c[i]))
  }

  ghost function ListsOf(nodes: Memory, chains: seq<seq<int>>): seq<seq<nat>> {
    seq(|chains|, o requires 0 <= o < |chains| => PagesOf(nodes, chains[o]))
  }

  lemma NoLists(n: nat)
    ensures ListsOf(map[], seq(n, o => [])) == seq(n, o => [])
  {
    var none: seq<seq<int>> := seq(n, o => []);
    forall o | 0 <= o < n
      ensures ListsOf(map[], none)[o] == []
    {
      assert PagesOf(map[], none[o]) == [];
    }
  }

  /** Node `a` is on no list. */
  ghost predicate Loose(chains: seq<seq<int>>, a: int) {
    a != 0 && forall o | 0 <= o < |chains| :: a !in chains[o]
  }

  /** Every list head starts a chain, no node is on two lists, and the spare nodes are on none. */
  ghost predicate StoreOk(nodes: Memory, heads: seq<int>, chains: seq<seq<int>>, spare: seq<int>) {
    && |heads| == |chains|
    && (forall o | 0 <= o < |chains| :: IsChain(nodes, heads[o], chains[o]))
    && (forall o, q, a :: 0 <= o < |chains| && 0 <= q < |chains| && a in chains[o] && a in chains[q] ==> o == q)
    && NoDup(spare)
    && (forall a :: a in spare ==> Loose(chains, a))
  }

  lemma {:induction false} ChainFrame(nodes: Memory, now: Memory, head: int, c: seq<int>)
    requires IsChain(nodes, head, c)
    requires forall a :: a in c && a in nodes ==> a in now && now[a] == nodes[a]
    ensures IsChain(now, head, c)
    decreases |c|
  {
    if c != [] {
      ChainFrame(nodes, now, Follow(nodes, head), c[1..]);
    }
  }

  /** Two chains from one address are the same chain. */
  lemma {:induction false} ChainUnique(nodes: Memory, head: int, c: seq<int>, d: seq<int>)
    requires IsChain(nodes, head, c) && IsChain(nodes, head, d)
    ensures c == d
    decreases |c|
  {
    if c != [] && d != [] {
      ChainUnique(nodes, Follow(nodes, head), c[1..], d[1..]);
      assert c == [c[0]] + c[1..] && d == [d[0]] + d[1..];
    }
  }

  lemma {:induction false} ChainSuffix(nodes: Memory, head: int, c: seq<int>, i: nat)
    requires IsChain(nodes, head, c) && i < |c|
    ensures c[i] in nodes && c[i] != 0 && IsChain(nodes, c[i], c[i..])
    ensures Follow(nodes, c[i]) == if i + 1 < |c| then c[i + 1] else 0
    ensures IsChain(nodes, Follow(nodes, c[i]), c[i + 1..])
    decreases i
  {
    if i > 0 {
      ChainSuffix(nodes, Follow(nodes, head), c[1..], i - 1);
      assert c[1..][i - 1..] == c[i..];
      assert c[1..][i - 1 + 1..] == c[i + 1..];
    } else {
      assert c[0..] == c;
    }
  }

  /** A chain never comes back to a node: the lists are acyclic. */
  lemma {:induction false} ChainNoDup(nodes: Memory, head: int, c: seq<int>)
    requires IsChain(nodes, head, c)
    ensures NoDup(c)
  {
    forall i, j | 0 <= i < j < |c|
      ensures c[i] != c[j]
    {
      ChainSuffix(nodes, head, c, i);
      ChainSuffix(nodes, head, c, j);
      if c[i] == c[j] {
        ChainUnique(nodes, c[i], c[i..], c[j..]);
      }
    }
  }

  /** Changing the link before position `k` to skip it cuts exactly that node out. */
  lemma {:induction false} ChainCut(nodes: Memory, now: Memory, head: int, c: seq<int>, k: nat)
    requires IsChain(nodes, head, c) && 0 < k < |c| && c[k] in nodes
    requires forall a :: a in nodes && a != c[k - 1] ==> a in now && now[a] == nodes[a]
    requires c[k - 1] in now && Follow(now, c[k - 1]) == Follow(nodes, c[k])
    ensures IsChain(now, head, c[..k] + c[k + 1..])
    decreases k
  {
    ChainNoDup(nodes, head, c);
    if k == 1 {
      ChainSuffix(nodes, head, c, 1);
      ChainFrame(nodes, now, Follow(nodes, c[1]), c[2..]);
      assert c[..1] + c[2..] == [c[0]] + c[2..];
      assert ([c[0]] + c[2..])[1..] == c[2..];
    } else {
      assert c[1..][k - 1] == c[k] && c[1..][k - 2] == c[k - 1];
      ChainCut(nodes, now, Follow(nodes, head), c[1..], k - 1);
      assert c[..k] + c[k + 1..] == [c[0]] + (c[1..][..k - 1] + c[1..][k..]);
    }
  }

  // ----- what a list operation does to the whole store

  lemma ListsFrame(nodes: Memory, now: Memory, chains: seq<seq<int>>, next: seq<seq<int>>, o: nat)
    requires |next| == |chains| && o < |chains|
    requires forall q | 0 <= q < |chains| && q != o :: next[q] == chains[q]
    requires forall q, a :: 0 <= q < |chains| && q != o && a in chains[q] ==> PageOf(now, a) == PageOf(nodes, a)
    ensures ListsOf(now, next) == ListsOf(nodes, chains)[o := PagesOf(now, next[o])]
  {
    forall q | 0 <= q < |chains| && q != o
      ensures PagesOf(now, next[q]) == PagesOf(nodes, chains[q])
    {
    }
  }

  /** Linking a loose node in front of list `o`. */
  lemma PushNode(nodes: Memory, heads: seq<int>, chains: seq<seq<int>>, spare: seq<int>, o: nat, a: int, page: nat)
    requires StoreOk(nodes, heads, chains, spare) && o < |chains| && Loose(chains, a) && a !in spare
    ensures var now := nodes[a := Node(LinkTo(a, heads[o]), page)]; var next := chains[o := [a] + chains[o]];
      StoreOk(now, heads[o := a], next, spare) &&
        ListsOf(now, next) == ListsOf(nodes, chains)[o := [page] + ListsOf(nodes, chains)[o]]
  {
    var now := nodes[a := Node(LinkTo(a, heads[o]), page)];
    var next := chains[o := [a] + chains[o]];
    PushChains(nodes, heads, chains, o, a, page);
    ListsFrame(nodes, now, chains, next, o);
    assert PagesOf(now, next[o]) == [page] + PagesOf(nodes, chains[o]);
  }

  lemma PushChains(nodes: Memory, heads: seq<int>, chains: seq<seq<int>>, o: nat, a: int, page: nat)
    requires |heads| == |chains| && o < |chains| && Loose(chains, a)
    requires forall q | 0 <= q < |chains| :: IsChain(nodes, heads[q], chains[q])
    ensures var now := nodes[a := Node(LinkTo(a, heads[o]), page)];
      && IsChain(now, a, [a] + chains[o])
      && forall q | 0 <= q < |chains| && q != o :: IsChain(now, heads[q], chains[q])
  {
    var now := nodes[a := Node(LinkTo(a, heads[o]), page)];
    forall q | 0 <= q < |chains|
      ensures IsChain(now, heads[q], chains[q])
    {
      ChainFrame(nodes, now, heads[q], chains[q]);
    }
    var c := [a] + chains[o];
    assert c[1..] == chains[o];
    HeadNotLoose(nodes, heads[o], chains[o], a);
    assert Follow(now, a) == heads[o];
    assert IsChain(now, a, c);
  }

  lemma HeadNotLoose(nodes: Memory, head: int, c: seq<int>, a: int)
    requires IsChain(nodes, head, c) && a !in c
    ensures head == 0 || head != a
  {
  }

  /** Taking the first node off list `o` makes it loose. */
  lemma PopNode(nodes: Memory, heads: seq<int>, chains: seq<seq<int>>, spare: seq<int>, o: nat)
    requires StoreOk(nodes, heads, chains, spare) && o < |chains| && heads[o] != 0
    ensures chains[o] != [] && heads[o] == chains[o][0] && heads[o] in nodes
    ensures var next := chains[o := chains[o][1..]]; var a := heads[o];
      && StoreOk(nodes, heads[o := Follow(nodes, a)], next, spare) && Loose(next, a) && a !in spare
      && ListsOf(nodes, chains)[o] != [] && ListsOf(nodes, chains)[o][0] == nodes[a].page
      && ListsOf(nodes, next) == ListsOf(nodes, chains)[o := ListsOf(nodes, chains)[o][1..]]
  {
    var a, c := heads[o], chains[o];
    assert IsChain(nodes, a, c);
    var next := chains[o := c[1..]];
    ChainNoDup(nodes, a, c);
    assert a in chains[o];
    assert c == [a] + c[1..];
    ListsFrame(nodes, nodes, chains, next, o);
    assert PagesOf(nodes, c[1..]) == PagesOf(nodes, c)[1..];
  }

  lemma PagesWithout(nodes: Memory, c: seq<int>, k: nat)
    requires k < |c| && forall j | 0 <= j < k :: PageOf(nodes, c[j]) != PageOf(nodes, c[k])
    ensures PagesOf(nodes, c[..k] + c[k + 1..]) == Without(PagesOf(nodes, c), PageOf(nodes, c[k]))
    decreases k
  {
    var p := PagesOf(nodes, c);
    if k == 0 {
      assert PagesOf(nodes, c[..0] + c[1..]) == p[1..];
    } else {
      var d := c[1..];
      assert d[..k - 1] + d[k..] == (c[..k] + c[k + 1..])[1..];
      PagesWithout(nodes, d, k - 1);
      assert PagesOf(nodes, d) == p[1..];
      assert PagesOf(nodes, c[..k] + c[k + 1..]) == [p[0]] + PagesOf(nodes, d[..k - 1] + d[k..]);
    }
  }

  /** Unlinking the node at position `k > 0` of list `o` by changing the link before it. */
  lemma CutNode(nodes: Memory, heads: seq<int>, chains: seq<seq<int>>, spare: seq<int>, o: nat, k: nat)
    requires StoreOk(nodes, heads, chains, spare) && o < |chains| && 0 < k < |chains[o]|
    requires forall j | 0 <= j < k :: PageOf(nodes, chains[o][j]) != PageOf(nodes, chains[o][k])
    ensures chains[o][k - 1] in nodes && chains[o][k] in nodes
    ensures var prev, a := chains[o][k - 1], chains[o][k];
      var now := nodes[prev := nodes[prev].(next := LinkTo(prev, Follow(nodes, a)))];
      var next := chains[o := chains[o][..k] + chains[o][k + 1..]];
      && StoreOk(now, heads, next, spare) && Loose(next, a) && a !in spare
      && ListsOf(now, next) == ListsOf(nodes, chains)[o := Without(ListsOf(nodes, chains)[o], nodes[a].page)]
  {
    hide Follow, LinkTo, PageOf, Without, PagesOf, ListsOf;
    var c := chains[o];
    ChainSuffix(nodes, heads[o], c, k - 1);
    ChainSuffix(nodes, heads[o], c, k);
    var now := nodes[c[k - 1] := nodes[c[k - 1]].(next := LinkTo(c[k - 1], Follow(nodes, c[k])))];
    CutChains(nodes, now, heads, chains, o, k);
    ChainNoDup(nodes, heads[o], c);
    assert forall x :: x in c[..k] + c[k + 1..] ==> x in c && x != c[k];
    LinkKeepsPages(nodes, c[k - 1], LinkTo(c[k - 1], Follow(nodes, c[k])));
    assert c[k] in chains[o];
    ListsFrame(nodes, now, chains, chains[o := c[..k] + c[k + 1..]], o);
    PagesWithout(nodes, c, k);
    SamePages(nodes, now, c[..k] + c[k + 1..]);
    ListIs(nodes, chains, o);
    PageIs(nodes, c[k]);
  }

  lemma LinkKeepsPages(nodes: Memory, a: int, d: int)
    requires a in nodes
    ensures forall b :: PageOf(nodes[a := nodes[a].(next := d)], b) == PageOf(nodes, b)
  {
  }

  lemma SamePages(nodes: Memory, now: Memory, c: seq<int>)
    requires forall a :: PageOf(now, a) == PageOf(nodes, a)
    ensures PagesOf(now, c) == PagesOf(nodes, c)
  {
    hide PageOf;
  }

  lemma ListIs(nodes: Memory, chains: seq<seq<int>>, o: nat)
    requires o < |chains|
    ensures |ListsOf(nodes, chains)| == |chains| && ListsOf(nodes, chains)[o] == PagesOf(nodes, chains[o])
  {
    hide PagesOf;
  }

  lemma PageIs(nodes: Memory, a: int)
    requires a in nodes
    ensures PageOf(nodes, a) == nodes[a].page
  {
  }

  lemma CutChains(nodes: Memory, now: Memory, heads: seq<int>, chains: seq<seq<int>>, o: nat, k: nat)
    requires |heads| == |chains| && o < |chains| && 0 < k < |chains[o]|
    requires forall q | 0 <= q < |chains| :: IsChain(nodes, heads[q], chains[q])
    requires forall q, r, a :: 0 <= q < |chains| && 0 <= r < |chains| && a in chains[q] && a in chains[r] ==> q == r
    requires forall a :: a in nodes && a != chains[o][k - 1] ==> a in now && now[a] == nodes[a]
    requires chains[o][k] in nodes && chains[o][k - 1] in now
    requires now[chains[o][k - 1]].next == LinkTo(chains[o][k - 1], Follow(nodes, chains[o][k]))
    ensures forall q | 0 <= q < |chains| :: IsChain(now, heads[q], chains[o := chains[o][..k] + chains[o][k + 1..]][q])
  {
    var c := chains[o];
    SkipFollows(nodes, now, heads[o], c, k);
    ChainCut(nodes, now, heads[o], c, k);
    assert c[k - 1] in chains[o];
    forall q | 0 <= q < |chains| && q != o
      ensures IsChain(now, heads[q], chains[q])
    {
      ChainFrame(nodes, now, heads[q], chains[q]);
    }
  }

  lemma SkipFollows(nodes: Memory, now: Memory, head: int, c: seq<int>, k: nat)
    requires IsChain(nodes, head, c) && 0 < k < |c| && c[k] in nodes && c[k - 1] in now
    requires now[c[k - 1]].next == LinkTo(c[k - 1], Follow(nodes, c[k]))
    ensures Follow(now, c[k - 1]) == Follow(nodes, c[k])
  {
    ChainNoDup(nodes, head, c);
    ChainSuffix(nodes, head, c, k);
  }

  /** The node cache gives a spare node, which is then on no list and no longer spare. */
  lemma TakeSpare(nodes: Memory, heads: seq<int>, chains: seq<seq<int>>, spare: seq<int>)
    requires StoreOk(nodes, heads, chains, spare) && spare != []
    ensures StoreOk(nodes, heads, chains, spare[1..]) && Loose(chains, spare[0]) && spare[0] !in spare[1..]
  {
    assert spare[0] in spare;
    assert forall a :: a in spare[1..] ==> a in spare;
  }

  lemma GiveSpare(nodes: Memory, heads: seq<int>, chains: seq<seq<int>>, spare: seq<int>, a: int)
    requires StoreOk(nodes, heads, chains, spare) && Loose(chains, a) && a !in spare
    ensures StoreOk(nodes, heads, chains, [a] + spare)
  {
  }

  lemma GiveAll(nodes: Memory, heads: seq<int>, chains: seq<seq<int>>, spare: seq<int>, cells: seq<int>)
    requires StoreOk(nodes, heads, chains, spare) && NoDup(cells)
    requires forall c :: c in cells ==> Loose(chains, c) && c !in spare
    ensures StoreOk(nodes, heads, chains, cells + spare)
  {
    var all := cells + spare;
    forall i, j | 0 <= i < j < |all|
      ensures all[i] != all[j]
    {
      if i < |cells| <= j {
        assert all[i] in cells && all[j] in spare;
      }
    }
  }

  lemma PushLoose(chains: seq<seq<int>>, o: nat, a: int, x: int)
    requires o < |chains| && Loose(chains, x) && x != a
    ensures Loose(chains[o := [a] + chains[o]], x)
  {
  }

  // ----- walking a list

  lemma ChainStart(nodes: Memory, heads: seq<int>, chains: seq<seq<int>>, spare: seq<int>, o: nat)
    requires StoreOk(nodes, heads, chains, spare) && o < |chains|
    ensures heads[o] == if chains[o] == [] then 0 else chains[o][0]
    ensures heads[o] == 0 <==> chains[o] == []
    ensures heads[o] != 0 ==> heads[o] in nodes
  {
    assert IsChain(nodes, heads[o], chains[o]);
  }

  lemma ChainNext(nodes: Memory, heads: seq<int>, chains: seq<seq<int>>, spare: seq<int>, o: nat, k: nat)
    requires StoreOk(nodes, heads, chains, spare) && o < |chains| && k < |chains[o]|
    ensures chains[o][k] in nodes && chains[o][k] != 0
    ensures Follow(nodes, chains[o][k]) == if k + 1 < |chains[o]| then chains[o][k + 1] else 0
    ensures Follow(nodes, chains[o][k]) == 0 <==> k + 1 == |chains[o]|
    ensures k + 1 < |chains[o]| ==> chains[o][k + 1] in nodes
  {
    ChainSuffix(nodes, heads[o], chains[o], k);
    if k + 1 < |chains[o]| {
      ChainSuffix(nodes, heads[o], chains[o], k + 1);
    }
  }

  lemma ChainOnce(nodes: Memory, heads: seq<int>, chains: seq<seq<int>>, spare: seq<int>, o: nat, j: nat, k: nat)
    requires StoreOk(nodes, heads, chains, spare) && o < |chains| && j < |chains[o]| && k < |chains[o]|
    requires chains[o][j] == chains[o][k]
    ensures j == k
  {
    assert IsChain(nodes, heads[o], chains[o]);
    ChainNoDup(nodes, heads[o], chains[o]);
  }
}
