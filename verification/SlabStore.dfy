/** Slabs in memory: headers linked both ways, and the chain of free cells threaded through the cells themselves. */
module SlabStore {
  import opened Lists
  import opened SlabModel

  datatype Header = Header(prev: nat, next: nat, firstFree: nat, freeCount: nat, cacheId: nat)

  type Headers = map<nat, Header>

  /** Element `i`, or null past either end. */
  function At(list: seq<nat>, i: int): nat {
    if 0 <= i < |list| then list[i] else 0
  }

  /** The header at place `i` points at both neighbours. */
  ghost predicate Linked(h: Headers, list: seq<nat>, i: int)
    requires 0 <= i < |list|
  {
    list[i] in h && h[list[i]].prev == At(list, i - 1) && h[list[i]].next == At(list, i + 1)
  }

  /** A well-formed doubly linked list. */
  ghost predicate IsList(h: Headers, head: nat, list: seq<nat>) {
    && head == At(list, 0)
    && NoDup(list) && 0 !in list
    && forall i :: 0 <= i < |list| ==> Linked(h, list, i)
  }

  /** Only the links differ. */
  predicate SameButLinks(a: Header, b: Header) {
    a.firstFree == b.firstFree && a.freeCount == b.freeCount && a.cacheId == b.cacheId
  }

  ghost predicate OnlyLinks(h: Headers, now: Headers, list: seq<nat>) {
    && h.Keys == now.Keys
    && (forall a :: a in h ==> SameButLinks(h[a], now[a]))
    && (forall a :: a in h && a !in list ==> now[a] == h[a])
  }

  lemma ListFrame(h: Headers, now: Headers, head: nat, list: seq<nat>)
    requires IsList(h, head, list) && forall a :: a in list && a in h ==>
             a in now && now[a].prev == h[a].prev && now[a].next == h[a].next
    ensures IsList(now, head, list)
  {
    forall i | 0 <= i < |list|
      ensures Linked(now, list, i)
    {
      assert Linked(h, list, i) && list[i] in list;
    }
  }

  /** From the header the chain visits exactly these cells, in order, and ends. */
  ghost predicate IsChain(l: Layout, h: Headers, cells: map<nat, nat>, a: nat, chain: seq<nat>) {
    && a in h && h[a].freeCount == |chain| && h[a].cacheId == l.id
    && (chain != [] ==> h[a].firstFree == chain[0])
    && forall i :: 0 <= i < |chain| ==> NextIs(l, cells, a, chain, i)
  }

  ghost predicate NextIs(l: Layout, cells: map<nat, nat>, a: nat, chain: seq<nat>, i: int)
    requires 0 <= i < |chain|
  {
    AddrOf(l, a, chain[i]) in cells &&
      cells[AddrOf(l, a, chain[i])] == (if i + 1 < |chain| then AddrOf(l, a, chain[i + 1]) else 0)
  }

  /** Following the pointers from the header can visit no other cells. */
  lemma {:induction false} ChainUnique(l: Layout, h: Headers, cells: map<nat, nat>, a: nat, chain: seq<nat>,
          other: seq<nat>, i: nat)
    requires LayoutOk(l) && a > 0 && IsChain(l, h, cells, a, chain) && IsChain(l, h, cells, a, other) && i < |chain|
    ensures |chain| == |other| && chain[i] == other[i]
  {
    if i > 0 {
      ChainUnique(l, h, cells, a, chain, other, i - 1);
      assert NextIs(l, cells, a, chain, i - 1) && NextIs(l, cells, a, other, i - 1);
      AddrInjective(l, a, chain[i], other[i]);
    }
  }

  lemma AddrInjective(l: Layout, a: nat, c: nat, d: nat)
    requires LayoutOk(l) && AddrOf(l, a, c) == AddrOf(l, a, d)
    ensures c == d
  {
    if c < d {
      CellBefore(l, c, d);
    } else if d < c {
      CellBefore(l, d, c);
    }
    hide Offset;
  }

  class SlabMemory {
    var headers: Headers
    /** The first eight bytes of each cell, by the address of the cell. */
    var cells: map<nat, nat>

    constructor ()
      ensures headers == map[] && cells == map[]
    {
      headers, cells := map[], map[];
    }

    /** __unlink_slab: returns the list head that it leaves behind. */
    method Unlink(slab: nat, head: nat, ghost list: seq<nat>) returns (now: nat)
      requires IsList(headers, head, list) && slab in list
      modifies this`headers
      ensures IsList(headers, now, Without(list, slab)) && OnlyLinks(old(headers), headers, list)
    {
      ghost var k :| 0 <= k < |list| && list[k] == slab;
      assert Linked(headers, list, k);
      assert k > 0 ==> Linked(headers, list, k - 1) && list[k - 1] != 0 && list[k - 1] in list;
      assert k + 1 < |list| ==> Linked(headers, list, k + 1) && list[k + 1] != 0 && list[k + 1] in list;
      var prev, next := headers[slab].prev, headers[slab].next;
      now := head;
      if prev != 0 {
        headers := headers[prev := headers[prev].(next := next)];
      } else {
        now := next;
      }
      if next != 0 {
        headers := headers[next := headers[next].(prev := prev)];
      }
      WithoutAt(list, k);
      UnlinkKeeps(old(headers), headers, head, now, list, k);
    }

    /** __link_slab. */
    method Link(slab: nat, head: nat, ghost list: seq<nat>) returns (now: nat)
      requires IsList(headers, head, list) && slab in headers && slab !in list && slab != 0
      modifies this`headers
      ensures now == slab && IsList(headers, now, [slab] + list) && OnlyLinks(old(headers), headers, [slab] + list)
    {
      assert list != [] ==> Linked(headers, list, 0) && list[0] in list;
      headers := headers[slab := headers[slab].(next := head, prev := 0)];
      if head != 0 {
        headers := headers[head := headers[head].(prev := slab)];
      }
      now := slab;
      LinkKeeps(old(headers), headers, head, list, slab);
    }

    /** Both, as slab_alloc and slab_free call them: from one list to the head of another. */
    method Move(slab: nat, from: nat, to: nat, ghost giver: seq<nat>, ghost taker: seq<nat>)
      returns (from': nat, to': nat)
      requires IsList(headers, from, giver) && IsList(headers, to, taker) && slab in giver
      requires forall a :: a in taker ==> a !in giver
      modifies this`headers
      ensures IsList(headers, from', Without(giver, slab)) && IsList(headers, to', [slab] + taker) && to' == slab
      ensures OnlyLinks(old(headers), headers, giver + taker)
    {
      ghost var h := headers;
      MemberFacts(h, from, giver, slab);
      from' := Unlink(slab, from, giver);
      ghost var h1 := headers;
      ListFrame(h, h1, to, taker);
      to' := Link(slab, to, taker);
      ghost var rest := Without(giver, slab);
      ListFrame(h1, headers, from', rest);
    }
  }

  lemma MemberFacts(h: Headers, head: nat, list: seq<nat>, a: nat)
    requires IsList(h, head, list) && a in list
    ensures a in h && a != 0 && forall b :: b in Without(list, a) <==> b in list && b != a
  {
    var k :| 0 <= k < |list| && list[k] == a;
    assert Linked(h, list, k);
    WithoutFacts(list, a);
  }

  /** What __unlink_slab writes. */
  ghost predicate IsUnlinked(h: Headers, now: Headers, prev: nat, next: nat) {
    && h.Keys == now.Keys
    && (forall a :: a in h ==> now[a] == h[a].(next := if a == prev && prev != 0 then next else h[a].next,
                                               prev := if a == next && next != 0 then prev else h[a].prev))
  }

  lemma UnlinkKeeps(h: Headers, now: Headers, head: nat, head': nat, list: seq<nat>, k: nat)
    requires IsList(h, head, list) && k < |list| && IsUnlinked(h, now, At(list, k - 1), At(list, k + 1))
    requires head' == if k == 0 then At(list, 1) else head
    ensures IsList(now, head', list[..k] + list[k + 1..]) && OnlyLinks(h, now, list)
  {
    var r := list[..k] + list[k + 1..];
    forall i | 0 <= i < |r|
      ensures Linked(now, r, i)
    {
      var j := if i < k then i else i + 1;
      assert r[i] == list[j] && Linked(h, list, j);
      assert j > 0 ==> list[j - 1] != list[j];
    }
  }

  lemma LinkKeeps(h: Headers, now: Headers, head: nat, list: seq<nat>, slab: nat)
    requires IsList(h, head, list) && slab in h && slab !in list && slab != 0
    requires h.Keys == now.Keys && now[slab] == h[slab].(next := head, prev := 0)
    requires forall a :: a in h && a != slab ==> now[a] == if a == head && head != 0 then h[a].(prev := slab) else h[a]
    ensures IsList(now, slab, [slab] + list) && OnlyLinks(h, now, [slab] + list)
  {
    var r := [slab] + list;
    assert list != [] ==> list[0] in list;
    forall i | 0 <= i < |r|
      ensures Linked(now, r, i)
    {
      if i > 0 {
        assert Linked(h, list, i - 1) && r[i] == list[i - 1];
        assert list[i - 1] in list;
      }
    }
  }
}
