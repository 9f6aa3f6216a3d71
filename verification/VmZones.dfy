/** vm.c:490-578 over page tables in memory: a zone of blocks with its cursor. */
module VmZones {
  import opened Options
  import opened EntryBits
  import opened PageTables
  import opened PageMapping
  import opened BlockBits
  import opened BlockZone
  import opened BlockAlloc
  import opened BlockRuns
  import opened BlockFrames
  import opened BlockRights
  import opened VirtualMemory

  class VmZone {
    const info: ZoneInfo
    const root: nat
    const space: AddressSpace
    /** The address of the first block to hand out. */
    var cursor: nat
    ghost var state: ZoneState
    ghost var height: map<nat, nat>

    ghost predicate Valid()
      reads this, space
    {
      ZoneInv(space.tables, root, height, info, state) && cursor == Addr(info, Cursor(state))
    }

    /** __define_vmzone over page tables in which the zone is unused. */
    constructor (info: ZoneInfo, root: nat, space: AddressSpace, ghost height: map<nat, nat>)
      requires ZoneInv(space.tables, root, height, info, ZoneState([], 0))
      ensures Valid() && this.info == info && this.root == root && this.space == space && state == ZoneState([], 0)
    {
      this.info, this.root, this.space := info, root, space;
      cursor := info.start;
      state, this.height := ZoneState([], 0), height;
      new;
      FirstAddr(info);
    }

    /** _prepare_block_pt. */
    method PrepareBlockPt(pt: nat)
      requires pt in space.tables && |space.tables[pt]| == 512 && Count(info) > 0
      modifies space
      ensures space.tables == Prepare(old(space.tables), pt, info.pages)
    {
      hide *;
      ghost var m := space.tables;
      var n := Count(info);
      CountIs(info);
      var i := 0;
      StartPrepare(m, pt, info.pages);
      while i < 512
        invariant pt in space.tables && |space.tables[pt]| == 512
        invariant PreparedUpTo(m, space.tables, pt, info.pages, i)
        decreases 512 - i
      {
        NextPrepare(m, space.tables, pt, info.pages, i);
        space.tables := space.tables[pt := space.tables[pt][i := PreparedEntry(space.tables[pt][i], info.pages)]];
        i := i + n;
      }
      EndPrepare(m, space.tables, pt, info.pages, i);
    }

    /** vm.c:527-534. */
    method MapBlock(pt: nat, first: nat, phys: Word, flags: Word, entry: Word)
      requires pt in space.tables && |space.tables[pt]| == 512 && first + Count(info) <= 512
      modifies space
      ensures |BlockEntries(phys, flags, Count(info), entry)| == Count(info)
      ensures space.tables == WriteRun(old(space.tables), pt, first, BlockEntries(phys, flags, Count(info), entry))
    {
      hide *;
      ghost var m, es := space.tables, BlockEntries(phys, flags, Count(info), entry);
      EntriesLength(phys, flags, Count(info), entry);
      var n, i, base := Count(info), 0, phys;
      StartRun(m, pt, first, es);
      FirstFrame(phys);
      while i < n
        invariant 0 <= i <= n && base == PhysAt(phys, i) && pt in space.tables && |space.tables[pt]| == 512
        invariant space.tables == WriteRun(m, pt, first, es[..i])
      {
        EntryOfBlock(phys, flags, n, entry, i);
        RunMore(m, pt, first, es, i);
        space.tables := space.tables[pt := space.tables[pt][first + i := BlockEntry(base, flags, i, n, entry)]];
        NextFrame(phys, i);
        base := Plus(base, 0x1000);
        i := i + 1;
      }
      assert es[..n] == es;
    }

    /** vm.c:514-518: the page table of the block at the cursor. */
    method FindBlockTable(va: Word, flags: Word, frames: seq<Word>, ghost c: nat) returns (pt: nat)
      requires Tree(space.tables, root, height) && ZoneOk(info) && PlainOk(space.tables, root, info) && InZone(info, c)
      requires NewFrames(space.tables, frames, 3) && !Asks(flags, VM_HUGEPAGE)
      requires Traverse(space.tables, root, va, flags, 3).status != Privilege && va == Va(info, c)
      modifies space
      ensures space.tables == FindPrepared(old(space.tables), root, info, c, flags, frames)
      ensures HasTable(space.tables, root, info, c) && TableAt(space.tables, root, va, 0) == Some(pt)
    {
      hide *;
      ghost var m := space.tables;
      ghost var height', pt' := FindPreparedKeeps(m, root, height, info, c, flags, frames);
      PlainAt(m, root, info, c);
      TableFound(FindPrepared(m, root, info, c, flags, frames), root, height', info, c);
      var found, error, made := space.FindOrAllocatePt(root, va, flags, frames, height);
      pt := found.value;
      TableFoundAt(m, root, info, c, flags, frames, pt);
      if made > 0 {
        PrepareBlockPt(pt);
      }
    }

    /** vm_alloc_block, where `frames` are what _alloc_page_tables would return and `phys` what the physical allocator
        does: the block at the cursor, which was not live. */
    method AllocBlock(phys: Word, flags: Word, frames: seq<Word>) returns (block: nat)
      requires Valid() && CanAlloc(space.tables, root, info, state, flags, frames)
      modifies this, space
      ensures Valid() && block == old(cursor) && !Live(old(state), Cursor(old(state))) && state == Popped(old(state))
      ensures BlockMapped(old(space.tables), space.tables, root, info, Cursor(old(state)), phys)
      ensures BlockHasRights(space.tables, root, info, Cursor(old(state)), phys, flags,
                             RecordOf(old(space.tables), root, info, Cursor(old(state)), flags))
    {
      hide ZoneInv, CanAlloc, Tree, ZoneOk, StateOk, PlainOk, Placed, NewFrames, Asks, Traverse, HasTable, TakeMemory,
           FindPrepared,
           TableAt, BlockMapped, NextFree, Live, Va, Addr, First, Count, Index, WriteRun, BlockEntries, AsWord, Popped,
             Cursor, AllocMemory,
           InZone, Entry, BlockHasRights, RecordOf;
      ghost var m, c := space.tables, Cursor(state);
      ghost var height' := AllocKeeps(m, root, height, info, state, phys, flags, frames);
      AllocRights(m, root, height, info, state, phys, flags, frames);
      CanAllocGives(m, root, info, state, flags, frames);
      InvGives(m, root, height, info, state);
      CursorWord(info, c) by {
        CursorInZone(info, state);
      }
      block := cursor;
      var va := AsWord(block);
      var pt := FindBlockTable(va, flags, frames, c);
      HasTableGives(space.tables, root, info, c);
      FirstIs(info, c);
      var entry := Entry(space.tables, pt, Index(va, 0));
      TakeMemoryIs(space.tables, root, info, c, phys, flags);
      MapBlock(pt, Index(va, 0), phys, flags, entry);
      AllocMemoryIs(m, root, info, c, phys, flags, frames);
      cursor := NextFree(entry, block);
      state, height := Popped(state), height';
    }

    /** vm.c:562-569: the first entry leads to the block that was next; its page is still present. */
    method LinkEntry(pt: nat, offset: nat, addr: nat, next: nat)
      requires pt in space.tables && offset < |space.tables[pt]| && Distance(addr, next) < 0x1_0000_0000_0000_0000
      modifies space
      ensures space.tables == SetEntry(old(space.tables), pt, offset,
              Linked(Entry(old(space.tables), pt, offset), addr, next))
    {
      hide *;
      EntryIs(space.tables, pt, offset);
      var nextOffset := if next > addr then next - addr else addr - next;
      DistanceIs(addr, next);
      LinkedIs(space.tables[pt][offset], addr, next);
      var e := WithDistance(space.tables[pt][offset], AsWord(nextOffset));
      e := WithSign(e, next < addr);
      SetEntryTo(space.tables, pt, offset, e);
      space.tables := space.tables[pt := space.tables[pt][offset := e]];
    }

    /** vm.c:573-575, for the entry of every page. */
    method ClearBlock(pt: nat, offset: nat)
      requires pt in space.tables && |space.tables[pt]| == 512 && offset + Count(info) <= 512
      modifies space
      ensures space.tables == WriteRun(old(space.tables), pt, offset,
              ClearedRun(old(space.tables), pt, offset, Count(info)))
    {
      hide *;
      ghost var m, es := space.tables, ClearedRun(space.tables, pt, offset, Count(info));
      var n, i := Count(info), 0;
      ClearedLength(m, pt, offset, n);
      StartRun(m, pt, offset, es);
      while i < n
        invariant 0 <= i <= n && pt in space.tables && |space.tables[pt]| == 512
        invariant space.tables == WriteRun(m, pt, offset, es[..i])
      {
        RunMore(m, pt, offset, es, i);
        RunRest(m, pt, offset, es, i);
        ClearedAt(m, pt, offset, n, i);
        space.tables := space.tables[pt := space.tables[pt][offset + i := Cleared(space.tables[pt][offset + i])]];
        i := i + 1;
      }
      assert es[..n] == es;
    }

    /** vm_free_block: any address of a live block will do, since it is rounded down to the block; the physical memory
        goes back to its allocator from the frame that the block's first page translates to. */
    method FreeBlock(va: Word, ghost i: nat) returns (error: Status, phys: Word)
      requires Valid() && Live(state, i) && BlockOf(va, info.pages) == Va(info, i)
      modifies this, space
      ensures Valid() && error == Ok && state == Pushed(old(state), i) && cursor == Addr(info, i)
      ensures Translate(old(space.tables), root, Va(info, i)) == Some(phys)
      ensures CanFree(old(space.tables), root, info, old(state), i)
      ensures space.tables == FreeMemory(old(space.tables), root, info, old(state), i)
      ensures forall b: Word ::
        Translate(space.tables, root, b) == if InBlock(info, i, b) then None else Translate(old(space.tables), root, b)
      ensures RecordsKept(old(space.tables), space.tables, root, info, i)
    {
      hide *;
      ghost var m, st := space.tables, state;
      ValidGives();
      FreeKeeps(m, root, height, info, st, i);
      FreeRecords(m, root, height, info, st, i);
      InvGives(m, root, height, info, st);
      PlacedGives(m, root, info, st, i);
      LiveCanFree(m, root, height, info, st, i);
      CanFreeGives(m, root, info, st, i);
      PlainAt(m, root, info, i);
      StateLimit(info, st, i);
      AddressIs(info, i);
      FirstIs(info, i);
      PushPop(st, i);
      var base := BlockOf(va, info.pages);
      var addr := AsNumber(base);
      var found := space.FindPtOrNull(root, base);
      if found == None {
        return Unmapped, 0;
      }
      var pt, offset := found.value, Index(base, 0);
      FrameOfLive(m, root, height, info, st, i);
      phys := FrameOf(Entry(space.tables, pt, offset));
      LinkEntry(pt, offset, addr, cursor);
      SetEntryKeepsTables(m, pt, offset, Linked(Entry(m, pt, offset), addr, cursor));
      ClearBlock(pt, offset);
      LinkThenClear(m, pt, info, i, Cursor(st));
      FreeMemoryIs(m, root, info, st, i);
      cursor := addr;
      state := Pushed(state, i);
      error := Ok;
      MakeValid();
    }

    lemma ValidGives()
      requires Valid()
      ensures ZoneInv(space.tables, root, height, info, state) && cursor == Addr(info, Cursor(state))
    {
      hide ZoneInv, Addr, Cursor;
    }

    lemma MakeValid()
      requires ZoneInv(space.tables, root, height, info, state) && cursor == Addr(info, Cursor(state))
      ensures Valid()
    {
      hide ZoneInv, Addr, Cursor;
    }
  }

  // ----- the entries of a freed block

  lemma LinkedIs(e: Word, addr: nat, next: nat)
    requires Distance(addr, next) < 0x1_0000_0000_0000_0000
    ensures Linked(e, addr, next) == WithSign(WithDistance(e, AsWord(Distance(addr, next))), next < addr)
  {
    hide AsWord, Distance, WithSign, WithDistance;
  }

  lemma DistanceIs(addr: nat, next: nat)
    ensures Distance(addr, next) == if next > addr then next - addr else addr - next
  {
  }

  lemma EntryIs(m: Memory, pt: nat, i: nat)
    requires pt in m && i < |m[pt]|
    ensures Entry(m, pt, i) == m[pt][i]
  {
  }

  lemma SetEntryTo(m: Memory, pt: nat, i: nat, e: Word)
    requires pt in m && i < |m[pt]|
    ensures SetEntry(m, pt, i, e) == m[pt := m[pt][i := e]]
  {
  }

  lemma SetEntryKeepsTables(m: Memory, pt: nat, i: nat, e: Word)
    requires pt in m && i < |m[pt]|
    ensures pt in SetEntry(m, pt, i, e) && |SetEntry(m, pt, i, e)[pt]| == |m[pt]|
  {
  }

  function ClearedRun(m: Memory, pt: nat, first: nat, n: nat): seq<Word> {
    seq(n, k requires 0 <= k < n => Cleared(Entry(m, pt, first + k)))
  }

  lemma ClearedLength(m: Memory, pt: nat, first: nat, n: nat)
    ensures |ClearedRun(m, pt, first, n)| == n
  {
  }

  lemma ClearedAt(m: Memory, pt: nat, first: nat, n: nat, i: nat)
    requires i < n && pt in m && first + n <= |m[pt]|
    ensures |ClearedRun(m, pt, first, n)| == n && ClearedRun(m, pt, first, n)[i] == Cleared(m[pt][first + i])
  {
    hide Cleared;
    assert ClearedRun(m, pt, first, n)[i] == Cleared(Entry(m, pt, first + i));
  }

  /** Past what is written the table is as it was. */
  lemma RunRest(m: Memory, pt: nat, first: nat, es: seq<Word>, i: nat)
    requires pt in m && first + |es| <= |m[pt]| && i < |es|
    ensures var w := WriteRun(m, pt, first, es[..i]);
            pt in w && |w[pt]| == |m[pt]| && w[pt][first + i] == m[pt][first + i]
  {
  }

  /** Linking the first entry and clearing them all is what freeing writes. */
  lemma LinkThenClear(m: Memory, pt: nat, z: ZoneInfo, i: nat, next: nat)
    requires pt in m && |m[pt]| == 512 && Count(z) > 0 && First(z, i) + Count(z) <= 512
    requires Distance(Addr(z, i), Addr(z, next)) < 0x1_0000_0000_0000_0000
    ensures var o := SetEntry(m, pt, First(z, i), Linked(Entry(m, pt, First(z, i)), Addr(z, i), Addr(z, next)));
      pt in o && |o[pt]| == 512 && |ClearedRun(o, pt, First(z, i), Count(z))| == Count(z)
      && |FreeEntries(m, pt, z, i, next)| == Count(z)
      && WriteRun(o, pt, First(z, i), ClearedRun(o, pt, First(z, i), Count(z))) ==
         WriteRun(m, pt, First(z, i), FreeEntries(m, pt, z, i, next))
  {
    hide *;
    var f, n := First(z, i), Count(z);
    var e := Linked(Entry(m, pt, f), Addr(z, i), Addr(z, next));
    var o := SetEntry(m, pt, f, e);
    SameCleared(m, o, pt, z, i, next);
    WriteOver(m, pt, f, e, FreeEntries(m, pt, z, i, next));
  }

  lemma WriteOver(m: Memory, pt: nat, f: nat, e: Word, es: seq<Word>)
    requires pt in m && |es| > 0 && f + |es| <= |m[pt]|
    ensures var o := SetEntry(m, pt, f, e);
            pt in o && |o[pt]| == |m[pt]| && WriteRun(o, pt, f, es) == WriteRun(m, pt, f, es)
  {
    var o := SetEntry(m, pt, f, e);
    assert o[pt][..f] == m[pt][..f] && o[pt][f + |es|..] == m[pt][f + |es|..];
  }

  lemma SameCleared(m: Memory, o: Memory, pt: nat, z: ZoneInfo, i: nat, next: nat)
    requires pt in m && |m[pt]| == 512 && Count(z) > 0 && First(z, i) + Count(z) <= 512
    requires Distance(Addr(z, i), Addr(z, next)) < 0x1_0000_0000_0000_0000
    requires o == SetEntry(m, pt, First(z, i), Linked(Entry(m, pt, First(z, i)), Addr(z, i), Addr(z, next)))
    ensures pt in o && |o[pt]| == 512
    ensures |FreeEntries(m, pt, z, i, next)| == Count(z) == |ClearedRun(o, pt, First(z, i), Count(z))|
    ensures ClearedRun(o, pt, First(z, i), Count(z)) == FreeEntries(m, pt, z, i, next)
  {
    hide *;
    var f, n := First(z, i), Count(z);
    var e := Linked(Entry(m, pt, f), Addr(z, i), Addr(z, next));
    var c, es := ClearedRun(o, pt, f, n), FreeEntries(m, pt, z, i, next);
    SetEntryKeepsTables(m, pt, f, e);
    ClearedLength(o, pt, f, n);
    FreeEntriesAt(m, pt, z, i, next);
    FreeEntryIs(Entry(m, pt, f), Addr(z, i), Addr(z, next));
    forall k | 0 <= k < n
      ensures c[k] == es[k]
    {
      ClearedAt(o, pt, f, n, k);
      EntryIs(o, pt, f + k);
      SetEntryIs(m, pt, f, e, pt, f + k);
    }
  }

  /** The number of a block's address. */
  lemma AddressIs(z: ZoneInfo, i: nat)
    requires ZoneOk(z) && i <= z.limit
    ensures AsNumber(Va(z, i)) == Addr(z, i)
  {
    assert Addressable(z, i);
    hide BlockPages, BlockAligned, EntryHolds, Distance, OnePage, Va, Addr;
  }

  lemma EntriesLength(phys: Word, flags: Word, n: nat, first: Word)
    ensures |BlockEntries(phys, flags, n, first)| == n
  {
  }

  lemma StartRun(m: Memory, pt: nat, first: nat, es: seq<Word>)
    requires pt in m && first + |es| <= |m[pt]|
    ensures m == WriteRun(m, pt, first, es[..0])
  {
    assert m[pt][..first] + es[..0] + m[pt][first..] == m[pt];
    assert m[pt := m[pt]] == m;
  }

  lemma NextFrame(phys: Word, i: nat)
    ensures PhysAt(phys, i + 1) == Plus(PhysAt(phys, i), 0x1000)
  {
    hide Plus;
  }

  lemma EntryOfBlock(phys: Word, flags: Word, n: nat, first: Word, i: nat)
    requires i < n
    ensures |BlockEntries(phys, flags, n, first)| == n
    ensures BlockEntries(phys, flags, n, first)[i] == BlockEntry(PhysAt(phys, i), flags, i, n, first)
  {
    hide BlockEntry, PhysAt;
  }

  lemma RunMore(m: Memory, pt: nat, first: nat, es: seq<Word>, i: nat)
    requires pt in m && first + |es| <= |m[pt]| && i < |es|
    ensures var w := WriteRun(m, pt, first, es[..i]);
      && pt in w && |w[pt]| == |m[pt]|
      && WriteRun(m, pt, first, es[..i + 1]) == w[pt := w[pt][first + i := es[i]]]
  {
    var w := WriteRun(m, pt, first, es[..i]);
    assert WriteRun(m, pt, first, es[..i + 1])[pt] == w[pt][first + i := es[i]];
  }

  lemma CursorWord(z: ZoneInfo, c: nat)
    requires ZoneOk(z) && c <= z.limit
    ensures Addr(z, c) < 0x1_0000_0000_0000_0000 && AsWord(Addr(z, c)) == Va(z, c)
  {
    assert Addressable(z, c);
    WordOfNumber(Va(z, c));
    hide BlockPages, BlockAligned, EntryHolds, Distance, OnePage;
  }

  lemma PlainAt(m: Memory, root: nat, z: ZoneInfo, c: nat)
    requires PlainOk(m, root, z) && InZone(z, c)
    ensures Plain(m, root, Va(z, c))
  {
    hide Plain, Va;
  }

  /** FindPrepared by what FindOrAllocatePt returned. */
  lemma TableFoundAt(m: Memory, root: nat, z: ZoneInfo, c: nat, flags: Word, frames: seq<Word>, pt: nat)
    requires NewFrames(m, frames, 3) && FindOrAllocate(m, root, Va(z, c), flags, frames).pt == Some(pt)
    requires HasTable(FindPrepared(m, root, z, c, flags, frames), root, z, c)
    requires TableAt(FindPrepared(m, root, z, c, flags, frames), root, Va(z, c), 0) == Some(pt)
    ensures var f := FindOrAllocate(m, root, Va(z, c), flags, frames);
      && Count(z) > 0
      && (f.made > 0 ==>
         pt in f.memory && |f.memory[pt]| == 512 &&
           FindPrepared(m, root, z, c, flags, frames) == Prepare(f.memory, pt, z.pages))
      && (f.made == 0 ==> FindPrepared(m, root, z, c, flags, frames) == f.memory)
  {
    hide FindOrAllocate, TableAt, Va, First, Count, Visits, PreparedEntry;
  }

  lemma FirstAddr(z: ZoneInfo)
    ensures Addr(z, 0) == z.start
  {
    ZeroTimes(AsNumber(Bytes(z.pages)));
    hide AsNumber, Bytes;
  }

  lemma ZeroTimes(n: nat)
    ensures 0 * n == 0
  {
  }

  lemma CountIs(z: ZoneInfo)
    ensures Count(z) == AsNumber(z.pages)
  {
  }

  /** Entries below `i` are done, and the loop has come to `i`. */
  ghost predicate PreparedUpTo(m: Memory, now: Memory, pt: nat, s: Word, i: nat) {
    && pt in m && |m[pt]| == 512 && AsNumber(s) > 0 && Visits(AsNumber(s), i)
    && pt in now && |now[pt]| == 512 && now == m[pt := now[pt]]
    && forall j :: 0 <= j < 512 ==>
       now[pt][j] == if j < i && Visits(AsNumber(s), j) then PreparedEntry(m[pt][j], s) else m[pt][j]
  }

  lemma StartPrepare(m: Memory, pt: nat, s: Word)
    requires pt in m && |m[pt]| == 512 && AsNumber(s) > 0
    ensures PreparedUpTo(m, m, pt, s, 0)
  {
    hide AsNumber, PreparedEntry;
    assert m[pt := m[pt]] == m;
  }

  /** The loop visits nothing between `i` and `i + n`. */
  lemma {:induction false} NoneVisited(n: nat, i: nat, j: nat)
    requires Visits(n, i) && i < j < i + n
    ensures !Visits(n, j)
    decreases j
  {
    if j >= n && i >= n {
      NoneVisited(n, i - n, j - n);
    }
  }

  lemma NextPrepare(m: Memory, now: Memory, pt: nat, s: Word, i: nat)
    requires PreparedUpTo(m, now, pt, s, i) && i < 512
    ensures pt in now && |now[pt]| == 512
    ensures PreparedUpTo(m, now[pt := now[pt][i := PreparedEntry(now[pt][i], s)]], pt, s, i + AsNumber(s))
  {
    hide AsNumber, PreparedEntry;
    var n := AsNumber(s);
    forall j | 0 <= j < 512
      ensures j < i + n && Visits(n, j) <==> (j < i && Visits(n, j)) || j == i
    {
      if i < j < i + n {
        NoneVisited(n, i, j);
      }
    }
  }

  lemma EndPrepare(m: Memory, now: Memory, pt: nat, s: Word, i: nat)
    requires PreparedUpTo(m, now, pt, s, i) && i >= 512
    ensures pt in m && now == Prepare(m, pt, s)
  {
    hide AsNumber, PreparedEntry, Visits;
    assert now[pt] == PreparedTable(m[pt], s);
  }
}
