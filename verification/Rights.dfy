/** Rights and addresses bit by bit: what the checks of vm.c refuse, and which bits of an address choose an entry. */
module Rights {
  import opened Options
  import opened EntryBits
  import opened PageTables
  import opened PageMapping
  import opened PageRanges

  // ----- one entry

  /** The entry is present and has every right that is asked for (vm.c:66-84). */
  predicate Grants(e: Word, flags: Word) {
    e & 1 != 0 && (flags & 1 != 0 ==> e & 2 != 0) && (flags & 4 != 0 ==> e & 4 != 0)
  }

  /** The entry is present, and can be written, used by the user and executed exactly as the flags say (vm.c:114-134).
      */
  predicate HasRights(e: Word, flags: Word) {
    && e & 1 != 0 && (e & 2 != 0 <==> flags & 1 != 0) && (e & 4 != 0 <==> flags & 4 != 0)
    && (e & 0x8000_0000_0000_0000 == 0 <==> flags & 2 != 0)
  }

  /** vm_check_status refuses with `Unmapped` what is not present and with `Privilege` what lacks a right asked for. */
  lemma CheckStatusIs(e: Word, flags: Word)
    ensures CheckStatus(e, flags) == Unmapped <==> e & 1 == 0
    ensures CheckStatus(e, flags) == Privilege <==>
            e & 1 != 0 && ((flags & 1 != 0 && e & 2 == 0) || (flags & 4 != 0 && e & 4 == 0))
    ensures CheckStatus(e, flags) == Ok <==> Grants(e, flags)
    ensures CheckStatus(e, flags) != Boundary
  {
  }

  /** The bits that mapping a frame writes, and those it leaves. */
  lemma MappedBits(e: Word, phys: Word, flags: Word)
    ensures var m := Mapped(e, phys, flags);
            && HasRights(m, flags) && (m & 0x80 != 0 <==> flags & 0x80 != 0)
            && m & 0x000F_FFFF_FFFF_F000 == phys & 0x000F_FFFF_FFFF_F000
            && m & 0x7FF0_0000_0000_0E00 == e & 0x7FF0_0000_0000_0E00 && m & 0x168 == 0
  {
  }

  /** A table just made is zero but for bit 11 of its first entry, which says that it came from the early allocator. */
  lemma NewTableBits(flags: Word, i: nat)
    ensures |NewTable(flags)| == 512
    ensures 0 < i < 512 ==> NewTable(flags)[i] == 0
    ensures NewTable(flags)[0] == if flags & 0x10 != 0 then 0x800 else 0
  {
  }

  // ----- addresses

  /** The address with these indices at heights 3 to 0, and this offset in its page. */
  function AddressOf(i3: Word, i2: Word, i1: Word, i0: Word, offset: Word): Word {
    (i3 << 39) | (i2 << 30) | (i1 << 21) | (i0 << 12) | offset
  }

  predicate AddressParts(i3: Word, i2: Word, i1: Word, i0: Word, offset: Word) {
    i3 < 512 && i2 < 512 && i1 < 512 && i0 < 512 && offset < 0x1000
  }

  lemma TopIndex(i3: Word, i2: Word, i1: Word, i0: Word, offset: Word)
    requires AddressParts(i3, i2, i1, i0, offset)
    ensures Pml4Offset(AddressOf(i3, i2, i1, i0, offset)) == i3
  {
  }

  lemma SecondIndex(i3: Word, i2: Word, i1: Word, i0: Word, offset: Word)
    requires AddressParts(i3, i2, i1, i0, offset)
    ensures PdptOffset(AddressOf(i3, i2, i1, i0, offset)) == i2
  {
  }

  lemma ThirdIndex(i3: Word, i2: Word, i1: Word, i0: Word, offset: Word)
    requires AddressParts(i3, i2, i1, i0, offset)
    ensures PdtOffset(AddressOf(i3, i2, i1, i0, offset)) == i1
  {
  }

  lemma LastIndex(i3: Word, i2: Word, i1: Word, i0: Word, offset: Word)
    requires AddressParts(i3, i2, i1, i0, offset)
    ensures PtOffset(AddressOf(i3, i2, i1, i0, offset)) == i0
  {
  }

  lemma OffsetPart(i3: Word, i2: Word, i1: Word, i0: Word, offset: Word)
    requires AddressParts(i3, i2, i1, i0, offset)
    ensures OffsetIn(AddressOf(i3, i2, i1, i0, offset)) == offset
  {
  }

  lemma PagePart(i3: Word, i2: Word, i1: Word, i0: Word, offset: Word)
    requires AddressParts(i3, i2, i1, i0, offset)
    ensures PageOf(AddressOf(i3, i2, i1, i0, offset)) == AddressOf(i3, i2, i1, i0, 0)
  {
  }

  /** Each index of an address chooses the entry at its own height, and the offset the byte of the page. */
  lemma IndicesOfAddress(i3: Word, i2: Word, i1: Word, i0: Word, offset: Word)
    requires AddressParts(i3, i2, i1, i0, offset)
    ensures var a := AddressOf(i3, i2, i1, i0, offset);
            && Index(a, 3) == AsNumber(i3) && Index(a, 2) == AsNumber(i2)
            && Index(a, 1) == AsNumber(i1) && Index(a, 0) == AsNumber(i0)
            && OffsetIn(a) == offset && PageOf(a) == AddressOf(i3, i2, i1, i0, 0)
  {
    hide *;
    TopIndex(i3, i2, i1, i0, offset);
    SecondIndex(i3, i2, i1, i0, offset);
    ThirdIndex(i3, i2, i1, i0, offset);
    LastIndex(i3, i2, i1, i0, offset);
    OffsetPart(i3, i2, i1, i0, offset);
    PagePart(i3, i2, i1, i0, offset);
    FourIndices(AddressOf(i3, i2, i1, i0, offset));
  }

  // ----- translation

  /** Where a byte goes by the entry of its page of 4 KB: the frame is bits 12 to 51, the place in it bits 0 to 11. */
  function PageByte(e: Word, va: Word): Option<Word> {
    if e & 1 != 0 then Some(Plus(e & 0x000F_FFFF_FFFF_F000, va & 0xFFF)) else None
  }

  /** Where a byte goes by an entry one level up: its place in 2 MB is bits 0 to 20. */
  function HugeByte(e: Word, va: Word): Option<Word> {
    if e & 1 != 0 && e & 0x80 != 0 then Some(Plus(e & 0x000F_FFFF_FFFF_F000, va & 0x1F_FFFF)) else None
  }

  lemma PageByteIs(e: Word, va: Word)
    ensures PageByte(e, va) == if Present(e) then Some(AddressIn(e, va)) else None
  {
    hide Plus;
  }

  lemma HugeByteIs(e: Word, va: Word)
    ensures HugeByte(e, va) == if Present(e) && Huge(e) then Some(HugeAddressIn(e, va)) else None
  {
    hide Plus;
  }

  /** With a page table on the path, a byte goes where its last entry says. */
  lemma ByteTranslates(m: Memory, root: nat, va: Word)
    requires TableAt(m, root, va, 0).Some?
    ensures Translate(m, root, va) == PageByte(Entry(m, TableAt(m, root, va, 0).value, Index(va, 0)), va)
  {
    hide Index, TableOf, Entry, Present, Huge, AddressIn, HugeAddressIn, TableAt, Translate, PageByte;
    WalkFrom(m, root, va, 0);
    PageByteIs(Entry(m, TableAt(m, root, va, 0).value, Index(va, 0)), va);
  }

  /** With the path ending one table higher, it goes where the entry there says, if that is marked as huge. */
  lemma HugeByteTranslates(m: Memory, root: nat, va: Word)
    requires TableAt(m, root, va, 0).None? && TableAt(m, root, va, 1).Some?
    ensures Translate(m, root, va) == HugeByte(Entry(m, TableAt(m, root, va, 1).value, Index(va, 1)), va)
  {
    hide Index, TableOf, Entry, Present, Huge, AddressIn, HugeAddressIn, TableAt, Translate, HugeByte;
    WalkFrom(m, root, va, 1);
    PathStep(m, root, va, 0);
    HugeByteIs(Entry(m, TableAt(m, root, va, 1).value, Index(va, 1)), va);
  }

  /** With the path ending higher still, nowhere. */
  lemma NoThirdTable(m: Memory, root: nat, va: Word)
    requires TableAt(m, root, va, 1).None?
    ensures Translate(m, root, va) == None
  {
    hide Index, TableOf, Entry, Present, Huge, AddressIn, HugeAddressIn;
    PathStep(m, root, va, 1);
    PathStep(m, root, va, 2);
    if TableAt(m, root, va, 2).Some? {
      WalkFrom(m, root, va, 2);
    }
  }

  // ----- the traversal

  /** The table at this height of the path is there and its entry grants what is asked. */
  predicate PassesAt(m: Memory, root: nat, va: Word, flags: Word, h: nat)
    requires h <= 3
  {
    TableAt(m, root, va, h).Some? && Grants(Entry(m, TableAt(m, root, va, h).value, Index(va, h)), flags)
  }

  predicate PresentAt(m: Memory, root: nat, va: Word, h: nat)
    requires h <= 3
  {
    TableAt(m, root, va, h).Some? && Entry(m, TableAt(m, root, va, h).value, Index(va, h)) & 1 != 0
  }

  /** The traversal passes every entry that grants what is asked and stops at the first that does not, with the reason.
      */
  lemma {:induction false} TraverseStops(m: Memory, root: nat, va: Word, flags: Word, t: nat, h: nat)
    requires h <= 3 && TableAt(m, root, va, h) == Some(t) && Plain(m, root, va)
    ensures var s := Traverse(m, t, va, flags, h);
            && s.height <= h && TableAt(m, root, va, s.height) == Some(s.table)
            && (forall k: nat :: s.height < k <= h ==> PassesAt(m, root, va, flags, k))
            && (s.height == 0 ==> s.status == Ok)
            && (s.height > 0 ==>
                  && !PassesAt(m, root, va, flags, s.height)
                  && s.status == if PresentAt(m, root, va, s.height) then Privilege else Unmapped)
    decreases h
  {
    hide Index, TableOf, Entry, Present, Huge, CheckStatus, Grants, TableAt, Plain;
    if h > 0 {
      var e := Entry(m, t, Index(va, h));
      CheckStatusIs(e, flags);
      TraverseOnPath(m, root, va, flags, t, h);
      if CheckStatus(e, flags) == Ok {
        NextOnPath(m, root, va, flags, t, h);
        TraverseStops(m, root, va, flags, TableOf(e), h - 1);
      }
    }
  }

  lemma NextOnPath(m: Memory, root: nat, va: Word, flags: Word, t: nat, h: nat)
    requires 0 < h <= 3 && TableAt(m, root, va, h) == Some(t) && Plain(m, root, va)
    requires CheckStatus(Entry(m, t, Index(va, h)), flags) == Ok
    ensures TableAt(m, root, va, h - 1) == Some(TableOf(Entry(m, t, Index(va, h))))
  {
    OkIsPresent(Entry(m, t, Index(va, h)), flags);
    hide Index, TableOf, Entry, Present, Huge, CheckStatus;
  }

  /** The traversal succeeds if and only if the three entries on the path grant what is asked. */
  lemma TraverseOkIff(m: Memory, root: nat, va: Word, flags: Word)
    requires Plain(m, root, va)
    ensures Traverse(m, root, va, flags, 3).status == Ok <==>
            PassesAt(m, root, va, flags, 3) && PassesAt(m, root, va, flags, 2) && PassesAt(m, root, va, flags, 1)
  {
    hide Plain, PassesAt, PresentAt, Traverse, TableAt;
    RootOfPath(m, root, va);
    TraverseStops(m, root, va, flags, root, 3);
  }

  /** The first entry from the top that does not grant what is asked. */
  predicate FirstRefusal(m: Memory, root: nat, va: Word, flags: Word, h: nat)
    requires h <= 3
  {
    h > 0 && !PassesAt(m, root, va, flags, h) && forall k: nat :: h < k <= 3 ==> PassesAt(m, root, va, flags, k)
  }

  lemma OneRefusal(m: Memory, root: nat, va: Word, flags: Word, h: nat, g: nat)
    requires h <= 3 && g <= 3 && FirstRefusal(m, root, va, flags, h)
    requires (g > 0 ==> !PassesAt(m, root, va, flags, g)) && forall k: nat :: g < k <= 3 ==>
             PassesAt(m, root, va, flags, k)
    ensures h == g
  {
    hide PassesAt;
  }

  /** The traversal is refused if and only if the first entry that does not grant what is asked is present. */
  lemma TraverseRefusedIff(m: Memory, root: nat, va: Word, flags: Word)
    requires Plain(m, root, va)
    ensures Traverse(m, root, va, flags, 3).status == Privilege <==>
            exists h: nat :: h <= 3 && FirstRefusal(m, root, va, flags, h) && PresentAt(m, root, va, h)
  {
    hide Plain, PassesAt, PresentAt, Traverse, TableAt;
    RootOfPath(m, root, va);
    TraverseStops(m, root, va, flags, root, 3);
    var s := Traverse(m, root, va, flags, 3);
    if h: nat :| h <= 3 && FirstRefusal(m, root, va, flags, h) {
      OneRefusal(m, root, va, flags, h, s.height);
    }
    if s.height > 0 {
      assert FirstRefusal(m, root, va, flags, s.height);
    }
  }

  // ----- finding or making a page table for an access

  /** Making tables leaves every entry of the tables there were, but for those of the table it starts at. */
  lemma {:induction false} GrowLeaves(m: Memory, t: nat, va: Word, flags: Word, h: nat, frames: seq<Word>, u: nat,
          j: nat)
    requires t in m && |m[t]| == 512 && NewFrames(m, frames, h) && u in m && u != t
    ensures Entry(Grow(m, t, va, flags, h, frames).0, u, j) == Entry(m, u, j)
    decreases h
  {
    hide *;
    if h > 0 {
      NewFrame(m, frames, h);
      GrowStep(m, t, va, flags, h, frames);
      AddTableKeys(m, t, va, flags, h, frames[0]);
      AddTableIs(m, t, va, flags, h, frames[0], u, j);
      LessFrames(m, AddTable(m, t, va, flags, h, frames[0]), frames, h);
      GrowLeaves(AddTable(m, t, va, flags, h, frames[0]), TableOf(frames[0]), va, flags, h - 1, frames[1..], u, j);
    } else {
      GrowNone(m, t, va, flags, frames);
    }
  }

  /** The tables made grant the access they were made for. */
  lemma {:induction false} GrowGrants(m: Memory, t: nat, va: Word, flags: Word, h: nat, frames: seq<Word>)
    requires t in m && |m[t]| == 512 && NewFrames(m, frames, h)
    ensures var (n, pt) := Grow(m, t, va, flags, h, frames); Traverse(n, t, va, flags, h) == Stop(pt, 0, Ok)
    decreases h
  {
    hide *;
    if h > 0 {
      NewFrame(m, frames, h);
      var c := TableOf(frames[0]);
      var o := AddTable(m, t, va, flags, h, frames[0]);
      GrowStep(m, t, va, flags, h, frames);
      AddTableKeys(m, t, va, flags, h, frames[0]);
      AddTableIs(m, t, va, flags, h, frames[0], t, Index(va, h));
      LessFrames(m, o, frames, h);
      GrowLeaves(o, c, va, flags, h - 1, frames[1..], t, Index(va, h));
      GrowGrants(o, c, va, flags, h - 1, frames[1..]);
      MappedTable(Entry(m, t, Index(va, h)), frames[0], flags);
      MappedGrants(Entry(m, t, Index(va, h)), frames[0], flags);
      TraverseMore(Grow(m, t, va, flags, h, frames).0, t, va, flags, h);
    } else {
      GrowNone(m, t, va, flags, frames);
      TraverseHere(m, t, va, flags);
    }
  }

  lemma TraverseMore(m: Memory, t: nat, va: Word, flags: Word, h: nat)
    requires h > 0 && CheckStatus(Entry(m, t, Index(va, h)), flags) == Ok
    ensures Traverse(m, t, va, flags, h) == Traverse(m, TableOf(Entry(m, t, Index(va, h))), va, flags, h - 1)
  {
    hide CheckStatus, Entry, Index, TableOf;
  }

  lemma TraverseHere(m: Memory, t: nat, va: Word, flags: Word)
    ensures Traverse(m, t, va, flags, 0) == Stop(t, 0, Ok)
  {
  }

  /** A traversal that stopped at table `t` gets there again, and on, once the tables below are made. */
  lemma {:induction false} TraverseAgain(m: Memory, n: Memory, root: nat, height: map<nat, nat>, va: Word, flags: Word,
          u: nat, k: nat)
    requires Tree(m, root, height) && Plain(m, root, va) && k <= 3 && TableAt(m, root, va, k) == Some(u)
    requires var s := Traverse(m, u, va, flags, k);
             forall v: nat, j: nat :: v in m && v != s.table ==> Entry(n, v, j) == Entry(m, v, j)
    ensures var s := Traverse(m, u, va, flags, k);
            s.height <= k && Traverse(n, u, va, flags, k) == Traverse(n, s.table, va, flags, s.height)
    decreases k
  {
    hide Index, TableOf, Entry, Present, Huge, CheckStatus, Tree, Plain, TableAt;
    TraverseOnPath(m, root, va, flags, u, k);
    TableAtHeight(m, root, height, va, k);
    TableAtHeight(m, root, height, va, Traverse(m, u, va, flags, k).height);
    if k > 0 && CheckStatus(Entry(m, u, Index(va, k)), flags) == Ok {
      NextOnPath(m, root, va, flags, u, k);
      TraverseAgain(m, n, root, height, va, flags, TableOf(Entry(m, u, Index(va, k))), k - 1);
    }
  }

  /** The page table that is found or made is one that the same access reaches. */
  lemma FindGrants(m: Memory, root: nat, height: map<nat, nat>, va: Word, flags: Word, frames: seq<Word>)
    requires Tree(m, root, height) && Plain(m, root, va) && NewFrames(m, frames, 3)
    ensures var f := FindOrAllocate(m, root, va, flags, frames);
            f.pt.Some? ==> Traverse(f.memory, root, va, flags, 3) == Stop(f.pt.value, 0, Ok)
  {
    hide Index, TableOf, Entry, Present, Huge, Tree, Plain, TableAt, NewFrames, Traverse, Grow;
    RootOfPath(m, root, va);
    TraverseOnPath(m, root, va, flags, root, 3);
    var s := Traverse(m, root, va, flags, 3);
    TableAtHeight(m, root, height, va, s.height);
    FewerFrames(m, frames, s.height);
    if s.status == Unmapped {
      var n := Grow(m, s.table, va, flags, s.height, frames).0;
      GrowGrants(m, s.table, va, flags, s.height, frames);
      forall v: nat, j: nat | v in m && v != s.table
        ensures Entry(n, v, j) == Entry(m, v, j)
      {
        GrowLeaves(m, s.table, va, flags, s.height, frames, v, j);
      }
      TraverseAgain(m, n, root, height, va, flags, root, 3);
    }
  }

  /** From table `t` on, every entry of the path has exactly the rights that the flags ask for. */
  ghost predicate PathRights(m: Memory, t: nat, va: Word, flags: Word, h: nat)
    decreases h
  {
    h > 0 ==>
      && HasRights(Entry(m, t, Index(va, h)), flags)
      && PathRights(m, TableOf(Entry(m, t, Index(va, h))), va, flags, h - 1)
  }

  lemma PathRightsMore(m: Memory, t: nat, va: Word, flags: Word, h: nat)
    requires h > 0 && HasRights(Entry(m, t, Index(va, h)), flags)
    requires PathRights(m, TableOf(Entry(m, t, Index(va, h))), va, flags, h - 1)
    ensures PathRights(m, t, va, flags, h)
  {
    hide HasRights, Entry, Index, TableOf;
  }

  lemma NoPathRights(m: Memory, t: nat, va: Word, flags: Word)
    ensures PathRights(m, t, va, flags, 0)
  {
  }

  /** The entries that lead to the tables made have exactly the rights of the access they were made for. */
  lemma {:induction false} GrowRights(m: Memory, t: nat, va: Word, flags: Word, h: nat, frames: seq<Word>)
    requires t in m && |m[t]| == 512 && NewFrames(m, frames, h)
    ensures PathRights(Grow(m, t, va, flags, h, frames).0, t, va, flags, h)
    decreases h
  {
    hide *;
    if h > 0 {
      NewFrame(m, frames, h);
      var c := TableOf(frames[0]);
      var o := AddTable(m, t, va, flags, h, frames[0]);
      GrowStep(m, t, va, flags, h, frames);
      AddTableKeys(m, t, va, flags, h, frames[0]);
      AddTableIs(m, t, va, flags, h, frames[0], t, Index(va, h));
      LessFrames(m, o, frames, h);
      GrowLeaves(o, c, va, flags, h - 1, frames[1..], t, Index(va, h));
      GrowRights(o, c, va, flags, h - 1, frames[1..]);
      MappedTable(Entry(m, t, Index(va, h)), frames[0], flags);
      MappedRights(Entry(m, t, Index(va, h)), frames[0], flags);
      PathRightsMore(Grow(m, t, va, flags, h, frames).0, t, va, flags, h);
    } else {
      NoPathRights(Grow(m, t, va, flags, h, frames).0, t, va, flags);
    }
  }

  /** Where an entry of the path is missing, the entries made from there on have exactly the rights asked for; with none
      missing, nothing is written. */
  lemma FindRights(m: Memory, root: nat, height: map<nat, nat>, va: Word, flags: Word, frames: seq<Word>)
    requires Tree(m, root, height) && Plain(m, root, va) && NewFrames(m, frames, 3)
    ensures var (s, n) := (Traverse(m, root, va, flags, 3), FindOrAllocate(m, root, va, flags, frames).memory);
            if s.status == Unmapped then PathRights(n, s.table, va, flags, s.height) else n == m
  {
    hide Index, TableOf, Entry, Present, Huge, Tree, Plain, TableAt, NewFrames, Traverse, Grow, PathRights;
    RootOfPath(m, root, va);
    TraverseOnPath(m, root, va, flags, root, 3);
    var s := Traverse(m, root, va, flags, 3);
    TableAtHeight(m, root, height, va, s.height);
    FewerFrames(m, frames, s.height);
    if s.status == Unmapped {
      GrowRights(m, s.table, va, flags, s.height, frames);
    }
  }

  // ----- the rights of a range

  /** The first `k` pages of the range are mapped with exactly the rights that the flags ask for. */
  ghost predicate RangeHasRights(m: Memory, pt: nat, va: Word, flags: Word, k: Word) {
    forall j: Word :: Under(j, k) ==> HasRights(Entry(m, pt, Index(Page(va, j), 0)), flags)
  }

  lemma SetEntryOthers(m: Memory, pt: nat, i: nat, e: Word)
    requires pt in m && i < |m[pt]|
    ensures Entry(SetEntry(m, pt, i, e), pt, i) == e
    ensures forall j: nat :: j != i ==> Entry(SetEntry(m, pt, i, e), pt, j) == Entry(m, pt, j)
  {
  }

  lemma MappedRights(e: Word, phys: Word, flags: Word)
    ensures HasRights(Mapped(e, phys, flags), flags)
  {
    MappedBits(e, phys, flags);
    hide HasRights, Mapped;
  }

  lemma NumbersDiffer(j: Word, k: Word)
    requires j != k
    ensures AsNumber(j) != AsNumber(k)
  {
    hide *;
    if AsNumber(j) == AsNumber(k) {
      NumberInjective(j, k);
    }
  }

  /** Mapping one more page leaves the rights of the others. */
  lemma OneMoreRights(m: Memory, pt: nat, va: Word, phys: Word, flags: Word, other: Word, k: Word, end: Word)
    requires pt in m && |m[pt]| == 512 && EndsBefore(va, end) && Fits(k, end) && RangeHasRights(m, pt, va, flags, k)
    ensures var n := MapOne(m, pt, va, phys, other, k);
            && HasRights(Entry(n, pt, Index(Page(va, k), 0)), other) && RangeHasRights(n, pt, va, flags, k)
  {
    hide HasRights, Index, Page, Mapped, Entry, SetEntry, MapOne, EndsBefore, Fits, Under, AsNumber;
    FitsSmall(k, end);
    PageIndex(va, end, k);
    MapOneIs(m, pt, va, phys, other, k);
    var i, e := Index(Page(va, k), 0), Mapped(Entry(m, pt, Index(Page(va, k), 0)), Page(phys, k), other);
    SetEntryOthers(m, pt, i, e);
    MappedRights(Entry(m, pt, i), Page(phys, k), other);
    forall j: Word | Under(j, k)
      ensures HasRights(Entry(MapOne(m, pt, va, phys, other, k), pt, Index(Page(va, j), 0)), flags)
    {
      UnderFits(j, k, end);
      FitsSmall(j, end);
      PageIndex(va, end, j);
      UnderDiffers(j, k);
      NumbersDiffer(j, k);
    }
  }

  lemma UnderDiffers(j: Word, k: Word)
    requires Under(j, k)
    ensures j != k
  {
  }

  lemma {:induction false} RangeRights(m: Memory, pt: nat, va: Word, phys: Word, flags: Word, k: Word, end: Word)
    requires pt in m && |m[pt]| == 512 && EndsBefore(va, end) && Fits(k, end) && k < 512
    ensures RangeHasRights(MapRange(m, pt, va, phys, flags, k), pt, va, flags, k)
    decreases AsNumber(k)
  {
    hide *;
    if k == 0 {
      NoRights(MapRange(m, pt, va, phys, flags, k), pt, va, flags);
    } else {
      FitsLess(k, end);
      FitsSmall(Less(k), end);
      RangeStep(m, pt, va, phys, flags, k);
      RangeRights(m, pt, va, phys, flags, Less(k), end);
      var o := MapRange(m, pt, va, phys, flags, Less(k));
      OneMoreRights(o, pt, va, phys, flags, flags, Less(k), end);
      RightsNext(MapRange(m, pt, va, phys, flags, k), pt, va, flags, k);
    }
  }

  lemma NoRights(m: Memory, pt: nat, va: Word, flags: Word)
    ensures RangeHasRights(m, pt, va, flags, 0)
  {
    NothingUnder();
    hide HasRights, Entry, Index, Page, Under;
  }

  lemma RightsNext(m: Memory, pt: nat, va: Word, flags: Word, k: Word)
    requires RangeHasRights(m, pt, va, flags, Less(k)) && HasRights(Entry(m, pt, Index(Page(va, Less(k)), 0)), flags)
    requires k != 0 && k < 512
    ensures RangeHasRights(m, pt, va, flags, k)
  {
    hide HasRights, Entry, Index, Page, Under, Less;
    forall j: Word | Under(j, k)
      ensures HasRights(Entry(m, pt, Index(Page(va, j), 0)), flags)
    {
      if j != Less(k) {
        UnderLess(j, k);
      }
    }
  }

  /** All pages of vm_map_pages have the rights asked for, and the guard page those but the right to write. */
  lemma MapAllRights(m: Memory, pt: nat, va: Word, phys: Word, flags: Word, pages: Word, end: Word)
    requires pt in m && |m[pt]| == 512 && EndsBefore(va, end) && Fits(pages, end) && pages < 512
    ensures var n := MapAll(m, pt, va, phys, flags, pages);
            && RangeHasRights(n, pt, va, flags, pages)
            && (Asks(flags, VM_WRITE_GUARD) ==>
                  HasRights(Entry(n, pt, Index(Page(va, pages), 0)), WithoutWrite(flags)))
  {
    hide *;
    RangeRights(m, pt, va, phys, flags, pages, end);
    MapAllIs(m, pt, va, phys, flags, pages);
    if Asks(flags, VM_WRITE_GUARD) {
      OneMoreRights(MapRange(m, pt, va, phys, flags, pages), pt, va, phys, flags, WithoutWrite(flags), pages, end);
    }
  }
}
