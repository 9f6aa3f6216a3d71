/** Page table entries and virtual addresses as 64-bit words: mm.h and the entry functions of vm.c. */
module EntryBits {

  type Word = bv64

  // ----- mapping flags (vm.h:7-19)

  const VM_ALLOW_WRITE: Word := 1
  const VM_ALLOW_EXEC: Word := 2
  const VM_ALLOW_USER: Word := 4
  const VM_WRITE_GUARD: Word := 8
  const VM_HUGEPAGE: Word := 0x80

  // ----- entries

  predicate Present(e: Word) {
    e & 1 != 0
  }

  predicate Writable(e: Word) {
    e & 2 != 0
  }

  predicate UserAccessible(e: Word) {
    e & 4 != 0
  }

  predicate Huge(e: Word) {
    e & 0x80 != 0
  }

  predicate NoExecute(e: Word) {
    e & 0x8000_0000_0000_0000 != 0
  }

  /** Bits 12 to 51: the frame that an entry points at. */
  function FrameOf(e: Word): Word {
    e & 0x000F_FFFF_FFFF_F000
  }

  /** Bits 9 to 11 and 52 to 62, in which the kernel records how memory was allocated. */
  function MetaOf(e: Word): Word {
    e & 0x7FF0_0000_0000_0E00
  }

  predicate Asks(flags: Word, flag: Word) {
    flags & flag != 0
  }

  /** vm_pt_entry_create. */
  function EntryFor(phys: Word, flags: Word): Word {
    1 | (if Asks(flags, VM_ALLOW_WRITE) then 2 else 0) | (if Asks(flags, VM_ALLOW_USER) then 4 else 0)
    | (if Asks(flags, VM_ALLOW_EXEC) then 0 else 0x8000_0000_0000_0000) | (if Asks(flags, VM_HUGEPAGE) then 0x80 else 0)
    | (phys & 0x000F_FFFF_FFFF_F000)
  }

  /** __map_phys_page: keep the bits that are not reserved, set the rest. */
  function Mapped(e: Word, phys: Word, flags: Word): Word {
    (e & !(0x000F_FFFF_FFFF_F000 | 0x8000_0000_0000_0000 | 0x1FF)) | EntryFor(phys, flags)
  }

  /** Mapping sets frame and rights as asked, and leaves the allocation record of the entry alone. */
  lemma MappedFacts(e: Word, phys: Word, flags: Word)
    ensures var m := Mapped(e, phys, flags);
      && Present(m) && FrameOf(m) == FrameOf(phys) && MetaOf(m) == MetaOf(e)
      && (Writable(m) <==> Asks(flags, VM_ALLOW_WRITE)) && (UserAccessible(m) <==> Asks(flags, VM_ALLOW_USER))
      && (NoExecute(m) <==> !Asks(flags, VM_ALLOW_EXEC)) && (Huge(m) <==> Asks(flags, VM_HUGEPAGE))
  {
  }

  /** Errors of vm.h:22-26. */
  datatype Status = Ok | Unmapped | Privilege | Boundary

  /** vm_check_status. */
  function CheckStatus(e: Word, flags: Word): Status {
    if !Present(e) then Unmapped
    else if Asks(flags, VM_ALLOW_WRITE) && !Writable(e) then Privilege
    else if Asks(flags, VM_ALLOW_USER) && !UserAccessible(e) then Privilege
    else Ok
  }

  /** An entry mapped with some flags grants them. */
  lemma MappedGrants(e: Word, phys: Word, flags: Word)
    ensures CheckStatus(Mapped(e, phys, flags), flags) == Ok
  {
    MappedFacts(e, phys, flags);
  }

  // ----- addresses

  /** The offset functions of mm.h:123-137. */
  function PtOffset(va: Word): Word {
    (va >> 12) & 0x1FF
  }

  function PdtOffset(va: Word): Word {
    (va >> 21) & 0x1FF
  }

  function PdptOffset(va: Word): Word {
    (va >> 30) & 0x1FF
  }

  function Pml4Offset(va: Word): Word {
    (va >> 39) & 0x1FF
  }

  function AsNumber(w: Word): nat {
    w as nat
  }

  function AsWord(n: nat): Word
    requires n < 0x1_0000_0000_0000_0000
  {
    n as Word
  }

  lemma WordOfNumber(a: Word)
    ensures AsNumber(a) < 0x1_0000_0000_0000_0000 && AsWord(AsNumber(a)) == a
  {
  }

  lemma NumberInjective(a: Word, b: Word)
    requires AsNumber(a) == AsNumber(b)
    ensures a == b
  {
    hide *;
    WordOfNumber(a);
    WordOfNumber(b);
  }

  /** height_offset: which entry of the table at this height an address goes through. */
  function Index(va: Word, height: nat): nat {
    AsNumber(if height == 0 then PtOffset(va)
             else if height == 1 then PdtOffset(va)
             else if height == 2 then PdptOffset(va)
             else Pml4Offset(va))
  }

  /** The address of the table that an entry points at. */
  function TableOf(e: Word): nat {
    AsNumber(FrameOf(e))
  }

  lemma IndexBound(va: Word, height: nat)
    ensures Index(va, height) < 512
  {
    OffsetBounds(va);
    SmallNumber(PtOffset(va));
    SmallNumber(PdtOffset(va));
    SmallNumber(PdptOffset(va));
    SmallNumber(Pml4Offset(va));
    hide *;
    IndexIs(va, height);
  }

  lemma IndexIs(va: Word, height: nat)
    ensures Index(va, height) in {AsNumber(PtOffset(va)), AsNumber(PdtOffset(va)), AsNumber(PdptOffset(va)),
            AsNumber(Pml4Offset(va))}
  {
    hide PtOffset, PdtOffset, PdptOffset, Pml4Offset, AsNumber;
  }

  lemma SmallNumber(w: Word)
    ensures w < 512 ==> AsNumber(w) < 512
  {
  }

  lemma OffsetBounds(va: Word)
    ensures PtOffset(va) < 512 && PdtOffset(va) < 512 && PdptOffset(va) < 512 && Pml4Offset(va) < 512
  {
  }

  function PageOf(va: Word): Word {
    va & 0x0000_FFFF_FFFF_F000
  }

  function OffsetIn(va: Word): Word {
    va & 0xFFF
  }

  lemma SamePageOffsets(a: Word, b: Word)
    requires PageOf(a) == PageOf(b)
    ensures PtOffset(a) == PtOffset(b) && PdtOffset(a) == PdtOffset(b)
    ensures PdptOffset(a) == PdptOffset(b) && Pml4Offset(a) == Pml4Offset(b)
  {
  }

  lemma SameOffsetsPage(a: Word, b: Word)
    requires PtOffset(a) == PtOffset(b) && PdtOffset(a) == PdtOffset(b)
    requires PdptOffset(a) == PdptOffset(b) && Pml4Offset(a) == Pml4Offset(b)
    ensures PageOf(a) == PageOf(b)
  {
  }

  lemma FourIndices(a: Word)
    ensures Index(a, 0) == AsNumber(PtOffset(a)) && Index(a, 1) == AsNumber(PdtOffset(a))
    ensures Index(a, 2) == AsNumber(PdptOffset(a)) && Index(a, 3) == AsNumber(Pml4Offset(a))
  {
    hide PtOffset, PdtOffset, PdptOffset, Pml4Offset, AsNumber;
  }

  predicate SameIndices(a: Word, b: Word) {
    Index(a, 0) == Index(b, 0) && Index(a, 1) == Index(b, 1) && Index(a, 2) == Index(b, 2) && Index(a, 3) == Index(b, 3)
  }

  /** Two addresses go through the same entries exactly when they are on the same page. */
  lemma SamePage(a: Word, b: Word)
    ensures PageOf(a) == PageOf(b) <==> SameIndices(a, b)
  {
    hide PtOffset, PdtOffset, PdptOffset, Pml4Offset, PageOf, AsNumber, Index;
    FourIndices(a);
    FourIndices(b);
    if PageOf(a) == PageOf(b) {
      SamePageOffsets(a, b);
    }
    if SameIndices(a, b) {
      NumberInjective(PtOffset(a), PtOffset(b));
      NumberInjective(PdtOffset(a), PdtOffset(b));
      NumberInjective(PdptOffset(a), PdptOffset(b));
      NumberInjective(Pml4Offset(a), Pml4Offset(b));
      SameOffsetsPage(a, b);
    }
  }
}
