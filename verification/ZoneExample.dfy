/** One block of two pages: a zone that meets every assumption, and on which vm_free_block as written leaves a page
    mapped. */
module ZoneExample {
  import opened Options
  import opened EntryBits
  import opened PageTables
  import opened PageMapping
  import opened PageRanges
  import opened BlockBits
  import opened BlockZone
  import opened BlockAlloc
  import opened BlockRuns
  import opened VmAsWritten

  const SMALL_ZONE := ZoneInfo(0x20_0000, 2, 1)

  lemma TwoPages()
    ensures AsNumber(Bytes(2)) == 0x2000 && AsNumber(2) == 2
  {
  }

  lemma SmallAddresses()
    ensures Addr(SMALL_ZONE, 0) == 0x20_0000 && Addr(SMALL_ZONE, 1) == 0x20_2000
  {
    TwoPages();
    hide Bytes, AsNumber;
  }

  lemma AddressWords()
    ensures AsNumber(AsWord(0x20_0000)) == 0x20_0000 && AsNumber(AsWord(0x20_2000)) == 0x20_2000
    ensures BlockAligned(AsWord(0x20_0000), 2)
  {
    hide *;
    NumberOfStart();
    NumberOfEnd();
    WordOfNumber(0x20_0000);
    WordOfNumber(0x20_2000);
    StartAligned();
  }

  lemma NumberOfStart()
    ensures AsNumber(0x20_0000) == 0x20_0000
  {
  }

  lemma NumberOfEnd()
    ensures AsNumber(0x20_2000) == 0x20_2000
  {
  }

  lemma StartAligned()
    ensures BlockAligned(0x20_0000, 2)
  {
  }

  lemma Distances()
    ensures EntryHolds(0) && EntryHolds(0x2000)
  {
  }

  /** The assumptions about a zone can be met. */
  lemma SmallZoneOk()
    ensures ZoneOk(SMALL_ZONE)
  {
    hide EntryHolds, BlockAligned, AsNumber, AsWord, Addr, PageOf;
    SmallAddresses();
    AddressWords();
    Distances();
  }

  function Frames(): seq<Word> {
    [0x5000, 0x6000, 0x7000]
  }

  lemma FramesNew()
    ensures NewFrames(NoTables(0), Frames(), 3)
  {
    FrameNumbers();
    hide TableOf;
    assert Frames() == [0x5000, 0x6000, 0x7000];
  }

  lemma FrameNumbers()
    ensures TableOf(0x5000) == 0x5000 && TableOf(0x6000) == 0x6000 && TableOf(0x7000) == 0x7000
  {
  }

  lemma NothingAsked()
    ensures !Asks(0, VM_HUGEPAGE)
  {
  }

  lemma NoTableYet(va: Word)
    ensures TableAt(NoTables(0), 0, va, 0) == None
  {
    EmptyEntries(0, Index(va, 3));
    hide Index, Present, Entry, TableOf;
  }

  /** An unused zone over an empty root table. */
  lemma StartInv()
    ensures ZoneInv(NoTables(0), 0, map[0 := 3], SMALL_ZONE, ZoneState([], 0))
  {
    var m := NoTables(0);
    SmallZoneOk();
    EmptyRoot(0);
    hide ZoneOk, Tree, TableAt, Plain, Va, LeadsTo, FullRun;
    forall i: nat
      ensures Plain(m, 0, Va(SMALL_ZONE, i)) && NewBlock(m, 0, SMALL_ZONE, i)
    {
      EmptyRoot(Va(SMALL_ZONE, i));
      NoTableYet(Va(SMALL_ZONE, i));
    }
  }

  lemma FirstCanBeHad()
    ensures CanAlloc(NoTables(0), 0, SMALL_ZONE, ZoneState([], 0), 0, Frames())
  {
    FramesNew();
    NothingAsked();
    EmptyTraverse(Va(SMALL_ZONE, 0));
    hide NewFrames, Asks, Traverse, Va, Frames;
  }

  /** Allocating the block and freeing it as written leaves its second page mapped. */
  lemma SecondPageStays(phys: Word)
    ensures CanAlloc(NoTables(0), 0, SMALL_ZONE, ZoneState([], 0), 0, Frames())
    ensures var m := AllocMemory(NoTables(0), 0, SMALL_ZONE, 0, phys, 0, Frames());
            && CanFree(m, 0, SMALL_ZONE, ZoneState([], 1), 0)
            && !AllUnmapped(FreeAsWritten(m, 0, SMALL_ZONE, ZoneState([], 1), 0), 0, SMALL_ZONE, 0)
  {
    StartInv();
    FirstCanBeHad();
    TwoPages();
    hide *;
    FramesNew();
    CountIs2();
    UnusedZone();
    var height := AllocKeeps(NoTables(0), 0, map[0 := 3], SMALL_ZONE, ZoneState([], 0), phys, 0, Frames());
    FreeAsWrittenIff(AllocMemory(NoTables(0), 0, SMALL_ZONE, 0, phys, 0, Frames()), 0, height, SMALL_ZONE,
                     ZoneState([], 1), 0);
  }

  lemma CountIs2()
    ensures Count(SMALL_ZONE) == 2
  {
    TwoPages();
    hide AsNumber;
  }

  lemma UnusedZone()
    ensures Cursor(ZoneState([], 0)) == 0 && Popped(ZoneState([], 0)) == ZoneState([], 1)
  {
  }
}
