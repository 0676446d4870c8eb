/** Concrete calls of get_heap: one with an address that is not page-aligned, and one that is refused
    after it has mapped a page. */
module HeapTheorems {
  import opened Bits
  import opened PageFormat
  import opened PageWalk
  import opened PageTree
  import opened PageSpace
  import opened PageRange
  import opened PageTheorems
  import opened Heap

  // ----- the bytes of a heap

  /** After a grant the byte at distance d is backed by the byte of the run at the same distance from
      the offset that the address has in its page. For a page-aligned address these are all bytes. */
  lemma HeapBytes(sp: Space, sp': Space, pml4: nat, vaddr: uint64, first: nat, pages: nat, d: nat)
    requires Separated(sp', pml4) && RangeFits(vaddr, pages * PAGE_SIZE)
    requires first % PAGE_SIZE == 0 && first + pages * PAGE_SIZE <= FRAME_LIMIT * PAGE_SIZE
    requires HeapGranted(sp, sp', RangeOf(vaddr, first, pages * PAGE_SIZE, READ_WRITE_BIT), first, pages)
    requires vaddr % PAGE_SIZE + d < pages * PAGE_SIZE
    ensures PhysicalAddress(sp'.frames, pml4, vaddr + d) ==
              if Canonical(vaddr + d) then first + vaddr % PAGE_SIZE + d else -1
  {
    hide Separated, LeafView, Translate, PageNumber, HeapGranted, Canonical, RangeFits;
    var g, off := RangeOf(vaddr, first, pages * PAGE_SIZE, READ_WRITE_BIT), vaddr % PAGE_SIZE + d;
    var q := PageNumber(vaddr + d);
    PageOfDistance(vaddr, pages * PAGE_SIZE, d);
    GrantedFrames(sp, sp', g, first, pages, q);
    SameTranslation(sp', pml4, q);
    RunByte(first, pages, off);
    DivModUnique(vaddr + d, PAGE_SIZE, vaddr / PAGE_SIZE + off / PAGE_SIZE, off % PAGE_SIZE);
  }

  lemma RunByte(first: nat, pages: nat, off: nat)
    requires first % PAGE_SIZE == 0 && first + pages * PAGE_SIZE <= FRAME_LIMIT * PAGE_SIZE && off < pages * PAGE_SIZE
    ensures (first / PAGE_SIZE + off / PAGE_SIZE) % FRAME_LIMIT * PAGE_SIZE + off % PAGE_SIZE == first + off
  {
    SmallMod(first / PAGE_SIZE + off / PAGE_SIZE, FRAME_LIMIT);
  }

  // ----- building the states

  /** A page table for the first pages, in frame f. */
  lemma WithTable(sp: Space, f: nat) returns (next: Space)
    requires Separated(sp, 0x1000) && MapsNothing(sp) && f in sp.free && f < WORD_LIMIT
    requires sp.tables == map[ROOT := 0x1000, Slot(3, 0) := 0x2000, Slot(2, 0) := 0x3000]
    requires 0x3000 in sp.frames && sp.frames[0x3000] == ZeroTable()
    ensures Separated(next, 0x1000) && MapsNothing(next) && Grown(sp, next)
    ensures next.tables == sp.tables[Slot(1, 0) := f] && next.free == sp.free - {f}
  {
    hide Separated, MapsNothing, ZeroTable, SameView, Grown, TableAddress;
    ReadWriteFlag();
    ZeroTableIsEmpty();
    LinkSteps(sp, 0x1000, Slot(2, 0), 0, f, READ_WRITE_BIT);
    next := LinkedSpace(sp, Slot(2, 0), 0, f, LinkEntry(f, READ_WRITE_BIT));
    StillNothing(sp, next);
  }

  /** Page q mapped writable to a frame. */
  lemma WithPage(sp: Space, q: nat, frame: nat) returns (next: Space)
    requires Separated(sp, 0x1000) && q < 512 && frame < 512 && Slot(1, 0) in sp.tables
    ensures Separated(next, 0x1000) && Grown(sp, next) && next.tables == sp.tables && next.free == sp.free
    ensures PageMapped(sp, next, q, Page(frame, RightsOf(READ_WRITE_BIT)))
  {
    hide Separated, Grown, PageMapped, Present, Writable, User, NoExecute, FrameOf, Prefix, Index;
    ReadWriteFlag();
    FirstTable(q);
    SmallFrame(frame);
    var w := PageEntry(frame * PAGE_SIZE, READ_WRITE_BIT);
    LeafWritten(sp, 0x1000, q, w);
    next := RewrittenSpace(sp, SlotOf(q, 1), Index(q, 1), w);
  }

  lemma FirstTable(q: nat)
    requires q < 512
    ensures SlotOf(q, 1) == Slot(1, 0)
  {
    PrefixValues(q);
  }

  lemma SmallFrame(frame: nat)
    requires frame < 512
    ensures frame * PAGE_SIZE < WORD_LIMIT && FrameOf(frame * PAGE_SIZE) == frame
  {
    SmallMod(frame, FRAME_LIMIT);
  }

  lemma OneFrame()
    ensures RunFrames(0x4000, 1) == {0x4000}
  {
    assert forall a: nat :: a in RunFrames(0x4000, 1) <==> a == 0x4000;
  }

  lemma TwoFrames()
    ensures RunFrames(0x8000, 2) == {0x8000, 0x9000}
  {
    RunGrows(0x8000, 1);
    RunGrows(0x8000, 0);
    RunOfNone(0x8000);
  }

  // ----- an address that is not page-aligned

  /** What get_heap asks for when it is called with address 1 and length 4096. */
  function UnalignedRange(): (g: Range)
    ensures g.base == 0 && g.count == 2 && g.frame == 4 && g.flags == READ_WRITE_BIT
  {
    RangeOf(1, 0x4000, PAGE_SIZE, READ_WRITE_BIT)
  }

  /** The two pages that the range touches. */
  ghost predicate MapsTwo(sp: Space) {
    forall q: nat ::
      LeafView(sp.frames, sp.tables, q) == if q < 2 then Page(4 + q, RightsOf(READ_WRITE_BIT)) else Fault
  }

  lemma TwoPages(sp: Space, one: Space, two: Space)
    requires MapsNothing(sp) && PageMapped(sp, one, 0, Page(4, RightsOf(READ_WRITE_BIT)))
    requires PageMapped(one, two, 1, Page(5, RightsOf(READ_WRITE_BIT)))
    ensures MapsTwo(two)
  {
    hide LeafView, LargeCovered, RightsOf;
  }

  lemma GrantedFromNothing(sp: Space, sp': Space)
    requires MapsNothing(sp) && MapsTwo(sp')
    ensures ViewsAre(sp, sp', UnalignedRange(), 2)
    ensures forall q: nat :: !RangeConflict(sp, UnalignedRange(), q)
  {
    hide LeafView, LargeCovered, TakesLarge, UnalignedRange, RightsOf;
    var g := UnalignedRange();
    forall q: nat ensures LeafView(sp'.frames, sp'.tables, q) == RangeView(sp, g, 2, q) {
      if q < 2 {
        SmallMod(4 + q, FRAME_LIMIT);
      }
    }
  }

  lemma NothingClaimed(sp: Space, free: set<nat>)
    requires MapsNothing(sp)
    ensures MapsNothing(sp.(free := free))
  {
    hide LeafView, LargeCovered;
  }

  /** Frames 0x4000 and 0x6000 are free; the run is the first of them, but the range also maps a
      page to the frame behind it. */
  lemma UnalignedHeap() returns (sp: Space, sp': Space)
    ensures Separated(sp, 0x1000) && Separated(sp', 0x1000)
    ensures HeapGranted(sp, sp', RangeOf(1, 0x4000, PAGE_SIZE, READ_WRITE_BIT), 0x4000, 1)
    ensures LeafView(sp'.frames, sp'.tables, 1) == Page(5, RightsOf(READ_WRITE_BIT))
    ensures !BackedBy(LeafView(sp'.frames, sp'.tables, 1), 0x4000, 1)
  {
    hide Separated, MapsNothing, ZeroTable, PageMapped, LeafView, MapsTwo, ViewsAre, RangeConflict, RunFrames, RightsOf,
      Grown;
    sp := ExampleDirectory({0x4000, 0x6000});
    TableIsThere(sp);
    OneFrame();
    var claimed := sp.(free := sp.free - RunFrames(0x4000, 1));
    ClaimKeepsSeparation(sp, 0x1000, RunFrames(0x4000, 1));
    NothingClaimed(sp, claimed.free);
    var linked := WithTable(claimed, 0x6000);
    var one := WithPage(linked, 0, 4);
    sp' := WithPage(one, 1, 5);
    GrownTransitive(claimed, linked, one);
    GrownTransitive(claimed, one, sp');
    TwoPages(linked, one, sp');
    GrantedFromNothing(sp, sp');
    FourTables(sp'.tables);
    SecondPage(sp');
  }

  lemma TableIsThere(sp: Space)
    requires Separated(sp, 0x1000) && Slot(2, 0) in sp.tables
    ensures sp.tables[Slot(2, 0)] in sp.frames
  {
  }

  lemma FourTables(t: Tables)
    requires t == map[ROOT := 0x1000, Slot(3, 0) := 0x2000, Slot(2, 0) := 0x3000][Slot(1, 0) := 0x6000]
    ensures TableFrames(t) == {0x1000, 0x2000, 0x3000, 0x6000}
  {
    assert t[ROOT] == 0x1000 && t[Slot(3, 0)] == 0x2000 && t[Slot(2, 0)] == 0x3000 && t[Slot(1, 0)] == 0x6000;
  }

  lemma SecondPage(sp: Space)
    requires MapsTwo(sp)
    ensures LeafView(sp.frames, sp.tables, 1) == Page(5, RightsOf(READ_WRITE_BIT))
  {
    hide LeafView, RightsOf;
  }

  // ----- a refusal half way

  /** Pages 511 and 512, in two different page tables, onto frames 8 and 9. */
  function SplitRange(): (g: Range)
    ensures g.base == 511 && g.count == 2 && g.frame == 8 && g.flags == READ_WRITE_BIT
  {
    RangeOf(511 * PAGE_SIZE, 0x8000, 2 * PAGE_SIZE, READ_WRITE_BIT)
  }

  lemma FirstOfTwo(sp: Space, sp': Space)
    requires MapsNothing(sp) && PageMapped(sp, sp', 511, Page(8, RightsOf(READ_WRITE_BIT)))
    ensures ViewsAre(sp, sp', SplitRange(), 1) && NoConflictYet(sp, SplitRange(), 1)
    ensures LeafView(sp'.frames, sp'.tables, 511) == Page(8, RightsOf(READ_WRITE_BIT))
    ensures !LargeCovered(sp'.frames, sp'.tables, 512)
  {
    hide LeafView, LargeCovered, TakesLarge, SplitRange, RightsOf;
    SmallMod(8, FRAME_LIMIT);
  }

  /** The second page needs a table of its own. */
  lemma SecondNeedsTable(sp: Space)
    requires !LargeCovered(sp.frames, sp.tables, 512) && Slot(1, 1) !in sp.tables
    ensures NeedsTable(sp, 512)
  {
    hide LargeCovered;
    PrefixValues(512);
  }

  /** Two frames are free and make the run, so none is left for a table. The call is refused, the run
      is free again, and page 511 is still mapped to its first frame. */
  lemma RefusedHalfWay() returns (sp: Space, sp': Space)
    ensures Separated(sp, 0x1000) && sp.free == {0x8000, 0x9000} && MapsNothing(sp)
    ensures var g := RangeOf(511 * PAGE_SIZE, 0x8000, 2 * PAGE_SIZE, READ_WRITE_BIT);
            HeapRefused(sp, sp', g) && HeapBlocked(sp, sp', g, 0x8000, 2)
    ensures MapsFree(sp', 511)
  {
    hide Separated, MapsNothing, ZeroTable, PageMapped, LeafView, LargeCovered, ViewsAre, RangeConflict, NoConflictYet,
      RunFrames, RightsOf, Grown, NeedsTable, KeepsLarge;
    var start := ExampleDirectory({0x6000, 0x8000, 0x9000});
    TableIsThere(start);
    TwoFrames();
    sp := WithTable(start, 0x6000);
    var run, g := RunFrames(0x8000, 2), SplitRange();
    var claimed := sp.(free := sp.free - run);
    ClaimKeepsSeparation(sp, 0x1000, run);
    NothingClaimed(sp, claimed.free);
    var one := WithPage(claimed, 511, 8);
    GrownAround(sp, one, 0x1000, run);
    sp' := one.(free := one.free + run);
    FirstOfTwo(claimed, one);
    SecondNeedsTable(one);
    FreeDoesNotShow(sp, one, claimed.free, one.free, g, 1);
    FreeDoesNotShow(sp, one, sp.free, sp'.free, g, 1);
    assert sp'.free == {0x8000, 0x9000};
    assert StoppedAt(sp, sp', g, 0x8000, 2, 1);
  }
}
