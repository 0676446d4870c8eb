/** The mapping functions of kernel/memory/paging.c over the frame allocator. */
module Paging {
  import opened Bits
  import opened FrameSpec
  import opened Physical
  import opened PageFormat
  import opened PageWalk
  import opened PageTree
  import opened PageSpace
  import opened PageLinks
  import opened PageRange
  import opened PageNeeds

  /** Physical memory; `tables` records which frames are tables of the kernel's tree. */
  class Memory {
    var frames: Frames
    ghost var tables: Tables
  }

  ghost function Snapshot(pm: Pmm, mem: Memory): Space
    requires pm.Fits()
    reads pm, pm.slots, pm.bitmap, mem
  {
    Space(mem.frames, mem.tables, pm.Free())
  }

  ghost predicate TablesManaged(vs: seq<BlockView>, t: Tables) {
    forall s :: s in t ==> IsManaged(vs, t[s])
  }

  lemma TablesStayManaged(vs: seq<BlockView>, vs': seq<BlockView>, t: Tables, c: Slot, f: nat)
    requires TablesManaged(vs, t) && IsManaged(vs, f)
    requires forall a: nat :: IsManaged(vs', a) <==> IsManaged(vs, a)
    ensures TablesManaged(vs', t[c := f])
  {
    hide IsManaged;
  }

  /** What every mapping function requires and keeps: a valid allocator, a separated tree, and
      table frames that the allocator manages and has handed out. */
  ghost predicate Sound(pm: Pmm, mem: Memory, pml4: nat)
    reads pm, pm.slots, pm.bitmap, mem
  {
    && pm.Valid()
    && Separated(Snapshot(pm, mem), pml4)
    && TablesManaged(pm.Views(), mem.tables)
  }

  lemma FreeAreTableFrames(vs: seq<BlockView>)
    requires ValidViews(vs) && 0 !in FreeFrames(vs)
    ensures forall a :: a in FreeFrames(vs) ==> TableFrame(a)
  {
    forall a | a in FreeFrames(vs) ensures TableFrame(a) {
      FreeIsManaged(vs, a);
      ManagedIsAligned(vs, a);
    }
  }

  /** `alloc_table`: 0 stands for NULL. */
  method AllocTable(pm: Pmm, mem: Memory) returns (table: nat)
    requires pm.Valid() && 0 !in pm.Free()
    modifies pm.slots`framesFree, pm.bitmap, mem`frames
    ensures pm.Valid() && SameShape(old(pm.Views()), pm.Views())
    ensures forall a: nat :: IsManaged(pm.Views(), a) <==> IsManaged(old(pm.Views()), a)
    ensures table == 0 <==> old(pm.Free()) == {}
    ensures table == 0 ==> pm.Views() == old(pm.Views()) && mem.frames == old(mem.frames)
    ensures table != 0 ==>
              && table in old(pm.Free()) && pm.Free() == old(pm.Free()) - {table}
              && IsManaged(old(pm.Views()), table) && TableFrame(table)
              && mem.frames == old(mem.frames)[table := ZeroTable()]
  {
    hide IsManaged, FreeFrames, IsFree, ValidViews, Pmm.Valid;
    var frame := pm.AllocateFrame();
    SingleAllocation(old(pm.Views()), pm.Views(), frame);
    ShapeIsKept(old(pm.Views()), pm.Views());
    if frame == NO_FRAME {
      return 0;
    }
    table := frame;
    FreeAreTableFrames(old(pm.Views()));
    mem.frames := mem.frames[table := ZeroTable()];
  }

  /** The half of `next_table` that creates a missing table. */
  method CreateTable(pm: Pmm, mem: Memory, table: nat, index: nat, flags: uint64, ghost pml4: nat, ghost s: Slot)
    returns (next: nat)
    requires Sound(pm, mem, pml4)
    requires s in mem.tables && mem.tables[s] == table && s.level >= 2 && index < 512
    requires User(flags) ==> UserAbove(mem.frames, mem.tables, s)
    requires table in mem.frames && !Present(mem.frames[table][index])
    modifies pm.slots`framesFree, pm.bitmap, mem
    ensures Sound(pm, mem, pml4) && SameShape(old(pm.Views()), pm.Views())
    ensures Stepped(old(Snapshot(pm, mem)), Snapshot(pm, mem), pml4, Child(s, index), next)
    ensures next != 0 ==>
              && Child(s, index) in mem.tables && mem.tables[Child(s, index)] == next
              && (User(flags) ==> UserAbove(mem.frames, mem.tables, Child(s, index)))
    ensures next == 0 ==> Snapshot(pm, mem) == old(Snapshot(pm, mem))
    ensures next == 0 <==> old(pm.Free()) == {}
    ensures LinksFrom(old(mem.frames), old(mem.tables), mem.frames, mem.tables, flags)
  {
    hide And, Bit, Stepped, Tree, UserAbove, FreeFrames, IsFree, IsManaged, ValidViews, Pmm.Valid, Pmm.Views,
      Pmm.Fits, LinkEntry, SameShape, Separated, TablesManaged, LinksFrom;
    ghost var sp := Snapshot(pm, mem);
    ShapeReflexive(pm.Views());
    EntryFacts(sp, pml4, s, index, Child(s, index));
    LinksReflexive(sp, pml4, flags);
    next := AllocTable(pm, mem);
    if next == 0 {
      return;
    }
    ghost var views := pm.Views();
    LinkSteps(sp, pml4, s, index, next, flags);
    LinkWrites(sp, pml4, s, index, next, flags);
    TablesStayManaged(old(pm.Views()), pm.Views(), mem.tables, Child(s, index), next);
    mem.frames, mem.tables := Write(mem.frames, table, index, LinkEntry(next, flags)), mem.tables[Child(s, index) := next];
    assert Snapshot(pm, mem) == LinkedSpace(sp, s, index, next, LinkEntry(next, flags));
    assert pm.Valid() && pm.Views() == views;
    assert Separated(Snapshot(pm, mem), pml4) && TablesManaged(pm.Views(), mem.tables);
  }

  /** `next_table`: the table that entry `index` of `table` leads to, created if need be. */
  method NextTable(pm: Pmm, mem: Memory, table: nat, index: nat, flags: uint64, ghost pml4: nat, ghost s: Slot)
    returns (next: nat)
    requires Sound(pm, mem, pml4)
    requires s in mem.tables && mem.tables[s] == table && s.level >= 2 && index < 512
    requires User(flags) ==> UserAbove(mem.frames, mem.tables, s)
    modifies pm.slots`framesFree, pm.bitmap, mem
    ensures Sound(pm, mem, pml4) && SameShape(old(pm.Views()), pm.Views())
    ensures Stepped(old(Snapshot(pm, mem)), Snapshot(pm, mem), pml4, Child(s, index), next)
    ensures next != 0 ==>
              && Child(s, index) in mem.tables && mem.tables[Child(s, index)] == next
              && (User(flags) ==> UserAbove(mem.frames, mem.tables, Child(s, index)))
    ensures next == 0 ==> Snapshot(pm, mem) == old(Snapshot(pm, mem))
    ensures next == 0 <==> Blocked(old(Snapshot(pm, mem)), s, index)
    ensures LinksFrom(old(mem.frames), old(mem.tables), mem.frames, mem.tables, flags)
  {
    hide And, Bit, Stepped, Tree, UserAbove, FreeFrames, IsFree, IsManaged, ValidViews, Pmm.Valid, Pmm.Views,
      Pmm.Fits, RaiseUser, SameShape, Separated, TablesManaged, LinksFrom;
    ghost var sp := Snapshot(pm, mem);
    ShapeReflexive(pm.Views());
    EntryFacts(sp, pml4, s, index, Child(s, index));
    LinksReflexive(sp, pml4, flags);
    FlagTests(mem.frames[table][index]);
    if And(mem.frames[table][index], PRESENT_BIT) == 0 {
      next := CreateTable(pm, mem, table, index, flags, pml4, s);
      return;
    }
    if And(mem.frames[table][index], PAGE_SIZE_BIT) != 0 {
      return 0;
    }
    RaiseSteps(sp, pml4, s, index, flags);
    RaiseWrites(sp, pml4, s, index, flags);
    var e := RaiseUser(mem.frames[table][index], flags);
    mem.frames := Write(mem.frames, table, index, e);
    AddressMask(e);
    assert Snapshot(pm, mem) == RewrittenSpace(sp, s, index, e);
    return And(e, PHYS_ADDR_MASK);
  }

  lemma RootIsManaged(vs: seq<BlockView>, pml4: nat)
    requires IsManaged(vs, pml4)
    ensures TablesManaged(vs, map[ROOT := pml4])
  {
  }

  /** `init_pml4` */
  method InitPml4(pm: Pmm, mem: Memory) returns (pml4: nat)
    requires pm.Valid() && 0 !in pm.Free()
    modifies pm.slots`framesFree, pm.bitmap, mem
    ensures pm.Valid() && SameShape(old(pm.Views()), pm.Views())
    ensures pml4 == 0 <==> old(pm.Free()) == {}
    ensures pml4 == 0 ==> pm.Views() == old(pm.Views())
    ensures pml4 != 0 ==>
              && Sound(pm, mem, pml4)
              && mem.tables == map[ROOT := pml4]
              && pml4 in old(pm.Free()) && pm.Free() == old(pm.Free()) - {pml4}
              && MapsNothing(Snapshot(pm, mem))
  {
    hide FreeFrames, IsFree, IsManaged, ValidViews, Pmm.Valid, Pmm.Views, Pmm.Fits, SameShape, Separated, MapsNothing,
      TableFrame, TablesManaged,
      LeafView, LargeCovered, EntryOk;
    pml4 := AllocTable(pm, mem);
    if pml4 != 0 {
      FreeAreTableFrames(pm.Views());
      InitialSpace(mem.frames, pml4, pm.Free());
      RootIsManaged(pm.Views(), pml4);
      mem.tables := map[ROOT := pml4];
      assert pm.Valid();
    }
  }

  /** The two next_table calls with which map_page and map_large_page start; 0 if either fails. */
  method PageDirectory(pm: Pmm, mem: Memory, pml4: nat, vaddr: uint64, flags: uint64) returns (pd: nat)
    requires Sound(pm, mem, pml4)
    modifies pm.slots`framesFree, pm.bitmap, mem
    ensures Sound(pm, mem, pml4) && SameShape(old(pm.Views()), pm.Views())
    ensures Prepared(old(Snapshot(pm, mem)), Snapshot(pm, mem), pml4)
    ensures var page := PageNumber(vaddr);
            var sp, sp' := old(Snapshot(pm, mem)), Snapshot(pm, mem);
            && (pd == 0 <==> Missing(sp.tables, page, 2) > |sp.free|)
            && (pd == 0 ==> sp'.free == {} && SlotOf(page, 2) !in sp'.tables)
            && (pd != 0 ==>
                  && SlotOf(page, 2) in sp'.tables && sp'.tables[SlotOf(page, 2)] == pd
                  && (User(flags) ==> UserAbove(sp'.frames, sp'.tables, SlotOf(page, 2)))
                  && |sp'.free| == |sp.free| - Missing(sp.tables, page, 2))
            && (SlotOf(page, 1) in sp'.tables <==> SlotOf(page, 1) in sp.tables)
            && AddsOnPath(sp.tables, sp'.tables, page, 2)
    ensures LinksFrom(old(mem.frames), old(mem.tables), mem.frames, mem.tables, flags)
  {
    hide LinksFrom, AddsOnPath, And, Shr, Stepped, Tree, FreeFrames, IsFree, IsManaged, ValidViews, Pmm.Valid, Pmm.Views,
      Pmm.Fits, SameShape,
      Separated, TablesManaged, Grown, SameView, Prefix, Index, Missing, KeepsTables, PageNumber, User;
    SourceIndices(vaddr);
    var index3 := And(Shr(vaddr, 30), 0x1FF);
    var index4 := And(Shr(vaddr, 39), 0x1FF);
    ghost var page := PageNumber(vaddr);
    ghost var sp, vs := Snapshot(pm, mem), pm.Views();
    PathFacts(sp, pml4, page);
    var pdp := NextTable(pm, mem, pml4, index4, flags, pml4, ROOT);
    ghost var sp1, vs1 := Snapshot(pm, mem), pm.Views();
    if pdp == 0 {
      TwoDescents(sp, sp1, sp1, pml4, page, 0, 0);
      return 0;
    }
    UpperBlocked(sp1, pml4, SlotOf(page, 3), index3);
    pd := NextTable(pm, mem, pdp, index3, flags, pml4, SlotOf(page, 3));
    TwoDescents(sp, sp1, Snapshot(pm, mem), pml4, page, pdp, pd);
    LinksOfDirectory(sp, sp1, Snapshot(pm, mem), pml4, SlotOf(page, 3), SlotOf(page, 2), pdp, pd, flags);
    ShapeTransitive(vs, vs1, pm.Views());
  }

  /** From the top: the root is on every page's path, and nothing can block it but want of frames. */
  lemma PathFacts(sp: Space, pml4: nat, page: nat)
    requires Separated(sp, pml4) && page < PAGE_LIMIT
    ensures ROOT in sp.tables && sp.tables[ROOT] == pml4 && SlotOf(page, 4) == ROOT
    ensures Child(ROOT, Index(page, 4)) == SlotOf(page, 3)
    ensures Child(SlotOf(page, 3), Index(page, 3)) == SlotOf(page, 2)
    ensures Blocked(sp, ROOT, Index(page, 4)) <==> SlotOf(page, 3) !in sp.tables && sp.free == {}
  {
    hide EntryOk, Prefix;
    RootOnPath(page);
    ChildOnPath(page, 4);
    ChildOnPath(page, 3);
    UpperBlocked(sp, pml4, ROOT, Index(page, 4));
  }

  /** `map_page` */
  method MapPage(pm: Pmm, mem: Memory, pml4: nat, vaddr: uint64, paddr: uint64, flags: uint64) returns (r: int)
    requires Sound(pm, mem, pml4) && FlagsOk(flags)
    modifies pm.slots`framesFree, pm.bitmap, mem
    ensures Sound(pm, mem, pml4) && SameShape(old(pm.Views()), pm.Views())
    ensures r == 0 || r == -1
    ensures LinksFrom(old(mem.frames), old(mem.tables), mem.frames, mem.tables, flags)
    ensures MapPageOutcome(old(Snapshot(pm, mem)), Snapshot(pm, mem), vaddr, paddr, flags, r)
    ensures r == 0 && !LargeCovered(old(mem.frames), old(mem.tables), PageNumber(vaddr)) ==>
              EntryIs(mem.frames, mem.tables, PageNumber(vaddr), 1, PageEntry(paddr, flags))
  {
    hide LinksFrom, And, Shr, Not, Stepped, Tree, FreeFrames, IsFree, IsManaged, ValidViews, Pmm.Valid, Pmm.Views, Pmm.Fits,
      SameShape,
      Separated, TablesManaged, Grown, SameView, Prefix, Index, Missing, KeepsTables, PageNumber, User,
      MapPageOutcome, LargeCovered, LeafView, Conflict, UserAbove, AddsOnPath, EntryIs, PageEntry;
    SourceIndices(vaddr);
    var index1 := And(Shr(vaddr, 12), 0x1FF);
    var index2 := And(Shr(vaddr, 21), 0x1FF);
    ghost var page := PageNumber(vaddr);
    ghost var sp, vs := Snapshot(pm, mem), pm.Views();
    var pd := PageDirectory(pm, mem, pml4, vaddr, flags);
    ghost var sp2, vs2 := Snapshot(pm, mem), pm.Views();
    if pd == 0 {
      PageNotReached(sp, sp2, pml4, vaddr, paddr, flags);
      return -1;
    }
    DirectoryFacts(sp2, pml4, page);
    var e := mem.frames[pd][index2];
    FlagTests(e);
    if And(e, PRESENT_BIT) != 0 && And(e, PAGE_SIZE_BIT) != 0 {
      var mapped := And(And(e, PHYS_ADDR_MASK), Not(LARGE_PAGE_SIZE - 1)) + And(vaddr, LARGE_PAGE_SIZE - 1);
      CoverComparison(sp2, vaddr, paddr, e);
      PageIsCovered(sp, sp2, pml4, vaddr, paddr, flags);
      SameCover(sp, sp2, page);
      return if mapped == And(paddr, PHYS_ADDR_MASK) then 0 else -1;
    }
    var pt := NextTable(pm, mem, pd, index2, flags, pml4, SlotOf(page, 2));
    ghost var sp3 := Snapshot(pm, mem);
    ShapeTransitive(vs, vs2, pm.Views());
    LinksOfStep(sp, sp2, sp3, pml4, SlotOf(page, 1), pt, flags);
    if pt == 0 {
      TableNotReached(sp, sp2, sp3, pml4, vaddr, paddr, flags);
      return -1;
    }
    SetLeaf(pm, mem, pml4, pt, index1, paddr, flags, page);
    LinksTransitive(sp, sp3, Snapshot(pm, mem), flags);
    PageIsMapped(sp, sp2, sp3, Snapshot(pm, mem), pml4, vaddr, paddr, flags, pt);
    return 0;
  }

  /** The last write of `map_page`: `pt[index1] = init_pt_entry(paddr, flags | PRESENT_BIT)`. */
  method SetLeaf(pm: Pmm, mem: Memory, pml4: nat, pt: nat, index1: nat, paddr: uint64, flags: uint64, ghost page: nat)
    requires Sound(pm, mem, pml4) && FlagsOk(flags)
    requires SlotOf(page, 1) in mem.tables && mem.tables[SlotOf(page, 1)] == pt && index1 == Index(page, 1)
    requires User(flags) ==> UserAbove(mem.frames, mem.tables, SlotOf(page, 1))
    modifies mem
    ensures Sound(pm, mem, pml4) && pm.Views() == old(pm.Views())
    ensures Grown(old(Snapshot(pm, mem)), Snapshot(pm, mem)) && mem.tables == old(mem.tables)
    ensures KeepsTables(old(mem.tables), mem.tables)
    ensures LinksFrom(old(mem.frames), old(mem.tables), mem.frames, mem.tables, flags)
    ensures PageMapped(old(Snapshot(pm, mem)), Snapshot(pm, mem), page, Requested(paddr, flags))
    ensures EntryIs(mem.frames, mem.tables, page, 1, PageEntry(paddr, flags))
  {
    hide LinksFrom, And, Tree, FreeFrames, IsFree, IsManaged, ValidViews, Pmm.Valid, Pmm.Views, Pmm.Fits, Separated,
      TablesManaged, Grown,
      Prefix, Index, User, Present, Writable, NoExecute, FrameOf, PageEntry, PageMapped, UserAbove;
    ghost var sp := Snapshot(pm, mem);
    var w := PageEntry(paddr, flags);
    LeafWritten(sp, pml4, page, w);
    NoTableBelow(sp, pml4, SlotOf(page, 1), index1);
    LeafWrites(sp, pml4, SlotOf(page, 1), index1, w, flags);
    mem.frames := Write(mem.frames, pt, index1, w);
    assert Snapshot(pm, mem) == RewrittenSpace(sp, SlotOf(page, 1), index1, w);
    assert pm.Valid();
  }

  /** `map_large_page` */
  method MapLargePage(pm: Pmm, mem: Memory, pml4: nat, vaddr: uint64, paddr: uint64, flags: uint64) returns (r: int)
    requires Sound(pm, mem, pml4) && FlagsOk(flags) && paddr % LARGE_PAGE_SIZE == 0
    modifies pm.slots`framesFree, pm.bitmap, mem
    ensures Sound(pm, mem, pml4) && SameShape(old(pm.Views()), pm.Views())
    ensures r == 0 || r == -1
    ensures LinksFrom(old(mem.frames), old(mem.tables), mem.frames, mem.tables, flags)
    ensures MapLargeOutcome(old(Snapshot(pm, mem)), Snapshot(pm, mem), vaddr, paddr, flags, r)
    ensures r == 0 ==> EntryIs(mem.frames, mem.tables, PageNumber(vaddr), 2, LargeEntry(paddr, flags))
  {
    hide LinksFrom, And, Shr, Not, Tree, FreeFrames, IsFree, IsManaged, ValidViews, Pmm.Valid, Pmm.Views, Pmm.Fits, SameShape,
      Separated, TablesManaged, Grown, SameView, Prefix, Index, Missing, KeepsTables, PageNumber, User,
      MapLargeOutcome, LargeCovered, LeafView, UserAbove, AddsOnPath, BlockGets, EntryIs, LargeEntry;
    SourceIndices(vaddr);
    var index2 := And(Shr(vaddr, 21), 0x1FF);
    ghost var page := PageNumber(vaddr);
    ghost var sp := Snapshot(pm, mem);
    var pd := PageDirectory(pm, mem, pml4, vaddr, flags);
    ghost var sp2 := Snapshot(pm, mem);
    if pd == 0 {
      LargeNotReached(sp, sp2, pml4, vaddr, paddr, flags);
      return -1;
    }
    DirectoryFacts(sp2, pml4, page);
    var e := mem.frames[pd][index2];
    FlagTests(e);
    if And(e, PRESENT_BIT) != 0 && And(e, PAGE_SIZE_BIT) == 0 {
      LargeRefused(sp, sp2, pml4, vaddr, paddr, flags);
      return -1;
    }
    SetLargeLeaf(pm, mem, pml4, pd, index2, paddr, flags, page);
    GrownKeeps(sp, sp2);
    LinksTransitive(sp, sp2, Snapshot(pm, mem), flags);
    BlockIsMapped(sp, sp2, Snapshot(pm, mem), pml4, vaddr, paddr, flags);
    return 0;
  }

  /** The last write of `map_large_page`. */
  method SetLargeLeaf(pm: Pmm, mem: Memory, pml4: nat, pd: nat, index2: nat, paddr: uint64, flags: uint64, ghost page: nat)
    requires Sound(pm, mem, pml4) && FlagsOk(flags) && paddr % LARGE_PAGE_SIZE == 0
    requires SlotOf(page, 2) in mem.tables && mem.tables[SlotOf(page, 2)] == pd && index2 == Index(page, 2)
    requires SlotOf(page, 1) !in mem.tables
    requires User(flags) ==> UserAbove(mem.frames, mem.tables, SlotOf(page, 2))
    modifies mem
    ensures Sound(pm, mem, pml4) && pm.Views() == old(pm.Views())
    ensures Grown(old(Snapshot(pm, mem)), Snapshot(pm, mem)) && mem.tables == old(mem.tables)
    ensures KeepsTables(old(mem.tables), mem.tables)
    ensures LinksFrom(old(mem.frames), old(mem.tables), mem.frames, mem.tables, flags)
    ensures BlockGets(old(Snapshot(pm, mem)), Snapshot(pm, mem), page, paddr, flags)
    ensures EntryIs(mem.frames, mem.tables, page, 2, LargeEntry(paddr, flags))
  {
    hide LinksFrom, And, Tree, FreeFrames, IsFree, IsManaged, ValidViews, Pmm.Valid, Pmm.Views, Pmm.Fits, Separated,
      TablesManaged, Grown,
      Prefix, Index, User, Present, PageSize, Writable, NoExecute, FrameOf, LargeEntry, BlockMapped, UserAbove, BlockGets;
    ghost var sp := Snapshot(pm, mem);
    var w := LargeEntry(paddr, flags);
    BlockWritten(sp, pml4, page, w);
    ChildOnPath(page, 2);
    LeafWrites(sp, pml4, SlotOf(page, 2), index2, w, flags);
    mem.frames := Write(mem.frames, pd, index2, w);
    assert Snapshot(pm, mem) == RewrittenSpace(sp, SlotOf(page, 2), index2, w);
    AlignedBlock(sp, Snapshot(pm, mem), page, paddr, flags, w);
    assert pm.Valid();
  }

  /** `map_range` */
  method MapRange(pm: Pmm, mem: Memory, pml4: nat, start: uint64, target: uint64, length: uint64, flags: uint64)
    returns (r: int)
    requires Sound(pm, mem, pml4) && FlagsOk(flags) && RangeFits(start, length)
    modifies pm.slots`framesFree, pm.bitmap, mem
    ensures Sound(pm, mem, pml4) && SameShape(old(pm.Views()), pm.Views())
    ensures r == 0 || r == -1
    ensures LinksFrom(old(mem.frames), old(mem.tables), mem.frames, mem.tables, flags)
    ensures RangeOutcome(old(Snapshot(pm, mem)), Snapshot(pm, mem), RangeOf(start, target, length, flags), r)
    ensures NeedsOutcome(old(Snapshot(pm, mem)), Snapshot(pm, mem), RangeOf(start, target, length, flags), r)
  {
    hide LinksFrom, And, Not, FreeFrames, IsFree, IsManaged, ValidViews, Pmm.Valid, Pmm.Views, Pmm.Fits, SameShape, Separated,
      TablesManaged, RangeState, TakesLarge, PageNumber, FrameOf, MapPageOutcome, MapLargeOutcome, RangeOutcome, TablesAre,
      NeedsOutcome, BeforeSmall;
    ghost var sp, vs := Snapshot(pm, mem), pm.Views();
    ghost var g := RangeOf(start, target, length, flags);
    RangeTests(start, length, 0);
    var end := start + length;
    var vaddr := And64(start, Not(PAGE_SIZE - 1));
    var paddr := And64(target, Not(PAGE_SIZE - 1));
    PageMask(start);
    PageMask(target);
    ghost var k := 0;
    RangeStart(sp, pml4, g);
    NeedsStart(sp, g);
    LinksReflexive(sp, pml4, flags);
    ShapeReflexive(vs);
    while vaddr < end
      invariant Sound(pm, mem, pml4) && SameShape(vs, pm.Views())
      invariant RangeState(sp, Snapshot(pm, mem), g, k) && TablesAre(sp, Snapshot(pm, mem), g, k)
      invariant LinksFrom(sp.frames, sp.tables, mem.frames, mem.tables, flags)
      invariant vaddr == (start / PAGE_SIZE + k) * PAGE_SIZE
      invariant paddr == (target / PAGE_SIZE + k) * PAGE_SIZE % WORD_LIMIT
    {
      RangeTests(start, length, k);
      StepFacts(start, target, length, flags, k);
      if And(vaddr, LARGE_PAGE_SIZE - 1) == 0 && And(paddr, LARGE_PAGE_SIZE - 1) == 0 && end - vaddr >= LARGE_PAGE_SIZE {
        ghost var cur, vs1 := Snapshot(pm, mem), pm.Views();
        var large := MapLargePage(pm, mem, pml4, vaddr, paddr, flags);
        ShapeTransitive(vs, vs1, pm.Views());
        LinksOfBlock(sp, cur, Snapshot(pm, mem), g, k, vaddr, paddr, large);
        if large == 0 {
          LargeStep(sp, cur, Snapshot(pm, mem), g, k, vaddr, paddr);
          LargeGained(sp, cur, Snapshot(pm, mem), pml4, g, k, vaddr, paddr);
          Advance(target, k, 512);
          vaddr, paddr, k := vaddr + LARGE_PAGE_SIZE, (paddr + LARGE_PAGE_SIZE) % WORD_LIMIT, k + 512;
          continue;
        }
        LargeStepFailed(sp, cur, Snapshot(pm, mem), pml4, g, k, vaddr, paddr);
        LargeLost(sp, cur, Snapshot(pm, mem), pml4, g, k, vaddr, paddr);
      } else {
        NoLargeStep(sp, Snapshot(pm, mem), g, k);
        PlainBefore(sp, Snapshot(pm, mem), g, k);
      }
      ghost var cur, vs1 := Snapshot(pm, mem), pm.Views();
      var small := MapPage(pm, mem, pml4, vaddr, paddr, flags);
      ShapeTransitive(vs, vs1, pm.Views());
      LinksOfPage(sp, cur, Snapshot(pm, mem), g, k, vaddr, paddr, small);
      if small != 0 {
        RangeStopped(sp, cur, Snapshot(pm, mem), g, k, vaddr, paddr);
        NeedsUnmet(sp, cur, Snapshot(pm, mem), g, k, vaddr, paddr);
        return -1;
      }
      SmallSucceeded(sp, cur, Snapshot(pm, mem), g, k, vaddr, paddr);
      SmallGained(sp, cur, Snapshot(pm, mem), pml4, g, k, vaddr, paddr);
      Advance(target, k, 1);
      vaddr, paddr, k := vaddr + PAGE_SIZE, (paddr + PAGE_SIZE) % WORD_LIMIT, k + 1;
    }
    RangeTests(start, length, k);
    RangeDone(sp, Snapshot(pm, mem), g, k);
    NeedsDone(sp, Snapshot(pm, mem), g, k);
    return 0;
  }
}
