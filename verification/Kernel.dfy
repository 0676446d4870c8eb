/** `init_paging` of kernel/kernel.c: identity-map every region the kernel may still touch. */
module Kernel {
  import opened Bits
  import opened FrameSpec
  import opened Physical
  import opened PageFormat
  import opened PageWalk
  import opened PageTree
  import opened PageSpace
  import opened PageRange
  import opened PageNeeds
  import opened Paging

  datatype Framebuffer = Framebuffer(buffer: uint64, pixelsPerScanline: uint64, height: uint64)
  {
    /** The product in 64-bit arithmetic. */
    function Length(): uint64 {
      pixelsPerScanline * height * 4 % WORD_LIMIT
    }
  }

  /** Writable, for the kernel only, executable: what READ_WRITE_BIT alone asks for. */
  const KERNEL_RIGHTS := Rights(true, false, false, PLAIN)

  // ----- what shall be mapped

  /** Regions the kernel maps: everything but device memory and reserved regions, from page 1 up. */
  predicate InBlockPages(v: BlockView, page: nat) {
    && v.kind != Mmio && v.kind != Reserved
    && (if v.address < FRAME_SIZE then FRAME_SIZE else v.address) <= page * PAGE_SIZE < v.End()
  }

  ghost predicate InBlocks(vs: seq<BlockView>, n: nat, page: nat) {
    exists i: nat :: i < n && i < |vs| && InBlockPages(vs[i], page)
  }

  predicate InFramebuffer(fb: Framebuffer, page: nat) {
    RangeOf(fb.buffer, fb.buffer, fb.Length(), READ_WRITE_BIT).Contains(page)
  }

  /** All that is mapped lies below 2^48, within the window that identity mapping can reach. */
  ghost predicate Reachable(vs: seq<BlockView>, fb: Framebuffer) {
    && (forall i :: 0 <= i < |vs| && vs[i].kind != Mmio && vs[i].kind != Reserved ==> vs[i].End() <= PAGE_LIMIT * PAGE_SIZE)
    && fb.buffer < PAGE_LIMIT * PAGE_SIZE
    && RangeFits(fb.buffer, fb.Length())
  }

  // ----- identity maps

  /** Every page is either unmapped or mapped to itself with the kernel's rights. */
  ghost predicate Identity(sp: Space) {
    forall page: nat ::
      LeafView(sp.frames, sp.tables, page) == Fault || LeafView(sp.frames, sp.tables, page) == Page(page, KERNEL_RIGHTS)
  }

  lemma KernelFlags()
    ensures FlagsOk(READ_WRITE_BIT) && RightsOf(READ_WRITE_BIT) == KERNEL_RIGHTS
  {
    ReadWriteFlag();
  }

  /** A range that maps pages to themselves. */
  predicate IdentityRange(g: Range) {
    && g.flags == READ_WRITE_BIT
    && g.base == g.frame
    && g.base + g.count <= PAGE_LIMIT
  }

  lemma IdentityRangeOf(start: nat, length: nat)
    requires start < PAGE_LIMIT * PAGE_SIZE && RangeFits(start, length)
    ensures IdentityRange(RangeOf(start, start, length, READ_WRITE_BIT))
    ensures RangeOf(start, start, length, READ_WRITE_BIT).base == start / PAGE_SIZE
  {
  }

  lemma IdentityFrame(g: Range, q: nat)
    requires IdentityRange(g) && g.Contains(q)
    ensures g.FrameFor(q) == q
  {
  }

  /** In an identity map an identity range meets no conflict, and extends it. */
  lemma IdentityViews(sp: Space, sp': Space, g: Range)
    requires Identity(sp) && IdentityRange(g) && ViewsAre(sp, sp', g, g.count)
    ensures Identity(sp')
    ensures forall q: nat ::
              LeafView(sp'.frames, sp'.tables, q).Page? <==> g.Contains(q) || LeafView(sp.frames, sp.tables, q).Page?
  {
    hide LeafView, LargeCovered, TakesLarge;
    KernelFlags();
    forall q: nat
      ensures LeafView(sp'.frames, sp'.tables, q) ==
              (if g.Contains(q) then Page(q, KERNEL_RIGHTS) else LeafView(sp.frames, sp.tables, q))
    {
      assert LeafView(sp'.frames, sp'.tables, q) == RangeView(sp, g, g.count, q);
      if g.Contains(q) {
        IdentityFrame(g, q);
        CoveredHasPage(sp, q);
      }
    }
  }

  lemma IdentityHasNoConflict(sp: Space, g: Range, q: nat)
    requires Identity(sp) && IdentityRange(g)
    ensures !RangeConflict(sp, g, q)
  {
    hide LeafView, LargeCovered, TakesLarge;
    if g.Contains(q) {
      IdentityFrame(g, q);
    }
  }

  /** So an identity range can fail only for want of frames, and then a page of it faults. */
  lemma IdentityFailure(sp: Space, sp': Space, pml4: nat, g: Range) returns (page: nat)
    requires Identity(sp) && IdentityRange(g) && RangeOutcome(sp, sp', g, -1) && Separated(sp', pml4)
    ensures sp'.free == {}
    ensures g.Contains(page) && LeafView(sp'.frames, sp'.tables, page) == Fault
  {
    hide Identity, RangeConflict, ViewsAre, Grown, NeedsTable, LeafView, Separated;
    var k: nat :| RangeFailed(sp, sp', g, k);
    IdentityHasNoConflict(sp, g, g.base + k);
    page := g.base + k;
    NeedsTableFaults(sp', pml4, page);
  }

  // ----- the pages mapped so far

  /** Exactly the pages of the first n blocks are mapped, each to itself. */
  ghost predicate MapsBlocks(sp: Space, vs: seq<BlockView>, n: nat) {
    && Identity(sp)
    && forall q: nat :: LeafView(sp.frames, sp.tables, q).Page? <==> InBlocks(vs, n, q)
  }

  /** The address range of block v from page 1 up. */
  lemma BlockRange(v: BlockView, page: nat)
    requires v.Valid() && v.kind != Mmio && v.kind != Reserved && v.End() <= PAGE_LIMIT * PAGE_SIZE
    ensures var start := if v.address < FRAME_SIZE then FRAME_SIZE else v.address;
            && (start >= v.End() ==> !InBlockPages(v, page))
            && (start < v.End() ==>
                  && start < WORD_LIMIT && v.End() - start < WORD_LIMIT
                  && start < PAGE_LIMIT * PAGE_SIZE && RangeFits(start, v.End() - start)
                  && (RangeOf(start, start, v.End() - start, READ_WRITE_BIT).Contains(page) <==> InBlockPages(v, page)))
  {
  }

  lemma BlockRanges(v: BlockView)
    requires v.Valid() && v.kind != Mmio && v.kind != Reserved && v.End() <= PAGE_LIMIT * PAGE_SIZE
    ensures var start := if v.address < FRAME_SIZE then FRAME_SIZE else v.address;
            && (start >= v.End() ==> forall q: nat :: !InBlockPages(v, q))
            && (start < v.End() ==>
                  && start < WORD_LIMIT && v.End() - start < WORD_LIMIT
                  && RangeFits(start, v.End() - start)
                  && IdentityRange(RangeOf(start, start, v.End() - start, READ_WRITE_BIT))
                  && forall q: nat ::
                       RangeOf(start, start, v.End() - start, READ_WRITE_BIT).Contains(q) <==> InBlockPages(v, q))
  {
    hide InBlockPages, IdentityRange;
    var start := if v.address < FRAME_SIZE then FRAME_SIZE else v.address;
    forall q: nat ensures start >= v.End() ==> !InBlockPages(v, q) {
      BlockRange(v, q);
    }
    if start < v.End() {
      BlockRange(v, 0);
      IdentityRangeOf(start, v.End() - start);
      forall q: nat
        ensures RangeOf(start, start, v.End() - start, READ_WRITE_BIT).Contains(q) <==> InBlockPages(v, q)
      {
        BlockRange(v, q);
      }
    }
  }

  lemma DeviceBlock(v: BlockView)
    requires v.kind == Mmio || v.kind == Reserved
    ensures forall q: nat :: !InBlockPages(v, q)
  {
  }

  lemma SkipBlock(sp: Space, vs: seq<BlockView>, n: nat)
    requires n < |vs| && MapsBlocks(sp, vs, n) && forall q: nat :: !InBlockPages(vs[n], q)
    ensures MapsBlocks(sp, vs, n + 1)
  {
    hide Identity, LeafView, InBlockPages;
    forall q: nat ensures InBlocks(vs, n + 1, q) <==> InBlocks(vs, n, q) {
      OneMoreBlock(vs, n, q);
    }
  }

  lemma OneMoreBlock(vs: seq<BlockView>, n: nat, q: nat)
    requires n < |vs|
    ensures InBlocks(vs, n + 1, q) <==> InBlocks(vs, n, q) || InBlockPages(vs[n], q)
  {
    hide InBlockPages;
    if InBlocks(vs, n + 1, q) && !InBlockPages(vs[n], q) {
      var i: nat :| i < n + 1 && i < |vs| && InBlockPages(vs[i], q);
      assert i < n;
    }
  }

  lemma AddBlock(sp: Space, sp': Space, vs: seq<BlockView>, n: nat, g: Range)
    requires n < |vs| && MapsBlocks(sp, vs, n) && IdentityRange(g) && RangeOutcome(sp, sp', g, 0)
    requires forall q: nat :: g.Contains(q) <==> InBlockPages(vs[n], q)
    ensures MapsBlocks(sp', vs, n + 1)
  {
    hide Identity, LeafView, InBlockPages, InBlocks, ViewsAre, Grown, RangeConflict;
    IdentityViews(sp, sp', g);
    forall q: nat ensures InBlocks(vs, n + 1, q) <==> InBlocks(vs, n, q) || InBlockPages(vs[n], q) {
      OneMoreBlock(vs, n, q);
    }
  }

  lemma IdentityOf(sp: Space, vs: seq<BlockView>, n: nat)
    requires MapsBlocks(sp, vs, n)
    ensures Identity(sp)
  {
  }

  lemma NothingYet(sp: Space, vs: seq<BlockView>)
    requires MapsNothing(sp)
    ensures MapsBlocks(sp, vs, 0)
  {
    hide LeafView, LargeCovered;
  }

  /** The pages init_paging maps. */
  ghost predicate KernelPage(vs: seq<BlockView>, fb: Framebuffer, page: nat) {
    InBlocks(vs, |vs|, page) || InFramebuffer(fb, page)
  }

  ghost predicate MapsKernel(sp: Space, vs: seq<BlockView>, fb: Framebuffer) {
    forall page: nat ::
      LeafView(sp.frames, sp.tables, page) == (if KernelPage(vs, fb, page) then Page(page, KERNEL_RIGHTS) else Fault)
  }

  /** A page of some block is not mapped. */
  ghost predicate LacksBlockPage(sp: Space, vs: seq<BlockView>) {
    exists page: nat :: InBlocks(vs, |vs|, page) && LeafView(sp.frames, sp.tables, page) == Fault
  }

  ghost predicate LacksKernelPage(sp: Space, vs: seq<BlockView>, fb: Framebuffer) {
    exists page: nat :: KernelPage(vs, fb, page) && LeafView(sp.frames, sp.tables, page) == Fault
  }

  lemma MissingBlockPage(sp: Space, vs: seq<BlockView>, i: nat, page: nat)
    requires i < |vs| && InBlockPages(vs[i], page) && LeafView(sp.frames, sp.tables, page) == Fault
    ensures LacksBlockPage(sp, vs)
  {
    hide LeafView, InBlockPages;
    assert InBlocks(vs, |vs|, page);
  }

  lemma MissingFramebufferPage(sp: Space, vs: seq<BlockView>, fb: Framebuffer, page: nat)
    requires InFramebuffer(fb, page) && LeafView(sp.frames, sp.tables, page) == Fault
    ensures LacksKernelPage(sp, vs, fb)
  {
    hide LeafView, InFramebuffer, InBlocks;
    assert KernelPage(vs, fb, page);
  }

  lemma SameLack(sp: Space, vs: seq<BlockView>, vs': seq<BlockView>, fb: Framebuffer)
    requires SameShape(vs, vs') && LacksBlockPage(sp, vs')
    ensures LacksKernelPage(sp, vs, fb)
  {
    hide LeafView, InFramebuffer, InBlocks, SameShape;
    var page: nat :| InBlocks(vs', |vs'|, page) && LeafView(sp.frames, sp.tables, page) == Fault;
    SameBlockPages(vs, vs', page);
    assert KernelPage(vs, fb, page);
  }

  lemma AddFramebuffer(sp: Space, sp': Space, vs: seq<BlockView>, fb: Framebuffer)
    requires MapsBlocks(sp, vs, |vs|)
    requires var g := RangeOf(fb.buffer, fb.buffer, fb.Length(), READ_WRITE_BIT);
             IdentityRange(g) && RangeOutcome(sp, sp', g, 0)
    ensures MapsKernel(sp', vs, fb)
  {
    hide LeafView, InBlockPages, InBlocks, ViewsAre, Grown, RangeConflict;
    IdentityViews(sp, sp', RangeOf(fb.buffer, fb.buffer, fb.Length(), READ_WRITE_BIT));
  }

  lemma FramebufferFits(vs: seq<BlockView>, fb: Framebuffer)
    requires Reachable(vs, fb)
    ensures fb.buffer < PAGE_LIMIT * PAGE_SIZE && RangeFits(fb.buffer, fb.Length())
  {
  }

  lemma ReachableShape(vs: seq<BlockView>, vs': seq<BlockView>, fb: Framebuffer)
    requires SameShape(vs, vs') && Reachable(vs, fb)
    ensures Reachable(vs', fb)
  {
  }

  /** The regions are the same whichever flags their bitmaps hold. */
  lemma SameBlocks(sp: Space, vs: seq<BlockView>, vs': seq<BlockView>)
    requires SameShape(vs, vs') && MapsBlocks(sp, vs', |vs'|)
    ensures MapsBlocks(sp, vs, |vs|)
  {
    hide Identity, LeafView, InBlockPages;
    forall q: nat ensures InBlocks(vs, |vs|, q) <==> InBlocks(vs', |vs'|, q) {
      SameBlockPages(vs, vs', q);
    }
  }

  lemma SameBlockPages(vs: seq<BlockView>, vs': seq<BlockView>, q: nat)
    requires SameShape(vs, vs')
    ensures InBlocks(vs, |vs|, q) <==> InBlocks(vs', |vs'|, q)
  {
    if i: nat :| i < |vs| && InBlockPages(vs[i], q) {
      assert InBlockPages(vs'[i], q);
    }
    if i: nat :| i < |vs'| && InBlockPages(vs'[i], q) {
      assert InBlockPages(vs[i], q);
    }
  }

  // ----- init_paging

  lemma OutcomeGrows(sp: Space, sp': Space, g: Range, r: int)
    requires RangeOutcome(sp, sp', g, r)
    ensures Grown(sp, sp')
  {
    hide Grown;
  }

  /** From an empty tree on, the tables are exactly the frames that left the free set. */
  lemma TablesFromFree(free: set<nat>, sp: Space, sp': Space, pml4: nat)
    requires pml4 in free && sp.tables == map[ROOT := pml4] && sp.free == free - {pml4} && Grown(sp, sp')
    ensures TableFrames(sp'.tables) <= free
    ensures sp'.free == free - TableFrames(sp'.tables)
  {
    forall a | a in TableFrames(sp'.tables) ensures a in free {
      var s :| s in sp'.tables && sp'.tables[s] == a;
    }
    assert sp'.tables[ROOT] == pml4;
  }

  /** The part of colonel_t that init_paging uses; cr3 is the tree the processor walks. */
  class System {
    const pm: Pmm
    const mem: Memory
    const fb: Framebuffer
    var pml4: nat
    var cr3: nat

    constructor (pm: Pmm, mem: Memory, fb: Framebuffer)
      ensures this.pm == pm && this.mem == mem && this.fb == fb
    {
      this.pm, this.mem, this.fb, pml4, cr3 := pm, mem, fb, 0, 0;
    }

    lemma BlockFields(vs: seq<BlockView>, i: nat)
      requires pm.Valid() && SameShape(vs, pm.Views()) && i < pm.blockCount && |vs| == pm.blockCount
      ensures i < |pm.slots|
      ensures vs[i].kind == pm.slots[i].kind && vs[i].address == pm.slots[i].address
      ensures vs[i].End() == pm.slots[i].address + pm.slots[i].framesTotal * FRAME_SIZE
      ensures vs[i].Valid()
    {
      pm.SlotView(i);
      assert pm.Views()[i].Valid();
    }

    /** The loop of `init_paging` over the blocks. */
    method MapBlocks() returns (r: int)
      requires Sound(pm, mem, pml4) && MapsNothing(Snapshot(pm, mem)) && Reachable(pm.Views(), fb)
      modifies pm.slots`framesFree, pm.bitmap, mem
      ensures Sound(pm, mem, pml4) && SameShape(old(pm.Views()), pm.Views())
      ensures r == 0 || r == -1
      ensures Grown(old(Snapshot(pm, mem)), Snapshot(pm, mem))
      ensures r == 0 ==> MapsBlocks(Snapshot(pm, mem), old(pm.Views()), |old(pm.Views())|)
      ensures r == -1 ==> pm.Free() == {} && LacksBlockPage(Snapshot(pm, mem), old(pm.Views()))
    {
      hide FreeFrames, IsFree, IsManaged, ValidViews, Pmm.Valid, SameShape, Separated, TablesManaged, MapsBlocks,
        MapsNothing, RangeOutcome, NeedsOutcome, IdentityRange, FlagsOk, InBlockPages, LacksBlockPage, Grown;
      ghost var vs, start0 := pm.Views(), Snapshot(pm, mem);
      GrownReflexive(start0, pml4);
      NothingYet(Snapshot(pm, mem), vs);
      ShapeReflexive(vs);
      KernelFlags();
      var i := 0;
      while i < pm.blockCount
        invariant i <= pm.blockCount == |vs|
        invariant Sound(pm, mem, pml4) && SameShape(vs, pm.Views())
        invariant MapsBlocks(Snapshot(pm, mem), vs, i)
        invariant Grown(start0, Snapshot(pm, mem))
      {
        ghost var v := vs[i];
        BlockFields(vs, i);
        var block := pm.slots[i];
        if block.kind == Mmio || block.kind == Reserved {
          DeviceBlock(v);
          SkipBlock(Snapshot(pm, mem), vs, i);
          i := i + 1;
          continue;
        }
        var start := block.address;
        var end := start + block.framesTotal * FRAME_SIZE;
        if start < FRAME_SIZE {
          start := FRAME_SIZE;
        }
        BlockRanges(v);
        if start >= end {
          SkipBlock(Snapshot(pm, mem), vs, i);
          i := i + 1;
          continue;
        }
        ghost var sp, vs1 := Snapshot(pm, mem), pm.Views();
        r := MapRange(pm, mem, pml4, start, start, end - start, READ_WRITE_BIT);
        ghost var g := RangeOf(start, start, end - start, READ_WRITE_BIT);
        IdentityOf(sp, vs, i);
        ShapeTransitive(vs, vs1, pm.Views());
        OutcomeGrows(sp, Snapshot(pm, mem), g, r);
        GrownTransitive(start0, sp, Snapshot(pm, mem));
        if r != 0 {
          ghost var page := IdentityFailure(sp, Snapshot(pm, mem), pml4, g);
          MissingBlockPage(Snapshot(pm, mem), vs, i, page);
          return -1;
        }
        AddBlock(sp, Snapshot(pm, mem), vs, i, g);
        i := i + 1;
      }
      return 0;
    }

    /** `init_paging`: afterwards exactly the kernel's regions and the framebuffer are mapped,
        each page to itself; it fails only when the allocator has run dry. */
    method InitPaging() returns (r: int)
      requires pm.Valid() && 0 !in pm.Free() && Reachable(pm.Views(), fb)
      modifies this, pm.slots`framesFree, pm.bitmap, mem
      ensures pm.Valid() && SameShape(old(pm.Views()), pm.Views())
      ensures r == 0 || r == -1
      ensures pml4 != 0 ==>
                && TableFrames(mem.tables) <= old(pm.Free())
                && pm.Free() == old(pm.Free()) - TableFrames(mem.tables)
      ensures r == 0 ==> pml4 != 0
      ensures r == 0 ==> Sound(pm, mem, pml4) && MapsKernel(Snapshot(pm, mem), old(pm.Views()), fb) && cr3 == pml4
      ensures r == -1 ==>
                && pm.Free() == {} && cr3 == old(cr3)
                && (pml4 == 0 || LacksKernelPage(Snapshot(pm, mem), old(pm.Views()), fb))
    {
      hide FreeFrames, IsFree, IsManaged, ValidViews, Pmm.Valid, SameShape, Separated, TablesManaged, MapsBlocks,
        MapsNothing, RangeOutcome, NeedsOutcome, IdentityRange, FlagsOk, MapsKernel,
        LacksBlockPage, LacksKernelPage, Grown, TableFrames, Reachable;
      ghost var vs := pm.Views();
      pml4 := InitPml4(pm, mem);
      if pml4 == 0 {
        return -1;
      }
      ReachableShape(vs, pm.Views(), fb);
      ghost var vs1, sp1 := pm.Views(), Snapshot(pm, mem);
      r := MapBlocks();
      ShapeTransitive(vs, vs1, pm.Views());
      TablesFromFree(old(pm.Free()), sp1, Snapshot(pm, mem), pml4);
      if r != 0 {
        SameLack(Snapshot(pm, mem), vs, vs1, fb);
        return -1;
      }
      SameBlocks(Snapshot(pm, mem), vs, vs1);
      KernelFlags();
      ghost var sp, vs2 := Snapshot(pm, mem), pm.Views();
      IdentityOf(sp, vs, |vs|);
      FramebufferFits(vs, fb);
      IdentityRangeOf(fb.buffer, fb.Length());
      r := MapRange(pm, mem, pml4, fb.buffer, fb.buffer, fb.Length(), READ_WRITE_BIT);
      ghost var g := RangeOf(fb.buffer, fb.buffer, fb.Length(), READ_WRITE_BIT);
      ShapeTransitive(vs, vs2, pm.Views());
      OutcomeGrows(sp, Snapshot(pm, mem), g, r);
      GrownTransitive(sp1, sp, Snapshot(pm, mem));
      TablesFromFree(old(pm.Free()), sp1, Snapshot(pm, mem), pml4);
      if r != 0 {
        ghost var page := IdentityFailure(sp, Snapshot(pm, mem), pml4, g);
        MissingFramebufferPage(Snapshot(pm, mem), vs, fb, page);
        return -1;
      }
      AddFramebuffer(sp, Snapshot(pm, mem), vs, fb);
      cr3 := pml4;
      return 0;
    }
  }

  // ----- what holds once init_paging has succeeded

  /** What the processor translates: the kernel's pages to themselves, nothing else; page 0 is
      unmapped unless the framebuffer lies there. */
  lemma KernelTranslations(sp: Space, pml4: nat, vs: seq<BlockView>, fb: Framebuffer, page: nat)
    requires Separated(sp, pml4) && MapsKernel(sp, vs, fb) && page < PAGE_LIMIT
    ensures Translate(sp.frames, pml4, page) ==
              (if KernelPage(vs, fb, page) then Page(page, KERNEL_RIGHTS) else Fault)
    ensures page == 0 && !InFramebuffer(fb, 0) ==> Translate(sp.frames, pml4, 0) == Fault
  {
    hide LeafView, Translate;
    TranslateIsLeafView(sp.frames, pml4, sp.tables, page);
    assert !InBlocks(vs, |vs|, 0);
  }

  /** Every frame the allocator can ever hand out, other than frame 0, is identity-mapped. */
  lemma ManagedIsMapped(sp: Space, pml4: nat, vs: seq<BlockView>, fb: Framebuffer, a: nat)
    requires Separated(sp, pml4) && MapsKernel(sp, vs, fb) && ValidViews(vs) && Reachable(vs, fb)
    requires IsManaged(vs, a) && a != 0
    ensures a % PAGE_SIZE == 0 && a < PAGE_LIMIT * PAGE_SIZE
    ensures Translate(sp.frames, pml4, a / PAGE_SIZE) == Page(a / PAGE_SIZE, KERNEL_RIGHTS)
  {
    hide LeafView, Translate, Separated, MapsKernel, ValidViews, Reachable, IsManaged, InBlocks;
    ManagedPage(vs, fb, a);
    ManagedInBlocks(vs, a);
    KernelTranslations(sp, pml4, vs, fb, a / PAGE_SIZE);
  }

  /** So a table in such a frame is reached by its physical address exactly if that is below 2^47,
      where an address and its canonical form are the same. */
  lemma ManagedIsReachable(sp: Space, pml4: nat, vs: seq<BlockView>, fb: Framebuffer, a: nat, off: nat)
    requires Separated(sp, pml4) && MapsKernel(sp, vs, fb) && ValidViews(vs) && Reachable(vs, fb)
    requires IsManaged(vs, a) && a != 0 && off < PAGE_SIZE
    ensures PhysicalAddress(sp.frames, pml4, a + off) == if a < CANONICAL_LIMIT then a + off else -1
  {
    hide LeafView, Translate, Separated, MapsKernel, IsManaged, ValidViews, Reachable;
    ManagedIsMapped(sp, pml4, vs, fb, a);
    ByteOfPage(sp.frames, pml4, a, off);
  }

  lemma ByteOfPage(frames: Frames, pml4: nat, a: nat, off: nat)
    requires a % PAGE_SIZE == 0 && a < PAGE_LIMIT * PAGE_SIZE && off < PAGE_SIZE
    requires Translate(frames, pml4, a / PAGE_SIZE) == Page(a / PAGE_SIZE, KERNEL_RIGHTS)
    ensures PhysicalAddress(frames, pml4, a + off) == if a < CANONICAL_LIMIT then a + off else -1
  {
    hide Translate;
    var p := a / PAGE_SIZE;
    assert a == p * PAGE_SIZE;
    DivModUnique(a + off, PAGE_SIZE, p, off);
    SmallMod(p, PAGE_LIMIT);
  }

  lemma ManagedPage(vs: seq<BlockView>, fb: Framebuffer, a: nat)
    requires ValidViews(vs) && Reachable(vs, fb) && IsManaged(vs, a)
    ensures a % PAGE_SIZE == 0 && a < PAGE_LIMIT * PAGE_SIZE
  {
    hide RangeFits;
    ManagedIsAligned(vs, a);
    var i: nat, f: nat :| i < |vs| && f < |vs[i].used| && a == vs[i].FrameAt(f);
    InsideBlock(vs[i], f);
  }

  lemma ManagedInBlocks(vs: seq<BlockView>, a: nat)
    requires ValidViews(vs) && IsManaged(vs, a) && a != 0
    ensures InBlocks(vs, |vs|, a / PAGE_SIZE)
  {
    ManagedIsAligned(vs, a);
    var i: nat, f: nat :| i < |vs| && f < |vs[i].used| && a == vs[i].FrameAt(f);
    InsideBlock(vs[i], f);
    assert InBlockPages(vs[i], a / PAGE_SIZE);
  }

  lemma InsideBlock(v: BlockView, f: nat)
    requires v.Valid() && f < |v.used|
    ensures v.address <= v.FrameAt(f) < v.End() && v.kind != Mmio && v.kind != Reserved
  {
  }
}
