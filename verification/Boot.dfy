/** From the firmware's memory map to the kernel's page tables: `build_pmm` of
    efi-stage/efi_pmm.c followed by `kernel_start` of kernel/kernel.c. */
module Boot {
  import opened FrameSpec
  import opened Physical
  import opened PageFormat
  import opened PageWalk
  import opened PageTree
  import opened PageSpace
  import opened Paging
  import opened Kernel
  import opened EfiPmm

  /** `kernel_start` either halts or goes on with frames for the descriptor table and its register. */
  datatype Start = Halted | Running(gdt: nat, base: nat)

  lemma ZeroIsNotFree(ds: seq<Descriptor>, capacity: nat, words: nat)
    requires MapOk(ds)
    ensures 0 !in FreeFrames(BuiltViews(ds, capacity, words))
  {
    hide BuiltViews, FreeFrames, MapOk, Kept, ConventionalHolds;
    FreeOnlyConventional(ds, capacity, words, 0);
  }

  /** The page from page 1 up lies in one of the regions, and that is code or data of the loader, of the
      boot services or of the runtime services, conventional memory, or ACPI memory of either kind. */
  ghost predicate InRegions(kept: seq<Descriptor>, page: nat) {
    page >= 1 && exists n: nat :: n < |kept| && InRegion(kept[n], page)
  }

  predicate InRegion(d: Descriptor, page: nat) {
    d.kind in {1, 2, 3, 4, 5, 6, 7, 9, 10} && d.physicalStart <= page * 0x1000 < d.physicalStart + d.numberOfPages * 0x1000
  }

  /** The pages of the blocks to be mapped, told from the memory map. */
  lemma PagesOfRegions(ds: seq<Descriptor>, capacity: nat, words: nat, page: nat)
    ensures var vs := BuiltViews(ds, capacity, words);
            InBlocks(vs, |vs|, page) <==> InRegions(Kept(ds, capacity), page)
  {
    hide Kept, GetsBitmap, InitialFlags, KindOf;
    var kept, vs := Kept(ds, capacity), BuiltViews(ds, capacity, words);
    forall n: nat | n < |kept| ensures InBlockPages(vs[n], page) <==> page >= 1 && InRegion(kept[n], page) {
      KindTable(kept[n].kind);
    }
    if i: nat :| i < |vs| && InBlockPages(vs[i], page) {
      assert InRegion(kept[i], page);
    }
    if page >= 1 {
      if n: nat :| n < |kept| && InRegion(kept[n], page) {
        assert InBlockPages(vs[n], page);
      }
    }
  }

  /** So the translation of every page, told from the memory map. */
  lemma RegionsAreMapped(sp: Space, pml4: nat, ds: seq<Descriptor>, capacity: nat, words: nat, fb: Framebuffer)
    requires Separated(sp, pml4) && MapsKernel(sp, BuiltViews(ds, capacity, words), fb)
    ensures MapsRegions(sp.frames, pml4, Kept(ds, capacity), fb)
  {
    hide MapsKernel, Separated, BuiltViews, Kept, InBlocks, InRegions, InFramebuffer, Translate;
    forall page: nat | page < PAGE_LIMIT
      ensures Translate(sp.frames, pml4, page) ==
                if InRegions(Kept(ds, capacity), page) || InFramebuffer(fb, page) then Page(page, WRITABLE) else Fault
    {
      KernelTranslations(sp, pml4, BuiltViews(ds, capacity, words), fb, page);
      PagesOfRegions(ds, capacity, words, page);
    }
  }

  /** Writable, not for user programs, executable, and cached by default. */
  const WRITABLE := Rights(true, false, false, Caching(false, false, false))

  /** The processor translates exactly the pages of the regions and the framebuffer, each to itself. */
  ghost predicate MapsRegions(frames: Frames, pml4: nat, kept: seq<Descriptor>, fb: Framebuffer) {
    forall page: nat :: page < PAGE_LIMIT ==>
      Translate(frames, pml4, page) ==
        if InRegions(kept, page) || InFramebuffer(fb, page) then Page(page, WRITABLE) else Fault
  }

  /** What is mapped does not depend on which frames are in use. */
  lemma MapsKernelShape(sp: Space, vs: seq<BlockView>, vs': seq<BlockView>, fb: Framebuffer)
    requires SameShape(vs, vs') && MapsKernel(sp, vs', fb)
    ensures MapsKernel(sp, vs, fb)
  {
    hide LeafView, InBlocks, InFramebuffer, SameShape;
    forall page: nat ensures KernelPage(vs, fb, page) <==> KernelPage(vs', fb, page) {
      SameBlockPages(vs, vs', page);
    }
  }

  /** `frame_allocate`, as far as its callers care: which frames are free. */
  method TakeFrame(pm: Pmm) returns (frame: nat)
    requires pm.Valid()
    modifies pm.slots`framesFree, pm.bitmap
    ensures pm.Valid() && SameShape(old(pm.Views()), pm.Views())
    ensures frame == NO_FRAME <==> old(pm.Free()) == {}
    ensures frame == NO_FRAME ==> pm.Free() == {}
    ensures frame != NO_FRAME ==> frame in old(pm.Free()) && pm.Free() == old(pm.Free()) - {frame}
  {
    hide FreeFrames, IsFree, IsManaged, ValidViews, Pmm.Valid, Allocated;
    frame := pm.AllocateFrame();
    SingleAllocation(old(pm.Views()), pm.Views(), frame);
  }

  /** `kernel_start`, up to the point where it runs on its own page tables: the frames it has taken
      are its own, distinct from each other, from all tables and from what is still free, and
      exactly the regions of the memory map and the framebuffer are mapped, each page to itself. */
  method KernelStart(sys: System) returns (r: Start)
    requires sys.pm.Valid() && 0 !in sys.pm.Free() && Reachable(sys.pm.Views(), sys.fb)
    modifies sys, sys.pm.slots`framesFree, sys.pm.bitmap, sys.mem
    ensures sys.pm.Valid()
    ensures r.Running? ==>
              && Sound(sys.pm, sys.mem, sys.pml4) && sys.cr3 == sys.pml4
              && MapsKernel(Snapshot(sys.pm, sys.mem), old(sys.pm.Views()), sys.fb)
              && r.gdt != r.base && {r.gdt, r.base} <= old(sys.pm.Free())
              && TableFrames(sys.mem.tables) <= old(sys.pm.Free()) - {r.gdt, r.base}
              && sys.pm.Free() == old(sys.pm.Free()) - {r.gdt, r.base} - TableFrames(sys.mem.tables)
    ensures r.Halted? ==> sys.pm.Free() == {}
  {
    hide FreeFrames, ValidViews, Pmm.Valid, Pmm.Fits, Pmm.Views, Pmm.Free, SameShape, Separated, TablesManaged,
      MapsKernel, LacksKernelPage, TableFrames, Reachable;
    var pm := sys.pm;
    ghost var vs, free := pm.Views(), pm.Free();
    var gdt := TakeFrame(pm);
    if gdt == NO_FRAME {
      return Halted;
    }
    ghost var vs1 := pm.Views();
    var base := TakeFrame(pm);
    if base == NO_FRAME {
      return Halted;
    }
    ghost var vs2 := pm.Views();
    ShapeTransitive(vs, vs1, vs2);
    ReachableShape(vs, vs2, sys.fb);
    assert pm.Free() == free - {gdt, base};
    var paging := sys.InitPaging();
    if paging != 0 {
      return Halted;
    }
    MapsKernelShape(Snapshot(pm, sys.mem), vs, vs2, sys.fb);
    return Running(gdt, base);
  }

  /** The boot stage and the kernel together, for any memory map and storage of any size. */
  method BuildAndStart(sys: System, ds: seq<Descriptor>) returns (r: Start)
    requires sys.pm.Shaped() && MapOk(ds)
    requires Reachable(BuiltViews(ds, |sys.pm.slots|, sys.pm.bitmap.Length), sys.fb)
    modifies sys, sys.pm, sys.pm.slots, sys.pm.bitmap, sys.mem
    ensures sys.pm.Valid()
    ensures r.Halted? ==> sys.pm.Free() == {}
    ensures r.Running? ==>
              var vs := BuiltViews(ds, |sys.pm.slots|, sys.pm.bitmap.Length);
              && Sound(sys.pm, sys.mem, sys.pml4) && sys.cr3 == sys.pml4
              && MapsKernel(Snapshot(sys.pm, sys.mem), vs, sys.fb)
              && MapsRegions(sys.mem.frames, sys.pml4, Kept(ds, |sys.pm.slots|), sys.fb)
              && r.gdt != r.base && {r.gdt, r.base} <= FreeFrames(vs)
              && TableFrames(sys.mem.tables) <= FreeFrames(vs) - {r.gdt, r.base}
              && sys.pm.Free() == FreeFrames(vs) - {r.gdt, r.base} - TableFrames(sys.mem.tables)
  {
    hide FreeFrames, ValidViews, Pmm.Valid, Pmm.Fits, Pmm.Views, Pmm.Shaped, Pmm.Free, Separated, TablesManaged,
      MapsKernel, MapsRegions, TableFrames, BuiltViews, MapOk, Reachable, Kept;
    BuildPmm(sys.pm, ds);
    ZeroIsNotFree(ds, |sys.pm.slots|, sys.pm.bitmap.Length);
    FreeOf(sys.pm);
    r := KernelStart(sys);
    if r.Running? {
      RegionsAreMapped(Snapshot(sys.pm, sys.mem), sys.pml4, ds, |sys.pm.slots|, sys.pm.bitmap.Length, sys.fb);
    }
  }

  lemma FreeOf(pm: Pmm)
    requires pm.Fits()
    ensures pm.Free() == FreeFrames(pm.Views())
  {
  }
}
