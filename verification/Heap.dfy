/** `get_heap` of kernel/memory/heap.c: back a virtual range with physically contiguous frames. */
module Heap {
  import opened Bits
  import opened FrameSpec
  import opened Physical
  import opened PageFormat
  import opened PageWalk
  import opened PageTree
  import opened PageSpace
  import opened PageRange
  import opened PageNeeds
  import opened Paging

  /** The frames from `first` on that get_heap claims. */
  ghost function RunFrames(first: nat, count: nat): (s: set<nat>)
    ensures forall a: nat :: a in s <==> InRun(a, first, count)
  {
    set a: nat | first <= a < first + count * FRAME_SIZE && InRun(a, first, count)
  }

  /** Pages needed for `length` bytes, as get_heap rounds. */
  function HeapPages(length: uint64): (pages: nat)
    ensures pages * PAGE_SIZE >= length && (pages > 0 ==> (pages - 1) * PAGE_SIZE < length)
    ensures pages <= WORD_LIMIT / PAGE_SIZE
  {
    if length / PAGE_SIZE * PAGE_SIZE < length then length / PAGE_SIZE + 1 else length / PAGE_SIZE
  }

  lemma ClaimTakesRun(before: seq<BlockView>, after: seq<BlockView>, count: nat, first: nat)
    requires ValidViews(before) && count > 0 && Allocated(before, after, count, first) && first != NO_FRAME
    ensures SameShape(before, after)
    ensures RunFrames(first, count) <= FreeFrames(before)
    ensures FreeFrames(after) == FreeFrames(before) - RunFrames(first, count)
    ensures forall a :: a in RunFrames(first, count) ==> IsManaged(before, a)
  {
    AllocationTakesRun(before, after, count, first);
    forall a | a in RunFrames(first, count) ensures IsManaged(before, a) {
      FreeIsManaged(before, a);
    }
  }

  lemma ReleaseOne(before: seq<BlockView>, after: seq<BlockView>, a: nat)
    requires ValidViews(before) && Released(before, after, a) && IsManaged(before, a)
    ensures SameShape(before, after)
    ensures FreeFrames(after) == FreeFrames(before) + {a}
  {
    ManagedIsAligned(before, a);
    StartIsAligned(a);
    ReleaseReturnsFrame(before, after, a);
  }

  lemma RunGrows(first: nat, i: nat)
    ensures RunFrames(first, i + 1) == RunFrames(first, i) + {first + i * FRAME_SIZE}
  {
    forall a: nat ensures InRun(a, first, i + 1) <==> InRun(a, first, i) || a == first + i * FRAME_SIZE {
      if InRun(a, first, i + 1) && !InRun(a, first, i) {
        var k := RunMember(a, first, i + 1);
      }
    }
  }

  lemma RunOfNone(first: nat)
    ensures RunFrames(first, 0) == {}
  {
  }

  /** Claiming the run keeps the tree separated from what is free. */
  lemma ClaimKeepsSeparation(sp: Space, pml4: nat, run: set<nat>)
    requires Separated(sp, pml4) && run <= sp.free
    ensures Separated(sp.(free := sp.free - run), pml4)
    ensures TableFrames(sp.tables) !! run
  {
    hide Tree;
  }

  lemma TablesMissRun(sp: Space, sp': Space, run: set<nat>)
    requires TableFrames(sp.tables) !! run
    requires KeepsTables(sp.tables, sp'.tables) && NewTablesWereFree(sp.(free := sp.free - run), sp')
    ensures TableFrames(sp'.tables) !! run
  {
    forall a | a in TableFrames(sp'.tables) ensures a !in run {
      var s :| s in sp'.tables && sp'.tables[s] == a;
      if s in sp.tables {
        assert sp'.tables[s] in TableFrames(sp.tables);
      }
    }
  }

  lemma TakeAway(free: set<nat>, run: set<nat>, taken: set<nat>)
    requires run <= free && taken !! run
    ensures free - run - taken + run == free - taken
  {
  }

  /** The run was free when the new tables were taken from the other free frames. */
  lemma RunAndTables(sp: Space, sp': Space, pml4: nat, run: set<nat>)
    requires Separated(sp, pml4) && run <= sp.free
    requires Grown(sp.(free := sp.free - run), sp')
    ensures TableFrames(sp'.tables) !! run
    ensures sp'.free == sp.free - run - TableFrames(sp'.tables)
    ensures sp'.free + run == sp.free - TableFrames(sp'.tables)
  {
    hide TableFrames, NewTablesWereFree, KeepsTables, WritesTablesOnly, Separated;
    ClaimKeepsSeparation(sp, pml4, run);
    TablesMissRun(sp, sp', run);
    TakeAway(sp.free, run, TableFrames(sp'.tables));
  }

  /** Giving the run back leaves the tree separated. */
  lemma ReturnKeepsSeparation(sp: Space, sp': Space, pml4: nat, free: set<nat>)
    requires Separated(sp, pml4) && Separated(sp', pml4) && free == sp.free - TableFrames(sp'.tables)
    ensures Separated(sp'.(free := free), pml4)
  {
    hide Tree;
  }

  /** The loop of `get_heap` that gives the frames back. */
  method ReturnFrames(pm: Pmm, first: nat, pages: nat)
    requires pm.Valid() && (forall a :: a in RunFrames(first, pages) ==> IsManaged(pm.Views(), a))
    requires first + pages * PAGE_SIZE < WORD_LIMIT
    modifies pm.slots`framesFree, pm.bitmap
    ensures pm.Valid() && SameShape(old(pm.Views()), pm.Views())
    ensures pm.Free() == old(pm.Free()) + RunFrames(first, pages)
  {
    hide FreeFrames, IsFree, IsManaged, ValidViews, Pmm.Valid, SameShape, InRun, Released;
    ghost var vs := pm.Views();
    ShapeReflexive(vs);
    RunOfNone(first);
    var i := 0;
    while i < pages
      invariant i <= pages
      invariant pm.Valid() && SameShape(vs, pm.Views())
      invariant pm.Free() == old(pm.Free()) + RunFrames(first, i)
    {
      ghost var vs1 := pm.Views();
      RunGrows(first, i);
      FrameOfRun(first, pages, i);
      ShapeIsKept(vs, vs1);
      pm.FreeFrame(first + i * PAGE_SIZE);
      ReleaseOne(vs1, pm.Views(), first + i * PAGE_SIZE);
      ShapeTransitive(vs, vs1, pm.Views());
      i := i + 1;
    }
  }

  lemma FrameOfRun(first: nat, pages: nat, i: nat)
    requires i < pages
    ensures first + i * FRAME_SIZE in RunFrames(first, pages)
  {
  }

  // ----- what get_heap leaves behind

  /** What get_heap leaves behind when it succeeded with the run at `first`: the run left the free
      set, what else left it became tables, and the range is mapped onto the run. */
  ghost predicate HeapGranted(sp: Space, sp': Space, g: Range, first: nat, pages: nat) {
    && RunFrames(first, pages) <= sp.free
    && TableFrames(sp'.tables) !! RunFrames(first, pages)
    && Grown(sp.(free := sp.free - RunFrames(first, pages)), sp')
    && ViewsAre(sp, sp', g, g.count)
    && (forall q: nat :: !RangeConflict(sp, g, q))
  }

  /** When it failed: every frame is back except those that became page tables, and each page of
      the range has its old or its requested translation. */
  ghost predicate HeapRefused(sp: Space, sp': Space, g: Range) {
    && Grown(sp, sp')
    && exists k: nat :: k <= g.count && ViewsAre(sp, sp', g, k)
  }

  /** In numbers: the frames that left the free set are the run and the new tables. */
  lemma GrantedCounts(sp: Space, sp': Space, g: Range, first: nat, pages: nat)
    requires HeapGranted(sp, sp', g, first, pages)
    ensures sp'.free == sp.free - RunFrames(first, pages) - TableFrames(sp'.tables)
    ensures |sp.free| - |sp'.free| == pages + (|sp'.tables| - |sp.tables|)
  {
    hide RunFrames, TableFrames, ViewsAre, RangeConflict, KeepsTables, NewTablesWereFree, WritesTablesOnly;
    RunSize(first, pages);
    SizeWithout(sp.free, RunFrames(first, pages));
  }

  /** Why get_heap failed although there was a run: page k of the range was in conflict, or needs
      a table when nothing but the run is left. */
  ghost predicate HeapBlocked(sp: Space, sp': Space, g: Range, first: nat, pages: nat) {
    && RunFrames(first, pages) <= sp.free
    && exists k: nat :: k < g.count && StoppedAt(sp, sp', g, first, pages, k)
  }

  ghost predicate StoppedAt(sp: Space, sp': Space, g: Range, first: nat, pages: nat, k: nat) {
    && ViewsAre(sp, sp', g, k)
    && NoConflictYet(sp, g, k)
    && (RangeConflict(sp, g, g.base + k)
        || (sp'.free == RunFrames(first, pages) && NeedsTable(sp', g.base + k)))
  }

  /** No block has a run of so many free frames. */
  ghost predicate NoRun(vs: seq<BlockView>, count: nat) {
    count == 0 || forall i :: 0 <= i < |vs| ==> NoFreeRun(vs[i].used, count)
  }

  /** Mapping the range onto a run of so many frames fails: a page is in conflict, or the tables it
      needs and the run together outnumber the free frames. */
  ghost predicate HeapLacks(sp: Space, g: Range, pages: nat) {
    || (exists q: nat :: RangeConflict(sp, g, q))
    || |Needed(sp, g, g.count)| + pages > |sp.free|
  }

  lemma {:induction false} RunSize(first: nat, count: nat)
    ensures |RunFrames(first, count)| == count
  {
    hide RunFrames;
    if count == 0 {
      RunOfNone(first);
    } else {
      RunSize(first, count - 1);
      RunGrows(first, count - 1);
      BeyondRun(first, count - 1);
    }
  }

  lemma BeyondRun(first: nat, count: nat)
    ensures first + count * FRAME_SIZE !in RunFrames(first, count)
  {
  }

  /** What a range needs does not depend on what is free. */
  lemma {:induction false} NeededOfTables(sp: Space, free: set<nat>, g: Range, k: nat)
    ensures Needed(sp.(free := free), g, k) == Needed(sp, g, k)
  {
    hide TakesLarge, LargeCovered;
    if k > 0 {
      NeededOfTables(sp, free, g, k - 1);
      assert NeedsOf(sp.(free := free), g, g.base + (k - 1)) == NeedsOf(sp, g, g.base + (k - 1)) by {
        SameNeedsOf(sp, free, g, g.base + (k - 1));
      }
    }
  }

  lemma SameNeedsOf(sp: Space, free: set<nat>, g: Range, q: nat)
    ensures NeedsOf(sp.(free := free), g, q) == NeedsOf(sp, g, q)
  {
    hide LargeCovered;
  }

  lemma SizeWithout(a: set<nat>, b: set<nat>)
    requires b <= a
    ensures |a - b| == |a| - |b|
  {
    assert a == (a - b) + b;
  }

  lemma HeapFailsExactly(sp: Space, sp': Space, g: Range, first: nat, pages: nat, r: int)
    requires RunFrames(first, pages) <= sp.free
    requires NeedsOutcome(sp.(free := sp.free - RunFrames(first, pages)), sp', g, r)
    ensures r == -1 <==> HeapLacks(sp, g, pages)
  {
    hide RunFrames, RangeConflict, Needed, TablesAre;
    RunSize(first, pages);
    SizeWithout(sp.free, RunFrames(first, pages));
    NeededOfTables(sp, sp.free - RunFrames(first, pages), g, g.count);
    FreeDoesNotShow(sp, sp, sp.free - RunFrames(first, pages), sp.free, g, 0);
  }

  lemma NothingMapped(sp: Space, pml4: nat, g: Range)
    requires Separated(sp, pml4)
    ensures HeapRefused(sp, sp, g)
  {
    hide LeafView, LargeCovered, Separated, Grown;
    GrownReflexive(sp, pml4);
    assert ViewsAre(sp, sp, g, 0);
  }

  /** The views of a range do not depend on what is free. */
  lemma FreeDoesNotShow(sp: Space, sp': Space, free: set<nat>, free': set<nat>, g: Range, k: nat)
    ensures ViewsAre(sp.(free := free), sp'.(free := free'), g, k) == ViewsAre(sp, sp', g, k)
    ensures forall q: nat :: RangeConflict(sp.(free := free), g, q) == RangeConflict(sp, g, q)
    ensures forall q: nat :: NeedsTable(sp'.(free := free'), q) == NeedsTable(sp', q)
    ensures NoConflictYet(sp.(free := free), g, k) == NoConflictYet(sp, g, k)
  {
  }

  /** Claiming a run and giving it back leaves only the tables that were linked in between. */
  lemma GrownAround(sp: Space, sp': Space, pml4: nat, run: set<nat>)
    requires Separated(sp, pml4) && run <= sp.free && Grown(sp.(free := sp.free - run), sp')
    ensures Grown(sp, sp'.(free := sp'.free + run))
  {
    hide TableFrames, Tree, WritesTablesOnly;
    RunAndTables(sp, sp', pml4, run);
    SizeWithout(sp.free, run);
    assert |sp'.free + run| == |sp'.free| + |run|;
    assert WritesTablesOnly(sp, sp'.(free := sp'.free + run)) by {
      WritesWhateverFree(sp, sp', sp.free - run, sp'.free + run);
    }
  }

  lemma WritesWhateverFree(sp: Space, sp': Space, free: set<nat>, free': set<nat>)
    requires WritesTablesOnly(sp.(free := free), sp')
    ensures WritesTablesOnly(sp, sp'.(free := free'))
  {
  }

  lemma GrantHeap(sp: Space, sp': Space, pml4: nat, g: Range, first: nat, pages: nat)
    requires Separated(sp, pml4) && RunFrames(first, pages) <= sp.free
    requires RangeOutcome(sp.(free := sp.free - RunFrames(first, pages)), sp', g, 0)
    ensures HeapGranted(sp, sp', g, first, pages)
  {
    hide Separated, ViewsAre, RangeConflict, RunFrames, TableFrames, Grown;
    RunAndTables(sp, sp', pml4, RunFrames(first, pages));
    FreeDoesNotShow(sp, sp', sp.free - RunFrames(first, pages), sp'.free, g, g.count);
  }

  lemma RefuseHeap(sp: Space, sp': Space, pml4: nat, g: Range, first: nat, pages: nat)
    requires Separated(sp, pml4) && Separated(sp', pml4) && RunFrames(first, pages) <= sp.free
    requires RangeOutcome(sp.(free := sp.free - RunFrames(first, pages)), sp', g, -1)
    ensures HeapRefused(sp, sp'.(free := sp'.free + RunFrames(first, pages)), g)
    ensures HeapBlocked(sp, sp'.(free := sp'.free + RunFrames(first, pages)), g, first, pages)
    ensures Separated(sp'.(free := sp'.free + RunFrames(first, pages)), pml4)
  {
    hide NeedsTable, NoConflictYet, Separated, ViewsAre, RangeConflict, RunFrames, TableFrames, Grown, KeepsTables, InRun;
    var run := RunFrames(first, pages);
    var claimed := sp.(free := sp.free - run);
    RunAndTables(sp, sp', pml4, run);
    GrownAround(sp, sp', pml4, run);
    var k: nat :| RangeFailed(claimed, sp', g, k);
    FreeDoesNotShow(sp, sp', sp.free - run, sp'.free + run, g, k);
    FreeDoesNotShow(sp, sp', sp.free - run, sp'.free, g, k);
    FreeDoesNotShow(sp, sp', sp.free, sp'.free + run, g, k);
    assert StoppedAt(sp, sp'.(free := sp'.free + run), g, first, pages, k);
    ReturnKeepsSeparation(sp, sp', pml4, sp'.free + run);
  }

  // ----- get_heap

  /** A run of managed frames ends below the physical limit. */
  lemma RunBelowLimit(vs: seq<BlockView>, first: nat, count: nat)
    requires ValidViews(vs) && count > 0 && forall a :: a in RunFrames(first, count) ==> IsManaged(vs, a)
    ensures first % FRAME_SIZE == 0 && first + count * FRAME_SIZE <= PHYS_LIMIT
  {
    FrameOfRun(first, count, 0);
    FrameOfRun(first, count, count - 1);
    ManagedIsAligned(vs, first);
    ManagedIsAligned(vs, first + (count - 1) * FRAME_SIZE);
  }

  /** The run that frames_allocate finds: the lowest one of the first block that has one. */
  ghost predicate FirstFit(vs: seq<BlockView>, pages: nat, first: nat) {
    first != NO_FRAME && exists after :: Allocated(vs, after, pages, first)
  }

  /** The run is determined by the blocks. */
  lemma FirstFitIsUnique(vs: seq<BlockView>, pages: nat, first: nat, first': nat)
    requires FirstFit(vs, pages, first) && FirstFit(vs, pages, first')
    ensures first == first'
  {
    hide Allocated;
    var after :| Allocated(vs, after, pages, first);
    var after' :| Allocated(vs, after', pages, first');
    AllocationIsDetermined(vs, after, after', pages, first, first');
  }

  /** The claim at the head of `get_heap`. */
  method ClaimRun(pm: Pmm, mem: Memory, pml4: nat, pages: nat) returns (first: nat)
    requires Sound(pm, mem, pml4)
    modifies pm.slots`framesFree, pm.bitmap
    ensures Sound(pm, mem, pml4) && SameShape(old(pm.Views()), pm.Views())
    ensures first == NO_FRAME ==> Snapshot(pm, mem) == old(Snapshot(pm, mem))
    ensures first == NO_FRAME <==> NoRun(old(pm.Views()), pages)
    ensures first != NO_FRAME ==> FirstFit(old(pm.Views()), pages, first)
    ensures first != NO_FRAME ==>
              && RunFrames(first, pages) <= old(pm.Free())
              && pm.Free() == old(pm.Free()) - RunFrames(first, pages)
              && (forall a :: a in RunFrames(first, pages) ==> IsManaged(pm.Views(), a))
              && pages > 0 && first + pages * FRAME_SIZE <= PHYS_LIMIT
  {
    hide FreeFrames, IsFree, IsManaged, ValidViews, Pmm.Valid, Pmm.Views, Pmm.Fits, SameShape, Separated, TablesManaged,
      InRun, RunFrames, NoFreeRun;
    ghost var sp, vs := Snapshot(pm, mem), pm.Views();
    ShapeReflexive(vs);
    first := pm.AllocateFrames(pages);
    if first != NO_FRAME {
      ClaimTakesRun(vs, pm.Views(), pages, first);
      ClaimKeepsSeparation(sp, pml4, RunFrames(first, pages));
      ShapeIsKept(vs, pm.Views());
      RunBelowLimit(vs, first, pages);
      ClaimSucceeded(vs, pm.Views(), pages, first);
      TablesShape(vs, pm.Views(), mem.tables);
      assert Snapshot(pm, mem) == sp.(free := sp.free - RunFrames(first, pages));
    }
  }

  lemma ClaimSucceeded(before: seq<BlockView>, after: seq<BlockView>, count: nat, first: nat)
    requires Allocated(before, after, count, first) && first != NO_FRAME
    ensures !forall i :: 0 <= i < |before| ==> NoFreeRun(before[i].used, count)
  {
    SuccessShowsRun(before, after, count, first);
  }

  lemma TablesShape(vs: seq<BlockView>, vs': seq<BlockView>, t: Tables)
    requires ValidViews(vs) && SameShape(vs, vs') && TablesManaged(vs, t)
    ensures TablesManaged(vs', t)
  {
    hide IsManaged;
    ShapeIsKept(vs, vs');
  }

  /** `get_heap` */
  method GetHeap(pm: Pmm, mem: Memory, pml4: nat, vaddr: uint64, length: uint64) returns (r: int, ghost first: nat)
    requires Sound(pm, mem, pml4) && RangeFits(vaddr, HeapPages(length) * PAGE_SIZE)
    modifies pm.slots`framesFree, pm.bitmap, mem
    ensures Sound(pm, mem, pml4) && SameShape(old(pm.Views()), pm.Views())
    ensures r == 0 || r == -1
    ensures var pages := HeapPages(length);
            var g := RangeOf(vaddr, first, pages * PAGE_SIZE, READ_WRITE_BIT);
            && (r == 0 ==> pages > 0 && HeapGranted(old(Snapshot(pm, mem)), Snapshot(pm, mem), g, first, pages))
            && (r == -1 ==> HeapRefused(old(Snapshot(pm, mem)), Snapshot(pm, mem), g))
            && (r == -1 ==>
                  if NoRun(old(pm.Views()), pages) then Snapshot(pm, mem) == old(Snapshot(pm, mem))
                  else HeapBlocked(old(Snapshot(pm, mem)), Snapshot(pm, mem), g, first, pages))
            && (!NoRun(old(pm.Views()), pages) ==> FirstFit(old(pm.Views()), pages, first))
            && (r == 0 <==> !NoRun(old(pm.Views()), pages) && !HeapLacks(old(Snapshot(pm, mem)), g, pages))
  {
    hide FreeFrames, IsFree, IsManaged, ValidViews, Pmm.Valid, Pmm.Views, Pmm.Fits, SameShape, Separated, TablesManaged,
      HeapGranted, HeapRefused, HeapBlocked, HeapLacks, NoRun, FirstFit,
      RangeOutcome, NeedsOutcome, FlagsOk, InRun, RunFrames, RangeOf, RangeFits, NoFreeRun;
    ghost var sp, vs := Snapshot(pm, mem), pm.Views();
    var pages := HeapPages(length);
    HeapFits(vaddr, pages);
    var paddr := ClaimRun(pm, mem, pml4, pages);
    if paddr == NO_FRAME {
      NothingMapped(sp, pml4, RangeOf(vaddr, paddr, pages * PAGE_SIZE, READ_WRITE_BIT));
      return -1, paddr;
    }
    ReadWriteFlag();
    ghost var g, vs1 := RangeOf(vaddr, paddr, pages * PAGE_SIZE, READ_WRITE_BIT), pm.Views();
    r := MapRange(pm, mem, pml4, vaddr, paddr, pages * PAGE_SIZE, READ_WRITE_BIT);
    first := paddr;
    ghost var sp2, vs2 := Snapshot(pm, mem), pm.Views();
    ShapeTransitive(vs, vs1, vs2);
    HeapFailsExactly(sp, sp2, g, paddr, pages, r);
    if r != 0 {
      RefuseHeap(sp, sp2, pml4, g, paddr, pages);
      ShapeIsKept(vs1, vs2);
      ReturnFrames(pm, paddr, pages);
      ShapeTransitive(vs, vs2, pm.Views());
      TablesShape(vs2, pm.Views(), mem.tables);
      assert Snapshot(pm, mem) == sp2.(free := sp2.free + RunFrames(paddr, pages));
      return -1, paddr;
    }
    GrantHeap(sp, sp2, pml4, g, paddr, pages);
    return 0, paddr;
  }

  lemma HeapFits(vaddr: nat, pages: nat)
    requires RangeFits(vaddr, pages * PAGE_SIZE)
    ensures pages * PAGE_SIZE < WORD_LIMIT
  {
  }

  // ----- what backs the range

  /** The frames behind the pages of a granted range. */
  lemma GrantedFrames(sp: Space, sp': Space, g: Range, first: nat, pages: nat, q: nat)
    requires HeapGranted(sp, sp', g, first, pages) && g.Contains(q)
    ensures LeafView(sp'.frames, sp'.tables, q).Page? && LeafView(sp'.frames, sp'.tables, q).frame == g.FrameFor(q)
  {
    hide TakesLarge, RunFrames, Grown, RightsOf;
    assert LeafView(sp'.frames, sp'.tables, q) == RangeView(sp, g, g.count, q);
    assert !RangeConflict(sp, g, q);
  }

  /** The frame of page k of the range is in the run unless it is one too far. */
  lemma FrameInRun(first: nat, pages: nat, k: nat)
    requires first % FRAME_SIZE == 0 && 0 < first && first + pages * FRAME_SIZE <= PHYS_LIMIT && k <= pages
    ensures InRun((first / PAGE_SIZE + k) % FRAME_LIMIT * PAGE_SIZE, first, pages) <==> k < pages
  {
    var f := first / PAGE_SIZE + k;
    if f < FRAME_LIMIT {
      assert f % FRAME_LIMIT == f;
      assert f * PAGE_SIZE == first + k * PAGE_SIZE;
    } else {
      assert f % FRAME_LIMIT == 0;
    }
  }

  predicate BackedBy(view: Translation, first: nat, pages: nat) {
    view.Page? && InRun(view.frame * PAGE_SIZE, first, pages)
  }

  /** get_heap does not round its address: every page of the range lies in the claimed run exactly
      if the address is page-aligned. Otherwise the last page lies one frame past the run. */
  lemma HeapIsBacked(sp: Space, sp': Space, vaddr: uint64, first: nat, pages: nat)
    requires pages > 0 && first % FRAME_SIZE == 0 && 0 < first && first + pages * FRAME_SIZE <= PHYS_LIMIT
    requires HeapGranted(sp, sp', RangeOf(vaddr, first, pages * PAGE_SIZE, READ_WRITE_BIT), first, pages)
    ensures var g := RangeOf(vaddr, first, pages * PAGE_SIZE, READ_WRITE_BIT);
            (forall q: nat :: g.Contains(q) ==> BackedBy(LeafView(sp'.frames, sp'.tables, q), first, pages))
            <==> vaddr % PAGE_SIZE == 0
  {
    hide LeafView, HeapGranted, InRun, PageNumber;
    var g := RangeOf(vaddr, first, pages * PAGE_SIZE, READ_WRITE_BIT);
    assert g.count == if vaddr % PAGE_SIZE == 0 then pages else pages + 1;
    forall q: nat | g.Contains(q)
      ensures BackedBy(LeafView(sp'.frames, sp'.tables, q), first, pages) <==> q - g.base < pages
    {
      GrantedFrames(sp, sp', g, first, pages, q);
      FrameInRun(first, pages, q - g.base);
    }
    if vaddr % PAGE_SIZE != 0 {
      assert g.Contains(g.base + pages);
    }
  }

  // ----- what a refusal leaves mapped

  /** The page is mapped to a frame that is free. */
  ghost predicate MapsFree(sp: Space, q: nat) {
    && LeafView(sp.frames, sp.tables, q).Page?
    && LeafView(sp.frames, sp.tables, q).frame * PAGE_SIZE in sp.free
  }

  /** get_heap does not undo mappings: after it stopped at page k of the range, the first k pages are
      mapped to frames that were given back; every other page has its old translation. So if no page
      was mapped to a free frame before, exactly these k are afterwards. */
  lemma RefusedPages(sp: Space, sp': Space, g: Range, first: nat, pages: nat, k: nat, q: nat)
    requires StoppedAt(sp, sp', g, first, pages, k) && k <= pages && k < g.count && RunFrames(first, pages) <= sp'.free <= sp.free
    requires g.frame == first / PAGE_SIZE && first % FRAME_SIZE == 0 && 0 < first && first + pages * FRAME_SIZE <= PHYS_LIMIT
    ensures g.base <= q < g.base + k ==> MapsFree(sp', q)
    ensures !(g.base <= q < g.base + k) ==> LeafView(sp'.frames, sp'.tables, q) == LeafView(sp.frames, sp.tables, q)
    ensures !MapsFree(sp, q) ==> (MapsFree(sp', q) <==> g.base <= q < g.base + k)
  {
    hide TakesLarge, LargeCovered, LeafView, NeedsTable, RunFrames, RightsOf, RangeConflict;
    assert LeafView(sp'.frames, sp'.tables, q) == RangeView(sp, g, k, q);
    if g.base <= q < g.base + k {
      FrameInRun(first, pages, q - g.base);
      if KeepsLarge(sp, g, q) {
        PageAhead(sp, g, k, q);
      }
    }
  }

  /** A page that an older 2 MiB page keeps without conflict has the requested frame. */
  lemma PageAhead(sp: Space, g: Range, k: nat, q: nat)
    requires NoConflictYet(sp, g, k) && k <= g.count && g.base <= q < g.base + k && KeepsLarge(sp, g, q)
    ensures LeafView(sp.frames, sp.tables, q).Page? && LeafView(sp.frames, sp.tables, q).frame == g.FrameFor(q)
  {
    hide TakesLarge;
    CoveredHasPage(sp, q);
    assert !RangeConflict(sp, g, q);
  }
}
