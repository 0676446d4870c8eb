/** The page tables over whole runs of calls: what stays true of the pages that no call touches. */
module PageRuns {
  import opened Bits
  import opened FrameSpec
  import opened Physical
  import opened PageFormat
  import opened PageWalk
  import opened PageTree
  import opened PageSpace
  import opened PageRange
  import opened Paging
  import opened PageTheorems
  import opened Kernel
  import opened Heap

  /** A call with its answer. `Allocator` stands for calls of the allocator by others. */
  datatype Call =
    | Small(vaddr: uint64, paddr: uint64, flags: uint64, r: int)
    | Large(vaddr: uint64, paddr: uint64, flags: uint64, r: int)
    | Many(g: Range, r: int)
    | Granted(g: Range, first: nat, pages: nat)
    | Refused(g: Range)
    | Allocator

  /** What others may do with the allocator: take any frames, and give back frames that it manages,
      except frame 0 and those that are tables. */
  ghost predicate AllocatorOk(sp: Space, sp': Space, vs: seq<BlockView>) {
    && sp' == sp.(free := sp'.free)
    && forall a :: a in sp'.free && a !in sp.free ==> IsManaged(vs, a) && a != 0 && a !in TableFrames(sp.tables)
  }

  /** The mapping functions keep the tree separated; of other callers only AllocatorOk is known. */
  ghost predicate CallOk(sp: Space, sp': Space, pml4: nat, vs: seq<BlockView>, c: Call) {
    match c
    case Small(vaddr, paddr, flags, r) =>
      Separated(sp', pml4) && (r == 0 || r == -1) && MapPageOutcome(sp, sp', vaddr, paddr, flags, r)
    case Large(vaddr, paddr, flags, r) =>
      Separated(sp', pml4) && (r == 0 || r == -1) && MapLargeOutcome(sp, sp', vaddr, paddr, flags, r)
    case Many(g, r) => Separated(sp', pml4) && (r == 0 || r == -1) && RangeOutcome(sp, sp', g, r)
    case Granted(g, first, pages) => Separated(sp', pml4) && HeapGranted(sp, sp', g, first, pages)
    case Refused(g) => Separated(sp', pml4) && HeapRefused(sp, sp', g)
    case Allocator => AllocatorOk(sp, sp', vs)
  }

  /** All frames that are free or tables are the allocator's. */
  ghost predicate AllManaged(sp: Space, vs: seq<BlockView>) {
    && (forall a :: a in sp.free ==> IsManaged(vs, a))
    && (forall s :: s in sp.tables ==> IsManaged(vs, sp.tables[s]))
  }

  /** A run of calls from a state in which the mapping functions are sound. */
  ghost predicate IsCallRun(states: seq<Space>, calls: seq<Call>, pml4: nat, vs: seq<BlockView>) {
    && |states| == |calls| + 1
    && ValidViews(vs) && Separated(states[0], pml4) && AllManaged(states[0], vs)
    && forall k: nat :: k < |calls| ==> CallOk(states[k], states[k + 1], pml4, vs, calls[k])
  }

  /** Such a state is any in which the mapping functions may be called. */
  lemma SoundIsManaged(pm: Pmm, mem: Memory, pml4: nat)
    requires Sound(pm, mem, pml4)
    ensures ValidViews(pm.Views()) && Separated(Snapshot(pm, mem), pml4) && AllManaged(Snapshot(pm, mem), pm.Views())
  {
    hide IsManaged, ValidViews, Separated, IsFree, Pmm.Valid, Pmm.Fits;
    forall a | a in FreeFrames(pm.Views()) ensures IsManaged(pm.Views(), a) {
      FreeIsManaged(pm.Views(), a);
    }
  }

  /** The page is among those that the call is asked to map. */
  predicate Touches(c: Call, q: nat) {
    match c
    case Small(vaddr, _, _, _) => q == PageNumber(vaddr)
    case Large(vaddr, _, _, _) => q / 512 == PageNumber(vaddr) / 512
    case Many(g, _) => g.Contains(q)
    case Granted(g, _, _) => g.Contains(q)
    case Refused(g) => g.Contains(q)
    case Allocator => false
  }

  // ----- one call

  /** A range mapped as far as page k leaves the pages outside it alone. */
  lemma OutsideViews(sp: Space, sp': Space, g: Range, k: nat, q: nat)
    requires ViewsAre(sp, sp', g, k) && k <= g.count && !g.Contains(q)
    ensures LeafView(sp'.frames, sp'.tables, q) == LeafView(sp.frames, sp.tables, q)
  {
    hide LeafView, KeepsLarge, RightsOf;
    assert LeafView(sp'.frames, sp'.tables, q) == RangeView(sp, g, k, q);
  }

  /** One call, whatever it answers, changes no page that it does not touch. */
  lemma CallKeepsPage(sp: Space, sp': Space, pml4: nat, vs: seq<BlockView>, c: Call, q: nat)
    requires CallOk(sp, sp', pml4, vs, c) && !Touches(c, q)
    ensures LeafView(sp'.frames, sp'.tables, q) == LeafView(sp.frames, sp.tables, q)
  {
    hide LeafView, LargeCovered, Separated, ViewsAre, RangeConflict, Conflict, LacksFrames, RunDry, RunFrames, AddsOnPath,
      Missing, Grown, PageNumber, TableFrames, IsManaged, NoConflictYet;
    match c
    case Small(_, _, _, _) =>
    case Large(_, _, _, _) =>
    case Many(g, r) =>
      var k: nat := if r == 0 then g.count else RangeStop(sp, sp', g);
      OutsideViews(sp, sp', g, k, q);
    case Granted(g, _, _) =>
      OutsideViews(sp, sp', g, g.count, q);
    case Refused(g) =>
      var k: nat :| k <= g.count && ViewsAre(sp, sp', g, k);
      OutsideViews(sp, sp', g, k, q);
    case Allocator =>
  }

  ghost function RangeStop(sp: Space, sp': Space, g: Range): (k: nat)
    requires RangeOutcome(sp, sp', g, -1)
    ensures k <= g.count && ViewsAre(sp, sp', g, k)
  {
    hide ViewsAre, Grown, RangeConflict, RunDry, NoConflictYet;
    var k: nat :| RangeFailed(sp, sp', g, k);
    k
  }

  /** No call loses or moves a table, and the tables it adds were free. */
  ghost predicate TablesGrow(sp: Space, sp': Space) {
    KeepsTables(sp.tables, sp'.tables) && NewTablesWereFree(sp, sp')
  }

  lemma GrownTables(sp: Space, sp': Space)
    requires Grown(sp, sp')
    ensures TablesGrow(sp, sp') && sp'.free <= sp.free
  {
  }

  lemma CallKeepsTables(sp: Space, sp': Space, pml4: nat, vs: seq<BlockView>, c: Call)
    requires CallOk(sp, sp', pml4, vs, c)
    ensures TablesGrow(sp, sp')
    ensures c != Allocator ==> sp'.free <= sp.free
  {
    hide LeafView, LargeCovered, Separated, ViewsAre, RangeConflict, Conflict, LacksFrames, RunDry, RunFrames, AddsOnPath,
      Missing, Grown, PageNumber, TableFrames, IsManaged, TablesGrow, BlockGets, PageMapped, SameView, RangeFailed;
    match c
    case Small(_, _, _, _) => GrownTables(sp, sp');
    case Large(_, _, _, _) => GrownTables(sp, sp');
    case Many(g, r) => GrownTables(sp, sp');
    case Granted(g, first, pages) =>
      GrownTables(sp.(free := sp.free - RunFrames(first, pages)), sp');
      FromClaimed(sp, sp', RunFrames(first, pages));
    case Refused(g) => GrownTables(sp, sp');
    case Allocator => SameTables(sp, sp');
  }

  lemma FromClaimed(sp: Space, sp': Space, run: set<nat>)
    requires TablesGrow(sp.(free := sp.free - run), sp')
    ensures TablesGrow(sp, sp')
  {
  }

  lemma SameTables(sp: Space, sp': Space)
    requires sp'.tables == sp.tables
    ensures TablesGrow(sp, sp')
  {
  }

  /** Other callers of the allocator keep the tree separated as well. */
  lemma AllocatorSeparates(sp: Space, sp': Space, pml4: nat, vs: seq<BlockView>)
    requires ValidViews(vs) && Separated(sp, pml4) && AllocatorOk(sp, sp', vs)
    ensures Separated(sp', pml4)
  {
    hide Tree, IsManaged, ValidViews;
    TablesAreNotFree(sp, pml4);
    forall a | a in sp'.free ensures TableFrame(a) {
      if a !in sp.free {
        ManagedIsAligned(vs, a);
      }
    }
  }

  lemma CallKeepsManaged(sp: Space, sp': Space, pml4: nat, vs: seq<BlockView>, c: Call)
    requires CallOk(sp, sp', pml4, vs, c) && AllManaged(sp, vs)
    ensures AllManaged(sp', vs)
  {
    hide IsManaged, CallOk;
    CallKeepsTables(sp, sp', pml4, vs, c);
    if c == Allocator {
      AllocatorGives(sp, sp', pml4, vs, c);
    }
  }

  lemma AllocatorGives(sp: Space, sp': Space, pml4: nat, vs: seq<BlockView>, c: Call)
    requires CallOk(sp, sp', pml4, vs, c) && c == Allocator && AllManaged(sp, vs)
    ensures forall a :: a in sp'.free ==> IsManaged(vs, a)
  {
    hide IsManaged;
  }

  lemma CallSeparates(sp: Space, sp': Space, pml4: nat, vs: seq<BlockView>, c: Call)
    requires ValidViews(vs) && Separated(sp, pml4) && CallOk(sp, sp', pml4, vs, c)
    ensures Separated(sp', pml4)
  {
    hide Separated, ValidViews, AllocatorOk, MapPageOutcome, MapLargeOutcome, RangeOutcome, HeapGranted, HeapRefused;
    if c == Allocator {
      AllocatorSeparates(sp, sp', pml4, vs);
    }
  }

  // ----- runs of calls

  /** After every run of calls the tree is separated, and every table lives in a frame that the
      allocator manages. */
  lemma {:induction false} RunIsSound(states: seq<Space>, calls: seq<Call>, pml4: nat, vs: seq<BlockView>, n: nat)
    requires IsCallRun(states, calls, pml4, vs) && n < |states|
    ensures Separated(states[n], pml4) && AllManaged(states[n], vs)
  {
    hide Separated, AllManaged, CallOk, ValidViews;
    if n > 0 {
      RunIsSound(states, calls, pml4, vs, n - 1);
      CallSeparates(states[n - 1], states[n], pml4, vs, calls[n - 1]);
      CallKeepsManaged(states[n - 1], states[n], pml4, vs, calls[n - 1]);
    }
  }

  /** Over every run of calls no table is lost or moved. */
  lemma {:induction false} RunKeepsTables(states: seq<Space>, calls: seq<Call>, pml4: nat, vs: seq<BlockView>, n: nat)
    requires IsCallRun(states, calls, pml4, vs) && n < |states|
    ensures KeepsTables(states[0].tables, states[n].tables)
  {
    hide Separated, CallOk, AllManaged, ValidViews;
    if n > 0 {
      RunKeepsTables(states, calls, pml4, vs, n - 1);
      CallKeepsTables(states[n - 1], states[n], pml4, vs, calls[n - 1]);
    }
  }

  /** Over every run of calls the processor translates a page that none of them touches as before. */
  lemma {:induction false} RunKeepsPage(
      states: seq<Space>, calls: seq<Call>, pml4: nat, vs: seq<BlockView>, n: nat, q: nat)
    requires IsCallRun(states, calls, pml4, vs) && n < |states| && q < PAGE_LIMIT
    requires forall k: nat :: k < n ==> !Touches(calls[k], q)
    ensures Translate(states[n].frames, pml4, q) == Translate(states[0].frames, pml4, q)
  {
    hide Separated, CallOk, Touches, Translate, LeafView, AllManaged, ValidViews;
    if n > 0 {
      RunKeepsPage(states, calls, pml4, vs, n - 1, q);
      CallKeepsPage(states[n - 1], states[n], pml4, vs, calls[n - 1], q);
      RunIsSound(states, calls, pml4, vs, n - 1);
      RunIsSound(states, calls, pml4, vs, n);
      SameTranslation(states[n - 1], pml4, q);
      SameTranslation(states[n], pml4, q);
    }
  }

  /** From init_paging on, over every run of calls: a frame that the allocator manages is reached by
      its physical address exactly if that is below 2^47, as long as no call touches that page. */
  lemma ManagedStayReachable(states: seq<Space>, calls: seq<Call>, pml4: nat, n: nat, vs: seq<BlockView>, fb: Framebuffer,
                             a: nat, off: nat)
    requires IsCallRun(states, calls, pml4, vs) && n < |states|
    requires MapsKernel(states[0], vs, fb) && Reachable(vs, fb)
    requires IsManaged(vs, a) && a != 0 && off < PAGE_SIZE
    requires forall k: nat :: k < n ==> !Touches(calls[k], a / PAGE_SIZE)
    ensures PhysicalAddress(states[n].frames, pml4, a + off) == if a < CANONICAL_LIMIT then a + off else -1
  {
    hide LeafView, Translate, Separated, MapsKernel, IsManaged, ValidViews, Reachable, CallOk, Touches, AllManaged;
    ManagedIsMapped(states[0], pml4, vs, fb, a);
    RunKeepsPage(states, calls, pml4, vs, n, a / PAGE_SIZE);
    ByteOfPage(states[n].frames, pml4, a, off);
  }

  /** So every table of the tree, from the beginning or created since, is reached by its physical
      address through the tree itself. */
  lemma TablesStayReachable(states: seq<Space>, calls: seq<Call>, pml4: nat, n: nat, vs: seq<BlockView>, fb: Framebuffer,
                            s: Slot, off: nat)
    requires IsCallRun(states, calls, pml4, vs) && n < |states|
    requires MapsKernel(states[0], vs, fb) && Reachable(vs, fb)
    requires s in states[n].tables && off < PAGE_SIZE
    requires forall k: nat :: k < n ==> !Touches(calls[k], states[n].tables[s] / PAGE_SIZE)
    ensures var a := states[n].tables[s];
            PhysicalAddress(states[n].frames, pml4, a + off) == if a < CANONICAL_LIMIT then a + off else -1
  {
    hide LeafView, Translate, Separated, MapsKernel, IsManaged, ValidViews, Reachable, CallOk, Touches, IsCallRun,
      PhysicalAddress;
    RunIsSound(states, calls, pml4, vs, n);
    TableIsNotZero(states[n], pml4, s);
    ManagedStayReachable(states, calls, pml4, n, vs, fb, states[n].tables[s], off);
  }

  lemma TableIsNotZero(sp: Space, pml4: nat, s: Slot)
    requires Separated(sp, pml4) && s in sp.tables
    ensures sp.tables[s] != 0
  {
  }
}
