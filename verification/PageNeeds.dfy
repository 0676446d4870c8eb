/** How many tables a call of map_range needs, told from the state before it, and that it fails
    exactly if there are too few frames for them or a 2 MiB page is in the way. */
module PageNeeds {
  import opened Bits
  import opened PageFormat
  import opened PageWalk
  import opened PageTree
  import opened PageSpace
  import opened PageRange

  // ----- the tables a range needs

  /** Page q of the range needs the table at s, which is not there yet. Below a 2 MiB page, old or
      new, no page table is needed. */
  ghost predicate NeededBy(sp: Space, g: Range, q: nat, s: Slot) {
    && s !in sp.tables
    && (|| s == SlotOf(q, 3) || s == SlotOf(q, 2)
        || (s == SlotOf(q, 1) && !TakesLarge(sp, g, q) && !LargeCovered(sp.frames, sp.tables, q)))
  }

  ghost function NeedsOf(sp: Space, g: Range, q: nat): (needs: set<Slot>)
    ensures forall s :: s in needs <==> NeededBy(sp, g, q, s)
  {
    set s | s in {SlotOf(q, 3), SlotOf(q, 2), SlotOf(q, 1)} && NeededBy(sp, g, q, s)
  }

  /** The tables that the first k pages need. */
  ghost function Needed(sp: Space, g: Range, k: nat): set<Slot> {
    if k == 0 then {} else Needed(sp, g, k - 1) + NeedsOf(sp, g, g.base + (k - 1))
  }

  lemma {:induction false} NeededGrows(sp: Space, g: Range, j: nat, k: nat)
    requires j <= k
    ensures Needed(sp, g, j) <= Needed(sp, g, k)
    decreases k
  {
    hide NeededBy;
    if j < k {
      NeededGrows(sp, g, j, k - 1);
    }
  }

  lemma {:induction false} NeededAreNew(sp: Space, g: Range, k: nat)
    ensures Needed(sp, g, k) !! sp.tables.Keys
  {
    if k > 0 {
      NeededAreNew(sp, g, k - 1);
    }
  }

  /** The tables of the tree after k pages. */
  ghost predicate TablesAre(sp: Space, cur: Space, g: Range, k: nat) {
    cur.tables.Keys == sp.tables.Keys + Needed(sp, g, k)
  }

  lemma DisjointSizes(a: set<Slot>, b: set<Slot>)
    requires a !! b
    ensures |a + b| == |a| + |b|
  {
  }

  lemma MapSize(t: Tables)
    ensures |t| == |t.Keys|
  {
  }

  /** So many frames are left. */
  lemma FreeLeft(sp: Space, cur: Space, g: Range, k: nat)
    requires Grown(sp, cur) && TablesAre(sp, cur, g, k)
    ensures |cur.free| == |sp.free| - |Needed(sp, g, k)|
  {
    hide Needed, KeepsTables, NewTablesWereFree, WritesTablesOnly;
    NeededAreNew(sp, g, k);
    DisjointSizes(sp.tables.Keys, Needed(sp, g, k));
    MapSize(sp.tables);
    MapSize(cur.tables);
  }

  // ----- a 4 KiB step

  /** A translated page has its tables. */
  lemma TranslatedHasTables(sp: Space, pml4: nat, q: nat)
    requires Separated(sp, pml4) && LeafView(sp.frames, sp.tables, q).Page?
    ensures SlotOf(q, 3) in sp.tables && SlotOf(q, 2) in sp.tables
    ensures SlotOf(q, 1) in sp.tables <==> !LargeCovered(sp.frames, sp.tables, q)
  {
    hide Prefix, Present, PageSize;
    ChildOnPath(q, 2);
    ChildOnPath(q, 3);
  }

  /** What the tree gains with a page is what the page needs. */
  lemma GainsNeeds(sp: Space, cur: Space, next: Space, g: Range, k: nat, d: nat, low: nat)
    requires TablesAre(sp, cur, g, k) && Needed(sp, g, k + d) == Needed(sp, g, k) + NeedsOf(sp, g, g.base + k)
    requires KeepsTables(cur.tables, next.tables) && AddsOnPath(cur.tables, next.tables, g.base + k, low) && low >= 1
    requires SlotOf(g.base + k, 3) in next.tables && SlotOf(g.base + k, 2) in next.tables
    requires SlotOf(g.base + k, 1) in next.tables <==>
               !TakesLarge(sp, g, g.base + k) && !LargeCovered(sp.frames, sp.tables, g.base + k)
    ensures TablesAre(sp, next, g, k + d)
  {
    hide LargeCovered, TakesLarge, Prefix, Needed;
    forall s ensures s in next.tables.Keys <==> s in cur.tables.Keys || NeededBy(sp, g, g.base + k, s) {
    }
  }

  lemma SmallTables(sp: Space, cur: Space, next: Space, pml4: nat, g: Range, k: nat, vaddr: uint64, paddr: uint64)
    requires TablesAre(sp, cur, g, k) && CoversAre(sp, cur, g, k) && !TakesLarge(sp, g, g.base + k)
    requires Separated(next, pml4) && PageNumber(vaddr) == g.base + k
    requires MapPageOutcome(cur, next, vaddr, paddr, g.flags, 0)
    ensures TablesAre(sp, next, g, k + 1)
  {
    hide LeafView, LargeCovered, TakesLarge, Prefix, PageNumber, FrameOf, Separated, Conflict, LacksFrames, NewTablesWereFree,
      WritesTablesOnly, FreeBecameTables, Needed, NeedsOf, TablesAre, KeepsTables, AddsOnPath;
    CoveredHasPage(cur, g.base + k);
    TranslatedHasTables(next, pml4, g.base + k);
    NeededStep(sp, g, k);
    GainsNeeds(sp, cur, next, g, k, 1, 1);
  }

  lemma NeededStep(sp: Space, g: Range, k: nat)
    ensures Needed(sp, g, k + 1) == Needed(sp, g, k) + NeedsOf(sp, g, g.base + k)
  {
  }

  // ----- a 2 MiB step

  /** The pages of a 2 MiB step share their tables. */
  lemma SameNeeds(sp: Space, g: Range, k: nat, q: nat)
    requires (g.base + k) % 512 == 0 && (g.frame + k) % 512 == 0 && k + 512 <= g.whole
    requires SlotOf(g.base + k, 1) !in sp.tables && g.base + k <= q < g.base + k + 512
    ensures NeedsOf(sp, g, q) == NeedsOf(sp, g, g.base + k)
  {
    hide TakesLarge, LargeCovered, Prefix;
    BlockTakesLarge(sp, g, k, g.base + k);
    BlockTakesLarge(sp, g, k, q);
    SamePath(q, g.base + k);
  }

  lemma {:induction false} NeededByBlock(sp: Space, g: Range, k: nat, d: nat)
    requires (g.base + k) % 512 == 0 && (g.frame + k) % 512 == 0 && k + 512 <= g.whole
    requires SlotOf(g.base + k, 1) !in sp.tables && 1 <= d <= 512
    ensures Needed(sp, g, k + d) == Needed(sp, g, k) + NeedsOf(sp, g, g.base + k)
  {
    hide NeededBy, NeedsOf, Needed, Prefix;
    if d > 1 {
      NeededByBlock(sp, g, k, d - 1);
      SameNeeds(sp, g, k, g.base + k + (d - 1));
    }
    NeededStep(sp, g, k + (d - 1));
  }

  lemma SamePath(q: nat, page: nat)
    requires q / 512 == page / 512
    ensures SlotOf(q, 1) == SlotOf(page, 1) && SlotOf(q, 2) == SlotOf(page, 2) && SlotOf(q, 3) == SlotOf(page, 3)
  {
    PrefixValues(q);
    PrefixValues(page);
  }

  lemma LargeTables(sp: Space, cur: Space, next: Space, pml4: nat, g: Range, k: nat, vaddr: uint64, paddr: uint64)
    requires TablesAre(sp, cur, g, k) && AheadUntouched(sp, cur, g, k) && Separated(next, pml4)
    requires (g.base + k) % 512 == 0 && (g.frame + k) % 512 == 0 && k + 512 <= g.whole && PageNumber(vaddr) == g.base + k
    requires MapLargeOutcome(cur, next, vaddr, paddr, g.flags, 0)
    ensures TablesAre(sp, next, g, k + 512)
  {
    hide LeafView, LargeCovered, TakesLarge, Prefix, PageNumber, FrameOf, Separated, NewTablesWereFree, WritesTablesOnly,
      FreeBecameTables, Needed, NeedsOf, TablesAre, Missing, KeepsTables, AddsOnPath;
    assert SlotOf(g.base + k, 1) !in sp.tables;
    NeededByBlock(sp, g, k, 512);
    BlockTakesLarge(sp, g, k, g.base + k);
    CoveredHasPage(next, g.base + k);
    TranslatedHasTables(next, pml4, g.base + k);
    GainsNeeds(sp, cur, next, g, k, 512, 2);
  }

  // ----- too few frames

  /** The first k + 1 pages need more tables than frames are free. */
  ghost predicate TooFew(sp: Space, g: Range, k: nat) {
    |Needed(sp, g, k + 1)| > |sp.free|
  }

  function Absent(t: Tables, s: Slot): (a: set<Slot>)
    ensures |a| == if s in t then 0 else 1
    ensures forall x :: x in a <==> x == s && s !in t
  {
    if s in t then {} else {s}
  }

  /** The tables of the page that the tree lacks, from level `low` up. */
  ghost function Lacking(t: Tables, q: nat, low: nat): set<Slot> {
    Absent(t, SlotOf(q, 3)) + Absent(t, SlotOf(q, 2)) + (if low <= 1 then Absent(t, SlotOf(q, 1)) else {})
  }

  lemma LackingSize(t: Tables, q: nat, low: nat)
    requires 1 <= low <= 2
    ensures |Lacking(t, q, low)| == Missing(t, q, low)
  {
    hide Prefix, Absent;
    var x, y := Absent(t, SlotOf(q, 3)), Absent(t, SlotOf(q, 2));
    DisjointSizes(x, y);
    if low == 1 {
      DisjointSizes(x + y, Absent(t, SlotOf(q, 1)));
    }
  }

  /** What the page lacks after k pages it needs, beyond what the first k pages need. */
  lemma LackIsNeeded(sp: Space, cur: Space, g: Range, k: nat, low: nat)
    requires TablesAre(sp, cur, g, k) && 1 <= low <= 2
    requires low == 1 ==> !TakesLarge(sp, g, g.base + k) && !LargeCovered(sp.frames, sp.tables, g.base + k)
    ensures Lacking(cur.tables, g.base + k, low) !! Needed(sp, g, k)
    ensures Lacking(cur.tables, g.base + k, low) <= NeedsOf(sp, g, g.base + k)
  {
    hide TakesLarge, LargeCovered, Prefix, Needed, Absent;
    forall s | s in Lacking(cur.tables, g.base + k, low)
      ensures s !in Needed(sp, g, k) && s in NeedsOf(sp, g, g.base + k)
    {
      assert s !in cur.tables.Keys;
    }
  }

  lemma LackMakesTooFew(sp: Space, cur: Space, g: Range, k: nat, low: nat)
    requires Grown(sp, cur) && TablesAre(sp, cur, g, k) && 1 <= low <= 2
    requires Missing(cur.tables, g.base + k, low) > |cur.free|
    requires low == 1 ==> !TakesLarge(sp, g, g.base + k) && !LargeCovered(sp.frames, sp.tables, g.base + k)
    ensures TooFew(sp, g, k)
  {
    hide Grown, TakesLarge, LargeCovered, Prefix, Needed, Missing, Lacking, NeedsOf, TablesAre;
    FreeLeft(sp, cur, g, k);
    NeededStep(sp, g, k);
    LackingSize(cur.tables, g.base + k, low);
    LackIsNeeded(sp, cur, g, k, low);
    var more := Lacking(cur.tables, g.base + k, low);
    DisjointSizes(Needed(sp, g, k), more);
    Larger(Needed(sp, g, k) + more, Needed(sp, g, k + 1));
  }

  lemma Larger(a: set<Slot>, b: set<Slot>)
    requires a <= b
    ensures |a| <= |b|
  {
    assert b == a + (b - a);
    DisjointSizes(a, b - a);
  }

  // ----- where the loop stands before a 4 KiB step

  /** Either the tables are those of the first k pages, or a 2 MiB step has just failed because
      there are too few frames. */
  ghost predicate BeforeSmall(sp: Space, cur: Space, g: Range, k: nat) {
    if TakesLarge(sp, g, g.base + k) then TooFew(sp, g, k) else TablesAre(sp, cur, g, k)
  }

  /** A page table was in the way: the failed step added nothing. */
  lemma LargeBlocked(sp: Space, cur: Space, next: Space, pml4: nat, g: Range, k: nat)
    requires TablesAre(sp, cur, g, k) && Separated(cur, pml4)
    requires KeepsTables(cur.tables, next.tables) && AddsOnPath(cur.tables, next.tables, g.base + k, 2)
    requires SlotOf(g.base + k, 1) in sp.tables && SlotOf(g.base + k, 1) in cur.tables
    ensures BeforeSmall(sp, next, g, k)
  {
    hide TakesLarge, Prefix, Needed, Separated, TooFew, AddsOnPath, KeepsTables;
    TakesLargeNeedsNoTable(sp, g, g.base + k);
    PathIsThere(cur, pml4, g.base + k);
    NothingAdded(cur, next, g.base + k);
  }

  /** No page table was in the way: frames were wanting. */
  lemma LargeStarved(sp: Space, cur: Space, next: Space, g: Range, k: nat)
    requires Grown(sp, cur) && TablesAre(sp, cur, g, k) && Missing(cur.tables, g.base + k, 2) > |cur.free|
    requires (g.base + k) % 512 == 0 && (g.frame + k) % 512 == 0 && k + 512 <= g.whole
    requires SlotOf(g.base + k, 1) !in sp.tables
    ensures BeforeSmall(sp, next, g, k)
  {
    hide Grown, Prefix, Needed, Missing, TooFew, TablesAre, TakesLarge;
    BlockTakesLarge(sp, g, k, g.base + k);
    LackMakesTooFew(sp, cur, g, k, 2);
  }

  lemma LargeFailed(sp: Space, cur: Space, next: Space, pml4: nat, g: Range, k: nat, vaddr: uint64, paddr: uint64)
    requires Grown(sp, cur) && AheadUntouched(sp, cur, g, k) && TablesAre(sp, cur, g, k) && Separated(cur, pml4)
    requires (g.base + k) % 512 == 0 && (g.frame + k) % 512 == 0 && k + 512 <= g.whole && PageNumber(vaddr) == g.base + k
    requires MapLargeOutcome(cur, next, vaddr, paddr, g.flags, -1)
    ensures BeforeSmall(sp, next, g, k)
  {
    hide Grown, Prefix, PageNumber, Missing, Separated, TablesAre, BeforeSmall, SameView, AddsOnPath, KeepsTables, BlockGets;
    assert SlotOf(g.base + k, 1) in cur.tables <==> SlotOf(g.base + k, 1) in sp.tables;
    GrownKeeps(cur, next);
    if SlotOf(g.base + k, 1) in sp.tables {
      LargeBlocked(sp, cur, next, pml4, g, k);
    } else {
      LargeStarved(sp, cur, next, g, k);
    }
  }

  lemma NothingAdded(cur: Space, next: Space, q: nat)
    requires KeepsTables(cur.tables, next.tables) && AddsOnPath(cur.tables, next.tables, q, 2)
    requires SlotOf(q, 2) in cur.tables && SlotOf(q, 3) in cur.tables
    ensures next.tables.Keys == cur.tables.Keys
  {
    hide Prefix;
  }

  // ----- the outcome

  /** map_range fails exactly if some page of the range is in conflict with a 2 MiB page that
      stays, or the range needs more tables than frames are free; otherwise those tables are
      what the tree gains. */
  ghost predicate NeedsOutcome(sp: Space, sp': Space, g: Range, r: int) {
    && (r == -1 <==> (exists q: nat :: RangeConflict(sp, g, q)) || |Needed(sp, g, g.count)| > |sp.free|)
    && (r == 0 ==> TablesAre(sp, sp', g, g.count))
  }

  lemma NeedsMet(sp: Space, cur: Space, g: Range)
    requires RangeOutcome(sp, cur, g, 0) && TablesAre(sp, cur, g, g.count)
    ensures NeedsOutcome(sp, cur, g, 0)
  {
    hide Grown, RangeConflict, ViewsAre, Needed;
    FreeLeft(sp, cur, g, g.count);
  }

  /** The 4 KiB step that failed. */
  lemma NeedsUnmet(sp: Space, cur: Space, next: Space, g: Range, k: nat, vaddr: uint64, paddr: uint64)
    requires RangeState(sp, cur, g, k) && k < g.count && BeforeSmall(sp, cur, g, k)
    requires PageNumber(vaddr) == g.base + k && FrameOf(paddr) == g.FrameFor(g.base + k) && vaddr % PAGE_SIZE == 0
    requires MapPageOutcome(cur, next, vaddr, paddr, g.flags, -1)
    ensures NeedsOutcome(sp, next, g, -1)
  {
    hide Grown, TakesLarge, LargeCovered, LeafView, Prefix, PageNumber, FrameOf, Needed, Missing, ViewsAre, CoversAre,
      NoConflictYet, RangeConflict, Conflict, SameView, AheadUntouched, TablesAre;
    NeededGrows(sp, g, k + 1, g.count);
    Larger(Needed(sp, g, k + 1), Needed(sp, g, g.count));
    if !TakesLarge(sp, g, g.base + k) {
      if Conflict(cur, vaddr, paddr) {
        ConflictHere(sp, cur, g, k, vaddr, paddr);
      } else {
        NotCoveredBefore(sp, cur, g, k, g.base + k);
        LackMakesTooFew(sp, cur, g, k, 1);
      }
    }
  }

  lemma NotCoveredBefore(sp: Space, cur: Space, g: Range, k: nat, q: nat)
    requires CoversAre(sp, cur, g, k) && !LargeCovered(cur.frames, cur.tables, q)
    ensures !LargeCovered(sp.frames, sp.tables, q)
  {
    hide TakesLarge, LargeCovered;
    assert LargeCovered(cur.frames, cur.tables, q) ==
             (LargeCovered(sp.frames, sp.tables, q) || (g.base <= q < g.base + k && TakesLarge(sp, g, q)));
  }

  // ----- the steps of the loop, from its invariant

  lemma NeedsStart(sp: Space, g: Range)
    ensures TablesAre(sp, sp, g, 0)
  {
  }

  lemma LargeGained(sp: Space, cur: Space, next: Space, pml4: nat, g: Range, k: nat, vaddr: uint64, paddr: uint64)
    requires RangeState(sp, cur, g, k) && TablesAre(sp, cur, g, k) && Separated(next, pml4)
    requires (g.base + k) % 512 == 0 && (g.frame + k) % 512 == 0 && k + 512 <= g.whole && PageNumber(vaddr) == g.base + k
    requires MapLargeOutcome(cur, next, vaddr, paddr, g.flags, 0)
    ensures TablesAre(sp, next, g, k + 512)
  {
    hide Grown, TakesLarge, PageNumber, Separated, MapLargeOutcome, TablesAre, ViewsAre, CoversAre, NoConflictYet, AheadUntouched;
    LargeTables(sp, cur, next, pml4, g, k, vaddr, paddr);
  }

  lemma LargeLost(sp: Space, cur: Space, next: Space, pml4: nat, g: Range, k: nat, vaddr: uint64, paddr: uint64)
    requires RangeState(sp, cur, g, k) && TablesAre(sp, cur, g, k) && Separated(cur, pml4)
    requires (g.base + k) % 512 == 0 && (g.frame + k) % 512 == 0 && k + 512 <= g.whole && PageNumber(vaddr) == g.base + k
    requires MapLargeOutcome(cur, next, vaddr, paddr, g.flags, -1)
    ensures BeforeSmall(sp, next, g, k)
  {
    hide Grown, TakesLarge, PageNumber, Separated, MapLargeOutcome, TablesAre, ViewsAre, CoversAre, NoConflictYet, AheadUntouched,
      BeforeSmall;
    LargeFailed(sp, cur, next, pml4, g, k, vaddr, paddr);
  }

  lemma PlainBefore(sp: Space, cur: Space, g: Range, k: nat)
    requires TablesAre(sp, cur, g, k) && !TakesLarge(sp, g, g.base + k)
    ensures BeforeSmall(sp, cur, g, k)
  {
    hide TakesLarge, TablesAre;
  }

  lemma SmallGained(sp: Space, cur: Space, next: Space, pml4: nat, g: Range, k: nat, vaddr: uint64, paddr: uint64)
    requires RangeState(sp, cur, g, k) && BeforeSmall(sp, cur, g, k) && Separated(next, pml4)
    requires TakesLarge(sp, g, g.base + k) ==> LacksFrames(cur, g.base + k)
    requires PageNumber(vaddr) == g.base + k && MapPageOutcome(cur, next, vaddr, paddr, g.flags, 0)
    ensures TablesAre(sp, next, g, k + 1)
  {
    hide Grown, TakesLarge, PageNumber, Separated, TablesAre, ViewsAre, NoConflictYet, AheadUntouched, CoversAre, LacksFrames,
      Conflict, PageMapped, AddsOnPath, SameView;
    SmallTables(sp, cur, next, pml4, g, k, vaddr, paddr);
  }

  lemma NeedsDone(sp: Space, cur: Space, g: Range, k: nat)
    requires RangeState(sp, cur, g, k) && TablesAre(sp, cur, g, k) && k >= g.count
    ensures NeedsOutcome(sp, cur, g, 0)
  {
    hide Grown, TakesLarge, TablesAre, ViewsAre, CoversAre, AheadUntouched, KeepsLarge, LeafView;
    RangeDone(sp, cur, g, k);
    NeedsMet(sp, cur, g);
  }
}
