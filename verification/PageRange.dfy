/** What map_range makes of a whole range of pages, and how its mix of 2 MiB and 4 KiB steps
    compares with mapping the same range page by page. */
module PageRange {
  import opened Bits
  import opened PageFormat
  import opened PageWalk
  import opened PageTree
  import opened PageSpace

  /** A range of pages: the first page number, how many pages are touched, how many of them are
      covered to their end, the first frame number, and the flags. */
  datatype Range = Range(base: nat, count: nat, whole: nat, frame: nat, flags: uint64)
  {
    /** The frame the range assigns to page q. */
    function FrameFor(q: nat): nat
      requires q >= base
    {
      (frame + (q - base)) % FRAME_LIMIT
    }

    predicate Contains(q: nat) {
      base <= q < base + count
    }
  }

  /** The rounding of map_range: down to the page that holds vaddr, up past the last byte. */
  function RangeOf(vaddr: nat, paddr: nat, length: nat, flags: uint64): Range {
    Range(PageNumber(vaddr), (vaddr % PAGE_SIZE + length + PAGE_SIZE - 1) / PAGE_SIZE,
          (vaddr % PAGE_SIZE + length) / PAGE_SIZE, paddr / PAGE_SIZE, flags)
  }

  /** The 2 MiB block of page q is mapped by one large page: it lies in the range, page and frame
      are aligned alike, and no page table hangs there. */
  ghost predicate TakesLarge(sp: Space, g: Range, q: nat) {
    var first := q / 512 * 512;
    && g.base <= first && first + 512 <= g.base + g.whole
    && (g.frame + (first - g.base)) % 512 == 0
    && SlotOf(q, 1) !in sp.tables
  }

  /** An older 2 MiB page stays in charge of page q. */
  ghost predicate KeepsLarge(sp: Space, g: Range, q: nat) {
    LargeCovered(sp.frames, sp.tables, q) && !TakesLarge(sp, g, q)
  }

  /** The older 2 MiB page maps q elsewhere. */
  ghost predicate RangeConflict(sp: Space, g: Range, q: nat) {
    && g.Contains(q) && KeepsLarge(sp, g, q)
    && LeafView(sp.frames, sp.tables, q).Page?
    && LeafView(sp.frames, sp.tables, q).frame != g.FrameFor(q)
  }

  /** The translation of q after the first k pages of the range have been mapped. */
  ghost function RangeView(sp: Space, g: Range, k: nat, q: nat): Translation {
    if g.base <= q < g.base + k && !KeepsLarge(sp, g, q)
    then Page(g.FrameFor(q), RightsOf(g.flags))
    else LeafView(sp.frames, sp.tables, q)
  }

  ghost predicate ViewsAre(sp: Space, cur: Space, g: Range, k: nat) {
    forall q: nat :: LeafView(cur.frames, cur.tables, q) == RangeView(sp, g, k, q)
  }

  ghost predicate CoversAre(sp: Space, cur: Space, g: Range, k: nat) {
    forall q: nat ::
      LargeCovered(cur.frames, cur.tables, q) ==
        (LargeCovered(sp.frames, sp.tables, q) || (g.base <= q < g.base + k && TakesLarge(sp, g, q)))
  }

  /** No page table has appeared in the blocks still to come. */
  ghost predicate AheadUntouched(sp: Space, cur: Space, g: Range, k: nat) {
    forall q: nat :: q >= g.base + k && q % 512 == 0 ==> (SlotOf(q, 1) in cur.tables <==> SlotOf(q, 1) in sp.tables)
  }

  ghost predicate NoConflictYet(sp: Space, g: Range, k: nat) {
    forall q: nat :: g.base <= q < g.base + k ==> !RangeConflict(sp, g, q)
  }

  /** The loop invariant of map_range after k pages. */
  ghost predicate RangeState(sp: Space, cur: Space, g: Range, k: nat) {
    && k <= g.count
    && Grown(sp, cur)
    && ViewsAre(sp, cur, g, k)
    && CoversAre(sp, cur, g, k)
    && AheadUntouched(sp, cur, g, k)
    && NoConflictYet(sp, g, k)
    && ((g.base + k) % 512 != 0 ==> !TakesLarge(sp, g, g.base + k))
  }

  lemma RangeStart(sp: Space, pml4: nat, g: Range)
    requires Separated(sp, pml4)
    ensures RangeState(sp, sp, g, 0)
  {
    hide LeafView, LargeCovered, Prefix;
    GrownReflexive(sp, pml4);
  }

  // ----- one 4 KiB step

  lemma SmallStepViews(sp: Space, cur: Space, next: Space, g: Range, k: nat)
    requires ViewsAre(sp, cur, g, k) && CoversAre(sp, cur, g, k) && !TakesLarge(sp, g, g.base + k)
    requires PageMapped(cur, next, g.base + k,
               if LargeCovered(cur.frames, cur.tables, g.base + k)
               then LeafView(cur.frames, cur.tables, g.base + k)
               else Page(g.FrameFor(g.base + k), RightsOf(g.flags)))
    ensures ViewsAre(sp, next, g, k + 1) && CoversAre(sp, next, g, k + 1)
  {
    hide LeafView, LargeCovered, TakesLarge;
  }

  lemma SmallStepAhead(sp: Space, cur: Space, next: Space, g: Range, k: nat)
    requires AheadUntouched(sp, cur, g, k)
    requires KeepsTables(cur.tables, next.tables) && AddsOnPath(cur.tables, next.tables, g.base + k, 1)
    ensures AheadUntouched(sp, next, g, k + 1)
  {
    forall q: nat | q >= g.base + k + 1 && q % 512 == 0
      ensures SlotOf(q, 1) in next.tables <==> SlotOf(q, 1) in sp.tables
    {
      PrefixValues(q);
      PrefixValues(g.base + k);
      assert SlotOf(q, 1) != SlotOf(g.base + k, 1);
    }
  }

  lemma SameBlockTakesLarge(sp: Space, g: Range, q: nat)
    requires (q + 1) % 512 != 0
    ensures TakesLarge(sp, g, q + 1) == TakesLarge(sp, g, q)
  {
    PrefixValues(q);
    PrefixValues(q + 1);
    assert (q + 1) / 512 == q / 512;
  }

  lemma SmallStep(sp: Space, cur: Space, next: Space, g: Range, k: nat, vaddr: uint64, paddr: uint64)
    requires RangeState(sp, cur, g, k) && k < g.count && !TakesLarge(sp, g, g.base + k)
    requires PageNumber(vaddr) == g.base + k && FrameOf(paddr) == g.FrameFor(g.base + k) && vaddr % PAGE_SIZE == 0
    requires MapPageOutcome(cur, next, vaddr, paddr, g.flags, 0)
    ensures RangeState(sp, next, g, k + 1)
  {
    hide LeafView, LargeCovered, TakesLarge, Prefix, PageNumber, FrameOf, ViewsAre, CoversAre, AheadUntouched,
      NoConflictYet,
      PageMapped, AddsOnPath, Conflict, Grown, KeepsTables, LacksFrames;
    GrownTransitive(sp, cur, next);
    GrownKeeps(cur, next);
    SmallStepViews(sp, cur, next, g, k);
    SmallStepAhead(sp, cur, next, g, k);
    SmallStepNoConflict(sp, cur, g, k, vaddr, paddr);
    if (g.base + k + 1) % 512 != 0 {
      SameBlockTakesLarge(sp, g, g.base + k);
    }
  }

  /** The comparison of map_page succeeds exactly when the page is in no conflict. */
  lemma ConflictHere(sp: Space, cur: Space, g: Range, k: nat, vaddr: uint64, paddr: uint64)
    requires ViewsAre(sp, cur, g, k) && CoversAre(sp, cur, g, k) && k < g.count && !TakesLarge(sp, g, g.base + k)
    requires PageNumber(vaddr) == g.base + k && FrameOf(paddr) == g.FrameFor(g.base + k) && vaddr % PAGE_SIZE == 0
    ensures Conflict(cur, vaddr, paddr) <==> RangeConflict(sp, g, g.base + k)
  {
    hide TakesLarge, Prefix, PageNumber, FrameOf;
    assert LeafView(cur.frames, cur.tables, g.base + k) == RangeView(sp, g, k, g.base + k);
  }

  lemma SmallStepNoConflict(sp: Space, cur: Space, g: Range, k: nat, vaddr: uint64, paddr: uint64)
    requires ViewsAre(sp, cur, g, k) && CoversAre(sp, cur, g, k) && k < g.count && !TakesLarge(sp, g, g.base + k)
    requires PageNumber(vaddr) == g.base + k && FrameOf(paddr) == g.FrameFor(g.base + k) && vaddr % PAGE_SIZE == 0
    requires NoConflictYet(sp, g, k) && !Conflict(cur, vaddr, paddr)
    ensures NoConflictYet(sp, g, k + 1)
  {
    hide RangeConflict, Conflict, TakesLarge, PageNumber, FrameOf, ViewsAre, CoversAre;
    ConflictHere(sp, cur, g, k, vaddr, paddr);
  }

  // ----- one 2 MiB step

  lemma BlockTakesLarge(sp: Space, g: Range, k: nat, q: nat)
    requires (g.base + k) % 512 == 0 && (g.frame + k) % 512 == 0 && k + 512 <= g.whole
    requires SlotOf(g.base + k, 1) !in sp.tables
    requires g.base + k <= q < g.base + k + 512
    ensures TakesLarge(sp, g, q) && q / 512 == (g.base + k) / 512
    ensures g.FrameFor(q) == g.FrameFor(g.base + k) + q % 512
  {
    PrefixValues(q);
    PrefixValues(g.base + k);
    assert q / 512 * 512 == g.base + k;
    FrameInBlock(g.frame + k, q - (g.base + k));
  }

  /** Counting frames inside a 2 MiB block never wraps. */
  lemma FrameInBlock(f: nat, d: nat)
    requires f % 512 == 0 && d < 512
    ensures (f + d) % FRAME_LIMIT == f % FRAME_LIMIT + d
  {
    var q, r := f / FRAME_LIMIT, f % FRAME_LIMIT;
    assert f == q * FRAME_LIMIT + r;
    assert r % 512 == 0 && r + 512 <= FRAME_LIMIT;
    DivModUnique(f + d, FRAME_LIMIT, q, r + d);
  }

  lemma LargeStepViews(sp: Space, cur: Space, next: Space, g: Range, k: nat, paddr: nat)
    requires ViewsAre(sp, cur, g, k) && CoversAre(sp, cur, g, k)
    requires (g.base + k) % 512 == 0 && (g.frame + k) % 512 == 0 && k + 512 <= g.whole
    requires SlotOf(g.base + k, 1) !in sp.tables
    requires FrameOf(paddr) == g.FrameFor(g.base + k) && BlockGets(cur, next, g.base + k, paddr, g.flags)
    ensures ViewsAre(sp, next, g, k + 512) && CoversAre(sp, next, g, k + 512)
  {
    hide LeafView, LargeCovered, TakesLarge, FrameOf, Prefix;
    forall q: nat
      ensures LeafView(next.frames, next.tables, q) == RangeView(sp, g, k + 512, q)
      ensures LargeCovered(next.frames, next.tables, q) ==
                (LargeCovered(sp.frames, sp.tables, q) || (g.base <= q < g.base + (k + 512) && TakesLarge(sp, g, q)))
    {
      assert LeafView(cur.frames, cur.tables, q) == RangeView(sp, g, k, q);
      if g.base + k <= q < g.base + k + 512 {
        BlockTakesLarge(sp, g, k, q);
      } else {
        assert q / 512 != (g.base + k) / 512;
      }
    }
  }

  lemma LargeStepAhead(sp: Space, cur: Space, next: Space, g: Range, k: nat)
    requires AheadUntouched(sp, cur, g, k)
    requires KeepsTables(cur.tables, next.tables) && AddsOnPath(cur.tables, next.tables, g.base + k, 2)
    ensures AheadUntouched(sp, next, g, k)
    ensures AheadUntouched(sp, next, g, k + 512)
  {
    hide Prefix;
  }

  lemma LargeStepNoConflict(sp: Space, g: Range, k: nat)
    requires NoConflictYet(sp, g, k)
    requires (g.base + k) % 512 == 0 && (g.frame + k) % 512 == 0 && k + 512 <= g.whole
    requires SlotOf(g.base + k, 1) !in sp.tables
    ensures NoConflictYet(sp, g, k + 512)
  {
    hide TakesLarge, LeafView, LargeCovered, Prefix;
    forall q: nat | g.base + k <= q < g.base + k + 512 ensures !RangeConflict(sp, g, q) {
      BlockTakesLarge(sp, g, k, q);
    }
  }

  lemma LargeStep(sp: Space, cur: Space, next: Space, g: Range, k: nat, vaddr: uint64, paddr: uint64)
    requires RangeState(sp, cur, g, k) && g.whole <= g.count
    requires (g.base + k) % 512 == 0 && (g.frame + k) % 512 == 0 && k + 512 <= g.whole
    requires PageNumber(vaddr) == g.base + k && FrameOf(paddr) == g.FrameFor(g.base + k)
    requires MapLargeOutcome(cur, next, vaddr, paddr, g.flags, 0)
    ensures RangeState(sp, next, g, k + 512)
  {
    hide LeafView, LargeCovered, TakesLarge, Prefix, PageNumber, FrameOf, ViewsAre, CoversAre, NoConflictYet,
      AddsOnPath, BlockGets, Missing, Grown, KeepsTables;
    GrownTransitive(sp, cur, next);
    GrownKeeps(cur, next);
    assert SlotOf(g.base + k, 1) !in sp.tables;
    LargeStepViews(sp, cur, next, g, k, paddr);
    LargeStepAhead(sp, cur, next, g, k);
    LargeStepNoConflict(sp, g, k);
  }

  lemma SameViewKeeps(sp: Space, cur: Space, next: Space, g: Range, k: nat)
    requires ViewsAre(sp, cur, g, k) && CoversAre(sp, cur, g, k) && SameView(cur, next)
    ensures ViewsAre(sp, next, g, k) && CoversAre(sp, next, g, k)
  {
    hide LeafView, LargeCovered, TakesLarge, RangeView;
  }

  lemma TakesLargeNeedsNoTable(sp: Space, g: Range, q: nat)
    ensures TakesLarge(sp, g, q) ==> SlotOf(q, 1) !in sp.tables
  {
  }

  /** A refused large step changes nothing that matters; if the block was fit for a large page,
      it failed for want of frames, and so must the 4 KiB step that follows. */
  lemma LargeStepFailed(sp: Space, cur: Space, next: Space, pml4: nat, g: Range, k: nat, vaddr: uint64, paddr: uint64)
    requires RangeState(sp, cur, g, k) && Separated(next, pml4)
    requires PageNumber(vaddr) == g.base + k && (g.base + k) % 512 == 0
    requires MapLargeOutcome(cur, next, vaddr, paddr, g.flags, -1)
    ensures RangeState(sp, next, g, k)
    ensures TakesLarge(sp, g, g.base + k) ==> next.free == {} && LacksFrames(next, g.base + k)
  {
    hide LeafView, LargeCovered, Prefix, PageNumber, FrameOf, NoConflictYet, AddsOnPath, Grown, KeepsTables, TakesLarge,
      ViewsAre, CoversAre, SameView, Missing;
    GrownTransitive(sp, cur, next);
    GrownKeeps(cur, next);
    LargeStepAhead(sp, cur, next, g, k);
    SameViewKeeps(sp, cur, next, g, k);
    TakesLargeNeedsNoTable(sp, g, g.base + k);
    assert SlotOf(g.base + k, 1) in cur.tables <==> SlotOf(g.base + k, 1) in sp.tables;
    if SlotOf(g.base + k, 2) !in next.tables {
      NotCoveredWithoutDirectory(next, g.base + k);
    }
  }

  lemma NotCoveredWithoutDirectory(sp: Space, page: nat)
    requires SlotOf(page, 2) !in sp.tables
    ensures !LargeCovered(sp.frames, sp.tables, page) && Missing(sp.tables, page, 1) >= 1
  {
  }

  // ----- the addresses of map_range after k pages

  /** The range stays within one 48-bit window and its rounded end does not wrap. */
  predicate RangeFits(vaddr: nat, length: nat) {
    var g := RangeOf(vaddr, 0, length, 0);
    g.base + g.count <= PAGE_LIMIT && vaddr / PAGE_SIZE + g.count < 0x10_0000_0000_0000
  }

  lemma RangeAddress(vaddr: nat, length: nat, k: nat)
    requires RangeFits(vaddr, length) && k < RangeOf(vaddr, 0, length, 0).count
    ensures PageNumber((vaddr / PAGE_SIZE + k) * PAGE_SIZE) == PageNumber(vaddr) + k
  {
    var v := vaddr / PAGE_SIZE;
    DivModUnique(v + k, PAGE_LIMIT, v / PAGE_LIMIT, v % PAGE_LIMIT + k);
  }

  /** A frame address in 64 bits: the product is truncated, its low 52 page bits are not. */
  lemma WordOfPage(f: nat)
    ensures f * PAGE_SIZE % WORD_LIMIT == f % 0x10_0000_0000_0000 * PAGE_SIZE
  {
    var t := 0x10_0000_0000_0000;
    var q, r := f / t, f % t;
    assert f == q * t + r;
    assert f * PAGE_SIZE == q * WORD_LIMIT + r * PAGE_SIZE;
    DivModUnique(f * PAGE_SIZE, WORD_LIMIT, q, r * PAGE_SIZE);
  }

  lemma FrameOfWord(f: nat)
    ensures f % 0x10_0000_0000_0000 % FRAME_LIMIT == f % FRAME_LIMIT
    ensures f % 0x10_0000_0000_0000 % 512 == f % 512
  {
    var q, r := f / 0x10_0000_0000_0000, f % 0x10_0000_0000_0000;
    assert f == q * 4096 * FRAME_LIMIT + r;
    CutRemainder(f, r, q * 4096, FRAME_LIMIT);
    CutRemainder(f, r, q * 0x800_0000_0000, 512);
  }

  lemma CutRemainder(f: nat, r: nat, h: nat, p: nat)
    requires p > 0 && f == h * p + r
    ensures f % p == r % p
  {
    assert r == r / p * p + r % p;
    assert (h + r / p) * p == h * p + r / p * p;
    DivModUnique(f, p, h + r / p, r % p);
  }

  lemma RangeFrame(f: nat)
    ensures FrameOf(f * PAGE_SIZE % WORD_LIMIT) == f % FRAME_LIMIT
    ensures f * PAGE_SIZE % WORD_LIMIT % PAGE_SIZE == 0
    ensures f * PAGE_SIZE % WORD_LIMIT % LARGE_PAGE_SIZE == 0 <==> f % 512 == 0
  {
    WordOfPage(f);
    FrameOfWord(f);
    LargeAligned(f % 0x10_0000_0000_0000);
  }

  lemma LargeAligned(f: nat)
    ensures f * PAGE_SIZE % LARGE_PAGE_SIZE == 0 <==> f % 512 == 0
  {
    DivModUnique(f * PAGE_SIZE, LARGE_PAGE_SIZE, f / 512, f % 512 * PAGE_SIZE);
  }

  lemma ShiftedRemainder(a: nat, b: nat, k: nat)
    requires a % 512 == b % 512
    ensures (a + k) % 512 == (b + k) % 512
  {
    CutRemainder(a + k, a % 512 + k, a / 512, 512);
    CutRemainder(b + k, b % 512 + k, b / 512, 512);
  }

  lemma WholePages(x: nat)
    ensures x * PAGE_SIZE % PAGE_SIZE == 0
  {
  }

  lemma PageAligned(vaddr: nat, k: nat)
    ensures (vaddr / PAGE_SIZE + k) * PAGE_SIZE % PAGE_SIZE == 0
    ensures (vaddr / PAGE_SIZE + k) * PAGE_SIZE % LARGE_PAGE_SIZE == 0 <==> (PageNumber(vaddr) + k) % 512 == 0
  {
    hide PageNumber;
    var x := vaddr / PAGE_SIZE;
    WholePages(x + k);
    LargeAligned(x + k);
    IndexAt1(vaddr);
    ShiftedRemainder(x, PageNumber(vaddr), k);
  }

  /** The loop test and the 2 MiB test of map_range, in pages. */
  lemma RangeTests(vaddr: nat, length: nat, k: nat)
    ensures var g, at, end := RangeOf(vaddr, 0, length, 0), (vaddr / PAGE_SIZE + k) * PAGE_SIZE, vaddr + length;
            && g.whole <= g.count
            && (at < end <==> k < g.count)
            && (at < end && end - at >= LARGE_PAGE_SIZE <==> k + 512 <= g.whole)
  {
    var t := vaddr % PAGE_SIZE + length;
    assert vaddr + length == vaddr / PAGE_SIZE * PAGE_SIZE + t;
    RangeCounts(t, k);
  }

  lemma RangeCounts(t: nat, k: nat)
    ensures k * PAGE_SIZE < t <==> k < (t + PAGE_SIZE - 1) / PAGE_SIZE
    ensures k * PAGE_SIZE + LARGE_PAGE_SIZE <= t <==> k + 512 <= t / PAGE_SIZE
  {
  }

  /** Everything the loop of map_range computes from its two addresses. */
  lemma StepFacts(start: uint64, target: uint64, length: uint64, flags: uint64, k: nat)
    requires RangeFits(start, length) && k < RangeOf(start, target, length, flags).count
    ensures var g := RangeOf(start, target, length, flags);
            var va, pa := (start / PAGE_SIZE + k) * PAGE_SIZE, (target / PAGE_SIZE + k) * PAGE_SIZE % WORD_LIMIT;
            && PageNumber(va) == g.base + k && va % PAGE_SIZE == 0 && FrameOf(pa) == g.FrameFor(g.base + k)
            && (And(va, LARGE_PAGE_SIZE - 1) == 0 <==> (g.base + k) % 512 == 0)
            && (And(pa, LARGE_PAGE_SIZE - 1) == 0 <==> (g.frame + k) % 512 == 0)
            && (And(pa, LARGE_PAGE_SIZE - 1) == 0 ==> pa % LARGE_PAGE_SIZE == 0)
            && va < start + length && g.whole <= g.count
            && (start + length - va >= LARGE_PAGE_SIZE <==> k + 512 <= g.whole)
            && va + PAGE_SIZE < WORD_LIMIT && (k + 512 <= g.whole ==> va + LARGE_PAGE_SIZE < WORD_LIMIT)
  {
    hide And, PageNumber, FrameOf;
    RangeAddress(start, length, k);
    RangeFrame(target / PAGE_SIZE + k);
    PageAligned(start, k);
    RangeTests(start, length, k);
    LargeOffsetMask((start / PAGE_SIZE + k) * PAGE_SIZE);
    LargeOffsetMask((target / PAGE_SIZE + k) * PAGE_SIZE % WORD_LIMIT);
  }

  lemma Advance(target: nat, k: nat, d: nat)
    ensures ((target / PAGE_SIZE + k) * PAGE_SIZE % WORD_LIMIT + d * PAGE_SIZE) % WORD_LIMIT
              == (target / PAGE_SIZE + (k + d)) * PAGE_SIZE % WORD_LIMIT
  {
    var x, y := (target / PAGE_SIZE + k) * PAGE_SIZE, d * PAGE_SIZE;
    assert x + y == (target / PAGE_SIZE + (k + d)) * PAGE_SIZE;
    CutRemainder(x + y, x % WORD_LIMIT + y, x / WORD_LIMIT, WORD_LIMIT);
  }

  // ----- the outcome of map_range

  /** map_range stopped at page k of the range: for want of a frame that a table of this page
      needs, or at a conflict. */
  ghost predicate RangeFailed(sp: Space, sp': Space, g: Range, k: nat) {
    && k < g.count
    && ViewsAre(sp, sp', g, k)
    && NoConflictYet(sp, g, k)
    && (RunDry(sp', g.base + k) || RangeConflict(sp, g, g.base + k))
  }

  ghost predicate RangeOutcome(sp: Space, sp': Space, g: Range, r: int) {
    && Grown(sp, sp')
    && (r == 0 ==> ViewsAre(sp, sp', g, g.count) && forall q: nat :: !RangeConflict(sp, g, q))
    && (r == -1 ==> exists k: nat :: RangeFailed(sp, sp', g, k))
  }

  lemma RangeDone(sp: Space, cur: Space, g: Range, k: nat)
    requires RangeState(sp, cur, g, k) && k >= g.count
    ensures RangeOutcome(sp, cur, g, 0)
  {
    hide ViewsAre, CoversAre, AheadUntouched, Grown, TakesLarge, KeepsLarge, LeafView;
  }

  lemma RangeStopped(sp: Space, cur: Space, next: Space, g: Range, k: nat, vaddr: uint64, paddr: uint64)
    requires RangeState(sp, cur, g, k) && k < g.count
    requires PageNumber(vaddr) == g.base + k && FrameOf(paddr) == g.FrameFor(g.base + k) && vaddr % PAGE_SIZE == 0
    requires TakesLarge(sp, g, g.base + k) ==> LacksFrames(cur, g.base + k)
    requires MapPageOutcome(cur, next, vaddr, paddr, g.flags, -1)
    ensures RangeOutcome(sp, next, g, -1)
  {
    hide CoversAre, AheadUntouched, Grown, TakesLarge, LeafView, LargeCovered, NoConflictYet, Prefix, PageNumber, FrameOf,
      ViewsAre, SameView, RangeConflict, TableFrames, RunDry, Missing;
    GrownTransitive(sp, cur, next);
    SameViewKeeps(sp, cur, next, g, k);
    if !TakesLarge(sp, g, g.base + k) {
      ConflictHere(sp, cur, g, k, vaddr, paddr);
    }
    assert RangeFailed(sp, next, g, k);
  }

  /** Where the 2 MiB test fails, the block is not fit for a large page. */
  lemma NoLargeStep(sp: Space, cur: Space, g: Range, k: nat)
    requires RangeState(sp, cur, g, k) && k < g.count
    requires (g.base + k) % 512 != 0 || (g.frame + k) % 512 != 0 || k + 512 > g.whole
    ensures !TakesLarge(sp, g, g.base + k)
  {
    hide ViewsAre, CoversAre, AheadUntouched, Grown, LeafView, LargeCovered, NoConflictYet, Prefix;
  }

  /** A 4 KiB step that succeeded where a large page was fit and frames were wanting: impossible. */
  lemma SmallSucceeded(sp: Space, cur: Space, next: Space, g: Range, k: nat, vaddr: uint64, paddr: uint64)
    requires RangeState(sp, cur, g, k) && k < g.count
    requires TakesLarge(sp, g, g.base + k) ==> LacksFrames(cur, g.base + k)
    requires PageNumber(vaddr) == g.base + k && FrameOf(paddr) == g.FrameFor(g.base + k) && vaddr % PAGE_SIZE == 0
    requires MapPageOutcome(cur, next, vaddr, paddr, g.flags, 0)
    ensures RangeState(sp, next, g, k + 1)
  {
    hide RangeState, TakesLarge, Conflict, LacksFrames, PageNumber, FrameOf, Grown, AddsOnPath, PageMapped, SameView;
    SmallStep(sp, cur, next, g, k, vaddr, paddr);
  }
}
