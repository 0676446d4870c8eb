/** What the processor sees after the mapping functions have run: statements about the hardware
    walk, for every address. */
module PageTheorems {
  import opened Bits
  import opened PageFormat
  import opened PageWalk
  import opened PageTree
  import opened PageSpace
  import opened PageRange
  import opened PageNeeds

  // ----- the tree

  /** Each table but the top one has exactly one parent entry: any entry of any table that links
      its frame is that entry. */
  lemma UniqueParent(frames: Frames, pml4: nat, t: Tables, c: Slot, s: Slot, i: nat)
    requires Tree(frames, pml4, t) && c in t && c.level < 4
    requires s in t && s.level >= 2 && i < 512
    ensures Present(frames[t[s]][i]) && !PageSize(frames[t[s]][i]) && TableAddress(frames[t[s]][i]) == t[c]
            <==> s == Parent(c) && i == c.prefix % 512
  {
    hide Present, PageSize, TableAddress;
    assert EntryOk(frames, t, s, i);
    if Child(s, i) in t && t[Child(s, i)] == t[c] {
      ParentOfChild(s, i);
    }
    if s == Parent(c) && i == c.prefix % 512 {
      assert Child(s, i) == c;
    }
  }

  /** The leaf decides: whatever the levels above say, the rights of a translation are those of
      the one entry that maps the page. */
  lemma LeafDecides(frames: Frames, pml4: nat, t: Tables, page: nat)
    requires Tree(frames, pml4, t) && page < PAGE_LIMIT && Translate(frames, pml4, page).Page?
    ensures exists level | 1 <= level <= 2 ::
              && SlotOf(page, level) in t
              && var e := frames[t[SlotOf(page, level)]][Index(page, level)];
                 && Present(e)
                 && (level == 2 ==> PageSize(e))
                 && Translate(frames, pml4, page).rights == RightsOf(e)
  {
    hide Present, PageSize, RightsOf, FrameOf, LargeFrame, Translate, EntryOk;
    TranslateIsLeafView(frames, pml4, t, page);
    var level := if SlotOf(page, 1) in t then 1 else 2;
    assert SlotOf(page, level) in t;
  }

  // ----- map_range

  /** The frame of every page of a range that was mapped, whichever steps were used. */
  lemma RangeFrames(sp: Space, sp': Space, g: Range, q: nat)
    requires RangeOutcome(sp, sp', g, 0) && g.Contains(q)
    ensures LeafView(sp'.frames, sp'.tables, q).Page?
    ensures LeafView(sp'.frames, sp'.tables, q).frame == g.FrameFor(q)
    ensures !KeepsLarge(sp, g, q) ==> LeafView(sp'.frames, sp'.tables, q).rights == RightsOf(g.flags)
  {
    hide TakesLarge, Grown, RightsOf;
    assert LeafView(sp'.frames, sp'.tables, q) == RangeView(sp, g, g.count, q);
    assert !RangeConflict(sp, g, q);
  }

  /** On success every byte of the rounded range is translated to the byte at the same distance
      from the rounded target; every page outside the range is translated as before. */
  lemma MappedRange(sp: Space, sp': Space, pml4: nat, start: uint64, target: uint64, length: uint64, flags: uint64,
                    va: nat)
    requires Separated(sp, pml4) && Separated(sp', pml4) && RangeFits(start, length)
    requires RangeOutcome(sp, sp', RangeOf(start, target, length, flags), 0)
    ensures start / PAGE_SIZE * PAGE_SIZE <= va
              < start / PAGE_SIZE * PAGE_SIZE + RangeOf(start, target, length, flags).count * PAGE_SIZE
            ==> PhysicalAddress(sp'.frames, pml4, va)
                  == if !Canonical(va) then -1 else (target / PAGE_SIZE * PAGE_SIZE + (va - start / PAGE_SIZE * PAGE_SIZE)) % (FRAME_LIMIT * PAGE_SIZE)
    ensures !RangeOf(start, target, length, flags).Contains(PageNumber(va))
            ==> Translate(sp'.frames, pml4, PageNumber(va)) == Translate(sp.frames, pml4, PageNumber(va))
  {
    hide Separated, RangeOutcome, LeafView, Translate, PageNumber;
    var g := RangeOf(start, target, length, flags);
    var q := PageNumber(va);
    SameTranslation(sp, pml4, q);
    SameTranslation(sp', pml4, q);
    if start / PAGE_SIZE * PAGE_SIZE <= va < start / PAGE_SIZE * PAGE_SIZE + g.count * PAGE_SIZE {
      var k := va / PAGE_SIZE - start / PAGE_SIZE;
      RangeAddress(start, length, k);
      PageOfByte(va, start / PAGE_SIZE + k);
      RangeFrames(sp, sp', g, q);
      ByteInFrame(target / PAGE_SIZE + k, va % PAGE_SIZE);
    }
    if !g.Contains(q) {
      OutsideRange(sp, sp', g, q);
    }
  }

  /** In bytes: the one at distance d from the start, d < length, is translated to the one at the same
      distance from the start's offset in the target's page. */
  lemma MappedBytes(sp: Space, sp': Space, pml4: nat, start: uint64, target: uint64, length: uint64, flags: uint64, d: nat)
    requires Separated(sp, pml4) && Separated(sp', pml4) && RangeFits(start, length) && d < length
    requires RangeOutcome(sp, sp', RangeOf(start, target, length, flags), 0)
    ensures PhysicalAddress(sp'.frames, pml4, start + d) ==
              if !Canonical(start + d) then -1
              else (target / PAGE_SIZE * PAGE_SIZE + start % PAGE_SIZE + d) % (FRAME_LIMIT * PAGE_SIZE)
  {
    hide Separated, RangeOutcome, PhysicalAddress, Canonical;
    InsideRange(start, length, d);
    MappedRange(sp, sp', pml4, start, target, length, flags, start + d);
  }

  lemma InsideRange(start: nat, length: nat, d: nat)
    requires d < length
    ensures start / PAGE_SIZE * PAGE_SIZE <= start + d
              < start / PAGE_SIZE * PAGE_SIZE + RangeOf(start, 0, length, 0).count * PAGE_SIZE
  {
  }

  /** The byte at distance d from the start lies in page q. */
  predicate ByteInPage(start: nat, length: nat, d: nat, q: nat) {
    d < length && PageNumber(start + d) == q
  }

  /** The pages of a range are those that hold one of its bytes. A range of no bytes has no page if it
      starts at a page, and the page it starts in otherwise. */
  lemma PagesOfRange(start: nat, target: nat, length: nat, flags: uint64, q: nat)
    requires RangeFits(start, length)
    ensures length > 0 ==>
              (RangeOf(start, target, length, flags).Contains(q) <==> exists d: nat :: ByteInPage(start, length, d, q))
    ensures length == 0 ==>
              (RangeOf(start, target, length, flags).Contains(q) <==> start % PAGE_SIZE != 0 && q == PageNumber(start))
  {
    hide PageNumber;
    var g, off := RangeOf(start, target, length, flags), start % PAGE_SIZE;
    if length > 0 && g.Contains(q) {
      var d := if q == g.base then 0 else (q - g.base) * PAGE_SIZE - off;
      PageOfDistance(start, length, d);
      assert ByteInPage(start, length, d, q);
    }
    if d: nat :| ByteInPage(start, length, d, q) {
      PageOfDistance(start, length, d);
    }
  }

  /** The page of the byte at distance d. */
  lemma PageOfDistance(start: nat, length: nat, d: nat)
    requires RangeFits(start, length) && d < length
    ensures var k := (start % PAGE_SIZE + d) / PAGE_SIZE;
            k < RangeOf(start, 0, length, 0).count && PageNumber(start + d) == PageNumber(start) + k
  {
    hide PageNumber, RangeFits;
    var k := (start % PAGE_SIZE + d) / PAGE_SIZE;
    RangeAddress(start, length, k);
    PageOfByte(start + d, start / PAGE_SIZE + k);
  }

  lemma SameTranslation(sp: Space, pml4: nat, page: nat)
    requires Separated(sp, pml4) && page < PAGE_LIMIT
    ensures Translate(sp.frames, pml4, page) == LeafView(sp.frames, sp.tables, page)
  {
    TranslateIsLeafView(sp.frames, pml4, sp.tables, page);
  }

  lemma OutsideRange(sp: Space, sp': Space, g: Range, q: nat)
    requires RangeOutcome(sp, sp', g, 0) && !g.Contains(q)
    ensures LeafView(sp'.frames, sp'.tables, q) == LeafView(sp.frames, sp.tables, q)
  {
    hide LeafView, KeepsLarge, Grown, RangeConflict;
    assert LeafView(sp'.frames, sp'.tables, q) == RangeView(sp, g, g.count, q);
  }

  lemma PageOfByte(va: nat, x: nat)
    requires va / PAGE_SIZE == x
    ensures PageNumber(va) == PageNumber(x * PAGE_SIZE)
  {
  }

  lemma ByteInFrame(f: nat, off: nat)
    requires off < PAGE_SIZE
    ensures f % FRAME_LIMIT * PAGE_SIZE + off == (f * PAGE_SIZE + off) % (FRAME_LIMIT * PAGE_SIZE)
  {
    var q, r := f / FRAME_LIMIT, f % FRAME_LIMIT;
    assert f == q * FRAME_LIMIT + r;
    DivModUnique(f * PAGE_SIZE + off, FRAME_LIMIT * PAGE_SIZE, q, r * PAGE_SIZE + off);
  }

  // ----- the 2 MiB fast path against the plain 4 KiB loop

  /** The addresses of the k-th page of a range. */
  function PageAt(start: nat, k: nat): uint64 {
    (start / PAGE_SIZE + k) * PAGE_SIZE % WORD_LIMIT
  }

  /** A run of map_page over every page of the range, each call successful. */
  ghost predicate SmallRun(run: seq<Space>, start: uint64, target: uint64, length: uint64, flags: uint64) {
    var g := RangeOf(start, target, length, flags);
    && |run| == g.count + 1
    && forall k: nat :: k < g.count ==>
         MapPageOutcome(run[k], run[k + 1], PageAt(start, k), PageAt(target, k), flags, 0)
  }

  /** The translation of q after k successful calls. */
  ghost function SmallView(sp: Space, g: Range, k: nat, q: nat): Translation {
    if g.base <= q < g.base + k && !LargeCovered(sp.frames, sp.tables, q)
    then Page(g.FrameFor(q), RightsOf(g.flags))
    else LeafView(sp.frames, sp.tables, q)
  }

  ghost predicate SmallState(sp: Space, cur: Space, g: Range, k: nat) {
    && (forall q: nat ::
          && LeafView(cur.frames, cur.tables, q) == SmallView(sp, g, k, q)
          && LargeCovered(cur.frames, cur.tables, q) == LargeCovered(sp.frames, sp.tables, q))
    && (forall q: nat :: g.base <= q < g.base + k && LargeCovered(sp.frames, sp.tables, q) ==>
          LeafView(sp.frames, sp.tables, q).Page? && LeafView(sp.frames, sp.tables, q).frame == g.FrameFor(q))
  }

  lemma SmallStateStep(sp: Space, cur: Space, next: Space, g: Range, k: nat, vaddr: uint64, paddr: uint64)
    requires SmallState(sp, cur, g, k)
    requires PageNumber(vaddr) == g.base + k && FrameOf(paddr) == g.FrameFor(g.base + k)
    requires MapPageOutcome(cur, next, vaddr, paddr, g.flags, 0)
    ensures SmallState(sp, next, g, k + 1)
  {
    hide LeafView, LargeCovered, Grown, PageNumber, FrameOf, AddsOnPath, LacksFrames, RightsOf;
    CoveredHasPage(cur, g.base + k);
  }

  lemma {:induction false} SmallRunState(run: seq<Space>, start: uint64, target: uint64, length: uint64, flags: uint64, k: nat)
    requires SmallRun(run, start, target, length, flags) && RangeFits(start, length)
    requires k <= RangeOf(start, target, length, flags).count
    ensures SmallState(run[0], run[k], RangeOf(start, target, length, flags), k)
  {
    hide SmallState, MapPageOutcome, PageNumber, FrameOf;
    if k == 0 {
      SmallStart(run[0], RangeOf(start, target, length, flags));
    } else {
      SmallRunState(run, start, target, length, flags, k - 1);
      RangeAddress(start, length, k - 1);
      PageInWord(start, length, k - 1);
      RangeFrame(target / PAGE_SIZE + (k - 1));
      SmallStateStep(run[0], run[k - 1], run[k], RangeOf(start, target, length, flags), k - 1,
        PageAt(start, k - 1), PageAt(target, k - 1));
    }
  }

  lemma SmallStart(sp: Space, g: Range)
    ensures SmallState(sp, sp, g, 0)
  {
  }

  lemma PageInWord(start: nat, length: nat, k: nat)
    requires RangeFits(start, length) && k < RangeOf(start, 0, length, 0).count
    ensures PageAt(start, k) == (start / PAGE_SIZE + k) * PAGE_SIZE
  {
  }

  /** map_range with its 2 MiB steps refines the plain loop: if both succeed from the same state,
      every page has the same translation, up to the rights. The rights differ exactly where the
      fast path replaced an older 2 MiB page that had other rights: the plain loop leaves such a
      page in charge. */
  lemma FastPathRefines(run: seq<Space>, fast: Space, pml4: nat, start: uint64, target: uint64, length: uint64,
                        flags: uint64, q: nat)
    requires RangeFits(start, length) && q < PAGE_LIMIT
    requires SmallRun(run, start, target, length, flags)
    requires RangeOutcome(run[0], fast, RangeOf(start, target, length, flags), 0)
    requires Separated(fast, pml4) && Separated(run[|run| - 1], pml4)
    ensures var g := RangeOf(start, target, length, flags);
            var f, s := Translate(fast.frames, pml4, q), Translate(run[|run| - 1].frames, pml4, q);
            && (f.Page? <==> s.Page?)
            && (f.Page? ==> f.frame == s.frame)
            && (f == s <==>
                  !(&& g.Contains(q) && LargeCovered(run[0].frames, run[0].tables, q) && TakesLarge(run[0], g, q)
                    && LeafView(run[0].frames, run[0].tables, q).Page?
                    && LeafView(run[0].frames, run[0].tables, q).rights != RightsOf(flags)))
  {
    hide LeafView, LargeCovered, TakesLarge, Translate, Separated, SmallRun, RightsOf, Grown;
    var g := RangeOf(start, target, length, flags);
    RunLength(run, start, target, length, flags);
    SmallRunState(run, start, target, length, flags, g.count);
    SameTranslation(fast, pml4, q);
    SameTranslation(run[|run| - 1], pml4, q);
    CoveredHasPage(run[0], q);
    assert LeafView(fast.frames, fast.tables, q) == RangeView(run[0], g, g.count, q);
    assert LeafView(run[g.count].frames, run[g.count].tables, q) == SmallView(run[0], g, g.count, q);
  }

  lemma RunLength(run: seq<Space>, start: uint64, target: uint64, length: uint64, flags: uint64)
    requires SmallRun(run, start, target, length, flags)
    ensures |run| == RangeOf(start, target, length, flags).count + 1
  {
  }

  // ----- where the plain loop succeeds, map_range does

  lemma {:induction false} SmallRunGrows(
      run: seq<Space>, pml4: nat, start: uint64, target: uint64, length: uint64, flags: uint64, k: nat)
    requires SmallRun(run, start, target, length, flags) && k < |run| && Separated(run[0], pml4)
    ensures Grown(run[0], run[k])
  {
    hide Grown, Separated, LeafView, LargeCovered, PageNumber, FrameOf;
    if k == 0 {
      GrownReflexive(run[0], pml4);
    } else {
      SmallRunGrows(run, pml4, start, target, length, flags, k - 1);
      GrownTransitive(run[0], run[k - 1], run[k]);
    }
  }

  /** The tables that map_range needs are there after the plain loop. */
  lemma NeededInPlain(sp: Space, last: Space, pml4: nat, g: Range, q: nat, s: Slot)
    requires SmallState(sp, last, g, g.count) && Separated(last, pml4) && KeepsTables(sp.tables, last.tables)
    requires g.Contains(q) && NeededBy(sp, g, q, s)
    ensures s in last.tables
  {
    hide LeafView, LargeCovered, TakesLarge, Separated, Prefix, RightsOf;
    CoveredHasPage(sp, q);
    assert LeafView(last.frames, last.tables, q) == SmallView(sp, g, g.count, q);
    TranslatedHasTables(last, pml4, q);
  }

  lemma {:induction false} AllNeededInPlain(sp: Space, last: Space, pml4: nat, g: Range, k: nat)
    requires SmallState(sp, last, g, g.count) && Separated(last, pml4) && KeepsTables(sp.tables, last.tables) && k <= g.count
    ensures Needed(sp, g, k) <= last.tables.Keys
  {
    hide SmallState, Separated, NeededBy, KeepsTables;
    if k > 0 {
      AllNeededInPlain(sp, last, pml4, g, k - 1);
      forall s | s in NeedsOf(sp, g, g.base + (k - 1)) ensures s in last.tables.Keys {
        NeededInPlain(sp, last, pml4, g, g.base + (k - 1), s);
      }
    }
  }

  lemma NoConflictInPlain(sp: Space, last: Space, g: Range, q: nat)
    requires SmallState(sp, last, g, g.count)
    ensures !RangeConflict(sp, g, q)
  {
    hide LeafView, LargeCovered, TakesLarge;
  }

  lemma EnoughForPlain(sp: Space, last: Space, pml4: nat, g: Range)
    requires SmallState(sp, last, g, g.count) && Separated(last, pml4) && Grown(sp, last)
    ensures |Needed(sp, g, g.count)| <= |sp.free|
  {
    hide SmallState, Separated, Needed, KeepsTables, NewTablesWereFree, WritesTablesOnly;
    AllNeededInPlain(sp, last, pml4, g, g.count);
    KeysKept(sp.tables, last.tables);
    NeededAreNew(sp, g, g.count);
    DisjointSizes(sp.tables.Keys, Needed(sp, g, g.count));
    Larger(sp.tables.Keys + Needed(sp, g, g.count), last.tables.Keys);
    MapSize(sp.tables);
    MapSize(last.tables);
  }

  lemma KeysKept(t: Tables, t': Tables)
    requires KeepsTables(t, t')
    ensures t.Keys <= t'.Keys
  {
  }

  /** If every call of the plain loop succeeds, so does map_range from the same state: it meets no
      conflict that the loop does not meet, and needs no table that the loop does not need. */
  lemma FastPathSucceeds(run: seq<Space>, fast: Space, r: int, pml4: nat, start: uint64, target: uint64, length: uint64,
                         flags: uint64)
    requires RangeFits(start, length) && SmallRun(run, start, target, length, flags)
    requires Separated(run[0], pml4) && Separated(run[|run| - 1], pml4)
    requires NeedsOutcome(run[0], fast, RangeOf(start, target, length, flags), r) && (r == 0 || r == -1)
    ensures r == 0
  {
    hide SmallState, SmallRun, Separated, Needed, RangeConflict, Grown;
    var g := RangeOf(start, target, length, flags);
    RunLength(run, start, target, length, flags);
    SmallRunState(run, start, target, length, flags, g.count);
    SmallRunGrows(run, pml4, start, target, length, flags, g.count);
    EnoughForPlain(run[0], run[g.count], pml4, g);
    forall q: nat ensures !RangeConflict(run[0], g, q) {
      NoConflictInPlain(run[0], run[g.count], g, q);
    }
  }

  // ----- the rights can differ: a concrete state

  /** A tree with one page directory, in which a writable 2 MiB page maps pages 0 .. 511 to
      themselves. */
  ghost predicate ExampleSpace(sp: Space) {
    && Separated(sp, 0x1000)
    && SlotOf(0, 2) in sp.tables && SlotOf(0, 1) !in sp.tables && Missing(sp.tables, 0, 2) == 0
    && forall q: nat :: q < 512 ==>
         && LargeCovered(sp.frames, sp.tables, q)
         && LeafView(sp.frames, sp.tables, q) == Page(q, Rights(true, false, false, PLAIN))
  }

  lemma NoFlags()
    ensures FlagsOk(0) && !Writable(0) && !User(0) && !NoExecute(0) && FrameOf(0) == 0 && CachingOf(0) == PLAIN
  {
    BitOfZero(1);
    BitOfZero(2);
    BitOfZero(63);
    BitOfZero(3);
    BitOfZero(4);
    BitOfZero(8);
  }

  /** A tree of three tables that leads to the page directory of the first pages and maps nothing
      yet. */
  lemma ExampleDirectory(free: set<nat>) returns (sp: Space)
    requires forall a :: a in free ==> TableFrame(a) && a > 0x3000
    ensures Separated(sp, 0x1000) && MapsNothing(sp) && sp.free == free
    ensures sp.tables == map[ROOT := 0x1000, Slot(3, 0) := 0x2000, Slot(2, 0) := 0x3000]
    ensures SlotOf(0, 2) == Slot(2, 0) && SlotOf(0, 1) == Slot(1, 0) && Missing(sp.tables, 0, 2) == 0
    ensures sp.frames[0x3000] == ZeroTable()
  {
    hide Separated, TableAddress, ZeroTable, MapsNothing, SameView, Grown;
    NoFlags();
    ZeroTableIsEmpty();
    PrefixValues(0);
    var f: Frames := map[0x1000 := ZeroTable()];
    InitialSpace(f, 0x1000, free + {0x2000, 0x3000});
    var sp0 := Space(f, map[ROOT := 0x1000], free + {0x2000, 0x3000});
    LinkSteps(sp0, 0x1000, ROOT, 0, 0x2000, 0);
    var sp1 := LinkedSpace(sp0, ROOT, 0, 0x2000, LinkEntry(0x2000, 0));
    assert sp1.tables[Slot(3, 0)] == 0x2000 && sp1.frames[0x2000] == ZeroTable();
    LinkSteps(sp1, 0x1000, Slot(3, 0), 0, 0x3000, 0);
    sp := LinkedSpace(sp1, Slot(3, 0), 0, 0x3000, LinkEntry(0x3000, 0));
    StillNothing(sp0, sp1);
    StillNothing(sp1, sp);
    assert sp.free == free;
  }

  lemma StillNothing(sp: Space, sp': Space)
    requires MapsNothing(sp) && SameView(sp, sp')
    ensures MapsNothing(sp')
  {
    hide LeafView, LargeCovered;
  }

  lemma ExampleExists() returns (sp: Space)
    ensures ExampleSpace(sp)
  {
    hide LeafView, LargeCovered, Separated, Present, PageSize, Writable, User, NoExecute, FrameOf, LargeEntry;
    NoFlags();
    ReadWriteFlag();
    var sp0 := ExampleDirectory({});
    var w := LargeEntry(0, READ_WRITE_BIT);
    BlockWritten(sp0, 0x1000, 0, w);
    sp := RewrittenSpace(sp0, SlotOf(0, 2), Index(0, 2), w);
  }

  /** Mapping the same 2 MiB read-only: the fast path takes the write permission away. */
  lemma ExampleFast(sp: Space) returns (fast: Space)
    requires ExampleSpace(sp)
    ensures RangeOutcome(sp, fast, RangeOf(0, 0, LARGE_PAGE_SIZE, 0), 0)
    ensures Translate(fast.frames, 0x1000, 0) == Page(0, Rights(false, false, false, PLAIN))
  {
    hide LeafView, LargeCovered, Separated, Present, PageSize, Writable, User, NoExecute, FrameOf, LargeEntry, RangeState,
      RangeOutcome, Grown, Translate;
    NoFlags();
    var w := LargeEntry(0, 0);
    BlockWritten(sp, 0x1000, 0, w);
    fast := RewrittenSpace(sp, SlotOf(0, 2), Index(0, 2), w);
    AlignedBlock(sp, fast, 0, 0, 0, w);
    var g := RangeOf(0, 0, LARGE_PAGE_SIZE, 0);
    assert MapLargeOutcome(sp, fast, 0, 0, 0, 0);
    RangeStart(sp, 0x1000, g);
    LargeStep(sp, sp, fast, g, 0, 0, 0);
    RangeDone(sp, fast, g, 512);
    SameTranslation(fast, 0x1000, 0);
  }

  /** Mapping it page by page: every call finds the 2 MiB page and leaves it. */
  lemma ExampleSlow(sp: Space) returns (run: seq<Space>)
    requires ExampleSpace(sp)
    ensures SmallRun(run, 0, 0, LARGE_PAGE_SIZE, 0)
    ensures run[0] == sp && run[|run| - 1] == sp
    ensures Translate(sp.frames, 0x1000, 0) == Page(0, Rights(true, false, false, PLAIN))
  {
    hide LeafView, LargeCovered, Separated, Translate, Grown;
    run := seq(513, _ => sp);
    GrownReflexive(sp, 0x1000);
    forall k: nat | k < 512 ensures MapPageOutcome(sp, sp, PageAt(0, k), PageAt(0, k), 0, 0) {
      assert PageAt(0, k) == k * PAGE_SIZE;
      assert PageNumber(PageAt(0, k)) == k && FrameOf(PageAt(0, k)) == k;
    }
    SameTranslation(sp, 0x1000, 0);
  }

  /** So the two forms are not equivalent as far as rights go. */
  lemma FastPathCanChangeRights() returns (run: seq<Space>, fast: Space)
    ensures SmallRun(run, 0, 0, LARGE_PAGE_SIZE, 0)
    ensures RangeOutcome(run[0], fast, RangeOf(0, 0, LARGE_PAGE_SIZE, 0), 0)
    ensures Translate(fast.frames, 0x1000, 0) != Translate(run[|run| - 1].frames, 0x1000, 0)
  {
    hide ExampleSpace, SmallRun, RangeOutcome, Translate;
    var sp := ExampleExists();
    fast := ExampleFast(sp);
    run := ExampleSlow(sp);
  }
}
