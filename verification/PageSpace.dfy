/** The page-table tree together with the frames that are still free: the separation invariant
    the mapping functions keep, and how far one of their steps may change the whole. */
module PageSpace {
  import opened Bits
  import opened PageFormat
  import opened PageWalk
  import opened PageTree

  // ----- the state the mapping functions work on, as a value

  datatype Space = Space(frames: Frames, tables: Tables, free: set<nat>)

  /** A separated tree none of whose tables the allocator considers free. */
  ghost predicate Separated(sp: Space, pml4: nat) {
    && Tree(sp.frames, pml4, sp.tables)
    && (forall s :: s in sp.tables ==> sp.tables[s] !in sp.free)
    && (forall a :: a in sp.free ==> TableFrame(a))
  }

  /** The translation of every page is the same. */
  ghost predicate SameView(sp: Space, sp': Space) {
    forall page: nat ::
      && LeafView(sp'.frames, sp'.tables, page) == LeafView(sp.frames, sp.tables, page)
      && LargeCovered(sp'.frames, sp'.tables, page) == LargeCovered(sp.frames, sp.tables, page)
  }

  /** No table is orphaned or moved. */
  ghost predicate KeepsTables(t: Tables, t': Tables) {
    forall s :: s in t ==> s in t' && t'[s] == t[s]
  }

  /** New tables come from frames that were free. */
  ghost predicate NewTablesWereFree(sp: Space, sp': Space) {
    forall s :: s in sp'.tables && s !in sp.tables ==> sp'.tables[s] in sp.free
  }

  /** Exactly the frames that became tables left the free set. */
  ghost predicate FreeBecameTables(sp: Space, sp': Space) {
    && sp'.free == sp.free - TableFrames(sp'.tables)
    && |sp'.tables| + |sp'.free| == |sp.tables| + |sp.free|
  }

  /** Only frames that are tables now have been written. */
  ghost predicate WritesTablesOnly(sp: Space, sp': Space) {
    forall a :: a in sp.frames && a !in TableFrames(sp'.tables) ==> a in sp'.frames && sp'.frames[a] == sp.frames[a]
  }

  ghost predicate Grown(sp: Space, sp': Space) {
    && KeepsTables(sp.tables, sp'.tables)
    && NewTablesWereFree(sp, sp')
    && FreeBecameTables(sp, sp')
    && WritesTablesOnly(sp, sp')
  }

  lemma GrownReflexive(sp: Space, pml4: nat)
    requires Separated(sp, pml4)
    ensures Grown(sp, sp) && SameView(sp, sp)
  {
  }

  lemma ValuesKept(t: Tables, t': Tables)
    requires KeepsTables(t, t')
    ensures TableFrames(t) <= TableFrames(t')
  {
    forall a | a in TableFrames(t) ensures a in TableFrames(t') {
      var s :| s in t && t[s] == a;
    }
  }

  lemma GrownKeeps(sp: Space, sp': Space)
    requires Grown(sp, sp')
    ensures KeepsTables(sp.tables, sp'.tables)
  {
  }

  lemma FreeTransitive(a: set<nat>, b: set<nat>, c: set<nat>, bt: set<nat>, ct: set<nat>)
    requires b == a - bt && c == b - ct && bt <= ct
    ensures c == a - ct
  {
  }

  lemma NewTablesTransitive(a: Space, b: Space, c: Space)
    requires KeepsTables(b.tables, c.tables) && NewTablesWereFree(a, b) && NewTablesWereFree(b, c) && b.free <= a.free
    ensures NewTablesWereFree(a, c)
  {
    forall s | s in c.tables && s !in a.tables ensures c.tables[s] in a.free {
      if s in b.tables {
        assert c.tables[s] == b.tables[s];
      }
    }
  }

  lemma WritesTransitive(a: Space, b: Space, c: Space)
    requires TableFrames(b.tables) <= TableFrames(c.tables) && WritesTablesOnly(a, b) && WritesTablesOnly(b, c)
    ensures WritesTablesOnly(a, c)
  {
    hide TableFrames;
  }

  lemma GrownTransitive(a: Space, b: Space, c: Space)
    requires Grown(a, b) && Grown(b, c)
    ensures Grown(a, c)
  {
    hide TableFrames, NewTablesWereFree, WritesTablesOnly;
    ValuesKept(b.tables, c.tables);
    FreeTransitive(a.free, b.free, c.free, TableFrames(b.tables), TableFrames(c.tables));
    NewTablesTransitive(a, b, c);
    WritesTransitive(a, b, c);
  }

  // ----- next_table, on values

  ghost function LinkedSpace(sp: Space, s: Slot, i: nat, f: nat, w: uint64): Space
    requires s in sp.tables && sp.tables[s] in sp.frames && s.level > 0 && i < 512
  {
    Space(Linked(sp.frames, sp.tables[s], i, f, w), sp.tables[Child(s, i) := f], sp.free - {f})
  }

  lemma LinkedTableFrames(t: Tables, c: Slot, f: nat)
    requires c !in t
    ensures TableFrames(t[c := f]) == TableFrames(t) + {f}
    ensures |t[c := f]| == |t| + 1
  {
    var t' := t[c := f];
    assert t'.Keys == t.Keys + {c};
    assert t'[c] == f;
    forall a | a in t.Values ensures a in t'.Values {
      var x :| x in t && t[x] == a;
      assert t'[x] == a;
    }
  }

  lemma LinkConserves(sp: Space, pml4: nat, s: Slot, i: nat, f: nat, w: uint64)
    requires Separated(sp, pml4) && f in sp.free && CanLink(sp.frames, pml4, sp.tables, s, i, f, w)
    ensures FreeBecameTables(sp, LinkedSpace(sp, s, i, f, w))
  {
    hide TableFrame, EntryOk, Linked, Tree, CanLink, TableFrames;
    LinkKeepsShape(sp.frames, pml4, sp.tables, s, i, f, w);
    LinkedTableFrames(sp.tables, Child(s, i), f);
    TablesAreNotFree(sp, pml4);
  }

  lemma TablesAreNotFree(sp: Space, pml4: nat)
    requires Separated(sp, pml4)
    ensures TableFrames(sp.tables) !! sp.free
    ensures forall s :: s in sp.tables ==> sp.tables[s] in TableFrames(sp.tables)
  {
  }

  lemma LinkSeparated(sp: Space, pml4: nat, s: Slot, i: nat, f: nat, w: uint64)
    requires Separated(sp, pml4) && f in sp.free && CanLink(sp.frames, pml4, sp.tables, s, i, f, w)
    ensures Separated(LinkedSpace(sp, s, i, f, w), pml4)
  {
    hide TableFrame, EntryOk, Linked, CanLink, TableFrames;
    LinkKeepsShape(sp.frames, pml4, sp.tables, s, i, f, w);
    LinkKeepsTree(sp.frames, pml4, sp.tables, s, i, f, w);
  }

  /** Linking a frame taken from the allocator. */
  lemma LinkGrows(sp: Space, pml4: nat, s: Slot, i: nat, f: nat, w: uint64)
    requires Separated(sp, pml4) && f in sp.free && CanLink(sp.frames, pml4, sp.tables, s, i, f, w)
    ensures Separated(LinkedSpace(sp, s, i, f, w), pml4) && Grown(sp, LinkedSpace(sp, s, i, f, w))
  {
    hide TableFrame, EntryOk, Tree, TableFrames, FreeBecameTables;
    LinkKeepsShape(sp.frames, pml4, sp.tables, s, i, f, w);
    LinkSeparated(sp, pml4, s, i, f, w);
    LinkConserves(sp, pml4, s, i, f, w);
    LinkedTableFrames(sp.tables, Child(s, i), f);
    TablesAreNotFree(sp, pml4);
  }

  lemma LinkSameView(sp: Space, pml4: nat, s: Slot, i: nat, f: nat, w: uint64)
    requires Separated(sp, pml4) && f in sp.free && CanLink(sp.frames, pml4, sp.tables, s, i, f, w)
    ensures SameView(sp, LinkedSpace(sp, s, i, f, w))
  {
    hide LeafView, LargeCovered, EntryOk;
    var sp' := LinkedSpace(sp, s, i, f, w);
    forall page: nat
      ensures LeafView(sp'.frames, sp'.tables, page) == LeafView(sp.frames, sp.tables, page)
      ensures LargeCovered(sp'.frames, sp'.tables, page) == LargeCovered(sp.frames, sp.tables, page)
    {
      LinkKeepsLeafView(sp.frames, pml4, sp.tables, s, i, f, w, page);
    }
  }

  ghost function RewrittenSpace(sp: Space, s: Slot, i: nat, w: uint64): Space
    requires s in sp.tables && sp.tables[s] in sp.frames && i < 512
  {
    Space(Write(sp.frames, sp.tables[s], i, w), sp.tables, sp.free)
  }

  /** Rewriting one entry in place. */
  lemma RewriteGrows(sp: Space, pml4: nat, s: Slot, i: nat, w: uint64)
    requires Separated(sp, pml4) && s in sp.tables && i < 512 && Fitting(sp.frames, sp.tables, s, i, w)
    ensures Separated(RewrittenSpace(sp, s, i, w), pml4) && Grown(sp, RewrittenSpace(sp, s, i, w))
  {
    hide TableFrames, EntryOk, Fitting;
    RewriteKeepsTree(sp.frames, pml4, sp.tables, s, i, w);
    TablesAreNotFree(sp, pml4);
  }

  /** What one call of next_table does to the whole: the tree grows by at most the table at c. */
  ghost predicate Stepped(sp: Space, sp': Space, pml4: nat, c: Slot, next: nat)
    ensures Stepped(sp, sp', pml4, c, next) ==> Separated(sp', pml4)
  {
    && Separated(sp', pml4) && Grown(sp, sp') && SameView(sp, sp')
    && (sp'.tables == sp.tables || (c !in sp.tables && sp'.tables == sp.tables[c := next]))
  }

  /** next_table can give no table: a large page is in the way, or no frame is left for one. */
  ghost predicate Blocked(sp: Space, s: Slot, i: nat) {
    && s in sp.tables && sp.tables[s] in sp.frames && s.level > 0 && i < 512
    && Child(s, i) !in sp.tables
    && (Present(sp.frames[sp.tables[s]][i]) || sp.free == {})
  }

  /** An entry is a link of the tree exactly when it is present and no large page. */
  lemma EntryFacts(sp: Space, pml4: nat, s: Slot, i: nat, c: Slot)
    requires Separated(sp, pml4) && s in sp.tables && s.level >= 2 && i < 512 && c == Child(s, i)
    ensures sp.tables[s] in sp.frames
    ensures c in sp.tables <==> Present(sp.frames[sp.tables[s]][i]) && !PageSize(sp.frames[sp.tables[s]][i])
    ensures Stepped(sp, sp, pml4, c, 0)
    ensures 0 !in sp.free && forall a :: a in sp.free ==> a < WORD_LIMIT
  {
    assert EntryOk(sp.frames, sp.tables, s, i);
    GrownReflexive(sp, pml4);
  }

  lemma RaiseSameView(sp: Space, pml4: nat, s: Slot, i: nat, flags: uint64)
    requires Separated(sp, pml4) && s in sp.tables && s.level >= 2 && i < 512 && Child(s, i) in sp.tables
    requires User(flags) ==> UserAbove(sp.frames, sp.tables, s)
    ensures sp.tables[s] in sp.frames
    ensures SameView(sp, RewrittenSpace(sp, s, i, RaiseUser(sp.frames[sp.tables[s]][i], flags)))
  {
    hide LeafView, LargeCovered, Fitting, EntryOk, RaiseUser;
    var w := RaiseUser(sp.frames[sp.tables[s]][i], flags);
    RaiseUserFits(sp.frames, pml4, sp.tables, s, i, flags);
    forall page: nat
      ensures LeafView(Write(sp.frames, sp.tables[s], i, w), sp.tables, page) == LeafView(sp.frames, sp.tables, page)
      ensures LargeCovered(Write(sp.frames, sp.tables[s], i, w), sp.tables, page) == LargeCovered(sp.frames, sp.tables, page)
    {
      RewriteElsewhere(sp.frames, pml4, sp.tables, s, i, w, page);
    }
  }

  /** The user bit may rise on an existing link. */
  lemma RaiseSteps(sp: Space, pml4: nat, s: Slot, i: nat, flags: uint64)
    requires Separated(sp, pml4) && s in sp.tables && s.level >= 2 && i < 512 && Child(s, i) in sp.tables
    requires User(flags) ==> UserAbove(sp.frames, sp.tables, s)
    ensures sp.tables[s] in sp.frames
    ensures var w := RaiseUser(sp.frames[sp.tables[s]][i], flags);
            var sp' := RewrittenSpace(sp, s, i, w);
            && Stepped(sp, sp', pml4, Child(s, i), sp.tables[Child(s, i)])
            && (User(flags) ==> UserAbove(sp'.frames, sp'.tables, Child(s, i)))
            && TableAddress(w) == sp.tables[Child(s, i)]
    ensures sp.tables[Child(s, i)] > 0
  {
    hide Fitting, Present, PageSize, User, Writable, NoExecute, FrameOf, RaiseUser, SameView, Grown;
    RaiseUserFits(sp.frames, pml4, sp.tables, s, i, flags);
    RewriteGrows(sp, pml4, s, i, RaiseUser(sp.frames[sp.tables[s]][i], flags));
    RaiseSameView(sp, pml4, s, i, flags);
    assert EntryOk(sp.frames, sp.tables, s, i);
    ParentOfChild(s, i);
  }

  /** A new table may be linked where nothing is present. */
  lemma LinkSteps(sp: Space, pml4: nat, s: Slot, i: nat, f: nat, flags: uint64)
    requires Separated(sp, pml4) && s in sp.tables && s.level >= 2 && i < 512 && f in sp.free && f < WORD_LIMIT
    requires sp.tables[s] in sp.frames && !Present(sp.frames[sp.tables[s]][i])
    requires User(flags) ==> UserAbove(sp.frames, sp.tables, s)
    ensures TableFrame(f)
    ensures Child(s, i) !in sp.tables
    ensures var w := LinkEntry(f, flags);
            var sp' := LinkedSpace(sp, s, i, f, w);
            && Stepped(sp, sp', pml4, Child(s, i), f)
            && (User(flags) ==> UserAbove(sp'.frames, sp'.tables, Child(s, i)))
  {
    hide LeafView, LargeCovered, Present, PageSize, User, Writable, NoExecute, FrameOf, LinkEntry, TableFrame, EntryOk;
    var w := LinkEntry(f, flags);
    TablesAreNotFree(sp, pml4);
    assert CanLink(sp.frames, pml4, sp.tables, s, i, f, w);
    LinkKeepsShape(sp.frames, pml4, sp.tables, s, i, f, w);
    LinkGrows(sp, pml4, s, i, f, w);
    LinkSameView(sp, pml4, s, i, f, w);
    ParentOfChild(s, i);
  }

  // ----- the way down to the page directory

  /** How many tables at levels low .. 3 the page still lacks. */
  ghost function Missing(t: Tables, page: nat, low: nat): nat {
    (if low <= 3 && SlotOf(page, 3) !in t then 1 else 0) +
    (if low <= 2 && SlotOf(page, 2) !in t then 1 else 0) +
    (if low <= 1 && SlotOf(page, 1) !in t then 1 else 0)
  }

  /** One mapping step that changes no translation. */
  ghost predicate Prepared(sp: Space, sp': Space, pml4: nat) {
    Separated(sp', pml4) && Grown(sp, sp') && SameView(sp, sp')
  }

  lemma PreparedTransitive(a: Space, b: Space, c: Space, pml4: nat)
    requires Prepared(a, b, pml4) && Prepared(b, c, pml4)
    ensures Prepared(a, c, pml4)
  {
    hide Grown, LeafView, LargeCovered, Separated;
    GrownTransitive(a, b, c);
  }

  /** Above the page directory no large page can be in the way. */
  lemma UpperBlocked(sp: Space, pml4: nat, s: Slot, i: nat)
    requires Separated(sp, pml4) && s in sp.tables && s.level >= 3 && i < 512
    ensures Blocked(sp, s, i) <==> Child(s, i) !in sp.tables && sp.free == {}
  {
    hide Present, PageSize;
    assert EntryOk(sp.frames, sp.tables, s, i);
  }

  /** The outcome of next_table for the table at c, as far as counting is concerned. */
  ghost predicate Descended(sp: Space, sp': Space, pml4: nat, c: Slot, next: nat) {
    && Stepped(sp, sp', pml4, c, next)
    && (next == 0 ==> sp' == sp && c !in sp.tables && sp.free == {})
    && (next != 0 ==> c in sp'.tables)
  }

  lemma DescentCounts(sp: Space, sp': Space, pml4: nat, c: Slot, next: nat)
    requires Descended(sp, sp', pml4, c, next) && next != 0
    ensures |sp'.free| == |sp.free| - (if c in sp.tables then 0 else 1)
    ensures forall s :: s in sp'.tables <==> s in sp.tables || s == c
  {
    hide Separated, SameView, TableFrames, KeepsTables, NewTablesWereFree, WritesTablesOnly;
    if c !in sp.tables {
      OneMore(sp.tables, c, next);
    }
  }

  lemma OneMore(t: Tables, c: Slot, next: nat)
    requires c !in t
    ensures |t[c := next]| == |t| + 1
  {
    assert t[c := next].Keys == t.Keys + {c};
  }

  /** Two calls of next_table lead to the page directory or run out of frames. */
  lemma TwoDescents(sp: Space, sp1: Space, sp2: Space, pml4: nat, page: nat, pdp: nat, pd: nat)
    requires Separated(sp, pml4)
    requires Descended(sp, sp1, pml4, SlotOf(page, 3), pdp)
    requires if pdp == 0 then sp2 == sp1 && pd == 0 else Descended(sp1, sp2, pml4, SlotOf(page, 2), pd)
    ensures Prepared(sp, sp2, pml4)
    ensures pd == 0 <==> Missing(sp.tables, page, 2) > |sp.free|
    ensures pd == 0 ==> sp2.free == {} && SlotOf(page, 2) !in sp2.tables
    ensures pd != 0 ==> |sp2.free| == |sp.free| - Missing(sp.tables, page, 2)
    ensures SlotOf(page, 1) in sp2.tables <==> SlotOf(page, 1) in sp.tables
    ensures AddsOnPath(sp.tables, sp2.tables, page, 2)
  {
    hide Separated, SameView, TableFrames, Grown, KeepsTables, Prefix;
    if pdp == 0 {
      DirectoryNeedsPointers(sp, pml4, page);
    } else {
      DescentCounts(sp, sp1, pml4, SlotOf(page, 3), pdp);
      if pd != 0 {
        DescentCounts(sp1, sp2, pml4, SlotOf(page, 2), pd);
      }
      PreparedTransitive(sp, sp1, sp2, pml4);
    }
  }

  lemma DirectoryNeedsPointers(sp: Space, pml4: nat, page: nat)
    requires Separated(sp, pml4) && SlotOf(page, 3) !in sp.tables
    ensures SlotOf(page, 2) !in sp.tables && SlotOf(page, 1) !in sp.tables
  {
    AbsentBelow(sp.frames, pml4, sp.tables, page, 3);
  }

  // ----- the leaf writes of map_page and map_large_page

  /** Same table and same index mean same page. */
  lemma LeafOfPage(q: nat, page: nat)
    ensures SlotOf(q, 1) == SlotOf(page, 1) && Index(q, 1) == Index(page, 1) <==> q == page
    ensures SlotOf(q, 2) == SlotOf(page, 2) && Index(q, 2) == Index(page, 2) <==> q / 512 == page / 512
  {
    PrefixValues(q);
    PrefixValues(page);
  }

  /** One page gets a new translation and nothing else changes. */
  ghost predicate PageMapped(sp: Space, sp': Space, page: nat, view: Translation) {
    forall q: nat ::
      && LeafView(sp'.frames, sp'.tables, q) == (if q == page then view else LeafView(sp.frames, sp.tables, q))
      && LargeCovered(sp'.frames, sp'.tables, q) == LargeCovered(sp.frames, sp.tables, q)
  }

  /** The 512 pages of one 2 MiB block get the translations of the entry w; nothing else changes. */
  ghost predicate BlockMapped(sp: Space, sp': Space, page: nat, w: uint64) {
    forall q: nat ::
      && LeafView(sp'.frames, sp'.tables, q) ==
           (if q / 512 == page / 512 then Page(LargeFrame(w, 2, q), RightsOf(w)) else LeafView(sp.frames, sp.tables, q))
      && LargeCovered(sp'.frames, sp'.tables, q) == (q / 512 == page / 512 || LargeCovered(sp.frames, sp.tables, q))
  }

  lemma LeafWritten(sp: Space, pml4: nat, page: nat, w: uint64)
    requires Separated(sp, pml4) && SlotOf(page, 1) in sp.tables && Present(w)
    requires User(w) ==> UserAbove(sp.frames, sp.tables, SlotOf(page, 1))
    ensures sp.tables[SlotOf(page, 1)] in sp.frames
    ensures var sp' := RewrittenSpace(sp, SlotOf(page, 1), Index(page, 1), w);
            Separated(sp', pml4) && Grown(sp, sp') && PageMapped(sp, sp', page, Page(FrameOf(w), RightsOf(w)))
  {
    hide Present, PageSize, User, Writable, NoExecute, FrameOf, EntryOk, Prefix, Fitting, Grown, UserAbove;
    var s, i := SlotOf(page, 1), Index(page, 1);
    LeafFits(sp.frames, pml4, sp.tables, s, i, w);
    RewriteGrows(sp, pml4, s, i, w);
    var sp' := RewrittenSpace(sp, s, i, w);
    forall q: nat
      ensures LeafView(sp'.frames, sp'.tables, q) ==
                (if q == page then Page(FrameOf(w), RightsOf(w)) else LeafView(sp.frames, sp.tables, q))
      ensures LargeCovered(sp'.frames, sp'.tables, q) == LargeCovered(sp.frames, sp.tables, q)
    {
      LeafOfPage(q, page);
      if q != page {
        RewriteElsewhere(sp.frames, pml4, sp.tables, s, i, w, q);
      }
    }
  }

  lemma BlockWritten(sp: Space, pml4: nat, page: nat, w: uint64)
    requires Separated(sp, pml4) && SlotOf(page, 2) in sp.tables && SlotOf(page, 1) !in sp.tables
    requires Present(w) && PageSize(w)
    requires User(w) ==> UserAbove(sp.frames, sp.tables, SlotOf(page, 2))
    ensures sp.tables[SlotOf(page, 2)] in sp.frames
    ensures var sp' := RewrittenSpace(sp, SlotOf(page, 2), Index(page, 2), w);
            Separated(sp', pml4) && Grown(sp, sp') && BlockMapped(sp, sp', page, w)
  {
    hide Present, PageSize, User, Writable, NoExecute, FrameOf, EntryOk, Prefix, Fitting, Grown, UserAbove, LargeFrame;
    var s, i := SlotOf(page, 2), Index(page, 2);
    ChildOnPath(page, 2);
    LargeLeafFits(sp.frames, pml4, sp.tables, s, i, w);
    RewriteGrows(sp, pml4, s, i, w);
    var sp' := RewrittenSpace(sp, s, i, w);
    forall q: nat
      ensures LeafView(sp'.frames, sp'.tables, q) ==
                (if q / 512 == page / 512 then Page(LargeFrame(w, 2, q), RightsOf(w)) else LeafView(sp.frames, sp.tables, q))
      ensures LargeCovered(sp'.frames, sp'.tables, q) == (q / 512 == page / 512 || LargeCovered(sp.frames, sp.tables, q))
    {
      LeafOfPage(q, page);
      if q / 512 != page / 512 {
        RewriteElsewhere(sp.frames, pml4, sp.tables, s, i, w, q);
      } else {
        ChildOnPath(q, 2);
      }
    }
  }

  // ----- outcomes of the mapping functions

  /** The translation a caller of map_page asks for. */
  ghost function Requested(paddr: nat, flags: uint64): Translation {
    Page(FrameOf(paddr), RightsOf(flags))
  }

  /** A 2 MiB page already covers vaddr and maps it to another physical address. */
  ghost predicate Conflict(sp: Space, vaddr: nat, paddr: nat) {
    var page := PageNumber(vaddr);
    && LargeCovered(sp.frames, sp.tables, page)
    && var view := LeafView(sp.frames, sp.tables, page);
       !(vaddr % PAGE_SIZE == 0 && view.Page? && view.frame == FrameOf(paddr))
  }

  /** map_page would need more frames for tables than are free. */
  ghost predicate LacksFrames(sp: Space, page: nat) {
    !LargeCovered(sp.frames, sp.tables, page) && Missing(sp.tables, page, 1) > |sp.free|
  }

  /** The source's comparison of the covering 2 MiB page with the requested address. */
  lemma CoverComparison(sp: Space, vaddr: uint64, paddr: uint64, e: uint64)
    requires LargeCovered(sp.frames, sp.tables, PageNumber(vaddr))
    requires e == sp.frames[sp.tables[SlotOf(PageNumber(vaddr), 2)]][Index(PageNumber(vaddr), 2)]
    ensures And(And(e, PHYS_ADDR_MASK), Not(LARGE_PAGE_SIZE - 1)) + And(vaddr, LARGE_PAGE_SIZE - 1)
              == And(paddr, PHYS_ADDR_MASK)
            <==> !Conflict(sp, vaddr, paddr)
  {
    hide And, Not, FrameOf, Index, Prefix;
    LargeAddressMask(e);
    LargeOffsetMask(vaddr);
    AddressMask(paddr);
    CoverArithmetic(vaddr, FrameOf(e), FrameOf(paddr));
  }

  lemma CoverArithmetic(vaddr: nat, large: nat, frame: nat)
    ensures large / 512 * LARGE_PAGE_SIZE + vaddr % LARGE_PAGE_SIZE == frame * 4096
            <==> vaddr % PAGE_SIZE == 0 && large / 512 * 512 + PageNumber(vaddr) % 512 == frame
  {
    hide PageNumber;
    IndexAt1(vaddr);
    LargeOffset(vaddr);
    WholeFrames(large / 512 * 512 + PageNumber(vaddr) % 512, vaddr % PAGE_SIZE, frame);
  }

  lemma LargeOffset(vaddr: nat)
    ensures vaddr % LARGE_PAGE_SIZE == vaddr / 0x1000 % 512 * 4096 + vaddr % PAGE_SIZE
  {
    var q, off := vaddr / 0x1000, vaddr % PAGE_SIZE;
    DivModUnique(vaddr, LARGE_PAGE_SIZE, q / 512, q % 512 * 4096 + off);
  }

  lemma WholeFrames(f: nat, off: nat, frame: nat)
    requires off < PAGE_SIZE
    ensures f * 4096 + off == frame * 4096 <==> off == 0 && f == frame
  {
  }

  /** What the page directory tells about the page. */
  lemma DirectoryFacts(sp: Space, pml4: nat, page: nat)
    requires Separated(sp, pml4) && SlotOf(page, 2) in sp.tables
    ensures sp.tables[SlotOf(page, 2)] in sp.frames
    ensures Child(SlotOf(page, 2), Index(page, 2)) == SlotOf(page, 1)
    ensures var e := sp.frames[sp.tables[SlotOf(page, 2)]][Index(page, 2)];
            && (LargeCovered(sp.frames, sp.tables, page) <==> Present(e) && PageSize(e))
            && (SlotOf(page, 1) in sp.tables <==> Present(e) && !PageSize(e))
            && (Blocked(sp, SlotOf(page, 2), Index(page, 2)) && !LargeCovered(sp.frames, sp.tables, page) <==>
                  !Present(e) && sp.free == {})
  {
    hide Present, PageSize, Prefix;
    ChildOnPath(page, 2);
    assert EntryOk(sp.frames, sp.tables, SlotOf(page, 2), Index(page, 2));
  }

  /** A page under a 2 MiB page has its directory already. */
  lemma CoveredNeedsNothing(sp: Space, pml4: nat, page: nat)
    requires Separated(sp, pml4) && LargeCovered(sp.frames, sp.tables, page)
    ensures Missing(sp.tables, page, 2) == 0
  {
    ChildOnPath(page, 3);
  }

  /** Nothing is translated. */
  ghost predicate MapsNothing(sp: Space) {
    forall page: nat ::
      LeafView(sp.frames, sp.tables, page) == Fault && !LargeCovered(sp.frames, sp.tables, page)
  }

  lemma InitialSpace(frames: Frames, pml4: nat, free: set<nat>)
    requires TableFrame(pml4) && pml4 in frames && frames[pml4] == ZeroTable() && pml4 !in free
    requires forall a :: a in free ==> TableFrame(a)
    ensures Separated(Space(frames, map[ROOT := pml4], free), pml4)
    ensures MapsNothing(Space(frames, map[ROOT := pml4], free))
  {
    hide TableFrame, Tree, LeafView, LargeCovered;
    EmptyTree(frames, pml4);
  }

  lemma CoveredHasPage(sp: Space, q: nat)
    ensures LargeCovered(sp.frames, sp.tables, q) ==> LeafView(sp.frames, sp.tables, q).Page?
  {
  }

  // ----- map_page as a relation between the space before and after

  /** Only tables on the way to the page were added, at level `low` or above. */
  ghost predicate AddsOnPath(t: Tables, t': Tables, page: nat, low: nat) {
    forall s :: s in t' && s !in t ==> s == SlotOf(page, s.level) && low <= s.level <= 3
  }

  /** The page has no translation for want of a table. */
  ghost predicate NeedsTable(sp: Space, page: nat) {
    !LargeCovered(sp.frames, sp.tables, page) && Missing(sp.tables, page, 1) > 0
  }

  lemma NeedsTableFaults(sp: Space, pml4: nat, page: nat)
    requires Separated(sp, pml4) && NeedsTable(sp, page)
    ensures LeafView(sp.frames, sp.tables, page) == Fault
  {
    hide LargeCovered, Prefix;
    if SlotOf(page, 1) in sp.tables {
      PathIsThere(sp, pml4, page);
    }
  }

  /** The tables above a page table are there. */
  lemma PathIsThere(sp: Space, pml4: nat, page: nat)
    requires Separated(sp, pml4) && SlotOf(page, 1) in sp.tables
    ensures SlotOf(page, 2) in sp.tables && SlotOf(page, 3) in sp.tables
  {
    ChildOnPath(page, 2);
    ChildOnPath(page, 3);
  }

  /** The page still lacks a table, and no frame is left for one. */
  ghost predicate RunDry(sp: Space, page: nat) {
    sp.free == {} && NeedsTable(sp, page)
  }

  /** map_page fails exactly on a conflicting 2 MiB page or for want of frames, and then changes
      no translation; otherwise the page gets the requested one, unless a matching 2 MiB page
      covers it already. */
  ghost predicate MapPageOutcome(sp: Space, sp': Space, vaddr: uint64, paddr: uint64, flags: uint64, r: int) {
    var page := PageNumber(vaddr);
    && Grown(sp, sp')
    && AddsOnPath(sp.tables, sp'.tables, page, 1)
    && (r == -1 <==> Conflict(sp, vaddr, paddr) || LacksFrames(sp, page))
    && (r == -1 ==> SameView(sp, sp') && (Conflict(sp, vaddr, paddr) || RunDry(sp', page)))
    && (r == 0 ==>
          PageMapped(sp, sp', page,
            if LargeCovered(sp.frames, sp.tables, page) then LeafView(sp.frames, sp.tables, page)
            else Requested(paddr, flags)))
  }

  /** What PageDirectory establishes. */
  ghost predicate AtDirectory(sp: Space, sp2: Space, pml4: nat, page: nat) {
    && Separated(sp, pml4)
    && Prepared(sp, sp2, pml4)
    && SlotOf(page, 2) in sp2.tables
    && Missing(sp.tables, page, 2) <= |sp.free|
    && |sp2.free| == |sp.free| - Missing(sp.tables, page, 2)
    && (SlotOf(page, 1) in sp2.tables <==> SlotOf(page, 1) in sp.tables)
    && AddsOnPath(sp.tables, sp2.tables, page, 2)
  }

  lemma PageNotReached(sp: Space, sp2: Space, pml4: nat, vaddr: uint64, paddr: uint64, flags: uint64)
    requires Separated(sp, pml4) && Prepared(sp, sp2, pml4)
    requires Missing(sp.tables, PageNumber(vaddr), 2) > |sp.free|
    requires sp2.free == {} && SlotOf(PageNumber(vaddr), 2) !in sp2.tables
    requires AddsOnPath(sp.tables, sp2.tables, PageNumber(vaddr), 2)
    ensures MapPageOutcome(sp, sp2, vaddr, paddr, flags, -1)
  {
    hide Separated, Grown, SameView, LeafView, PageNumber, Prefix;
    if LargeCovered(sp.frames, sp.tables, PageNumber(vaddr)) {
      CoveredNeedsNothing(sp, pml4, PageNumber(vaddr));
    }
  }

  lemma PageIsCovered(sp: Space, sp2: Space, pml4: nat, vaddr: uint64, paddr: uint64, flags: uint64)
    requires AtDirectory(sp, sp2, pml4, PageNumber(vaddr))
    requires LargeCovered(sp2.frames, sp2.tables, PageNumber(vaddr))
    ensures Conflict(sp2, vaddr, paddr) ==> MapPageOutcome(sp, sp2, vaddr, paddr, flags, -1)
    ensures !Conflict(sp2, vaddr, paddr) ==> MapPageOutcome(sp, sp2, vaddr, paddr, flags, 0)
  {
    hide Separated, Grown, PageNumber, Prefix, Missing, LeafView, LargeCovered;
    assert Conflict(sp2, vaddr, paddr) == Conflict(sp, vaddr, paddr);
  }

  lemma TableNotReached(sp: Space, sp2: Space, sp3: Space, pml4: nat, vaddr: uint64, paddr: uint64, flags: uint64)
    requires AtDirectory(sp, sp2, pml4, PageNumber(vaddr)) && sp3 == sp2
    requires SlotOf(PageNumber(vaddr), 1) !in sp2.tables && sp2.free == {}
    requires !LargeCovered(sp2.frames, sp2.tables, PageNumber(vaddr))
    ensures MapPageOutcome(sp, sp3, vaddr, paddr, flags, -1)
  {
    hide Separated, Grown, PageNumber, Prefix, LeafView, LargeCovered;
  }

  lemma PageIsMapped(sp: Space, sp2: Space, sp3: Space, sp4: Space, pml4: nat,
                     vaddr: uint64, paddr: uint64, flags: uint64, pt: nat)
    requires AtDirectory(sp, sp2, pml4, PageNumber(vaddr))
    requires !LargeCovered(sp2.frames, sp2.tables, PageNumber(vaddr))
    requires Stepped(sp2, sp3, pml4, SlotOf(PageNumber(vaddr), 1), pt)
    requires SlotOf(PageNumber(vaddr), 1) in sp2.tables || sp2.free != {}
    requires Grown(sp3, sp4) && PageMapped(sp3, sp4, PageNumber(vaddr), Requested(paddr, flags))
    requires sp4.tables == sp3.tables
    ensures MapPageOutcome(sp, sp4, vaddr, paddr, flags, 0)
  {
    hide Separated, Grown, PageNumber, Prefix, LeafView, LargeCovered, AddsOnPath, PageMapped, SameView, Requested;
    var page := PageNumber(vaddr);
    GrownTransitive(sp, sp2, sp3);
    GrownTransitive(sp, sp3, sp4);
    AddsLeafTable(sp, sp2, sp3, pml4, page, pt);
    SameCover(sp, sp2, page);
    MappedOverSame(sp, sp2, sp3, sp4, page, Requested(paddr, flags));
  }

  lemma SameCover(sp: Space, sp2: Space, page: nat)
    requires SameView(sp, sp2)
    ensures LargeCovered(sp2.frames, sp2.tables, page) == LargeCovered(sp.frames, sp.tables, page)
    ensures LeafView(sp2.frames, sp2.tables, page) == LeafView(sp.frames, sp.tables, page)
  {
    hide LeafView, LargeCovered;
  }

  lemma AddsLeafTable(sp: Space, sp2: Space, sp3: Space, pml4: nat, page: nat, pt: nat)
    requires AddsOnPath(sp.tables, sp2.tables, page, 2) && Stepped(sp2, sp3, pml4, SlotOf(page, 1), pt)
    ensures AddsOnPath(sp.tables, sp3.tables, page, 1)
  {
    hide Separated, Grown, SameView, Prefix;
  }

  lemma MappedOverSame(sp: Space, sp2: Space, sp3: Space, sp4: Space, page: nat, view: Translation)
    requires SameView(sp, sp2) && SameView(sp2, sp3) && PageMapped(sp3, sp4, page, view)
    ensures PageMapped(sp, sp4, page, view)
  {
    hide LeafView, LargeCovered;
  }

  // ----- map_large_page

  /** map_large_page fails exactly when a page table hangs there or frames are wanting. */
  ghost predicate MapLargeOutcome(sp: Space, sp': Space, vaddr: uint64, paddr: uint64, flags: uint64, r: int) {
    var page := PageNumber(vaddr);
    && Grown(sp, sp')
    && AddsOnPath(sp.tables, sp'.tables, page, 2)
    && (r == -1 <==> SlotOf(page, 1) in sp.tables || Missing(sp.tables, page, 2) > |sp.free|)
    && (r == -1 ==>
          && SameView(sp, sp')
          && (SlotOf(page, 1) in sp.tables || (sp'.free == {} && SlotOf(page, 2) !in sp'.tables)))
    && (r == 0 ==> BlockGets(sp, sp', page, paddr, flags))
  }

  /** The 2 MiB block around the page is mapped to the 512 frames from paddr. */
  ghost predicate BlockGets(sp: Space, sp': Space, page: nat, paddr: nat, flags: uint64) {
    forall q: nat ::
      && LeafView(sp'.frames, sp'.tables, q) ==
           (if q / 512 == page / 512 then Page(FrameOf(paddr) + q % 512, RightsOf(flags))
            else LeafView(sp.frames, sp.tables, q))
      && LargeCovered(sp'.frames, sp'.tables, q) == (q / 512 == page / 512 || LargeCovered(sp.frames, sp.tables, q))
  }

  lemma AlignedBlock(sp: Space, sp': Space, page: nat, paddr: uint64, flags: uint64, w: uint64)
    requires paddr % LARGE_PAGE_SIZE == 0 && BlockMapped(sp, sp', page, w)
    requires FrameOf(w) == FrameOf(paddr) && RightsOf(w) == RightsOf(flags)
    ensures BlockGets(sp, sp', page, paddr, flags)
  {
    hide LeafView, LargeCovered;
    AlignedFrame(paddr);
  }

  lemma AlignedFrame(paddr: nat)
    requires paddr % LARGE_PAGE_SIZE == 0
    ensures FrameOf(paddr) / 512 * 512 == FrameOf(paddr)
  {
    assert paddr / 4096 == paddr / LARGE_PAGE_SIZE * 512;
  }

  lemma LargeNotReached(sp: Space, sp2: Space, pml4: nat, vaddr: uint64, paddr: uint64, flags: uint64)
    requires Separated(sp, pml4) && Prepared(sp, sp2, pml4)
    requires Missing(sp.tables, PageNumber(vaddr), 2) > |sp.free|
    requires sp2.free == {} && SlotOf(PageNumber(vaddr), 2) !in sp2.tables
    requires AddsOnPath(sp.tables, sp2.tables, PageNumber(vaddr), 2)
    ensures MapLargeOutcome(sp, sp2, vaddr, paddr, flags, -1)
  {
    hide Separated, Grown, SameView, PageNumber, Prefix;
  }

  lemma LargeRefused(sp: Space, sp2: Space, pml4: nat, vaddr: uint64, paddr: uint64, flags: uint64)
    requires AtDirectory(sp, sp2, pml4, PageNumber(vaddr))
    requires SlotOf(PageNumber(vaddr), 1) in sp2.tables
    ensures MapLargeOutcome(sp, sp2, vaddr, paddr, flags, -1)
  {
    hide Separated, Grown, SameView, PageNumber, Prefix, Missing;
  }

  lemma BlockIsMapped(sp: Space, sp2: Space, sp3: Space, pml4: nat, vaddr: uint64, paddr: uint64, flags: uint64)
    requires AtDirectory(sp, sp2, pml4, PageNumber(vaddr))
    requires SlotOf(PageNumber(vaddr), 1) !in sp2.tables
    requires sp3.tables == sp2.tables && Grown(sp2, sp3) && BlockGets(sp2, sp3, PageNumber(vaddr), paddr, flags)
    ensures MapLargeOutcome(sp, sp3, vaddr, paddr, flags, 0)
  {
    hide Separated, Grown, PageNumber, Prefix, LeafView, LargeCovered;
    GrownTransitive(sp, sp2, sp3);
  }
}
