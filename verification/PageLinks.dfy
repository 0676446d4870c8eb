/** The words of the upper levels: what a mapping call with given flags writes into the entries that
    link tables. */
module PageLinks {
  import opened Bits
  import opened PageFormat
  import opened PageWalk
  import opened PageTree
  import opened PageSpace
  import opened PageRange

  /** The entry that links the table at c. */
  function LinkOf(frames: Frames, t: Tables, c: Slot): uint64
    requires Parent(c) in t && t[Parent(c)] in frames
  {
    frames[t[Parent(c)]][c.prefix % 512]
  }

  ghost predicate IsLinked(frames: Frames, t: Tables, c: Slot) {
    Parent(c) in t && t[Parent(c)] in frames
  }

  /** An old link is as before or has got the user bit of the flags; a new one is what next_table
      writes for these flags. */
  ghost predicate LinkFrom(frames: Frames, t: Tables, frames': Frames, t': Tables, flags: uint64, c: Slot)
    requires c in t'
  {
    && IsLinked(frames', t', c) && TableFrame(t'[c])
    && var w := LinkOf(frames', t', c);
       if c in t then
         IsLinked(frames, t, c) && (w == LinkOf(frames, t, c) || w == RaiseUser(LinkOf(frames, t, c), flags))
       else w == LinkEntry(t'[c], flags)
  }

  ghost predicate LinksFrom(frames: Frames, t: Tables, frames': Frames, t': Tables, flags: uint64) {
    forall c :: c in t' && c.level < 4 ==> LinkFrom(frames, t, frames', t', flags, c)
  }

  lemma LinksReflexive(sp: Space, pml4: nat, flags: uint64)
    requires Separated(sp, pml4)
    ensures LinksFrom(sp.frames, sp.tables, sp.frames, sp.tables, flags)
  {
    hide RaiseUser, LinkEntry, TableFrame, EntryOk;
  }

  // ----- raising the user bit twice

  lemma RaiseAgain(e: uint64, flags: uint64)
    ensures RaiseUser(RaiseUser(e, flags), flags) == RaiseUser(e, flags)
  {
    hide Bit, RaiseUser;
    SameBits(RaiseUser(RaiseUser(e, flags), flags), RaiseUser(e, flags));
  }

  lemma RaiseLink(f: uint64, flags: uint64)
    requires TableFrame(f)
    ensures RaiseUser(LinkEntry(f, flags), flags) == LinkEntry(f, flags)
  {
    hide Bit, RaiseUser, LinkEntry, TableFrame;
    SameBits(RaiseUser(LinkEntry(f, flags), flags), LinkEntry(f, flags));
  }

  lemma LinksTransitive(a: Space, b: Space, c: Space, flags: uint64)
    requires KeepsTables(a.tables, b.tables) && KeepsTables(b.tables, c.tables)
    requires LinksFrom(a.frames, a.tables, b.frames, b.tables, flags)
    requires LinksFrom(b.frames, b.tables, c.frames, c.tables, flags)
    ensures LinksFrom(a.frames, a.tables, c.frames, c.tables, flags)
  {
    hide RaiseUser, LinkEntry, TableFrame;
    forall s | s in c.tables && s.level < 4 ensures LinkFrom(a.frames, a.tables, c.frames, c.tables, flags, s) {
      assert LinkFrom(b.frames, b.tables, c.frames, c.tables, flags, s);
      if s in b.tables {
        assert LinkFrom(a.frames, a.tables, b.frames, b.tables, flags, s);
        if s in a.tables {
          RaiseAgain(LinkOf(a.frames, a.tables, s), flags);
        } else {
          RaiseLink(b.tables[s], flags);
        }
      }
    }
  }

  // ----- the three kinds of writes

  /** Another link stands in another entry. */
  lemma OtherLink(s: Slot, i: nat, c: Slot)
    requires s.level > 0 && i < 512 && c != Child(s, i)
    ensures Parent(c) != s || c.prefix % 512 != i
  {
  }

  lemma LinkWrites(sp: Space, pml4: nat, s: Slot, i: nat, f: nat, flags: uint64)
    requires Separated(sp, pml4) && s in sp.tables && s.level >= 2 && i < 512 && f in sp.free && f < WORD_LIMIT
    requires sp.tables[s] in sp.frames && TableFrame(f) && Child(s, i) !in sp.tables
    ensures var sp' := LinkedSpace(sp, s, i, f, LinkEntry(f, flags));
            LinksFrom(sp.frames, sp.tables, sp'.frames, sp'.tables, flags)
  {
    hide RaiseUser, LinkEntry, TableFrame, EntryOk;
    var sp' := LinkedSpace(sp, s, i, f, LinkEntry(f, flags));
    ParentOfChild(s, i);
    TablesAreNotFree(sp, pml4);
    forall c | c in sp'.tables && c.level < 4 ensures LinkFrom(sp.frames, sp.tables, sp'.frames, sp'.tables, flags, c) {
      if c != Child(s, i) {
        OtherLink(s, i, c);
      }
    }
  }

  lemma RaiseWrites(sp: Space, pml4: nat, s: Slot, i: nat, flags: uint64)
    requires Separated(sp, pml4) && s in sp.tables && s.level >= 2 && i < 512 && sp.tables[s] in sp.frames
    ensures var sp' := RewrittenSpace(sp, s, i, RaiseUser(sp.frames[sp.tables[s]][i], flags));
            LinksFrom(sp.frames, sp.tables, sp'.frames, sp'.tables, flags)
  {
    hide RaiseUser, LinkEntry, TableFrame, EntryOk;
    var sp' := RewrittenSpace(sp, s, i, RaiseUser(sp.frames[sp.tables[s]][i], flags));
    ParentOfChild(s, i);
    forall c | c in sp'.tables && c.level < 4 ensures LinkFrom(sp.frames, sp.tables, sp'.frames, sp'.tables, flags, c) {
      if c != Child(s, i) {
        OtherLink(s, i, c);
      }
    }
  }

  /** A leaf is no link. */
  lemma LeafWrites(sp: Space, pml4: nat, s: Slot, i: nat, w: uint64, flags: uint64)
    requires Separated(sp, pml4) && s in sp.tables && i < 512 && sp.tables[s] in sp.frames && s.level > 0
    requires Child(s, i) !in sp.tables
    ensures var sp' := RewrittenSpace(sp, s, i, w);
            LinksFrom(sp.frames, sp.tables, sp'.frames, sp'.tables, flags)
  {
    hide RaiseUser, LinkEntry, TableFrame, EntryOk;
    var sp' := RewrittenSpace(sp, s, i, w);
    forall c | c in sp'.tables && c.level < 4 ensures LinkFrom(sp.frames, sp.tables, sp'.frames, sp'.tables, flags, c) {
      OtherLink(s, i, c);
    }
  }

  lemma NoTableBelow(sp: Space, pml4: nat, s: Slot, i: nat)
    requires Separated(sp, pml4) && s.level == 1
    ensures Child(s, i) !in sp.tables
  {
  }

  // ----- several steps

  lemma StepKeeps(sp: Space, sp': Space, pml4: nat, c: Slot, next: nat)
    requires Stepped(sp, sp', pml4, c, next)
    ensures KeepsTables(sp.tables, sp'.tables)
  {
    GrownKeeps(sp, sp');
  }

  lemma LinksOfDirectory(sp: Space, sp1: Space, sp2: Space, pml4: nat, c: Slot, c': Slot, pdp: nat, pd: nat, flags: uint64)
    requires Stepped(sp, sp1, pml4, c, pdp) && Stepped(sp1, sp2, pml4, c', pd)
    requires LinksFrom(sp.frames, sp.tables, sp1.frames, sp1.tables, flags)
    requires LinksFrom(sp1.frames, sp1.tables, sp2.frames, sp2.tables, flags)
    ensures LinksFrom(sp.frames, sp.tables, sp2.frames, sp2.tables, flags)
  {
    hide Stepped, LinksFrom, KeepsTables;
    StepKeeps(sp, sp1, pml4, c, pdp);
    StepKeeps(sp1, sp2, pml4, c', pd);
    LinksTransitive(sp, sp1, sp2, flags);
  }

  lemma LinksOfStep(sp: Space, sp2: Space, sp3: Space, pml4: nat, c: Slot, pt: nat, flags: uint64)
    requires Prepared(sp, sp2, pml4) && Stepped(sp2, sp3, pml4, c, pt)
    requires LinksFrom(sp.frames, sp.tables, sp2.frames, sp2.tables, flags)
    requires LinksFrom(sp2.frames, sp2.tables, sp3.frames, sp3.tables, flags)
    ensures KeepsTables(sp.tables, sp3.tables)
    ensures LinksFrom(sp.frames, sp.tables, sp3.frames, sp3.tables, flags)
  {
    hide Stepped, LinksFrom, Grown, KeepsTables, SameView, Separated;
    StepKeeps(sp2, sp3, pml4, c, pt);
    GrownKeeps(sp, sp2);
    assert KeepsTables(sp.tables, sp3.tables) by { KeepsTransitive(sp.tables, sp2.tables, sp3.tables); }
    LinksTransitive(sp, sp2, sp3, flags);
  }

  lemma KeepsTransitive(a: Tables, b: Tables, c: Tables)
    requires KeepsTables(a, b) && KeepsTables(b, c)
    ensures KeepsTables(a, c)
  {
  }

  /** The same through the loop of map_range. */
  lemma LinksOfPage(sp: Space, cur: Space, sp': Space, g: Range, k: nat, vaddr: uint64, paddr: uint64, r: int)
    requires RangeState(sp, cur, g, k) && MapPageOutcome(cur, sp', vaddr, paddr, g.flags, r)
    requires LinksFrom(sp.frames, sp.tables, cur.frames, cur.tables, g.flags)
    requires LinksFrom(cur.frames, cur.tables, sp'.frames, sp'.tables, g.flags)
    ensures LinksFrom(sp.frames, sp.tables, sp'.frames, sp'.tables, g.flags)
  {
    hide LinksFrom, Grown, KeepsTables, PageNumber, LeafView, LargeCovered, ViewsAre, CoversAre, AheadUntouched, NoConflictYet,
      TakesLarge, Conflict, LacksFrames, SameView, PageMapped, AddsOnPath;
    GrownKeeps(sp, cur);
    GrownKeeps(cur, sp');
    LinksTransitive(sp, cur, sp', g.flags);
  }

  lemma LinksOfBlock(sp: Space, cur: Space, sp': Space, g: Range, k: nat, vaddr: uint64, paddr: uint64, r: int)
    requires RangeState(sp, cur, g, k) && MapLargeOutcome(cur, sp', vaddr, paddr, g.flags, r)
    requires LinksFrom(sp.frames, sp.tables, cur.frames, cur.tables, g.flags)
    requires LinksFrom(cur.frames, cur.tables, sp'.frames, sp'.tables, g.flags)
    ensures LinksFrom(sp.frames, sp.tables, sp'.frames, sp'.tables, g.flags)
  {
    hide LinksFrom, Grown, KeepsTables, PageNumber, LeafView, LargeCovered, ViewsAre, CoversAre, AheadUntouched, NoConflictYet,
      TakesLarge, SameView, BlockGets, AddsOnPath;
    GrownKeeps(sp, cur);
    GrownKeeps(cur, sp');
    LinksTransitive(sp, cur, sp', g.flags);
  }
}
