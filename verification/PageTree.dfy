/** The tree of page tables: which frames are its tables, what keeps it a tree, and how each
    write that paging.c makes changes the translation of every page. */
module PageTree {
  import opened Bits
  import opened PageFormat
  import opened PageWalk

  /** The place of a table: its level and the part of the page number that leads to it. */
  datatype Slot = Slot(level: nat, prefix: nat)

  /** The frame of every table of the tree, by place. */
  type Tables = map<Slot, nat>

  const ROOT := Slot(4, 0)

  function TableFrames(t: Tables): set<nat> { t.Values }

  function Parent(s: Slot): Slot { Slot(s.level + 1, s.prefix / 512) }

  function Child(s: Slot, i: nat): Slot
    requires s.level > 0
  {
    Slot(s.level - 1, s.prefix * 512 + i)
  }

  /** The place of the table of the given level that translates a page. */
  function SlotOf(page: nat, level: nat): Slot { Slot(level, Prefix(page, level)) }

  // ----- the separation invariant

  /** Tables live in distinct proper frames, and every table below the top hangs in a table. */
  ghost predicate Shape(frames: Frames, pml4: nat, t: Tables) {
    && ROOT in t && t[ROOT] == pml4
    && (forall s :: s in t ==> 1 <= s.level <= 4 && (s.level == 4 ==> s == ROOT))
    && (forall s :: s in t ==> TableFrame(t[s]) && t[s] in frames)
    && (forall s, s' :: s in t && s' in t && t[s] == t[s'] ==> s == s')
    && (forall s :: s in t && s.level < 4 ==> Parent(s) in t)
  }

  /** An upper entry is present without the page-size bit exactly when it links a table of the
      tree; it then permits everything its table permits. No large page above level 2. */
  ghost predicate EntryOk(frames: Frames, t: Tables, s: Slot, i: nat)
    requires s in t && t[s] in frames && s.level >= 2 && i < 512
  {
    var e := frames[t[s]][i];
    var c := Child(s, i);
    && (c in t <==> Present(e) && !PageSize(e))
    && (s.level >= 3 && Present(e) ==> !PageSize(e))
    && (c in t ==>
          && TableAddress(e) == t[c]
          && Writable(e) && !NoExecute(e)
          && t[c] in frames
          && (User(e) || NoUserEntry(frames[t[c]])))
  }

  ghost predicate NoUserEntry(table: Table) {
    forall j :: 0 <= j < 512 && Present(table[j]) ==> !User(table[j])
  }

  ghost predicate Tree(frames: Frames, pml4: nat, t: Tables) {
    && Shape(frames, pml4, t)
    && forall s, i: nat :: s in t && s.level >= 2 && i < 512 ==> EntryOk(frames, t, s, i)
  }

  // ----- what the tree translates

  /** A 2 MiB page covers the page. */
  ghost predicate LargeCovered(frames: Frames, t: Tables, page: nat) {
    && SlotOf(page, 1) !in t
    && SlotOf(page, 2) in t && t[SlotOf(page, 2)] in frames
    && var e := frames[t[SlotOf(page, 2)]][Index(page, 2)];
       Present(e) && PageSize(e)
  }

  /** The leaf entry alone: the translation the tree stands for. */
  ghost function LeafView(frames: Frames, t: Tables, page: nat): Translation {
    if SlotOf(page, 1) in t && t[SlotOf(page, 1)] in frames then
      var e := frames[t[SlotOf(page, 1)]][Index(page, 1)];
      if Present(e) then Page(FrameOf(e), RightsOf(e)) else Fault
    else if LargeCovered(frames, t, page) then
      var e := frames[t[SlotOf(page, 2)]][Index(page, 2)];
      Page(LargeFrame(e, 2, page), RightsOf(e))
    else
      Fault
  }

  /** The word w is the entry of the page in its table of the given level. */
  ghost predicate EntryIs(frames: Frames, t: Tables, page: nat, level: nat, w: uint64)
    requires level >= 1
  {
    && SlotOf(page, level) in t && t[SlotOf(page, level)] in frames
    && frames[t[SlotOf(page, level)]][Index(page, level)] == w
  }

  lemma ChildOnPath(page: nat, level: nat)
    requires 2 <= level <= 4
    ensures Child(SlotOf(page, level), Index(page, level)) == SlotOf(page, level - 1)
    ensures Parent(SlotOf(page, level - 1)) == SlotOf(page, level)
  {
  }

  lemma RootOnPath(page: nat)
    requires page < PAGE_LIMIT
    ensures SlotOf(page, 4) == ROOT
  {
    PrefixValues(page);
  }

  lemma {:induction false} AbsentBelow(frames: Frames, pml4: nat, t: Tables, page: nat, level: nat)
    requires Shape(frames, pml4, t) && 1 <= level <= 4 && SlotOf(page, level) !in t
    ensures forall l :: 1 <= l <= level ==> SlotOf(page, l) !in t
  {
    if level > 1 {
      ChildOnPath(page, level);
      AbsentBelow(frames, pml4, t, page, level - 1);
    }
  }

  /** The hardware walk finds the leaf of the tree, and the levels above do not take away from
      the rights of the leaf: the leaf decides. */
  lemma {:induction false} WalkFindsLeaf(frames: Frames, pml4: nat, t: Tables, level: nat, page: nat)
    requires Tree(frames, pml4, t) && 1 <= level <= 4 && SlotOf(page, level) in t
    ensures Walk(frames, t[SlotOf(page, level)], level, page) == LeafView(frames, t, page)
    ensures LeafView(frames, t, page).Page? && LeafView(frames, t, page).rights.user ==>
              var e := frames[t[SlotOf(page, level)]][Index(page, level)];
              Present(e) && User(e)
    decreases level
  {
    hide Present, PageSize, User, Writable, NoExecute, FrameOf, Prefix;
    var s := SlotOf(page, level);
    var e := frames[t[s]][Index(page, level)];
    if level > 1 {
      ChildOnPath(page, level);
      assert EntryOk(frames, t, s, Index(page, level));
      if SlotOf(page, level - 1) in t {
        WalkFindsLeaf(frames, pml4, t, level - 1, page);
      } else {
        AbsentBelow(frames, pml4, t, page, level - 1);
        if level > 2 {
          assert !Present(e);
        }
      }
    }
  }

  lemma TranslateIsLeafView(frames: Frames, pml4: nat, t: Tables, page: nat)
    requires Tree(frames, pml4, t) && page < PAGE_LIMIT
    ensures Translate(frames, pml4, page) == LeafView(frames, t, page)
  {
    RootOnPath(page);
    WalkFindsLeaf(frames, pml4, t, 4, page);
  }

  // ----- writing one entry of a table

  function Write(frames: Frames, a: nat, i: nat, w: uint64): Frames
    requires a in frames && i < 512
  {
    frames[a := frames[a][i := w]]
  }

  /** The entry that links a table permits user accesses. */
  ghost predicate UserAbove(frames: Frames, t: Tables, s: Slot) {
    s.level < 4 ==>
      && Parent(s) in t && t[Parent(s)] in frames
      && User(frames[t[Parent(s)]][s.prefix % 512])
  }

  /** What a new word must satisfy to stand at entry i of the table at s. */
  ghost predicate Fitting(frames: Frames, t: Tables, s: Slot, i: nat, w: uint64)
    requires s in t && i < 512
  {
    && (Present(w) && User(w) ==> UserAbove(frames, t, s))
    && (s.level >= 2 ==>
          && (Child(s, i) in t <==> Present(w) && !PageSize(w))
          && (s.level >= 3 && Present(w) ==> !PageSize(w))
          && (Child(s, i) in t ==>
                && TableAddress(w) == t[Child(s, i)]
                && Writable(w) && !NoExecute(w)
                && t[Child(s, i)] in frames
                && (User(w) || NoUserEntry(frames[t[Child(s, i)]]))))
  }

  /** Each entry links a different place. */
  lemma ChildrenDiffer(s: Slot, i: nat, s': Slot, i': nat)
    requires s.level > 0 && s'.level > 0 && i < 512 && i' < 512 && Child(s, i) == Child(s', i')
    ensures s == s' && i == i'
  {
  }

  lemma ParentOfChild(s: Slot, i: nat)
    requires s.level > 0 && i < 512
    ensures Parent(Child(s, i)) == s && Child(s, i).prefix % 512 == i
  {
  }

  lemma EntryStaysOk(frames: Frames, pml4: nat, t: Tables, s: Slot, i: nat, w: uint64, s': Slot, i': nat)
    requires Tree(frames, pml4, t) && s in t && i < 512 && Fitting(frames, t, s, i, w)
    requires s' in t && s'.level >= 2 && i' < 512
    ensures EntryOk(Write(frames, t[s], i, w), t, s', i')
  {
    hide Present, PageSize, User, Writable, NoExecute, FrameOf;
    var frames' := Write(frames, t[s], i, w);
    assert EntryOk(frames, t, s', i');
    var c := Child(s', i');
    if s' == s && i' == i {
      if c in t {
        assert frames'[t[c]] == frames[t[c]];
      }
    } else {
      assert frames'[t[s']][i'] == frames[t[s']][i'];
      if c in t && c == s {
        ParentOfChild(s', i');
      }
    }
  }

  lemma RewriteKeepsTree(frames: Frames, pml4: nat, t: Tables, s: Slot, i: nat, w: uint64)
    requires Tree(frames, pml4, t) && s in t && i < 512 && Fitting(frames, t, s, i, w)
    ensures Tree(Write(frames, t[s], i, w), pml4, t)
  {
    hide EntryOk, Fitting;
    forall s', i': nat | s' in t && s'.level >= 2 && i' < 512
      ensures EntryOk(Write(frames, t[s], i, w), t, s', i')
    {
      EntryStaysOk(frames, pml4, t, s, i, w, s', i');
    }
  }

  /** The page's leaf is not the rewritten entry, so its translation stays. */
  lemma RewriteElsewhere(frames: Frames, pml4: nat, t: Tables, s: Slot, i: nat, w: uint64, page: nat)
    requires Tree(frames, pml4, t) && s in t && i < 512 && Fitting(frames, t, s, i, w)
    requires s.level == 1 ==> SlotOf(page, 1) != s || Index(page, 1) != i
    requires s.level == 2 ==> SlotOf(page, 2) != s || Index(page, 2) != i || Child(s, i) in t
    ensures LeafView(Write(frames, t[s], i, w), t, page) == LeafView(frames, t, page)
    ensures LargeCovered(Write(frames, t[s], i, w), t, page) == LargeCovered(frames, t, page)
  {
    hide Present, PageSize, User, Writable, NoExecute, FrameOf, EntryOk, Prefix, LargeFrame;
    var frames' := Write(frames, t[s], i, w);
    var s1, s2 := SlotOf(page, 1), SlotOf(page, 2);
    if s1 in t {
      assert s != s1 ==> frames'[t[s1]] == frames[t[s1]];
    } else if s2 in t {
      assert s != s2 ==> frames'[t[s2]] == frames[t[s2]];
      ChildOnPath(page, 2);
    }
  }

  // ----- the four writes of paging.c

  /** next_table on a present entry: the user bit may rise on an upper level. */
  lemma RaiseUserFits(frames: Frames, pml4: nat, t: Tables, s: Slot, i: nat, flags: uint64)
    requires Tree(frames, pml4, t) && s in t && s.level >= 2 && i < 512 && Child(s, i) in t
    requires User(flags) ==> UserAbove(frames, t, s)
    ensures Fitting(frames, t, s, i, RaiseUser(frames[t[s]][i], flags))
  {
    hide Present, PageSize, User, Writable, NoExecute, FrameOf;
    assert EntryOk(frames, t, s, i);
    var e := frames[t[s]][i];
    if User(e) && s.level < 4 {
      assert EntryOk(frames, t, Parent(s), s.prefix % 512);
      assert Child(Parent(s), s.prefix % 512) == s;
    }
  }

  /** map_page: a leaf in a page table. */
  lemma LeafFits(frames: Frames, pml4: nat, t: Tables, s: Slot, i: nat, w: uint64)
    requires Tree(frames, pml4, t) && s in t && s.level == 1 && i < 512
    requires User(w) ==> UserAbove(frames, t, s)
    ensures Fitting(frames, t, s, i, w)
  {
  }

  /** map_large_page: a leaf in a page directory, where no page table hangs. */
  lemma LargeLeafFits(frames: Frames, pml4: nat, t: Tables, s: Slot, i: nat, w: uint64)
    requires Tree(frames, pml4, t) && s in t && s.level == 2 && i < 512 && Child(s, i) !in t
    requires Present(w) && PageSize(w)
    requires User(w) ==> UserAbove(frames, t, s)
    ensures Fitting(frames, t, s, i, w)
  {
  }

  // ----- linking a new, zeroed table

  /** next_table on an entry that is not present: zero frame f and link it at entry i of s. */
  ghost predicate CanLink(frames: Frames, pml4: nat, t: Tables, s: Slot, i: nat, f: nat, w: uint64) {
    && Tree(frames, pml4, t)
    && s in t && s.level >= 2 && i < 512
    && !Present(frames[t[s]][i])
    && TableFrame(f) && f !in t.Values
    && Present(w) && !PageSize(w) && Writable(w) && !NoExecute(w) && TableAddress(w) == f
    && (User(w) ==> UserAbove(frames, t, s))
  }

  function Linked(frames: Frames, a: nat, i: nat, f: nat, w: uint64): Frames
    requires a in frames && i < 512
  {
    Write(frames[f := ZeroTable()], a, i, w)
  }

  lemma ZeroTableIsEmpty()
    ensures forall j :: 0 <= j < 512 ==> !Present(ZeroTable()[j])
    ensures NoUserEntry(ZeroTable())
  {
    BitOfZero(0);
  }

  lemma LinkKeepsShape(frames: Frames, pml4: nat, t: Tables, s: Slot, i: nat, f: nat, w: uint64)
    requires CanLink(frames, pml4, t, s, i, f, w)
    ensures Child(s, i) !in t && t[s] != f
    ensures Shape(Linked(frames, t[s], i, f, w), pml4, t[Child(s, i) := f])
  {
    hide PageSize, User, Writable, NoExecute, FrameOf, TableFrame;
    assert EntryOk(frames, t, s, i);
    ParentOfChild(s, i);
    assert forall x :: x in t ==> t[x] in t.Values;
  }

  lemma LinkKeepsEntry(frames: Frames, pml4: nat, t: Tables, s: Slot, i: nat, f: nat, w: uint64, s': Slot, i': nat)
    requires CanLink(frames, pml4, t, s, i, f, w)
    requires s' in t[Child(s, i) := f] && s'.level >= 2 && i' < 512
    ensures Shape(Linked(frames, t[s], i, f, w), pml4, t[Child(s, i) := f])
    ensures EntryOk(Linked(frames, t[s], i, f, w), t[Child(s, i) := f], s', i')
  {
    hide Present, PageSize, User, Writable, NoExecute, FrameOf, TableFrame;
    LinkKeepsShape(frames, pml4, t, s, i, f, w);
    ZeroTableIsEmpty();
    var c, c' := Child(s, i), Child(s', i');
    assert forall x :: x in t ==> t[x] in t.Values;
    if s' == c {
      ParentOfChild(s', i');
    } else {
      assert EntryOk(frames, t, s', i');
      if s' == s && i' == i {
      } else {
        if c == c' {
          ChildrenDiffer(s, i, s', i');
        }
        if c' in t && c' == s {
          ParentOfChild(s', i');
        }
      }
    }
  }

  lemma LinkKeepsTree(frames: Frames, pml4: nat, t: Tables, s: Slot, i: nat, f: nat, w: uint64)
    requires CanLink(frames, pml4, t, s, i, f, w)
    ensures Tree(Linked(frames, t[s], i, f, w), pml4, t[Child(s, i) := f])
  {
    hide EntryOk;
    LinkKeepsShape(frames, pml4, t, s, i, f, w);
    var frames', t' := Linked(frames, t[s], i, f, w), t[Child(s, i) := f];
    forall s', i': nat | s' in t' && s'.level >= 2 && i' < 512 ensures EntryOk(frames', t', s', i') {
      LinkKeepsEntry(frames, pml4, t, s, i, f, w, s', i');
    }
  }

  /** The tables of a page that are not touched by linking. */
  lemma LinkedElsewhere(frames: Frames, pml4: nat, t: Tables, s: Slot, i: nat, f: nat, w: uint64, x: Slot)
    requires CanLink(frames, pml4, t, s, i, f, w)
    requires x != Child(s, i)
    ensures x in t[Child(s, i) := f] <==> x in t
    ensures t[s] in frames
    ensures x in t && x != s ==>
              && t[x] in Linked(frames, t[s], i, f, w)
              && Linked(frames, t[s], i, f, w)[t[x]] == frames[t[x]]
  {
    assert forall x :: x in t ==> t[x] in t.Values;
  }

  /** A new empty table translates nothing, as the entry it replaces did. */
  lemma LinkKeepsLeafView(frames: Frames, pml4: nat, t: Tables, s: Slot, i: nat, f: nat, w: uint64, page: nat)
    requires CanLink(frames, pml4, t, s, i, f, w)
    ensures t[s] in frames
    ensures LeafView(Linked(frames, t[s], i, f, w), t[Child(s, i) := f], page) == LeafView(frames, t, page)
    ensures LargeCovered(Linked(frames, t[s], i, f, w), t[Child(s, i) := f], page) == LargeCovered(frames, t, page)
  {
    hide Present, PageSize, User, Writable, NoExecute, FrameOf, TableFrame, EntryOk, Prefix, LargeFrame, Linked;
    LinkKeepsShape(frames, pml4, t, s, i, f, w);
    ChildOnPath(page, 2);
    var s1, s2 := SlotOf(page, 1), SlotOf(page, 2);
    var c := Child(s, i);
    if s1 == c {
      ChildrenDiffer(s, i, s2, Index(page, 2));
      LinkedAtLeaf(frames, pml4, t, s, i, f, w, page);
    } else if s2 == c {
      LinkedAtLeaf(frames, pml4, t, s, i, f, w, page);
    } else {
      LinkedElsewhere(frames, pml4, t, s, i, f, w, s1);
      LinkedElsewhere(frames, pml4, t, s, i, f, w, s2);
      LinkedSameDirectory(frames, pml4, t, s, i, f, w, page);
    }
  }

  /** Pages below the new table: they faulted before and they fault now. */
  lemma LinkedAtLeaf(frames: Frames, pml4: nat, t: Tables, s: Slot, i: nat, f: nat, w: uint64, page: nat)
    requires CanLink(frames, pml4, t, s, i, f, w)
    requires Child(s, i) == SlotOf(page, 1) || Child(s, i) == SlotOf(page, 2)
    ensures t[s] in frames
    ensures LeafView(frames, t, page) == Fault == LeafView(Linked(frames, t[s], i, f, w), t[Child(s, i) := f], page)
    ensures !LargeCovered(frames, t, page)
    ensures !LargeCovered(Linked(frames, t[s], i, f, w), t[Child(s, i) := f], page)
  {
    hide PageSize, User, Writable, NoExecute, FrameOf, TableFrame, EntryOk, Prefix, LargeFrame;
    LinkKeepsShape(frames, pml4, t, s, i, f, w);
    ZeroTableIsEmpty();
    ChildOnPath(page, 2);
    if Child(s, i) == SlotOf(page, 1) {
      ChildrenDiffer(s, i, SlotOf(page, 2), Index(page, 2));
    }
  }

  /** Pages in the directory that got the new entry, but under another entry of it. */
  lemma LinkedSameDirectory(frames: Frames, pml4: nat, t: Tables, s: Slot, i: nat, f: nat, w: uint64, page: nat)
    requires CanLink(frames, pml4, t, s, i, f, w)
    requires Child(s, i) != SlotOf(page, 1)
    ensures t[s] in frames
    ensures s != SlotOf(page, 1)
    ensures s == SlotOf(page, 2) ==>
              Linked(frames, t[s], i, f, w)[t[s]][Index(page, 2)] == frames[t[s]][Index(page, 2)]
  {
    ChildOnPath(page, 2);
    LinkKeepsShape(frames, pml4, t, s, i, f, w);
  }

  /** A tree that is only its zeroed top table maps nothing. */
  lemma EmptyTree(frames: Frames, pml4: nat)
    requires TableFrame(pml4) && pml4 in frames && frames[pml4] == ZeroTable()
    ensures Tree(frames, pml4, map[ROOT := pml4])
    ensures forall page: nat ::
              LeafView(frames, map[ROOT := pml4], page) == Fault && !LargeCovered(frames, map[ROOT := pml4], page)
  {
    ZeroTableIsEmpty();
  }
}
