/** How the processor translates a linear address (Intel SDM Volume 3A, sections 4.5 and 4.6):
    a walk over physical memory that knows nothing of the code that built the tables. */
module PageWalk {
  import opened Bits
  import opened PageFormat

  /** A frame of physical memory used as a table of 512 entries. */
  type Table = t: seq<uint64> | |t| == 512 witness seq(512, i => 0)

  /** Physical memory, by frame address. */
  type Frames = map<nat, Table>

  /** A frame after memset. */
  function ZeroTable(): (t: Table)
    ensures forall j :: 0 <= j < 512 ==> t[j] == 0
  {
    seq(512, i => 0)
  }

  /** Linear page numbers have 36 bits: the walk uses address bits 47:12. */
  const PAGE_LIMIT := 0x10_0000_0000

  /** Bits 63:47 of a linear address must be equal; an access to any other address faults. */
  const CANONICAL_LIMIT := 0x8000_0000_0000

  predicate Canonical(va: nat) {
    va < CANONICAL_LIMIT || WORD_LIMIT - CANONICAL_LIMIT <= va < WORD_LIMIT
  }

  function PageNumber(va: nat): (p: nat)
    ensures p < PAGE_LIMIT
  {
    va / PAGE_SIZE % PAGE_LIMIT
  }

  /** The part of a page number that selects a table of the given level. */
  function Prefix(page: nat, level: nat): (p: nat)
    ensures level == 0 ==> p == page
    ensures level > 0 ==> p == Prefix(page, level - 1) / 512
  {
    if level == 0 then page else Prefix(page, level - 1) / 512
  }

  /** The entry a page number selects in its table of the given level. */
  function Index(page: nat, level: nat): (i: nat)
    requires level >= 1
    ensures i < 512
  {
    Prefix(page, level - 1) % 512
  }

  /** Who may access a page, and how accesses are cached. */
  datatype Rights = Rights(writable: bool, user: bool, noExecute: bool, caching: Caching)

  datatype Translation = Fault | Page(frame: nat, rights: Rights)

  function RightsOf(e: nat): Rights {
    Rights(Writable(e), User(e), NoExecute(e), CachingOf(e))
  }

  /** Every level must allow a write or a user access; any level can forbid execution. Caching is the
      matter of the leaf. */
  function Meet(upper: Rights, lower: Rights): Rights {
    Rights(upper.writable && lower.writable, upper.user && lower.user, upper.noExecute || lower.noExecute, lower.caching)
  }

  /** The 4 KiB frame inside a 2 MiB or 1 GiB page. */
  function LargeFrame(e: nat, level: nat, page: nat): nat {
    if level == 2 then FrameOf(e) / 512 * 512 + page % 512
    else FrameOf(e) / 0x4_0000 * 0x4_0000 + page % 0x4_0000
  }

  function Walk(frames: Frames, table: nat, level: nat, page: nat): Translation
    requires 1 <= level <= 4
    decreases level
  {
    if table !in frames then
      Fault
    else
      var e := frames[table][Index(page, level)];
      if !Present(e) then
        Fault
      else if level == 1 then
        Page(FrameOf(e), RightsOf(e))
      else if PageSize(e) then
        if level == 4 then Fault else Page(LargeFrame(e, level, page), RightsOf(e))
      else
        match Walk(frames, TableAddress(e), level - 1, page)
        case Fault => Fault
        case Page(frame, rights) => Page(frame, Meet(RightsOf(e), rights))
  }

  /** The translation of a page under the tree whose top table is `pml4`. */
  function Translate(frames: Frames, pml4: nat, page: nat): Translation {
    Walk(frames, pml4, 4, page)
  }

  /** The physical address an access reaches, if it does not fault. */
  function PhysicalAddress(frames: Frames, pml4: nat, va: nat): (pa: int)
    ensures pa == -1 <==> !Canonical(va) || Translate(frames, pml4, PageNumber(va)).Fault?
  {
    match Translate(frames, pml4, PageNumber(va))
    case Fault => -1
    case Page(frame, _) => if Canonical(va) then frame * PAGE_SIZE + va % PAGE_SIZE else -1
  }

  // ----- the shifts of the source

  lemma PrefixValues(page: nat)
    ensures Prefix(page, 0) == page
    ensures Prefix(page, 1) == page / 512
    ensures Prefix(page, 2) == page / 0x4_0000
    ensures Prefix(page, 3) == page / 0x800_0000
  {
  }

  lemma IndexValues(va: nat)
    ensures Index(PageNumber(va), 1) == va / 0x1000 % 512
    ensures Index(PageNumber(va), 2) == va / 0x20_0000 % 512
    ensures Index(PageNumber(va), 3) == va / 0x4000_0000 % 512
    ensures Index(PageNumber(va), 4) == va / 0x80_0000_0000 % 512
  {
    PrefixValues(PageNumber(va));
    IndexAt1(va);
    IndexAt2(va);
    IndexAt3(va);
    IndexAt4(va);
  }

  lemma IndexAt1(va: nat)
    ensures PageNumber(va) % 512 == va / 0x1000 % 512
  {
    FieldOfRemainder(va / 0x1000, 1, 0x800_0000);
  }

  lemma IndexAt2(va: nat)
    ensures PageNumber(va) / 512 % 512 == va / 0x20_0000 % 512
  {
    FieldOfRemainder(va / 0x1000, 512, 0x4_0000);
    assert va / 0x1000 / 512 == va / 0x20_0000;
  }

  lemma IndexAt3(va: nat)
    ensures PageNumber(va) / 0x4_0000 % 512 == va / 0x4000_0000 % 512
  {
    FieldOfRemainder(va / 0x1000, 0x4_0000, 512);
    assert va / 0x1000 / 0x4_0000 == va / 0x4000_0000;
  }

  lemma IndexAt4(va: nat)
    ensures PageNumber(va) / 0x800_0000 % 512 == va / 0x80_0000_0000 % 512
  {
    FieldOfRemainder(va / 0x1000, 0x800_0000, 1);
    assert va / 0x1000 / 0x800_0000 == va / 0x80_0000_0000;
  }

  /** A 9-bit field below a cut is the same before and after cutting. */
  lemma FieldOfRemainder(q: nat, p: nat, m: nat)
    requires p > 0 && m > 0 && p * m * 512 == PAGE_LIMIT
    ensures q % PAGE_LIMIT / p % 512 == q / p % 512
  {
    var k, r := q / PAGE_LIMIT, q % PAGE_LIMIT;
    var h := k * m;
    var a, b := r / p, r % p;
    calc {
      k * PAGE_LIMIT;
      k * (p * m * 512);
      (h * 512) * p;
    }
    var d := h * 512 + a;
    assert d * p == (h * 512) * p + a * p;
    DivModUnique(q, p, d, b);
  }

  lemma Pow2Shifts()
    ensures Pow2(12) == 0x1000 && Pow2(21) == 0x20_0000 && Pow2(30) == 0x4000_0000 && Pow2(39) == 0x80_0000_0000
  {
    Pow2Values();
    Pow2Add(9, 12);
    Pow2Add(9, 21);
    Pow2Add(9, 30);
  }

  /** `(vaddr >> shift) & 0x1FF` for the four levels. */
  lemma SourceIndices(va: nat)
    ensures And(Shr(va, 12), 0x1FF) == Index(PageNumber(va), 1)
    ensures And(Shr(va, 21), 0x1FF) == Index(PageNumber(va), 2)
    ensures And(Shr(va, 30), 0x1FF) == Index(PageNumber(va), 3)
    ensures And(Shr(va, 39), 0x1FF) == Index(PageNumber(va), 4)
  {
    hide And, Index, Pow2, Shr;
    Pow2Shifts();
    IndexValues(va);
    ShrIsDiv(va, 12);
    ShrIsDiv(va, 21);
    ShrIsDiv(va, 30);
    ShrIsDiv(va, 39);
    IndexMask(va / 0x1000);
    IndexMask(va / 0x20_0000);
    IndexMask(va / 0x4000_0000);
    IndexMask(va / 0x80_0000_0000);
  }
}
