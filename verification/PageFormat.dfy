/** The format of x86-64 page-table entries: the constants of kernel/memory/paging.h, the
    fields as the processor reads them (Intel SDM Volume 3A, section 4.5), and the entries
    that kernel/memory/paging.c builds with masks and ORs. */
module PageFormat {
  import opened Bits

  const PAGE_SIZE := 4096
  const LARGE_PAGE_SIZE := 0x20_0000
  const PHYS_ADDR_MASK: uint64 := 0x000F_FFFF_FFFF_F000
  const PRESENT_BIT: uint64 := 0x1
  const READ_WRITE_BIT: uint64 := 0x2
  const USER_SUPERVISOR_BIT: uint64 := 0x4
  const PAGE_SIZE_BIT: uint64 := 0x80
  /** Frame numbers have 40 bits: 52-bit physical addresses of 4 KiB frames. */
  const FRAME_LIMIT := 0x100_0000_0000

  // ----- fields, as the processor reads them

  predicate Present(e: nat) { Bit(e, 0) }
  predicate Writable(e: nat) { Bit(e, 1) }
  predicate User(e: nat) { Bit(e, 2) }
  predicate PageSize(e: nat) { Bit(e, 7) }
  predicate NoExecute(e: nat) { Bit(e, 63) }

  /** How accesses through a leaf are cached: PAGE_LEVEL_WRITETHROUGH_BIT, PAGE_LEVEL_CACHE_DISABLE_BIT
      and GLOBAL_PAGE_BIT. */
  datatype Caching = Caching(writeThrough: bool, cacheDisable: bool, global: bool)

  function CachingOf(e: nat): Caching { Caching(Bit(e, 3), Bit(e, 4), Bit(e, 8)) }

  const PLAIN := Caching(false, false, false)

  /** Bits 51:12, as a frame number. */
  function FrameOf(e: nat): (f: nat)
    ensures f < FRAME_LIMIT
  {
    e / 4096 % FRAME_LIMIT
  }

  function TableAddress(e: nat): nat {
    FrameOf(e) * 4096
  }

  /** A frame a page table can live in: not page 0, aligned, below 2^52. */
  predicate TableFrame(a: nat) {
    0 < a < FRAME_LIMIT * 4096 && a % 4096 == 0
  }

  /** What the callers of the mapping functions may pass as flags. */
  predicate FlagsOk(flags: uint64) {
    And(flags, PHYS_ADDR_MASK) == 0 && And(flags, PAGE_SIZE_BIT) == 0
  }

  // ----- masks and shifts of the source as arithmetic

  lemma AddressMask(a: nat)
    ensures And(a, PHYS_ADDR_MASK) == FrameOf(a) * 4096
  {
    hide And, Pow2;
    Pow2Values();
    FieldMask(a, PHYS_ADDR_MASK, 12, 40);
  }

  lemma LargeAddressMask(a: nat)
    ensures And(And(a, PHYS_ADDR_MASK), Not(LARGE_PAGE_SIZE - 1)) == FrameOf(a) / 512 * LARGE_PAGE_SIZE
  {
    hide And, Pow2;
    AddressMask(a);
    var b := FrameOf(a) * 4096;
    Pow2Values();
    assert Not(LARGE_PAGE_SIZE - 1) == 0x7FF_FFFF_FFFF * LARGE_PAGE_SIZE;
    FieldMask(b, Not(LARGE_PAGE_SIZE - 1), 21, 43);
    LargeFrameBits(FrameOf(a));
  }

  lemma LargeFrameBits(f: nat)
    requires f < FRAME_LIMIT
    ensures f * 4096 / LARGE_PAGE_SIZE % 0x800_0000_0000 == f / 512
  {
  }

  lemma PageMask(a: uint64)
    ensures And(a, Not(PAGE_SIZE - 1)) == a / PAGE_SIZE * PAGE_SIZE
  {
    hide And, Pow2;
    Pow2Values();
    assert Not(PAGE_SIZE - 1) == 0xF_FFFF_FFFF_FFFF * PAGE_SIZE;
    FieldMask(a, Not(PAGE_SIZE - 1), 12, 52);
  }

  lemma LargeOffsetMask(a: nat)
    ensures And(a, LARGE_PAGE_SIZE - 1) == a % LARGE_PAGE_SIZE
  {
    hide And;
    Pow2Values();
    AndLowMask(a, 21);
  }

  lemma IndexMask(a: nat)
    ensures And(a, 0x1FF) == a % 512
  {
    hide And;
    Pow2Values();
    AndLowMask(a, 9);
  }

  /** The present and page-size tests of the source. */
  lemma FlagTests(e: nat)
    ensures And(e, PRESENT_BIT) != 0 <==> Present(e)
    ensures And(e, PAGE_SIZE_BIT) != 0 <==> PageSize(e)
  {
    TestBit(e, 0);
    TestBit(e, 7);
    assert Shl(1, 7) == PAGE_SIZE_BIT by {
      ShlIsMul(1, 7);
      Pow2Add(3, 4);
    }
  }

  // ----- the entries the source builds

  lemma MaskBit(k: nat)
    ensures Bit(PHYS_ADDR_MASK, k) <==> 12 <= k < 52
  {
    Pow2Values();
    ShlIsMul(Pow2(40) - 1, 12);
    BitOfShl(Pow2(40) - 1, 12, k);
    if k >= 12 {
      BitOfMask(40, k - 12);
    }
  }

  /** A masked address has no bit outside 51:12. */
  lemma AddressBits(a: nat, k: nat)
    ensures Bit(And(a, PHYS_ADDR_MASK), k) <==> 12 <= k < 52 && Bit(a, k)
  {
    BitOfAnd(a, PHYS_ADDR_MASK, k);
    MaskBit(k);
  }

  /** A table frame is its own masked address. */
  lemma TableFrameMask(a: nat)
    requires TableFrame(a)
    ensures And(a, PHYS_ADDR_MASK) == a && FrameOf(a) * 4096 == a
  {
    hide And;
    AddressMask(a);
    SmallMod(a / 4096, FRAME_LIMIT);
  }

  /** Flags that pass FlagsOk hold no address bit. */
  lemma NoAddressBits(flags: nat, k: nat)
    requires And(flags, PHYS_ADDR_MASK) == 0 && 12 <= k < 52
    ensures !Bit(flags, k)
  {
    hide And, Bit;
    BitOfAnd(flags, PHYS_ADDR_MASK, k);
    MaskBit(k);
    BitOfZero(k);
  }

  lemma OrZero(a: nat)
    ensures Or(a, 0) == a && Or(0, a) == a
  {
  }

  /** Masking off everything but the address keeps the frame and clears every flag. */
  lemma MaskedAddress(a: nat)
    ensures FrameOf(And(a, PHYS_ADDR_MASK)) == FrameOf(a)
    ensures forall k: nat :: k < 12 || k >= 52 ==> !Bit(And(a, PHYS_ADDR_MASK), k)
  {
    hide And, Bit;
    var m := And(a, PHYS_ADDR_MASK);
    AndAssociates(a, PHYS_ADDR_MASK, PHYS_ADDR_MASK);
    AndSelf(PHYS_ADDR_MASK);
    AddressMask(a);
    AddressMask(m);
    forall k: nat | k < 12 || k >= 52 ensures !Bit(m, k) {
      AddressBits(a, k);
    }
  }

  /** ORing flags into a word keeps its frame. */
  lemma OrFlags(e: nat, flags: nat)
    requires And(flags, PHYS_ADDR_MASK) == 0
    ensures FrameOf(Or(e, flags)) == FrameOf(e)
    ensures forall k: nat :: Bit(Or(e, flags), k) <==> Bit(e, k) || Bit(flags, k)
  {
    hide And, Or, Bit, FrameOf;
    AndDistributes(e, flags, PHYS_ADDR_MASK);
    OrZero(And(e, PHYS_ADDR_MASK));
    AddressMask(Or(e, flags));
    AddressMask(e);
    forall k: nat ensures Bit(Or(e, flags), k) <==> Bit(e, k) || Bit(flags, k) {
      BitOfOr(e, flags, k);
    }
  }

  lemma SingleFlags()
    ensures forall k: nat :: Bit(PRESENT_BIT, k) <==> k == 0
    ensures forall k: nat :: Bit(READ_WRITE_BIT, k) <==> k == 1
    ensures forall k: nat :: Bit(USER_SUPERVISOR_BIT, k) <==> k == 2
    ensures forall k: nat :: Bit(PAGE_SIZE_BIT, k) <==> k == 7
    ensures And(PRESENT_BIT, PHYS_ADDR_MASK) == 0 && And(READ_WRITE_BIT, PHYS_ADDR_MASK) == 0
    ensures And(USER_SUPERVISOR_BIT, PHYS_ADDR_MASK) == 0 && And(PAGE_SIZE_BIT, PHYS_ADDR_MASK) == 0
  {
    SingleFlag(0);
    SingleFlag(1);
    SingleFlag(2);
    SingleFlag(7);
    Pow2Add(3, 4);
  }

  lemma SingleFlag(n: nat)
    requires n < 12
    ensures forall k: nat :: Bit(Pow2(n), k) <==> k == n
    ensures And(Pow2(n), PHYS_ADDR_MASK) == 0
  {
    ShlIsMul(1, n);
    forall k: nat ensures Bit(Pow2(n), k) <==> k == n {
      BitOfOne(n, k);
    }
    SmallFlag(Pow2(n)) by {
      Pow2Values();
      Pow2Monotone(n, 11);
      assert Pow2(12) == 2 * Pow2(11);
    }
  }

  lemma SmallFlag(w: nat)
    requires w < 4096
    ensures And(w, PHYS_ADDR_MASK) == 0
  {
    hide And;
    AddressMask(w);
  }

  /** `flags & USER_SUPERVISOR_BIT` */
  function UserFlag(flags: uint64): (u: uint64)
    ensures And(u, PHYS_ADDR_MASK) == 0
    ensures forall k: nat :: Bit(u, k) <==> k == 2 && User(flags)
  {
    SingleFlags();
    AndAssociates(flags, USER_SUPERVISOR_BIT, PHYS_ADDR_MASK);
    assert forall k: nat :: Bit(And(flags, USER_SUPERVISOR_BIT), k) <==> k == 2 && User(flags) by {
      forall k: nat ensures Bit(And(flags, USER_SUPERVISOR_BIT), k) <==> k == 2 && User(flags) {
        BitOfAnd(flags, USER_SUPERVISOR_BIT, k);
      }
    }
    And64(flags, USER_SUPERVISOR_BIT)
  }

  /** The entry for an upper level: `next | PRESENT | READ_WRITE | (flags & USER_SUPERVISOR)`. */
  function LinkEntry(next: uint64, flags: uint64): (e: uint64)
    requires TableFrame(next)
    ensures Present(e) && Writable(e) && !PageSize(e) && !NoExecute(e)
    ensures User(e) <==> User(flags)
    ensures TableAddress(e) == next
    ensures forall k: nat :: Bit(e, k) <==> if 12 <= k < 52 then Bit(next, k) else k == 0 || k == 1 || (k == 2 && User(flags))
  {
    hide And, Or, Bit;
    SingleFlags();
    TableFrameMask(next);
    MaskedAddress(next);
    OrFlags(next, PRESENT_BIT);
    OrFlags(Or(next, PRESENT_BIT), READ_WRITE_BIT);
    OrFlags(Or(Or(next, PRESENT_BIT), READ_WRITE_BIT), UserFlag(flags));
    Or64(Or64(Or64(next, PRESENT_BIT), READ_WRITE_BIT), UserFlag(flags))
  }

  /** `table[index] |= flags & USER_SUPERVISOR` */
  function RaiseUser(e: uint64, flags: uint64): (r: uint64)
    ensures Present(r) == Present(e) && Writable(r) == Writable(e)
    ensures PageSize(r) == PageSize(e) && NoExecute(r) == NoExecute(e)
    ensures User(r) <==> User(e) || User(flags)
    ensures FrameOf(r) == FrameOf(e)
    ensures forall k: nat :: Bit(r, k) <==> Bit(e, k) || (k == 2 && User(flags))
  {
    hide And, Or, Bit;
    OrFlags(e, UserFlag(flags));
    Or64(e, UserFlag(flags))
  }

  /** `init_pt_entry`, bit by bit. */
  function InitPtEntry(paddr: uint64, flags: uint64): (e: uint64)
    ensures And(flags, PHYS_ADDR_MASK) == 0 ==>
              && FrameOf(e) == FrameOf(paddr)
              && (forall k: nat :: Bit(e, k) <==> if 12 <= k < 52 then Bit(paddr, k) else Bit(flags, k))
  {
    hide And, Or, Bit;
    MaskedAddress(paddr);
    if And(flags, PHYS_ADDR_MASK) == 0 then
      OrFlags(And(paddr, PHYS_ADDR_MASK), flags);
      EntryBits(paddr, flags);
      Or64(And64(paddr, PHYS_ADDR_MASK), flags)
    else
      Or64(And64(paddr, PHYS_ADDR_MASK), flags)
  }

  /** The address gives bits 51:12, the flags all others. */
  lemma EntryBits(paddr: nat, flags: nat)
    requires And(flags, PHYS_ADDR_MASK) == 0
    ensures forall k: nat ::
              Bit(Or(And(paddr, PHYS_ADDR_MASK), flags), k) <==> if 12 <= k < 52 then Bit(paddr, k) else Bit(flags, k)
  {
    hide And, Or, Bit;
    OrFlags(And(paddr, PHYS_ADDR_MASK), flags);
    forall k: nat
      ensures Bit(Or(And(paddr, PHYS_ADDR_MASK), flags), k) <==> if 12 <= k < 52 then Bit(paddr, k) else Bit(flags, k)
    {
      AddressBits(paddr, k);
      if 12 <= k < 52 {
        NoAddressBits(flags, k);
      }
    }
  }

  /** The 4 KiB leaf that map_page writes. */
  function PageEntry(paddr: uint64, flags: uint64): (e: uint64)
    requires FlagsOk(flags)
    ensures FrameOf(e) == FrameOf(paddr)
    ensures Present(e) && Writable(e) == Writable(flags) && User(e) == User(flags) && NoExecute(e) == NoExecute(flags)
    ensures CachingOf(e) == CachingOf(flags)
    ensures forall k: nat :: Bit(e, k) <==> if 12 <= k < 52 then Bit(paddr, k) else k == 0 || Bit(flags, k)
  {
    hide And, Or, Bit;
    SingleFlags();
    OrFlags(flags, PRESENT_BIT);
    AndDistributes(flags, PRESENT_BIT, PHYS_ADDR_MASK);
    OrZero(0);
    InitPtEntry(paddr, Or64(flags, PRESENT_BIT))
  }

  /** The 2 MiB leaf: `(paddr & PHYS_ADDR_MASK) | flags | PRESENT | PAGE_SIZE`. */
  function LargeEntry(paddr: uint64, flags: uint64): (e: uint64)
    requires FlagsOk(flags)
    ensures FrameOf(e) == FrameOf(paddr)
    ensures Present(e) && PageSize(e)
    ensures Writable(e) == Writable(flags) && User(e) == User(flags) && NoExecute(e) == NoExecute(flags)
    ensures CachingOf(e) == CachingOf(flags)
    ensures forall k: nat :: Bit(e, k) <==> if 12 <= k < 52 then Bit(paddr, k) else k == 0 || k == 7 || Bit(flags, k)
  {
    hide And, Or, Bit;
    SingleFlags();
    MaskedAddress(paddr);
    var a := And64(paddr, PHYS_ADDR_MASK);
    EntryBits(paddr, flags);
    OrFlags(a, flags);
    OrFlags(Or(a, flags), PRESENT_BIT);
    OrFlags(Or(Or(a, flags), PRESENT_BIT), PAGE_SIZE_BIT);
    Or64(Or64(Or64(a, flags), PRESENT_BIT), PAGE_SIZE_BIT)
  }

  /** READ_WRITE_BIT alone is a proper flags argument: writable, for the kernel only. */
  lemma ReadWriteFlag()
    ensures FlagsOk(READ_WRITE_BIT)
    ensures Writable(READ_WRITE_BIT) && !User(READ_WRITE_BIT) && !NoExecute(READ_WRITE_BIT)
    ensures CachingOf(READ_WRITE_BIT) == PLAIN
  {
    SingleFlags();
    AndShiftedMask(2, 64, 1);
    FlagTests(READ_WRITE_BIT);
  }

  /** The flags of kernel/memory/paging.h by their values: each is the one bit that the field reads. */
  lemma FlagValues(k: nat)
    ensures Bit(0x1, k) <==> k == 0
    ensures Bit(0x2, k) <==> k == 1
    ensures Bit(0x4, k) <==> k == 2
    ensures Bit(0x8, k) <==> k == 3
    ensures Bit(0x10, k) <==> k == 4
    ensures Bit(0x80, k) <==> k == 7
    ensures Bit(0x100, k) <==> k == 8
    ensures Bit(0x8000_0000_0000_0000, k) <==> k == 63
  {
    hide Bit, Pow2;
    FlagPowers();
    OneBitWord(0, k);
    OneBitWord(1, k);
    OneBitWord(2, k);
    OneBitWord(3, k);
    OneBitWord(4, k);
    OneBitWord(7, k);
    OneBitWord(8, k);
    OneBitWord(63, k);
  }

  lemma FlagPowers()
    ensures Pow2(0) == 0x1 && Pow2(1) == 0x2 && Pow2(2) == 0x4 && Pow2(3) == 0x8 && Pow2(4) == 0x10
    ensures Pow2(7) == 0x80 && Pow2(8) == 0x100 && Pow2(63) == 0x8000_0000_0000_0000
  {
    assert Pow2(1) == 2 * Pow2(0) && Pow2(2) == 2 * Pow2(1);
    assert Pow2(3) == 2 * Pow2(2) && Pow2(4) == 2 * Pow2(3);
    Pow2Add(3, 4);
    Pow2Add(4, 4);
    Pow2Add(8, 8);
    Pow2Add(16, 16);
    Pow2Add(7, 8);
    Pow2Add(15, 16);
    Pow2Add(31, 32);
  }

  lemma OneBitWord(n: nat, k: nat)
    ensures Bit(Pow2(n), k) <==> k == n
  {
    ShlIsMul(1, n);
    BitOfOne(n, k);
  }

  /** What each of them asks for when it is passed alone: writable, user, no execution, and so on. */
  lemma FlagMeanings()
    ensures Present(0x1) && Writable(0x2) && User(0x4) && PageSize(0x80) && NoExecute(0x8000_0000_0000_0000)
    ensures CachingOf(0x8) == Caching(true, false, false)
    ensures CachingOf(0x10) == Caching(false, true, false)
    ensures CachingOf(0x100) == Caching(false, false, true)
    ensures !NoExecute(0x1) && !NoExecute(0x2) && !NoExecute(0x4) && !NoExecute(0x80)
  {
    hide Bit;
    FlagValues(0);
    FlagValues(1);
    FlagValues(2);
    FlagValues(3);
    FlagValues(4);
    FlagValues(7);
    FlagValues(8);
    FlagValues(63);
  }
}
