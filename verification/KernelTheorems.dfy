/** What init_paging means for the pixels of the framebuffer; and a memory map with a frame at 2^47,
    which is mapped to itself and cannot be reached that way. */
module KernelTheorems {
  import opened Bits
  import opened FrameSpec
  import opened PageFormat
  import opened PageWalk
  import opened PageTree
  import opened PageSpace
  import opened PageRange
  import opened PageTheorems
  import opened Kernel

  // ----- the framebuffer

  /** The address of byte b of the pixel in column x of line y: four bytes a pixel. */
  function PixelByte(fb: Framebuffer, x: nat, y: nat, b: nat): nat {
    fb.buffer + PixelOffset(fb, x, y, b)
  }

  function PixelOffset(fb: Framebuffer, x: nat, y: nat, b: nat): nat {
    4 * (y * fb.pixelsPerScanline + x) + b
  }

  predicate IsPixelByte(fb: Framebuffer, x: nat, y: nat, b: nat) {
    x < fb.pixelsPerScanline && y < fb.height && b < 4
  }

  lemma PixelBefore(w: nat, h: nat, x: nat, y: nat)
    requires x < w && y < h
    ensures y * w + x < w * h
  {
    assert w * h == y * w + (h - y) * w;
    MulAtLeast(h - y, w);
  }

  lemma PixelAt(w: nat, h: nat, p: nat) returns (x: nat, y: nat)
    requires p < w * h
    ensures x < w && y < h && p == y * w + x
  {
    x, y := p % w, p / w;
  }

  /** Every byte of a pixel is within the size, and every byte within the size is one of a pixel. */
  lemma PixelInside(fb: Framebuffer, x: nat, y: nat, b: nat)
    requires IsPixelByte(fb, x, y, b) && 4 * (fb.pixelsPerScanline * fb.height) < WORD_LIMIT
    ensures PixelOffset(fb, x, y, b) < fb.Length()
  {
    hide Framebuffer.Length;
    FramebufferSize(fb);
    PixelBefore(fb.pixelsPerScanline, fb.height, x, y);
    FourEach(y * fb.pixelsPerScanline + x, fb.pixelsPerScanline * fb.height, b);
  }

  lemma FourEach(n: nat, m: nat, b: nat)
    requires n < m && b < 4
    ensures 4 * n + b < 4 * m
  {
  }

  lemma QuarterBelow(d: nat, m: nat)
    requires d < 4 * m
    ensures d / 4 < m && d == 4 * (d / 4) + d % 4
  {
  }

  lemma PixelOfOffset(fb: Framebuffer, d: nat) returns (x: nat, y: nat)
    requires 4 * (fb.pixelsPerScanline * fb.height) < WORD_LIMIT && fb.pixelsPerScanline > 0 && fb.height > 0
    requires d < fb.Length()
    ensures IsPixelByte(fb, x, y, d % 4) && PixelOffset(fb, x, y, d % 4) == d
  {
    hide Framebuffer.Length;
    FramebufferSize(fb);
    QuarterBelow(d, fb.pixelsPerScanline * fb.height);
    x, y := PixelAt(fb.pixelsPerScanline, fb.height, d / 4);
  }

  predicate PixelIn(fb: Framebuffer, x: nat, y: nat, b: nat, q: nat) {
    IsPixelByte(fb, x, y, b) && PageNumber(PixelByte(fb, x, y, b)) == q
  }

  /** Unless its size does not fit 64 bits, the pages mapped for the framebuffer are exactly those
      that hold a byte of a pixel. */
  lemma FramebufferPages(fb: Framebuffer, q: nat)
    requires RangeFits(fb.buffer, fb.Length())
    requires 4 * (fb.pixelsPerScanline * fb.height) < WORD_LIMIT && fb.pixelsPerScanline > 0 && fb.height > 0
    ensures InFramebuffer(fb, q) <==> exists x: nat, y: nat, b: nat :: PixelIn(fb, x, y, b, q)
  {
    hide PageNumber, RangeFits, InFramebuffer, Framebuffer.Length, PixelOffset, IsPixelByte;
    FramebufferSize(fb);
    AreRange(fb, q);
    PagesOfRange(fb.buffer, fb.buffer, fb.Length(), READ_WRITE_BIT, q);
    if InFramebuffer(fb, q) {
      var d: nat :| ByteInPage(fb.buffer, fb.Length(), d, q);
      var x, y := PixelOfOffset(fb, d);
      assert PixelIn(fb, x, y, d % 4, q);
    }
    if x: nat, y: nat, b: nat :| PixelIn(fb, x, y, b, q) {
      PixelInside(fb, x, y, b);
      assert ByteInPage(fb.buffer, fb.Length(), PixelOffset(fb, x, y, b), q);
    }
  }

  lemma AreRange(fb: Framebuffer, q: nat)
    ensures InFramebuffer(fb, q) <==> RangeOf(fb.buffer, fb.buffer, fb.Length(), READ_WRITE_BIT).Contains(q)
  {
  }

  lemma FramebufferSize(fb: Framebuffer)
    requires 4 * (fb.pixelsPerScanline * fb.height) < WORD_LIMIT && fb.pixelsPerScanline > 0 && fb.height > 0
    ensures fb.Length() == 4 * (fb.pixelsPerScanline * fb.height) > 0
  {
    MulAtLeast(fb.height, fb.pixelsPerScanline);
    assert fb.pixelsPerScanline * fb.height * 4 == 4 * (fb.pixelsPerScanline * fb.height);
  }

  /** So after init_paging every byte of every pixel is reached by its own address, as far as that is
      canonical. */
  lemma PixelsAreMapped(sp: Space, pml4: nat, vs: seq<BlockView>, fb: Framebuffer, x: nat, y: nat, b: nat)
    requires Separated(sp, pml4) && MapsKernel(sp, vs, fb) && Reachable(vs, fb)
    requires 4 * (fb.pixelsPerScanline * fb.height) < WORD_LIMIT && IsPixelByte(fb, x, y, b)
    ensures var a := PixelByte(fb, x, y, b); PhysicalAddress(sp.frames, pml4, a) == if a < CANONICAL_LIMIT then a else -1
  {
    hide LeafView, Translate, Separated, MapsKernel, KernelPage, RangeFits, InFramebuffer, PageNumber, Framebuffer.Length, PixelOffset;
    var a := PixelByte(fb, x, y, b);
    FramebufferFits(vs, fb);
    PixelSize(fb, x, y, b);
    FramebufferPages(fb, PageNumber(a));
    assert PixelIn(fb, x, y, b, PageNumber(a));
    PixelBelow(fb, x, y, b);
    OfFramebuffer(vs, fb, PageNumber(a));
    KernelTranslations(sp, pml4, vs, fb, PageNumber(a));
    LowPage(a);
    ByteOfPage(sp.frames, pml4, a / PAGE_SIZE * PAGE_SIZE, a % PAGE_SIZE);
  }

  lemma OfFramebuffer(vs: seq<BlockView>, fb: Framebuffer, q: nat)
    requires InFramebuffer(fb, q)
    ensures KernelPage(vs, fb, q)
  {
    hide InFramebuffer, InBlocks;
  }

  lemma PixelBelow(fb: Framebuffer, x: nat, y: nat, b: nat)
    requires RangeFits(fb.buffer, fb.Length()) && fb.buffer < PAGE_LIMIT * PAGE_SIZE && IsPixelByte(fb, x, y, b)
    requires 4 * (fb.pixelsPerScanline * fb.height) < WORD_LIMIT
    ensures PixelByte(fb, x, y, b) < PAGE_LIMIT * PAGE_SIZE
  {
    hide RangeFits, Framebuffer.Length, PixelOffset, IsPixelByte;
    PixelInside(fb, x, y, b);
    BelowWindow(fb.buffer, fb.Length(), PixelOffset(fb, x, y, b));
  }

  lemma PixelSize(fb: Framebuffer, x: nat, y: nat, b: nat)
    requires IsPixelByte(fb, x, y, b)
    ensures fb.pixelsPerScanline > 0 && fb.height > 0
  {
  }

  lemma BelowWindow(start: nat, length: nat, d: nat)
    requires RangeFits(start, length) && start < PAGE_LIMIT * PAGE_SIZE && d < length
    ensures start + d < PAGE_LIMIT * PAGE_SIZE
  {
  }

  lemma LowPage(a: nat)
    requires a < PAGE_LIMIT * PAGE_SIZE
    ensures PageNumber(a) == a / PAGE_SIZE && a / PAGE_SIZE * PAGE_SIZE % PAGE_SIZE == 0
    ensures a / PAGE_SIZE * PAGE_SIZE < CANONICAL_LIMIT <==> a < CANONICAL_LIMIT
  {
  }

  // ----- a frame at 2^47

  const HIGH_PAGE := 0x8_0000_0000

  /** One block of one frame, managed and free. */
  function HighBlock(): BlockView {
    BlockView(CANONICAL_LIMIT, 1, Usable, true, [false])
  }

  const NO_SCREEN := Framebuffer(0, 0, 0)

  lemma HighPath()
    ensures SlotOf(HIGH_PAGE, 4) == ROOT && SlotOf(HIGH_PAGE, 3) == Child(ROOT, 256)
    ensures SlotOf(HIGH_PAGE, 2) == Child(SlotOf(HIGH_PAGE, 3), 0) && SlotOf(HIGH_PAGE, 1) == Child(SlotOf(HIGH_PAGE, 2), 0)
  {
    PrefixValues(HIGH_PAGE);
    RootOnPath(HIGH_PAGE);
  }

  /** The tables that lead to the page. */
  lemma HighTables() returns (sp: Space)
    ensures Separated(sp, 0x1000) && MapsNothing(sp) && SlotOf(HIGH_PAGE, 1) in sp.tables
  {
    hide Separated, TableAddress, ZeroTable, MapsNothing, SameView, Grown, Prefix;
    NoFlags();
    ZeroTableIsEmpty();
    HighPath();
    var f: Frames := map[0x1000 := ZeroTable()];
    InitialSpace(f, 0x1000, {0x2000, 0x3000, 0x4000});
    var sp0 := Space(f, map[ROOT := 0x1000], {0x2000, 0x3000, 0x4000});
    var s3, s2 := SlotOf(HIGH_PAGE, 3), SlotOf(HIGH_PAGE, 2);
    LinkSteps(sp0, 0x1000, ROOT, 256, 0x2000, 0);
    var sp1 := LinkedSpace(sp0, ROOT, 256, 0x2000, LinkEntry(0x2000, 0));
    StillNothing(sp0, sp1);
    assert sp1.tables[s3] == 0x2000 && sp1.frames[0x2000] == ZeroTable();
    LinkSteps(sp1, 0x1000, s3, 0, 0x3000, 0);
    var sp2 := LinkedSpace(sp1, s3, 0, 0x3000, LinkEntry(0x3000, 0));
    StillNothing(sp1, sp2);
    assert sp2.tables[s2] == 0x3000 && sp2.frames[0x3000] == ZeroTable();
    LinkSteps(sp2, 0x1000, s2, 0, 0x4000, 0);
    sp := LinkedSpace(sp2, s2, 0, 0x4000, LinkEntry(0x4000, 0));
    StillNothing(sp2, sp);
  }

  lemma HighFrame()
    ensures CANONICAL_LIMIT < WORD_LIMIT && FrameOf(CANONICAL_LIMIT) == HIGH_PAGE
  {
  }

  /** The page mapped to itself, and nothing else. */
  lemma HighMapping() returns (sp: Space)
    ensures Separated(sp, 0x1000)
    ensures forall q: nat ::
              LeafView(sp.frames, sp.tables, q) == if q == HIGH_PAGE then Page(HIGH_PAGE, KERNEL_RIGHTS) else Fault
  {
    hide Separated, LeafView, LargeCovered, Grown, Present, Writable, User, NoExecute, FrameOf, Prefix;
    ReadWriteFlag();
    HighFrame();
    var before := HighTables();
    var w := PageEntry(CANONICAL_LIMIT, READ_WRITE_BIT);
    LeafWritten(before, 0x1000, HIGH_PAGE, w);
    sp := RewrittenSpace(before, SlotOf(HIGH_PAGE, 1), Index(HIGH_PAGE, 1), w);
  }

  lemma HighKernelPages(page: nat)
    ensures KernelPage([HighBlock()], NO_SCREEN, page) <==> page == HIGH_PAGE
  {
    if page == HIGH_PAGE {
      assert InBlockPages([HighBlock()][0], page);
    }
  }

  lemma HighBlockOk()
    ensures ValidViews([HighBlock()]) && Reachable([HighBlock()], NO_SCREEN) && IsManaged([HighBlock()], CANONICAL_LIMIT)
  {
    assert [HighBlock()][0].FrameAt(0) == CANONICAL_LIMIT;
  }

  /** After init_paging on this map, the only managed frame is mapped to itself, and an access to its
      physical address faults. */
  lemma HighFrameUnreachable() returns (sp: Space)
    ensures var vs := [HighBlock()];
            && Separated(sp, 0x1000) && MapsKernel(sp, vs, NO_SCREEN)
            && ValidViews(vs) && Reachable(vs, NO_SCREEN) && IsManaged(vs, CANONICAL_LIMIT)
    ensures Translate(sp.frames, 0x1000, HIGH_PAGE) == Page(HIGH_PAGE, KERNEL_RIGHTS)
    ensures PhysicalAddress(sp.frames, 0x1000, CANONICAL_LIMIT) == -1
  {
    hide Separated, LeafView, Translate, KernelPage, HighBlock, ValidViews, Reachable, IsManaged;
    sp := HighMapping();
    HighBlockOk();
    forall page: nat ensures KernelPage([HighBlock()], NO_SCREEN, page) <==> page == HIGH_PAGE {
      HighKernelPages(page);
    }
    ManagedIsMapped(sp, 0x1000, [HighBlock()], NO_SCREEN, CANONICAL_LIMIT);
    ManagedIsReachable(sp, 0x1000, [HighBlock()], NO_SCREEN, CANONICAL_LIMIT, 0);
  }
}
