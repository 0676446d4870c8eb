/** efi-stage/efi_pmm.c: sizing the allocator's storage from a provisional memory map and filling
    it from the final one. The memory map is a list of UEFI memory descriptors. */
module EfiPmm {
  import opened Bits
  import opened FrameSpec
  import opened Physical

  // ----- memory descriptors (UEFI Specification 2.10, section 7.2.3)

  const EFI_LOADER_CODE := 1
  const EFI_LOADER_DATA := 2
  const EFI_BOOT_SERVICES_CODE := 3
  const EFI_BOOT_SERVICES_DATA := 4
  const EFI_RUNTIME_SERVICES_CODE := 5
  const EFI_RUNTIME_SERVICES_DATA := 6
  const EFI_CONVENTIONAL_MEMORY := 7
  const EFI_ACPI_RECLAIM_MEMORY := 9
  const EFI_ACPI_MEMORY_NVS := 10
  const EFI_MEMORY_MAPPED_IO := 11
  const EFI_MEMORY_MAPPED_IO_PORT_SPACE := 12

  datatype Descriptor = Descriptor(kind: nat, physicalStart: uint64, numberOfPages: uint64, attribute: uint64)
  {
    function End(): nat {
      physicalStart + numberOfPages * FRAME_SIZE
    }
  }

  /** What the firmware promises about a map: aligned regions in range that do not overlap. */
  ghost predicate MapOk(ds: seq<Descriptor>) {
    && (forall i :: 0 <= i < |ds| ==> ds[i].physicalStart % FRAME_SIZE == 0 && ds[i].End() <= PHYS_LIMIT)
    && (forall i, j :: 0 <= i < j < |ds| && ds[i].numberOfPages > 0 && ds[j].numberOfPages > 0 ==>
          ds[i].End() <= ds[j].physicalStart || ds[j].End() <= ds[i].physicalStart)
  }

  /** `is_ram_type` */
  predicate IsRamType(kind: nat) {
    kind == EFI_LOADER_CODE || kind == EFI_LOADER_DATA || kind == EFI_BOOT_SERVICES_CODE ||
    kind == EFI_BOOT_SERVICES_DATA || kind == EFI_CONVENTIONAL_MEMORY
  }

  /** The switch of build_pmm. */
  function KindOf(kind: nat): PmType {
    if kind == EFI_CONVENTIONAL_MEMORY then Usable
    else if kind == EFI_LOADER_CODE || kind == EFI_LOADER_DATA ||
            kind == EFI_BOOT_SERVICES_CODE || kind == EFI_BOOT_SERVICES_DATA then Reclaimable
    else if kind == EFI_ACPI_RECLAIM_MEMORY then AcpiReclaim
    else if kind == EFI_ACPI_MEMORY_NVS then AcpiNvs
    else if kind == EFI_RUNTIME_SERVICES_CODE || kind == EFI_RUNTIME_SERVICES_DATA then Firmware
    else if kind == EFI_MEMORY_MAPPED_IO || kind == EFI_MEMORY_MAPPED_IO_PORT_SPACE then Mmio
    else PmType.Reserved
  }

  /** The kinds by the numbers of the UEFI Specification, whatever value the firmware gives. */
  lemma KindTable(k: nat)
    ensures KindOf(k) == Usable <==> k == 7
    ensures KindOf(k) == Reclaimable <==> k in {1, 2, 3, 4}
    ensures KindOf(k) == AcpiReclaim <==> k == 9
    ensures KindOf(k) == AcpiNvs <==> k == 10
    ensures KindOf(k) == Firmware <==> k in {5, 6}
    ensures KindOf(k) == Mmio <==> k in {11, 12}
    ensures KindOf(k) == PmType.Reserved <==> k in {0, 8} || k > 12
    ensures IsRamType(k) <==> KindOf(k) == Usable || KindOf(k) == Reclaimable
  {
  }

  // ----- sizing

  const PMM_BLOCK_SLACK := 16

  function NonEmpty(ds: seq<Descriptor>): (n: nat) {
    if ds == [] then 0
    else NonEmpty(ds[..|ds| - 1]) + (if ds[|ds| - 1].numberOfPages > 0 then 1 else 0)
  }

  function RamFrames(ds: seq<Descriptor>): nat {
    if ds == [] then 0
    else RamFrames(ds[..|ds| - 1]) + (if IsRamType(ds[|ds| - 1].kind) then ds[|ds| - 1].numberOfPages else 0)
  }

  /** The counting loop of `reserve_pmm` and the sizes it derives. */
  method SizePmm(ds: seq<Descriptor>) returns (capacity: nat, bitmapWords: nat)
    requires RamFrames(ds) < WORD_LIMIT
    ensures capacity == NonEmpty(ds) + 16
    ensures bitmapWords == RamFrames(ds) / 64 + capacity
  {
    var blockCount, ramFrames := 0, 0;
    var i := 0;
    while i < |ds|
      invariant i <= |ds|
      invariant blockCount == NonEmpty(ds[..i])
      invariant ramFrames == RamFrames(ds[..i])
    {
      var desc := ds[i];
      assert ds[..i + 1][..i] == ds[..i];
      if desc.numberOfPages != 0 {
        blockCount := blockCount + 1;
      }
      if IsRamType(desc.kind) {
        ramFrames := ramFrames + desc.numberOfPages;
      }
      i := i + 1;
    }
    assert ds[..|ds|] == ds;
    capacity := blockCount + PMM_BLOCK_SLACK;
    bitmapWords := ramFrames / 64 + capacity;
  }

  /** A region more counts as a block unless it is empty, and towards the bitmaps only if it is RAM. */
  lemma SizedWithOneMore(ds: seq<Descriptor>, d: Descriptor)
    ensures NonEmpty(ds + [d]) == NonEmpty(ds) + (if d.numberOfPages == 0 then 0 else 1)
    ensures RamFrames(ds + [d]) == RamFrames(ds) + (if d.kind in {1, 2, 3, 4, 7} then d.numberOfPages else 0)
  {
    assert (ds + [d])[..|ds|] == ds;
  }

  // ----- what build_pmm makes of a map

  /** The descriptors of regions that are not empty, in order. */
  function Regions(ds: seq<Descriptor>): (rs: seq<Descriptor>)
    ensures |rs| == NonEmpty(ds)
  {
    if ds == [] then []
    else Regions(ds[..|ds| - 1]) + (if ds[|ds| - 1].numberOfPages > 0 then [ds[|ds| - 1]] else [])
  }

  /** The descriptors that get a block, as the loop of build_pmm collects them: the non-empty ones
      in order, as many as there are slots. */
  function Kept(ds: seq<Descriptor>, capacity: nat): (kept: seq<Descriptor>)
    ensures |kept| <= capacity && |kept| <= NonEmpty(ds)
    ensures NonEmpty(ds) <= capacity ==> |kept| == NonEmpty(ds)
  {
    if ds == [] then []
    else
      var before := Kept(ds[..|ds| - 1], capacity);
      if ds[|ds| - 1].numberOfPages == 0 || |before| == capacity then before else before + [ds[|ds| - 1]]
  }

  lemma {:induction false} KeptAreFirst(ds: seq<Descriptor>, capacity: nat)
    ensures Kept(ds, capacity) == if NonEmpty(ds) <= capacity then Regions(ds) else Regions(ds)[..capacity]
  {
    if ds != [] {
      KeptAreFirst(ds[..|ds| - 1], capacity);
    }
  }

  /** Bitmap words the first n kept descriptors take out of `words`: a RAM block takes its share
      if that is still there. */
  function WordsTaken(kept: seq<Descriptor>, words: nat, n: nat): (used: nat)
    requires n <= |kept|
    ensures used <= words
  {
    if n == 0 then 0
    else
      var used := WordsTaken(kept, words, n - 1);
      var need := FrameMapSize(kept[n - 1].numberOfPages);
      if IsRamType(kept[n - 1].kind) && used + need <= words then used + need else used
  }

  /** Block n gets a bitmap. */
  predicate GetsBitmap(kept: seq<Descriptor>, words: nat, n: nat)
    requires n < |kept|
  {
    IsRamType(kept[n].kind) && WordsTaken(kept, words, n) + FrameMapSize(kept[n].numberOfPages) <= words
  }

  /** Every frame of a reclaimable block starts out used; in conventional memory only frame 0 does. */
  function InitialFlags(d: Descriptor): (used: seq<bool>)
    ensures |used| == d.numberOfPages
    ensures forall f: nat :: f < |used| ==>
              used[f] == (KindOf(d.kind) == Reclaimable || (d.physicalStart == 0 && f == 0))
  {
    seq(d.numberOfPages, f => KindOf(d.kind) == Reclaimable || (d.physicalStart == 0 && f == 0))
  }

  function InitialView(d: Descriptor, managed: bool): BlockView {
    BlockView(d.physicalStart, d.numberOfPages, KindOf(d.kind), managed, if managed then InitialFlags(d) else [])
  }

  lemma {:induction false} CountAllUsed(used: seq<bool>)
    requires forall f :: 0 <= f < |used| ==> used[f]
    ensures CountFree(used) == 0
  {
    CountFreePositive(used);
  }

  lemma {:induction false} CountAllFree(used: seq<bool>)
    requires forall f :: 0 <= f < |used| ==> !used[f]
    ensures CountFree(used) == |used|
  {
    if used != [] {
      CountAllFree(used[..|used| - 1]);
    }
  }

  lemma InitialCount(d: Descriptor)
    requires d.numberOfPages > 0
    ensures CountFree(InitialFlags(d)) ==
              (if KindOf(d.kind) == Reclaimable then 0
               else if d.physicalStart == 0 then d.numberOfPages - 1 else d.numberOfPages)
  {
    var used := InitialFlags(d);
    if KindOf(d.kind) == Reclaimable {
      CountAllUsed(used);
    } else if d.physicalStart == 0 {
      CountFreeUpdate(used, 0, false);
      CountAllFree(used[0 := false]);
    } else {
      CountAllFree(used);
    }
  }

  // ----- filling one bitmap

  /** The words of a fresh bitmap: all ones for a reclaimable block; otherwise zero up to the tail
      of the last word, with the bit of frame 0 set when the block starts at address 0. */
  ghost predicate FreshWords(words: seq<uint64>, d: Descriptor) {
    && |words| == FrameMapSize(d.numberOfPages)
    && forall f: nat :: f < 64 * |words| ==>
         (UsedBit(words, f) <==> f >= d.numberOfPages || KindOf(d.kind) == Reclaimable || (d.physicalStart == 0 && f == 0))
  }

  lemma FreshFlags(words: seq<uint64>, d: Descriptor)
    requires FreshWords(words, d)
    ensures d.numberOfPages <= 64 * |words|
    ensures Flags(words, d.numberOfPages) == InitialFlags(d)
    ensures TailSet(words, d.numberOfPages)
  {
    hide UsedBit;
  }

  lemma AllOnesWords(words: seq<uint64>, d: Descriptor)
    requires |words| == FrameMapSize(d.numberOfPages) && KindOf(d.kind) == Reclaimable
    requires forall j :: 0 <= j < |words| ==> words[j] == ALL_ONES
    ensures FreshWords(words, d)
  {
    forall f: nat | f < 64 * |words| ensures UsedBit(words, f) {
      BitOfAllOnes(f % 64);
    }
  }

  /** Zero words, then the tail of the last word set. */
  lemma ZeroWords(words: seq<uint64>, pages: nat, f: nat)
    requires pages > 0 && |words| == FrameMapSize(pages) && f < 64 * |words|
    requires forall j :: 0 <= j < |words| - 1 ==> words[j] == 0
    requires words[|words| - 1] == (if pages % 64 != 0 then OnesFrom(pages % 64) else 0)
    ensures UsedBit(words, f) <==> f >= pages
  {
    var last := |words| - 1;
    BitOfZero(f % 64);
    if f / 64 < last {
      assert f < pages;
    } else {
      assert f / 64 == last;
    }
  }

  lemma ConventionalWords(zeroed: seq<uint64>, words: seq<uint64>, d: Descriptor)
    requires d.numberOfPages > 0 && KindOf(d.kind) != Reclaimable
    requires |zeroed| == FrameMapSize(d.numberOfPages)
    requires forall j :: 0 <= j < |zeroed| - 1 ==> zeroed[j] == 0
    requires zeroed[|zeroed| - 1] == (if d.numberOfPages % 64 != 0 then OnesFrom(d.numberOfPages % 64) else 0)
    requires words == (if d.physicalStart == 0 then zeroed[0 := SetBit(zeroed[0], 0)] else zeroed)
    ensures FreshWords(words, d)
  {
    forall f: nat | f < 64 * |words|
      ensures UsedBit(words, f) <==> f >= d.numberOfPages || (d.physicalStart == 0 && f == 0)
    {
      ZeroWords(zeroed, d.numberOfPages, f);
      if d.physicalStart == 0 && f / 64 == 0 {
        assert f % 64 == f;
      }
    }
  }

  /** Sets every word of the block's bitmap. */
  method FillWords(block: Block, w: uint64)
    requires block.MapFits() && block.bitmap.Into?
    modifies block.storage
    ensures |block.Words()| == FrameMapSize(block.framesTotal)
    ensures forall j :: 0 <= j < |block.Words()| ==> block.Words()[j] == w
    ensures block.KeepsOtherWords(old(block.storage[..]))
  {
    var words := FrameMapSize(block.framesTotal);
    var j := 0;
    while j < words
      invariant j <= words
      invariant forall i :: block.bitmap.first <= i < block.bitmap.first + j ==> block.storage[i] == w
      invariant block.KeepsOtherWords(old(block.storage[..]))
    {
      block.storage[block.bitmap.first + j] := w;
      j := j + 1;
    }
  }

  /** The bitmap part of the loop of build_pmm, for a block whose other fields are set. */
  method FillBitmap(block: Block, d: Descriptor)
    requires block.MapFits() && block.bitmap.Into? && d.numberOfPages > 0
    requires block.framesTotal == d.numberOfPages && block.address == d.physicalStart
    requires block.kind == KindOf(d.kind) && (block.kind == Usable || block.kind == Reclaimable) && block.framesFree == 0
    modifies block`framesFree, block.storage
    ensures FreshWords(block.Words(), d)
    ensures block.framesFree == CountFree(InitialFlags(d))
    ensures block.KeepsOtherWords(old(block.storage[..]))
  {
    hide UsedBit, CountFree, FreshWords, OnesFrom, SetBit;
    InitialCount(d);
    var words := FrameMapSize(d.numberOfPages);
    if block.kind == Reclaimable {
      FillWords(block, ALL_ONES);
      AllOnesWords(block.Words(), d);
      return;
    }
    FillWords(block, 0);
    block.framesFree := d.numberOfPages;
    if d.numberOfPages % 64 != 0 {
      block.storage[block.bitmap.first + (words - 1)] := OnesFrom(d.numberOfPages % 64);
    }
    ghost var zeroed := block.Words();
    if block.address == 0 {
      block.storage[block.bitmap.first] := SetBit(block.storage[block.bitmap.first], 0);
      block.framesFree := block.framesFree - 1;
    }
    ConventionalWords(zeroed, block.Words(), d);
  }

  // ----- one block

  /** The slot holds the block that the descriptor asks for, with its bitmap at `first` if any. */
  ghost predicate BlockIs(block: Block, d: Descriptor, managed: bool, first: nat)
    reads block, block.storage
  {
    && block.address == d.physicalStart && block.framesTotal == d.numberOfPages
    && block.kind == KindOf(d.kind) && block.attributes == d.attribute
    && block.bitmap == (if managed then Into(first) else Null)
    && block.MapFits()
    && block.framesFree == (if managed then CountFree(InitialFlags(d)) else 0)
    && (managed ==> FreshWords(block.Words(), d))
  }

  lemma BlockIsValid(block: Block, d: Descriptor, managed: bool, first: nat)
    requires BlockIs(block, d, managed, first)
    requires d.physicalStart % FRAME_SIZE == 0 && d.End() <= PHYS_LIMIT && (managed ==> IsRamType(d.kind))
    ensures block.Valid() && block.View() == InitialView(d, managed)
  {
    hide FreshWords, UsedBit, Flags;
    if managed {
      FreshFlags(block.Words(), d);
    }
  }

  /** One descriptor of the loop of build_pmm: the next slot becomes its block. */
  method AddBlock(pm: Pmm, d: Descriptor, nextMap: nat, wordsLeft: nat) returns (nextMap': nat, wordsLeft': nat)
    requires pm.Shaped() && pm.blockCount < |pm.slots| && d.numberOfPages > 0
    requires nextMap + wordsLeft == pm.bitmap.Length
    modifies pm`blockCount, pm.slots[pm.blockCount], pm.bitmap
    ensures pm.blockCount == old(pm.blockCount) + 1
    ensures var managed := IsRamType(d.kind) && FrameMapSize(d.numberOfPages) <= wordsLeft;
            && nextMap' == nextMap + (if managed then FrameMapSize(d.numberOfPages) else 0)
            && nextMap' + wordsLeft' == pm.bitmap.Length
            && BlockIs(pm.slots[old(pm.blockCount)], d, managed, nextMap)
    ensures forall k :: 0 <= k < nextMap && k < pm.bitmap.Length ==> pm.bitmap[k] == old(pm.bitmap[k])
  {
    hide CountFree, FreshWords, UsedBit;
    nextMap', wordsLeft' := nextMap, wordsLeft;
    var block := pm.slots[pm.blockCount];
    pm.blockCount := pm.blockCount + 1;
    block.address := d.physicalStart;
    block.framesTotal := d.numberOfPages;
    block.framesFree := 0;
    block.bitmap := Null;
    block.attributes := d.attribute;
    block.kind := KindOf(d.kind);
    if block.kind != Usable && block.kind != Reclaimable {
      return;
    }
    var words := FrameMapSize(d.numberOfPages);
    if words > wordsLeft {
      return;
    }
    block.bitmap := Into(nextMap);
    nextMap', wordsLeft' := nextMap + words, wordsLeft - words;
    FillBitmap(block, d);
  }

  // ----- the whole map

  lemma {:induction false} WordsTakenPrefix(kept: seq<Descriptor>, d: Descriptor, words: nat, n: nat)
    requires n <= |kept|
    ensures WordsTaken(kept + [d], words, n) == WordsTaken(kept, words, n)
  {
    if n > 0 {
      WordsTakenPrefix(kept, d, words, n - 1);
      assert (kept + [d])[n - 1] == kept[n - 1];
    }
  }

  lemma {:induction false} WordsTakenGrows(kept: seq<Descriptor>, words: nat, m: nat, n: nat)
    requires m <= n <= |kept|
    ensures WordsTaken(kept, words, m) <= WordsTaken(kept, words, n)
  {
    if m < n {
      WordsTakenGrows(kept, words, m, n - 1);
    }
  }

  /** The bitmap of block m ends before the words of a later block. */
  lemma {:induction false} BitmapEnds(kept: seq<Descriptor>, words: nat, m: nat, n: nat)
    requires m < n <= |kept| && GetsBitmap(kept, words, m)
    ensures WordsTaken(kept, words, m) + FrameMapSize(kept[m].numberOfPages) <= WordsTaken(kept, words, n)
  {
    hide FrameMapSize, IsRamType;
    assert WordsTaken(kept, words, m + 1) == WordsTaken(kept, words, m) + FrameMapSize(kept[m].numberOfPages);
    WordsTakenGrows(kept, words, m + 1, n);
  }

  /** The first |kept| slots hold the blocks of the kept descriptors. */
  ghost predicate Built(pm: Pmm, kept: seq<Descriptor>)
    reads pm, pm.slots, pm.bitmap
  {
    && pm.Shaped()
    && pm.blockCount == |kept|
    && forall n: nat :: n < |kept| ==> BuiltSlot(pm, kept, n)
  }

  ghost predicate BuiltSlot(pm: Pmm, kept: seq<Descriptor>, n: nat)
    requires n < |kept| <= |pm.slots| && pm.Shaped()
    reads pm, pm.slots, pm.bitmap
  {
    BlockIs(pm.slots[n], kept[n], GetsBitmap(kept, pm.bitmap.Length, n), WordsTaken(kept, pm.bitmap.Length, n))
  }

  lemma {:induction false} KeptOfPrefix(ds: seq<Descriptor>, capacity: nat, i: nat)
    requires i <= |ds| && |Kept(ds[..i], capacity)| == capacity
    ensures Kept(ds, capacity) == Kept(ds[..i], capacity)
    decreases |ds|
  {
    if i < |ds| {
      assert ds[..|ds| - 1][..i] == ds[..i];
      KeptOfPrefix(ds[..|ds| - 1], capacity, i);
    } else {
      assert ds[..i] == ds;
    }
  }

  /** `build_pmm`, as far as the slots are concerned. */
  method FillSlots(pm: Pmm, ds: seq<Descriptor>)
    requires pm.Shaped()
    modifies pm`blockCount, pm.slots, pm.bitmap
    ensures Built(pm, Kept(ds, |pm.slots|))
  {
    hide BlockIs, WordsTaken, MapOk;
    ghost var capacity := |pm.slots|;
    var nextMap, wordsLeft := 0, pm.bitmap.Length;
    pm.blockCount := 0;
    var i := 0;
    NothingTaken(pm.bitmap.Length);
    while i < |ds|
      invariant i <= |ds|
      invariant Built(pm, Kept(ds[..i], capacity))
      invariant nextMap == WordsTaken(Kept(ds[..i], capacity), pm.bitmap.Length, |Kept(ds[..i], capacity)|)
      invariant nextMap + wordsLeft == pm.bitmap.Length
    {
      var desc := ds[i];
      assert ds[..i + 1][..i] == ds[..i];
      if desc.numberOfPages == 0 {
        i := i + 1;
        continue;
      }
      if pm.blockCount == |pm.slots| {
        KeptOfPrefix(ds, capacity, i);
        return;
      }
      nextMap, wordsLeft := AddNext(pm, Kept(ds[..i], capacity), desc, nextMap, wordsLeft);
      i := i + 1;
    }
    assert ds[..|ds|] == ds;
  }

  lemma NothingTaken(words: nat)
    ensures WordsTaken([], words, 0) == 0
  {
  }

  /** AddBlock, seen from the list of blocks built so far: filling the next slot beyond the words
      taken leaves the earlier blocks as they are. */
  method AddNext(pm: Pmm, ghost kept: seq<Descriptor>, d: Descriptor, nextMap: nat, wordsLeft: nat)
    returns (nextMap': nat, wordsLeft': nat)
    requires Built(pm, kept) && pm.blockCount < |pm.slots| && d.numberOfPages > 0
    requires nextMap == WordsTaken(kept, pm.bitmap.Length, |kept|) && nextMap + wordsLeft == pm.bitmap.Length
    modifies pm`blockCount, pm.slots, pm.bitmap
    ensures Built(pm, kept + [d])
    ensures nextMap' == WordsTaken(kept + [d], pm.bitmap.Length, |kept| + 1) && nextMap' + wordsLeft' == pm.bitmap.Length
  {
    hide CountFree, FreshWords, InitialFlags, FrameMapSize, IsRamType, KindOf;
    ghost var words := pm.bitmap.Length;
    WordsTakenPrefix(kept, d, words, |kept|);
    nextMap', wordsLeft' := AddBlock(pm, d, nextMap, wordsLeft);
    forall n: nat | n < |kept| ensures BuiltSlot(pm, kept + [d], n) {
      WordsTakenPrefix(kept, d, words, n);
      assert (kept + [d])[n] == kept[n];
      assert old(BuiltSlot(pm, kept, n)) && pm.slots[n] != pm.slots[|kept|];
      if GetsBitmap(kept, words, n) {
        BitmapEnds(kept, words, n, |kept|);
        assert pm.slots[n].Words() == old(pm.slots[n].Words());
      }
    }
  }

  /** The blocks a map turns into. */
  function BuiltViews(ds: seq<Descriptor>, capacity: nat, words: nat): (vs: seq<BlockView>)
    ensures |vs| == |Kept(ds, capacity)|
    ensures forall n: nat :: n < |vs| ==>
              vs[n] == InitialView(Kept(ds, capacity)[n], GetsBitmap(Kept(ds, capacity), words, n))
  {
    var kept := Kept(ds, capacity);
    seq(|kept|, n requires 0 <= n < |kept| => InitialView(kept[n], GetsBitmap(kept, words, n)))
  }

  /** The kept descriptors are members of the map, at increasing places. */
  ghost predicate Selects(ds: seq<Descriptor>, kept: seq<Descriptor>, at: seq<nat>) {
    && |at| == |kept|
    && (forall n: nat :: n < |at| ==> at[n] < |ds| && ds[at[n]] == kept[n] && kept[n].numberOfPages > 0)
    && forall m: nat, n: nat :: m < n < |at| ==> at[m] < at[n]
  }

  lemma SelectMore(ds: seq<Descriptor>, kept: seq<Descriptor>, at: seq<nat>)
    requires ds != [] && Selects(ds[..|ds| - 1], kept, at)
    ensures Selects(ds, kept, at)
    ensures ds[|ds| - 1].numberOfPages > 0 ==> Selects(ds, kept + [ds[|ds| - 1]], at + [|ds| - 1])
  {
    var shorter := ds[..|ds| - 1];
    assert forall n: nat :: n < |at| ==> shorter[at[n]] == ds[at[n]];
  }

  lemma {:induction false} KeptFrom(ds: seq<Descriptor>, capacity: nat) returns (at: seq<nat>)
    ensures Selects(ds, Kept(ds, capacity), at)
  {
    hide NonEmpty, Selects;
    if ds == [] {
      at := [];
      SelectNone(at);
    } else {
      at := KeptFrom(ds[..|ds| - 1], capacity);
      SelectMore(ds, Kept(ds[..|ds| - 1], capacity), at);
      if ds[|ds| - 1].numberOfPages != 0 && |Kept(ds[..|ds| - 1], capacity)| != capacity {
        at := at + [|ds| - 1];
      }
    }
  }

  lemma SelectNone(at: seq<nat>)
    requires at == []
    ensures Selects([], [], at)
  {
  }

  lemma KeptMapOk(ds: seq<Descriptor>, capacity: nat)
    requires MapOk(ds)
    ensures MapOk(Kept(ds, capacity))
    ensures forall n: nat :: n < |Kept(ds, capacity)| ==> Kept(ds, capacity)[n].numberOfPages > 0
  {
    hide Kept;
    var at := KeptFrom(ds, capacity);
    var kept := Kept(ds, capacity);
    forall m, n | 0 <= m < n < |kept| ensures kept[m].End() <= kept[n].physicalStart || kept[n].End() <= kept[m].physicalStart {
      assert at[m] < at[n];
      assert ds[at[m]] == kept[m] && ds[at[n]] == kept[n];
    }
  }

  lemma BuiltViewsOk(ds: seq<Descriptor>, capacity: nat, words: nat)
    requires MapOk(ds)
    ensures ValidViews(BuiltViews(ds, capacity, words))
  {
    hide Kept, WordsTaken, InitialFlags;
    KeptMapOk(ds, capacity);
    var kept, vs := Kept(ds, capacity), BuiltViews(ds, capacity, words);
    forall m, n | 0 <= m < n < |vs| ensures Disjoint(vs[m], vs[n]) {
      assert kept[m].End() <= kept[n].physicalStart || kept[n].End() <= kept[m].physicalStart;
    }
  }

  /** `build_pmm`: for any map, however it compares with the one the storage was sized from, the
      result is a valid allocator whose blocks are those of the map. */
  method BuildPmm(pm: Pmm, ds: seq<Descriptor>)
    requires pm.Shaped() && MapOk(ds)
    modifies pm`blockCount, pm.slots, pm.bitmap
    ensures pm.Valid()
    ensures pm.Views() == BuiltViews(ds, |pm.slots|, pm.bitmap.Length)
    ensures forall n: nat :: n < pm.blockCount ==> pm.slots[n].attributes == Kept(ds, |pm.slots|)[n].attribute
  {
    hide BlockIs, Kept, WordsTaken, FreshWords, MapOk, InitialFlags, GetsBitmap;
    FillSlots(pm, ds);
    BuiltIsValid(pm, ds);
  }

  lemma BuiltIsValid(pm: Pmm, ds: seq<Descriptor>)
    requires Built(pm, Kept(ds, |pm.slots|)) && MapOk(ds)
    ensures pm.Valid()
    ensures pm.Views() == BuiltViews(ds, |pm.slots|, pm.bitmap.Length)
    ensures forall n: nat :: n < pm.blockCount ==> pm.slots[n].attributes == Kept(ds, |pm.slots|)[n].attribute
  {
    hide Kept, WordsTaken, FreshWords, InitialFlags, Block.Valid, Block.View, ValidViews, CountFree;
    var kept, words := Kept(ds, |pm.slots|), pm.bitmap.Length;
    KeptMapOk(ds, |pm.slots|);
    BuiltViewsOk(ds, |pm.slots|, words);
    BuiltFits(pm, kept);
    forall n: nat | n < |kept|
      ensures pm.slots[n].attributes == kept[n].attribute
      ensures pm.slots[n].Valid() && pm.slots[n].MapFits() && pm.slots[n].View() == InitialView(kept[n], GetsBitmap(kept, words, n))
    {
      assert BuiltSlot(pm, kept, n);
      BlockIsValid(pm.slots[n], kept[n], GetsBitmap(kept, words, n), WordsTaken(kept, words, n));
    }
    forall m: nat, n: nat | m < n < |kept| ensures pm.Separate(m, n) {
      assert BuiltSlot(pm, kept, m) && BuiltSlot(pm, kept, n);
      if GetsBitmap(kept, words, m) {
        BitmapEnds(kept, words, m, n);
      }
    }
    assert pm.Views() == BuiltViews(ds, |pm.slots|, words);
  }

  lemma BuiltFits(pm: Pmm, kept: seq<Descriptor>)
    requires Built(pm, kept)
    ensures pm.Fits()
  {
    hide WordsTaken, FreshWords, InitialFlags, CountFree, GetsBitmap;
    forall n: nat | n < |kept| ensures pm.slots[n].MapFits() {
      assert BuiltSlot(pm, kept, n);
    }
  }

  // ----- the storage is large enough

  /** Words the RAM blocks among the first n kept descriptors want. */
  function WordsWanted(kept: seq<Descriptor>, n: nat): nat
    requires n <= |kept|
  {
    if n == 0 then 0
    else WordsWanted(kept, n - 1) + (if IsRamType(kept[n - 1].kind) then FrameMapSize(kept[n - 1].numberOfPages) else 0)
  }

  lemma WishGranted(kept: seq<Descriptor>, words: nat, n: nat)
    requires n < |kept| && WordsTaken(kept, words, n) == WordsWanted(kept, n) && WordsWanted(kept, n + 1) <= words
    ensures WordsTaken(kept, words, n + 1) == WordsWanted(kept, n + 1)
    ensures IsRamType(kept[n].kind) ==> GetsBitmap(kept, words, n)
  {
    hide FrameMapSize, IsRamType;
  }

  lemma NoWishes(kept: seq<Descriptor>, words: nat)
    ensures WordsTaken(kept, words, 0) == WordsWanted(kept, 0)
  {
  }

  lemma WishesGrow(kept: seq<Descriptor>, n: nat)
    requires n < |kept|
    ensures WordsWanted(kept, n) <= WordsWanted(kept, n + 1)
  {
    hide FrameMapSize, IsRamType;
  }

  /** While the wishes fit, every RAM block gets its words. */
  lemma {:induction false} WishesGranted(kept: seq<Descriptor>, words: nat, n: nat)
    requires n <= |kept| && WordsWanted(kept, n) <= words
    ensures WordsTaken(kept, words, n) == WordsWanted(kept, n)
    ensures forall m: nat :: m < n && IsRamType(kept[m].kind) ==> GetsBitmap(kept, words, m)
  {
    hide WordsTaken, WordsWanted, FrameMapSize, IsRamType, GetsBitmap;
    if n == 0 {
      NoWishes(kept, words);
    } else {
      WishesGrow(kept, n - 1);
      WishesGranted(kept, words, n - 1);
      WishGranted(kept, words, n - 1);
    }
  }

  /** Rounding up wastes at most one word a block. */
  lemma {:induction false} WishesBounded(kept: seq<Descriptor>, n: nat)
    requires n <= |kept|
    ensures 64 * WordsWanted(kept, n) <= RamFrames(kept[..n]) + 63 * n
  {
    if n > 0 {
      WishesBounded(kept, n - 1);
      assert kept[..n][..n - 1] == kept[..n - 1];
    }
  }

  /** Leaving descriptors out, or empty ones in, does not raise the number of RAM frames. */
  lemma {:induction false} KeptRamFrames(ds: seq<Descriptor>, capacity: nat)
    ensures RamFrames(Kept(ds, capacity)) <= RamFrames(ds)
  {
    if ds != [] {
      KeptRamFrames(ds[..|ds| - 1], capacity);
      var before := Kept(ds[..|ds| - 1], capacity);
      assert (before + [ds[|ds| - 1]])[..|before|] == before;
    }
  }

  /** The sizing bound of reserve_pmm: if the final map has no more RAM frames than the provisional
      one and no more non-empty descriptors than there are slots, every region gets a block and
      every RAM block a bitmap. */
  lemma SizingSuffices(provisional: seq<Descriptor>, final: seq<Descriptor>, capacity: nat, words: nat)
    requires capacity == NonEmpty(provisional) + PMM_BLOCK_SLACK && words == RamFrames(provisional) / 64 + capacity
    requires RamFrames(final) <= RamFrames(provisional) && NonEmpty(final) <= capacity
    ensures |Kept(final, capacity)| == NonEmpty(final)
    ensures forall n: nat :: n < NonEmpty(final) && IsRamType(Kept(final, capacity)[n].kind) ==>
              GetsBitmap(Kept(final, capacity), words, n)
  {
    hide RamFrames, NonEmpty, Kept, GetsBitmap;
    var kept := Kept(final, capacity);
    WishesBounded(kept, |kept|);
    KeptRamFrames(final, capacity);
    assert kept[..|kept|] == kept;
    WordsEnough(WordsWanted(kept, |kept|), RamFrames(provisional), |kept|, capacity);
    WishesGranted(kept, words, |kept|);
  }

  /** In particular with 16 more regions, as long as they bring no more RAM. */
  lemma SixteenMoreFit(provisional: seq<Descriptor>, more: seq<Descriptor>, capacity: nat, words: nat)
    requires capacity == NonEmpty(provisional) + PMM_BLOCK_SLACK && words == RamFrames(provisional) / 64 + capacity
    requires |more| <= 16 && forall i :: 0 <= i < |more| ==> more[i].kind !in {1, 2, 3, 4, 7}
    ensures var final := provisional + more;
            && |Kept(final, capacity)| == NonEmpty(final)
            && forall n: nat :: n < NonEmpty(final) && IsRamType(Kept(final, capacity)[n].kind) ==>
                 GetsBitmap(Kept(final, capacity), words, n)
  {
    hide RamFrames, NonEmpty, Kept, GetsBitmap, IsRamType;
    SizedWithMore(provisional, more);
    SizingSuffices(provisional, provisional + more, capacity, words);
  }

  lemma {:induction false} SizedWithMore(ds: seq<Descriptor>, more: seq<Descriptor>)
    requires forall i :: 0 <= i < |more| ==> more[i].kind !in {1, 2, 3, 4, 7}
    ensures RamFrames(ds + more) == RamFrames(ds) && NonEmpty(ds + more) <= NonEmpty(ds) + |more|
    decreases |more|
  {
    hide RamFrames, NonEmpty;
    if more == [] {
      assert ds + more == ds;
    } else {
      var shorter := more[..|more| - 1];
      SizedWithMore(ds, shorter);
      SizedWithOneMore(ds + shorter, more[|more| - 1]);
      assert ds + shorter + [more[|more| - 1]] == ds + more;
    }
  }

  lemma WordsEnough(wanted: nat, frames: nat, blocks: nat, capacity: nat)
    requires 64 * wanted <= frames + 63 * blocks && blocks <= capacity
    ensures wanted <= frames / 64 + capacity
  {
  }

  // ----- what starts out free

  /** A frame starts out free exactly if it lies in conventional memory that got a bitmap, and is
      not frame 0. */
  lemma FreeOnlyConventional(ds: seq<Descriptor>, capacity: nat, words: nat, a: nat)
    requires MapOk(ds)
    ensures a in FreeFrames(BuiltViews(ds, capacity, words)) <==>
              && a != 0 && a % FRAME_SIZE == 0
              && exists n: nat :: n < |Kept(ds, capacity)| && ConventionalHolds(Kept(ds, capacity), words, n, a)
  {
    hide Kept, WordsTaken, GetsBitmap, MapOk;
    KeptMapOk(ds, capacity);
    var kept, vs := Kept(ds, capacity), BuiltViews(ds, capacity, words);
    if i: nat, f: nat :| FreeAt(vs, i, f, a) {
      FreeFrameIsConventional(kept, words, i, f, a);
      assert ConventionalHolds(kept, words, i, a);
    }
    if n: nat :| n < |kept| && ConventionalHolds(kept, words, n, a) {
      if a != 0 && a % FRAME_SIZE == 0 {
        ConventionalIsFree(kept, words, n, a);
        assert FreeAt(vs, n, (a - kept[n].physicalStart) / FRAME_SIZE, a);
      }
    }
  }

  predicate ConventionalHolds(kept: seq<Descriptor>, words: nat, n: nat, a: nat)
    requires n < |kept|
  {
    && kept[n].kind == EFI_CONVENTIONAL_MEMORY && GetsBitmap(kept, words, n)
    && kept[n].physicalStart <= a < kept[n].End()
  }

  lemma FreeFrameIsConventional(kept: seq<Descriptor>, words: nat, n: nat, f: nat, a: nat)
    requires MapOk(kept) && n < |kept|
    requires var v := InitialView(kept[n], GetsBitmap(kept, words, n));
             f < |v.used| && !v.used[f] && a == v.FrameAt(f)
    ensures a != 0 && a % FRAME_SIZE == 0 && ConventionalHolds(kept, words, n, a)
  {
    hide WordsTaken, FrameMapSize;
  }

  lemma ConventionalIsFree(kept: seq<Descriptor>, words: nat, n: nat, a: nat)
    requires MapOk(kept) && n < |kept| && ConventionalHolds(kept, words, n, a) && a != 0 && a % FRAME_SIZE == 0
    ensures var v, f := InitialView(kept[n], GetsBitmap(kept, words, n)), (a - kept[n].physicalStart) / FRAME_SIZE;
            f < |v.used| && !v.used[f] && a == v.FrameAt(f)
  {
    hide WordsTaken, FrameMapSize;
  }
}
