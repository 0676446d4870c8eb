/** The physical memory manager of kernel/memory/physical.c: blocks of frames with a bitmap
    (1 = used) and a cached free count, all bitmaps carved from one storage array. */
module Physical {
  import opened Bits
  import opened FrameSpec

  /** `frame_map_size`: the bitmap words a block of this many frames needs. */
  function FrameMapSize(frameCount: nat): nat {
    (frameCount + 63) / 64
  }

  // ----- bitmap words as a row of flags

  predicate UsedBit(words: seq<uint64>, f: nat)
    requires f < 64 * |words|
  {
    Bit(words[f / 64], f % 64)
  }

  function Flags(words: seq<uint64>, total: nat): (r: seq<bool>)
    requires total <= 64 * |words|
    ensures |r| == total
    ensures forall f: nat :: f < total ==> r[f] == UsedBit(words, f)
  {
    seq(total, f requires 0 <= f < total => UsedBit(words, f))
  }

  /** The bits past the end of the block stay set. */
  ghost predicate TailSet(words: seq<uint64>, total: nat) {
    forall f: nat :: total <= f < 64 * |words| ==> UsedBit(words, f)
  }

  lemma SetFlag(words: seq<uint64>, f: nat, total: nat)
    requires f < total <= 64 * |words|
    ensures var words' := words[f / 64 := SetBit(words[f / 64], f % 64)];
            && Flags(words', total) == Flags(words, total)[f := true]
            && (TailSet(words, total) ==> TailSet(words', total))
  {
    var words' := words[f / 64 := SetBit(words[f / 64], f % 64)];
    assert forall g: nat :: g < 64 * |words| ==> (UsedBit(words', g) <==> g == f || UsedBit(words, g));
  }

  lemma ClearFlag(words: seq<uint64>, f: nat, total: nat)
    requires f < total <= 64 * |words|
    ensures var words' := words[f / 64 := ClearBit(words[f / 64], f % 64)];
            && Flags(words', total) == Flags(words, total)[f := false]
            && (TailSet(words, total) ==> TailSet(words', total))
  {
    var words' := words[f / 64 := ClearBit(words[f / 64], f % 64)];
    assert forall g: nat :: g < 64 * |words| ==> (UsedBit(words', g) <==> g != f && UsedBit(words, g));
  }

  lemma FullWord(words: seq<uint64>, entry: nat)
    requires entry < |words| && words[entry] == ALL_ONES
    requires forall f: nat :: f < 64 * entry ==> UsedBit(words, f)
    ensures forall f: nat :: f < 64 * (entry + 1) ==> UsedBit(words, f)
  {
    forall f: nat | 64 * entry <= f < 64 * (entry + 1) ensures UsedBit(words, f) {
      BitOfAllOnes(f % 64);
    }
  }

  lemma LowestIsFree(words: seq<uint64>, total: nat, entry: nat, bit: nat)
    requires total <= 64 * |words| && TailSet(words, total) && entry < |words| && bit < 64
    requires forall f: nat :: f < 64 * entry ==> UsedBit(words, f)
    requires forall b: nat :: b < bit ==> Bit(words[entry], b)
    requires !Bit(words[entry], bit)
    ensures entry * 64 + bit < total
    ensures LowestFreeRun(Flags(words, total), entry * 64 + bit, 1)
  {
    hide Bit;
    var f := entry * 64 + bit;
    assert !UsedBit(words, f);
    forall g: nat | g < f ensures UsedBit(words, g) {
      if g >= 64 * entry {
        assert g / 64 == entry && g % 64 < bit;
      }
    }
    var used := Flags(words, total);
    forall s: nat | s < f ensures !IsFreeRun(used, s, 1) {
      assert used[s];
    }
  }

  lemma AllUsed(v: BlockView, words: seq<uint64>)
    requires v.total <= 64 * |words| && v.used == Flags(words, v.total)
    requires forall f: nat :: f < v.total ==> UsedBit(words, f)
    ensures BlockAllocated(v, v, 1, NO_FRAME)
  {
    hide UsedBit;
    TakesNothing(v, 1) by {
      forall start: nat | start + 1 <= |v.used| ensures !IsFreeRun(v.used, start, 1) {
        assert v.used[start];
      }
    }
  }

  // ----- pm_block

  /** `uint64_t *map`: NULL, or a pointer to word `first` of the bitmap storage. */
  datatype BitmapPointer = Null | Into(first: nat)

  class Block {
    const storage: array<uint64>
    var address: nat
    var framesTotal: nat
    var framesFree: nat
    var bitmap: BitmapPointer
    var kind: PmType
    var attributes: uint64

    constructor (storage: array<uint64>)
      ensures this.storage == storage
    {
      this.storage := storage;
      address, framesTotal, framesFree, bitmap, kind, attributes := 0, 0, 0, Null, Reserved, 0;
    }

    /** The part of the storage this block's bitmap occupies. */
    ghost predicate MapFits()
      reads `framesTotal, `bitmap
    {
      bitmap.Into? ==> bitmap.first + FrameMapSize(framesTotal) <= storage.Length
    }

    ghost function Words(): seq<uint64>
      requires MapFits()
      reads `address, `framesTotal, `bitmap, `kind, storage
    {
      if bitmap.Null? then [] else storage[bitmap.first..bitmap.first + FrameMapSize(framesTotal)]
    }

    ghost function View(): (v: BlockView)
      requires MapFits()
      reads `address, `framesTotal, `bitmap, `kind, storage
      ensures |v.used| == if bitmap.Null? then 0 else framesTotal
    {
      BlockView(address, framesTotal, kind, bitmap.Into?, if bitmap.Null? then [] else Flags(Words(), framesTotal))
    }

    /** `block->map == NULL || block->frames_free < count` */
    predicate Lacks(count: nat)
      reads `bitmap, `framesFree
    {
      bitmap.Null? || framesFree < count
    }

    ghost predicate WellFormed()
      reads `address, `framesTotal, `bitmap, `kind, storage
    {
      && MapFits()
      && View().Valid()
      && (bitmap.Into? ==> TailSet(Words(), framesTotal))
    }

    /** The allocator invariant of one block: the cached count is right and the tail is marked used. */
    ghost predicate Valid()
      reads this, storage
    {
      WellFormed() && framesFree == CountFree(View().used)
    }

    /** Compared with the earlier storage contents, only this block's own words differ. */
    ghost predicate KeepsOtherWords(before: seq<uint64>)
      reads `framesTotal, `bitmap, storage
    {
      && |before| == storage.Length
      && forall k :: 0 <= k < |before| &&
           !(bitmap.Into? && bitmap.first <= k < bitmap.first + FrameMapSize(framesTotal))
           ==> storage[k] == before[k]
    }

    lemma WordOfFrame(f: nat)
      requires MapFits() && bitmap.Into? && f < framesTotal
      ensures f / 64 < FrameMapSize(framesTotal) == |Words()|
      ensures bitmap.first + f / 64 < storage.Length
      ensures storage[bitmap.first + f / 64] == Words()[f / 64]
    {
    }

    /** `block->map[f / 64] |= 1ULL << (f % 64)` */
    method Mark(f: nat)
      requires WellFormed() && bitmap.Into? && f < framesTotal
      modifies storage
      ensures WellFormed() && View() == old(View()).(used := old(View().used)[f := true])
      ensures KeepsOtherWords(old(storage[..]))
    {
      ghost var words := Words();
      WordOfFrame(f);
      SetFlag(words, f, framesTotal);
      var at := bitmap.first + f / 64;
      storage[at] := SetBit(storage[at], f % 64);
      assert Words() == words[f / 64 := SetBit(words[f / 64], f % 64)];
    }

    /** `block->map[f / 64] &= ~(1ULL << (f % 64))` */
    method Unmark(f: nat)
      requires WellFormed() && bitmap.Into? && f < framesTotal
      modifies storage
      ensures WellFormed() && View() == old(View()).(used := old(View().used)[f := false])
      ensures KeepsOtherWords(old(storage[..]))
    {
      ghost var words := Words();
      WordOfFrame(f);
      ClearFlag(words, f, framesTotal);
      var at := bitmap.first + f / 64;
      storage[at] := ClearBit(storage[at], f % 64);
      assert Words() == words[f / 64 := ClearBit(words[f / 64], f % 64)];
    }

    /** Claims one frame and counts it. */
    method Take(f: nat)
      requires Valid() && bitmap.Into? && LowestFreeRun(View().used, f, 1)
      modifies this`framesFree, storage
      ensures Valid() && KeepsOtherWords(old(storage[..]))
      ensures RunTaken(old(View()), View(), f, 1, address + f * FRAME_SIZE)
      ensures address + f * FRAME_SIZE != NO_FRAME
    {
      hide CountFree, LowestFreeRun, TailSet, Flags;
      ghost var v := View();
      TakeRun(v, f, 1);
      assert v.used[f := true] == Claim(v.used, f, 1);
      Mark(f);
      framesFree := framesFree - 1;
    }

    /** `frame_allocate_from_block` */
    method AllocateFrame() returns (frame: nat)
      requires Valid() && bitmap.Into?
      modifies this`framesFree, storage
      ensures Valid() && KeepsOtherWords(old(storage[..]))
      ensures BlockAllocated(old(View()), View(), 1, frame)
    {
      hide Bit, Shr, And, Shl, Or, Pow2, CountFree, LowestFreeRun, TailSet, Flags, UsedBit;
      ghost var v := View();
      var entry := 0;
      while entry < FrameMapSize(framesTotal)
        invariant entry <= FrameMapSize(framesTotal)
        invariant unchanged(this) && storage[..] == old(storage[..]) && View() == v
        invariant forall f: nat :: f < 64 * entry ==> UsedBit(Words(), f)
      {
        var w := storage[bitmap.first + entry];
        assert w == Words()[entry];
        if w == ALL_ONES {
          FullWord(Words(), entry);
          entry := entry + 1;
          continue;
        }
        var bit := 0;
        while bit < 64
          invariant bit <= 64
          invariant unchanged(this) && storage[..] == old(storage[..]) && View() == v
          invariant forall b: nat :: b < bit ==> Bit(w, b)
        {
          TestBit(w, bit);
          if And(w, Shl(1, bit)) != 0 {
            bit := bit + 1;
            continue;
          }
          var frameOffset := entry * 64 + bit;
          LowestIsFree(Words(), framesTotal, entry, bit);
          Take(frameOffset);
          return address + frameOffset * FRAME_SIZE;
        }
        var c := HasClearBit(w);
        assert false;
      }
      AllUsed(v, Words());
      return NO_FRAME;
    }

    /** `frame_free_from_block` */
    method FreeFrame(frame: nat)
      requires Valid() && address <= frame < address + framesTotal * FRAME_SIZE
      modifies this`framesFree, storage
      ensures Valid() && KeepsOtherWords(old(storage[..]))
      ensures View() == BlockReleased(old(View()), frame)
    {
      hide Shr, And, Shl, Or, Pow2, CountFree;
      if bitmap.Null? {
        return;
      }
      var offset := frame - address;
      var frameOffset := offset / FRAME_SIZE;
      CountFreeUpdate(View().used, frameOffset, false);
      if FrameIsSet(frameOffset) {
        framesFree := framesFree + 1;
      }
      Unmark(frameOffset);
    }

    /** `block->map[f / 64] & (1ULL << (f % 64))` */
    predicate FrameIsSet(f: nat): (r: bool)
      requires MapFits() && bitmap.Into? && f < framesTotal
      reads this, storage
      ensures r == View().used[f]
    {
      WordOfFrame(f);
      TestBit(storage[bitmap.first + f / 64], f % 64);
      And(storage[bitmap.first + f / 64], Shl(1, f % 64)) != 0
    }

    /** `frame_is_used` */
    predicate FrameIsUsed(f: nat): (r: bool)
      requires MapFits() && bitmap.Into? && f < framesTotal
      reads this, storage
      ensures r == View().used[f]
    {
      WordOfFrame(f);
      AndLowMask(Shr(storage[bitmap.first + f / 64], f % 64), 1);
      And(Shr(storage[bitmap.first + f / 64], f % 64), 1) != 0
    }

    /** `frames_allocate_from_block` */
    method AllocateFrames(count: nat) returns (frame: nat)
      requires Valid() && bitmap.Into? && count > 0
      modifies this`framesFree, storage
      ensures Valid() && KeepsOtherWords(old(storage[..]))
      ensures BlockAllocated(old(View()), View(), count, frame)
    {
      hide Bit, Shr, And, Shl, Or, Pow2, CountFree, LowestFreeRun, TailSet, Flags, Scanned, IsFreeRun, UsedBit, Claim,
        FrameMapSize, CountFree;
      ghost var v := View();
      ScanStart(v.used, count);
      var runStart, runLength := 0, 0;
      var f := 0;
      while f < framesTotal
        invariant f <= framesTotal && runLength <= f
        invariant Scanned(v.used, count, f, runLength)
        invariant unchanged(this) && storage[..] == old(storage[..]) && View() == v
        invariant runLength > 0 ==> runStart == f - runLength
      {
        if FrameIsUsed(f) {
          ScanUsedFrame(v.used, count, f, runLength);
          runLength := 0;
          f := f + 1;
          continue;
        }
        ScanFreeFrame(v.used, count, f, runLength);
        if runLength == 0 {
          runStart := f;
        }
        runLength := runLength + 1;
        if runLength < count {
          f := f + 1;
          continue;
        }
        ClaimRun(runStart, count);
        return address + runStart * FRAME_SIZE;
      }
      ScanFailed(v, count, f, runLength);
      return NO_FRAME;
    }

    /** The claiming loop of `frames_allocate_from_block`, and the count that goes with it. */
    method ClaimRun(start: nat, count: nat)
      requires Valid() && bitmap.Into? && count > 0 && LowestFreeRun(View().used, start, count)
      modifies this`framesFree, storage
      ensures Valid() && KeepsOtherWords(old(storage[..]))
      ensures RunTaken(old(View()), View(), start, count, address + start * FRAME_SIZE)
      ensures address + start * FRAME_SIZE != NO_FRAME
    {
      hide CountFree, LowestFreeRun, TailSet, Flags;
      ghost var v := View();
      TakeRun(v, start, count);
      var f := start;
      assert Claim(v.used, start, 0) == v.used;
      while f < start + count
        invariant start <= f <= start + count
        invariant WellFormed() && KeepsOtherWords(old(storage[..]))
        invariant framesFree == old(framesFree)
        invariant View() == v.(used := Claim(v.used, start, f - start))
      {
        Mark(f);
        assert View().used == Claim(v.used, start, f + 1 - start);
        f := f + 1;
      }
      framesFree := framesFree - count;
    }
  }

  // ----- pmm

  class Pmm {
    const bitmap: array<uint64>
    /** Every slot of the storage; the first `blockCount` are in use. */
    const slots: seq<Block>
    var blockCount: nat

    constructor (bitmap: array<uint64>, slots: seq<Block>)
      ensures this.bitmap == bitmap && this.slots == slots && blockCount == 0
    {
      this.bitmap, this.slots, blockCount := bitmap, slots, 0;
    }

    /** The storage is laid out properly: separate slots, all drawing on the one bitmap. */
    ghost predicate Shaped()
      reads this
    {
      && blockCount <= |slots|
      && (forall i :: 0 <= i < |slots| ==> slots[i].storage == bitmap)
      && (forall i, j :: 0 <= i < j < |slots| ==> slots[i] != slots[j])
    }

    /** The bitmaps of different blocks do not overlap. */
    ghost predicate Separate(i: nat, j: nat)
      requires i < |slots| && j < |slots|
      reads slots
    {
      && slots[i].bitmap.Into?
      && slots[j].bitmap.Into?
      ==>
      || slots[i].bitmap.first + FrameMapSize(slots[i].framesTotal) <= slots[j].bitmap.first
      || slots[j].bitmap.first + FrameMapSize(slots[j].framesTotal) <= slots[i].bitmap.first
    }

    ghost predicate Fits()
      reads this, slots
      ensures Fits() ==> blockCount <= |slots|
    {
      && Shaped()
      && forall i :: 0 <= i < blockCount ==> slots[i].MapFits()
    }

    ghost function Views(): (vs: seq<BlockView>)
      requires Fits()
      reads this, slots, bitmap
      ensures |vs| == blockCount
      ensures forall i :: 0 <= i < |vs| ==> vs[i] == slots[i].View()
    {
      seq(blockCount, i requires 0 <= i < blockCount && Fits() reads this, slots, bitmap => slots[i].View())
    }

    /** The allocator invariant: every block valid, regions and bitmaps pairwise disjoint. */
    ghost predicate Valid()
      reads this, slots, bitmap
      ensures Valid() ==> Fits() && ValidViews(Views())
    {
      && Fits()
      && (forall i :: 0 <= i < blockCount ==> slots[i].Valid())
      && (forall i, j :: 0 <= i < j < blockCount ==> Separate(i, j))
      && ValidViews(Views())
    }

    /** After block i alone changed, keeping to its own words, the other blocks are as they were. */
    twostate predicate SameFields(j: nat)
      requires j < |slots|
      reads slots
    {
      && slots[j].address == old(slots[j].address)
      && slots[j].framesTotal == old(slots[j].framesTotal)
      && slots[j].framesFree == old(slots[j].framesFree)
      && slots[j].bitmap == old(slots[j].bitmap)
      && slots[j].kind == old(slots[j].kind)
      && slots[j].attributes == old(slots[j].attributes)
    }

    /** Writing block i's own words leaves every other block as it was. */
    twostate lemma OthersKept(i: nat)
      requires old(Valid()) && i < blockCount == old(blockCount)
      requires slots[i].framesTotal == old(slots[i].framesTotal) && slots[i].bitmap == old(slots[i].bitmap)
      requires forall j: nat :: j < |slots| && j != i ==> SameFields(j)
      requires slots[i].KeepsOtherWords(old(bitmap[..]))
      ensures forall j: nat :: j < blockCount && j != i ==>
                slots[j].Valid() && slots[j].View() == old(slots[j].View())
    {
      hide Flags, TailSet, CountFree;
      forall j: nat | j < blockCount && j != i
        ensures slots[j].Valid() && slots[j].View() == old(slots[j].View())
      {
        assert SameFields(j) && old(slots[j].Valid());
        assert old(if i < j then Separate(i, j) else Separate(j, i));
        assert slots[j].MapFits();
        assert slots[j].Words() == old(slots[j].Words());
      }
    }

    twostate lemma OthersShape(i: nat)
      requires old(Valid()) && i < blockCount == old(blockCount)
      requires forall j :: 0 <= j < |slots| ==> slots[j].framesTotal == old(slots[j].framesTotal)
      requires forall j :: 0 <= j < |slots| ==> slots[j].bitmap == old(slots[j].bitmap)
      requires Fits()
      requires forall j :: 0 <= j < blockCount && j != i ==> slots[j].View() == old(slots[j].View())
      requires forall j :: 0 <= j < blockCount ==> slots[j].Valid()
      requires slots[i].View() == old(slots[i].View()).(used := slots[i].View().used)
      requires |slots[i].View().used| == |old(slots[i].View()).used|
      ensures Valid()
      ensures Views() == old(Views())[i := slots[i].View()]
    {
      forall j, k | 0 <= j < k < blockCount ensures Separate(j, k) {
        assert old(Separate(j, k));
      }
      ShapeIsKept(old(Views()), Views());
    }

    ghost function Free(): (s: set<nat>)
      requires Fits()
      reads this, slots, bitmap
    {
      FreeFrames(Views())
    }

    lemma SlotView(i: nat)
      requires Valid() && i < blockCount
      ensures Views()[i].address == slots[i].address
      ensures Views()[i].End() == slots[i].address + slots[i].framesTotal * FRAME_SIZE
      ensures Views()[i].kind == slots[i].kind
      ensures slots[i].framesFree > 0 ==> slots[i].bitmap.Into?
    {
    }

    /** The cached count rules a block out only when it has no run of that length. */
    lemma RuledOut(i: nat, count: nat)
      requires Valid() && i < blockCount
      requires slots[i].Lacks(count) && count > 0
      ensures NoFreeRun(Views()[i].used, count)
    {
      RunNeedsFrames(Views()[i].used, count);
    }

    /** One frame from block i, seen from the whole manager. */
    method AllocateFrameIn(i: nat) returns (frame: nat)
      requires Valid() && i < blockCount && slots[i].bitmap.Into?
      modifies slots`framesFree, bitmap
      ensures Valid() && |Views()| == |old(Views())|
      ensures BlockAllocated(old(Views())[i], Views()[i], 1, frame)
      ensures frame == NO_FRAME ==> Views() == old(Views()) && NoFreeRun(Views()[i].used, 1)
      ensures Views() == old(Views())[i := Views()[i]]
    {
      hide NoFreeRun, CountFree, Flags, TailSet;
      frame := slots[i].AllocateFrame();
      BlockAllocatedShape(old(slots[i].View()), slots[i].View(), 1, frame);
      OthersKept(i);
      OthersShape(i);
    }

    /** A contiguous run from block i, seen from the whole manager. */
    method AllocateFramesIn(i: nat, count: nat) returns (frame: nat)
      requires Valid() && i < blockCount && !slots[i].Lacks(count) && count > 0
      modifies slots`framesFree, bitmap
      ensures Valid() && |Views()| == |old(Views())|
      ensures BlockAllocated(old(Views())[i], Views()[i], count, frame)
      ensures frame == NO_FRAME ==> Views() == old(Views()) && NoFreeRun(Views()[i].used, count)
      ensures Views() == old(Views())[i := Views()[i]]
    {
      hide NoFreeRun, CountFree, Flags, TailSet;
      frame := slots[i].AllocateFrames(count);
      BlockAllocatedShape(old(slots[i].View()), slots[i].View(), count, frame);
      OthersKept(i);
      OthersShape(i);
    }

    /** `frame_allocate` */
    method AllocateFrame() returns (frame: nat)
      requires Valid()
      modifies slots`framesFree, bitmap
      ensures Valid() && Allocated(old(Views()), Views(), 1, frame)
    {
      hide Valid, Fits, ValidViews, CountFree, NoFreeRun, BlockAllocated, Allocated;
      ghost var before := Views();
      var i := 0;
      while i < blockCount
        invariant i <= blockCount
        invariant Valid() && Views() == before
        invariant forall j :: 0 <= j < i ==> NoFreeRun(before[j].used, 1)
      {
        if slots[i].framesFree == 0 {
          RuledOut(i, 1);
          i := i + 1;
          continue;
        }
        SlotView(i);
        frame := AllocateFrameIn(i);
        if frame != NO_FRAME {
          FoundIn(before, Views(), i, 1, frame);
          return;
        }
        i := i + 1;
      }
      FoundNowhere(before, 1);
      return NO_FRAME;
    }

    /** `frames_allocate` */
    method AllocateFrames(count: nat) returns (frame: nat)
      requires Valid()
      modifies slots`framesFree, bitmap
      ensures Valid()
      ensures count == 0 ==> frame == NO_FRAME && Views() == old(Views())
      ensures count > 0 ==> Allocated(old(Views()), Views(), count, frame)
    {
      hide Block.Lacks, Valid, Fits, ValidViews, CountFree, NoFreeRun, BlockAllocated, Allocated;
      if count == 0 {
        return NO_FRAME;
      }
      ghost var before := Views();
      var i := 0;
      while i < blockCount
        invariant i <= blockCount
        invariant Valid() && Views() == before
        invariant forall j: nat :: j < i ==> NoFreeRun(before[j].used, count)
      {
        if slots[i].Lacks(count) {
          RuledOut(i, count);
          i := i + 1;
          continue;
        }
        frame := AllocateFramesIn(i, count);
        if frame != NO_FRAME {
          FoundIn(before, Views(), i, count, frame);
          return;
        }
        i := i + 1;
      }
      FoundNowhere(before, count);
      return NO_FRAME;
    }

    /** Release within block i, seen from the whole manager. */
    method FreeFrameIn(i: nat, frame: nat)
      requires Valid() && i < blockCount && InBlock(Views()[i], frame)
      modifies slots`framesFree, bitmap
      ensures Valid() && Released(old(Views()), Views(), frame)
    {
      hide CountFree, Flags, TailSet;
      SlotView(i);
      OnlyOneBlockHolds(Views(), i, frame);
      slots[i].FreeFrame(frame);
      OthersKept(i);
      OthersShape(i);
    }

    /** `frame_free` */
    method FreeFrame(frame: nat)
      requires Valid()
      modifies slots`framesFree, bitmap
      ensures Valid() && Released(old(Views()), Views(), frame)
    {
      hide Valid, Fits, ValidViews, CountFree, NoFreeRun, BlockAllocated;
      ghost var before := Views();
      var i := 0;
      while i < blockCount
        invariant i <= blockCount
        invariant Valid() && Views() == before
        invariant forall j :: 0 <= j < i ==> !InBlock(before[j], frame)
      {
        SlotView(i);
        var end := slots[i].address + slots[i].framesTotal * FRAME_SIZE;
        if frame >= slots[i].address && frame < end {
          FreeFrameIn(i, frame);
          return;
        }
        i := i + 1;
      }
    }
  }
}
