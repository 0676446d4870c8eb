/** What the frame allocator means: each block as a row of used/free flags, allocation as
    first fit over those rows, and the set of free frame addresses they stand for. */
module FrameSpec {

  const FRAME_SIZE := 4096
  /** What an allocation returns when it fails; larger than every frame address. */
  const NO_FRAME := 0xFFFF_FFFF_FFFF_FFFF
  /** Physical addresses have 52 bits. */
  const PHYS_LIMIT := 0x10_0000_0000_0000

  datatype PmType = Usable | Reclaimable | AcpiReclaim | AcpiNvs | Firmware | Mmio | Reserved

  /** A block of frames; `used` has one flag per frame, and none if the block has no bitmap. */
  datatype BlockView = BlockView(address: nat, total: nat, kind: PmType, managed: bool, used: seq<bool>)
  {
    function End(): nat {
      address + total * FRAME_SIZE
    }

    function FrameAt(f: nat): nat {
      address + f * FRAME_SIZE
    }

    predicate Valid() {
      && address % FRAME_SIZE == 0
      && End() <= PHYS_LIMIT
      && |used| == (if managed then total else 0)
      && (managed ==> kind == Usable || kind == Reclaimable)
    }
  }

  predicate Disjoint(v: BlockView, w: BlockView) {
    v.End() <= w.address || w.End() <= v.address
  }

  ghost predicate ValidViews(vs: seq<BlockView>) {
    && (forall i :: 0 <= i < |vs| ==> vs[i].Valid())
    && (forall i, j :: 0 <= i < j < |vs| ==> Disjoint(vs[i], vs[j]))
  }

  // ----- counting free frames

  function CountFree(used: seq<bool>): nat {
    if used == [] then 0
    else CountFree(used[..|used| - 1]) + (if used[|used| - 1] then 0 else 1)
  }

  lemma {:induction false} CountFreeUpdate(used: seq<bool>, f: nat, b: bool)
    requires f < |used|
    ensures CountFree(used[f := b]) ==
            CountFree(used) + (if used[f] then 1 else 0) - (if b then 1 else 0)
  {
    var n := |used| - 1;
    var used' := used[f := b];
    if f == n {
      assert used'[..n] == used[..n];
    } else {
      assert used'[..n] == used[..n][f := b];
      CountFreeUpdate(used[..n], f, b);
    }
  }

  lemma {:induction false} CountFreePositive(used: seq<bool>)
    ensures CountFree(used) == 0 <==> forall f :: 0 <= f < |used| ==> used[f]
  {
    if used != [] {
      var n := |used| - 1;
      CountFreePositive(used[..n]);
      assert CountFree(used[..n]) == 0 ==> forall f :: 0 <= f < n ==> used[..n][f];
      assert forall f :: 0 <= f < n ==> used[..n][f] == used[f];
    }
  }

  lemma {:induction false} CountFreeBounds(used: seq<bool>)
    ensures CountFree(used) <= |used|
  {
    if used != [] {
      CountFreeBounds(used[..|used| - 1]);
    }
  }

  // ----- runs of free frames

  predicate IsFreeRun(used: seq<bool>, start: nat, count: nat) {
    start + count <= |used| && forall f :: start <= f < start + count ==> !used[f]
  }

  ghost predicate NoFreeRun(used: seq<bool>, count: nat) {
    forall start: nat :: !IsFreeRun(used, start, count)
  }

  ghost predicate LowestFreeRun(used: seq<bool>, start: nat, count: nat) {
    IsFreeRun(used, start, count) && forall s: nat :: s < start ==> !IsFreeRun(used, s, count)
  }

  /** The flags after the frames start .. start + count are taken. */
  function Claim(used: seq<bool>, start: nat, count: nat): (r: seq<bool>)
    ensures |r| == |used|
    ensures forall f :: 0 <= f < |used| ==> r[f] == (used[f] || start <= f < start + count)
  {
    seq(|used|, f requires 0 <= f < |used| => used[f] || start <= f < start + count)
  }

  lemma {:induction false} CountAfterClaim(used: seq<bool>, start: nat, count: nat)
    requires IsFreeRun(used, start, count)
    ensures CountFree(Claim(used, start, count)) == CountFree(used) - count
  {
    if count == 0 {
      assert Claim(used, start, 0) == used;
    } else {
      var before := Claim(used, start, count - 1);
      CountAfterClaim(used, start, count - 1);
      assert Claim(used, start, count) == before[start + count - 1 := true];
      CountFreeUpdate(before, start + count - 1, true);
    }
  }

  /** A block with fewer free frames than requested cannot hold the run. */
  lemma RunNeedsFrames(used: seq<bool>, count: nat)
    requires CountFree(used) < count
    ensures NoFreeRun(used, count)
  {
    forall start: nat ensures !IsFreeRun(used, start, count) {
      if IsFreeRun(used, start, count) {
        CountAfterClaim(used, start, count);
        assert false;
      }
    }
  }

  // ----- the contiguous scan

  /** The scan of frames_allocate_from_block after `f` frames: the current run of free frames has
      length `runLength`, is maximal to the left, and no run of `count` frames ends before `f`. */
  ghost predicate Scanned(used: seq<bool>, count: nat, f: nat, runLength: nat) {
    && runLength <= f <= |used| && runLength < count
    && IsFreeRun(used, f - runLength, runLength)
    && (f > runLength ==> used[f - runLength - 1])
    && forall s: nat :: s + count <= f ==> !IsFreeRun(used, s, count)
  }

  lemma ScanStart(used: seq<bool>, count: nat)
    requires count > 0
    ensures Scanned(used, count, 0, 0)
  {
  }

  lemma ScanUsedFrame(used: seq<bool>, count: nat, f: nat, runLength: nat)
    requires Scanned(used, count, f, runLength) && f < |used| && used[f]
    ensures Scanned(used, count, f + 1, 0)
  {
  }

  lemma ScanFreeFrame(used: seq<bool>, count: nat, f: nat, runLength: nat)
    requires Scanned(used, count, f, runLength) && f < |used| && !used[f]
    ensures if runLength + 1 < count then Scanned(used, count, f + 1, runLength + 1)
            else LowestFreeRun(used, f - runLength, count)
  {
    forall s: nat | s + count == f + 1 && s < f - runLength ensures !IsFreeRun(used, s, count) {
      assert s <= f - runLength - 1 < s + count;
    }
  }

  // ----- allocation and release

  /** `after` is `before` with the lowest run of `count` free frames of the block taken, and
      `address` is its first frame; or there is no such run and nothing changed. */
  ghost predicate BlockAllocated(before: BlockView, after: BlockView, count: nat, address: nat) {
    if address == NO_FRAME then
      after == before && NoFreeRun(before.used, count)
    else
      exists start: nat :: RunTaken(before, after, start, count, address)
  }

  ghost predicate RunTaken(before: BlockView, after: BlockView, start: nat, count: nat, address: nat) {
    && LowestFreeRun(before.used, start, count)
    && after == before.(used := Claim(before.used, start, count))
    && address == before.FrameAt(start)
  }

  lemma TakeRun(before: BlockView, start: nat, count: nat)
    requires before.Valid() && count > 0 && LowestFreeRun(before.used, start, count)
    ensures start + count <= |before.used| && CountFree(before.used) >= count
    ensures var after := before.(used := Claim(before.used, start, count));
            && CountFree(after.used) == CountFree(before.used) - count
            && before.FrameAt(start) != NO_FRAME
            && RunTaken(before, after, start, count, before.FrameAt(start))
  {
    CountAfterClaim(before.used, start, count);
  }

  lemma TakesNothing(v: BlockView, count: nat)
    requires forall start: nat :: start + count <= |v.used| ==> !IsFreeRun(v.used, start, count)
    ensures BlockAllocated(v, v, count, NO_FRAME)
  {
  }

  lemma ScanFailed(v: BlockView, count: nat, f: nat, runLength: nat)
    requires Scanned(v.used, count, f, runLength) && f == |v.used|
    ensures BlockAllocated(v, v, count, NO_FRAME)
  {
    TakesNothing(v, count);
  }

  lemma BlockAllocatedShape(before: BlockView, after: BlockView, count: nat, address: nat)
    requires BlockAllocated(before, after, count, address)
    ensures |after.used| == |before.used| && after == before.(used := after.used)
  {
  }

  ghost predicate FromBlock(before: seq<BlockView>, after: seq<BlockView>, i: nat, count: nat, address: nat) {
    && i < |before| == |after|
    && address != NO_FRAME
    && (forall j :: 0 <= j < i ==> NoFreeRun(before[j].used, count))
    && BlockAllocated(before[i], after[i], count, address)
    && (forall j :: 0 <= j < |before| && j != i ==> after[j] == before[j])
  }

  /** First fit over all blocks: the first block that has a run gives its lowest one. */
  ghost predicate Allocated(before: seq<BlockView>, after: seq<BlockView>, count: nat, address: nat) {
    if address == NO_FRAME then
      after == before && forall i :: 0 <= i < |before| ==> NoFreeRun(before[i].used, count)
    else
      exists i: nat :: FromBlock(before, after, i, count, address)
  }

  lemma FoundIn(before: seq<BlockView>, after: seq<BlockView>, i: nat, count: nat, address: nat)
    requires i < |before| == |after| && address != NO_FRAME
    requires forall j :: 0 <= j < i ==> NoFreeRun(before[j].used, count)
    requires BlockAllocated(before[i], after[i], count, address)
    requires after == before[i := after[i]]
    ensures Allocated(before, after, count, address)
  {
    assert FromBlock(before, after, i, count, address);
  }

  lemma FoundNowhere(vs: seq<BlockView>, count: nat)
    requires forall j :: 0 <= j < |vs| ==> NoFreeRun(vs[j].used, count)
    ensures Allocated(vs, vs, count, NO_FRAME)
  {
  }

  lemma SuccessShowsRun(before: seq<BlockView>, after: seq<BlockView>, count: nat, address: nat)
    requires Allocated(before, after, count, address) && address != NO_FRAME
    ensures exists i :: 0 <= i < |before| && !NoFreeRun(before[i].used, count)
  {
    var i: nat :| FromBlock(before, after, i, count, address);
    var start: nat :| RunTaken(before[i], after[i], start, count, address);
    assert IsFreeRun(before[i].used, start, count);
  }

  /** First fit leaves no choice: the answer and the new state are determined. */
  lemma AllocationIsDetermined(before: seq<BlockView>, after1: seq<BlockView>, after2: seq<BlockView>,
                               count: nat, address1: nat, address2: nat)
    requires Allocated(before, after1, count, address1)
    requires Allocated(before, after2, count, address2)
    ensures address1 == address2 && after1 == after2
  {
    assert address1 == NO_FRAME <==> address2 == NO_FRAME by {
      if address1 != NO_FRAME {
        SuccessShowsRun(before, after1, count, address1);
      }
      if address2 != NO_FRAME {
        SuccessShowsRun(before, after2, count, address2);
      }
    }
    if address1 != NO_FRAME {
      var i: nat :| FromBlock(before, after1, i, count, address1);
      var j: nat :| FromBlock(before, after2, j, count, address2);
      var s1: nat :| RunTaken(before[i], after1[i], s1, count, address1);
      var s2: nat :| RunTaken(before[j], after2[j], s2, count, address2);
      assert IsFreeRun(before[i].used, s1, count);
      assert IsFreeRun(before[j].used, s2, count);
      assert i == j;
      assert s1 == s2;
      assert forall k :: 0 <= k < |before| ==> after1[k] == after2[k];
    }
  }

  predicate InBlock(v: BlockView, address: nat) {
    v.address <= address < v.End()
  }

  /** Releasing does nothing to a block that lacks a bitmap or does not hold the address. */
  function BlockReleased(v: BlockView, address: nat): BlockView {
    if InBlock(v, address) && (address - v.address) / FRAME_SIZE < |v.used|
    then v.(used := v.used[(address - v.address) / FRAME_SIZE := false])
    else v
  }

  /** The flag of the frame holding `address` is cleared, if some block with a bitmap holds it. */
  ghost predicate Released(before: seq<BlockView>, after: seq<BlockView>, address: nat) {
    && |after| == |before|
    && forall i :: 0 <= i < |before| ==>
         after[i] == BlockReleased(before[i], address)
  }

  lemma OnlyOneBlockHolds(vs: seq<BlockView>, i: nat, address: nat)
    requires ValidViews(vs) && i < |vs| && InBlock(vs[i], address)
    ensures forall j :: 0 <= j < |vs| && j != i ==> !InBlock(vs[j], address)
  {
    forall j | 0 <= j < |vs| && j != i ensures !InBlock(vs[j], address) {
      assert if i < j then Disjoint(vs[i], vs[j]) else Disjoint(vs[j], vs[i]);
    }
  }

  // ----- the free set

  ghost predicate FreeAt(vs: seq<BlockView>, i: nat, f: nat, address: nat) {
    i < |vs| && f < |vs[i].used| && !vs[i].used[f] && address == vs[i].FrameAt(f)
  }

  ghost predicate IsFree(vs: seq<BlockView>, address: nat) {
    exists i: nat, f: nat :: FreeAt(vs, i, f, address)
  }

  ghost function FreeFrames(vs: seq<BlockView>): (s: set<nat>)
    ensures forall a: nat :: a in s <==> IsFree(vs, a)
  {
    var s := set i: nat, f: nat | i < |vs| && f < |vs[i].used| && !vs[i].used[f] :: vs[i].FrameAt(f);
    assert forall i: nat, f: nat, a: nat :: FreeAt(vs, i, f, a) ==> a in s;
    assert forall a :: a in s ==> IsFree(vs, a) by {
      forall a | a in s ensures IsFree(vs, a) {
        var i: nat, f: nat :| i < |vs| && f < |vs[i].used| && !vs[i].used[f] && a == vs[i].FrameAt(f);
        assert FreeAt(vs, i, f, a);
      }
    }
    s
  }

  /** The frames the allocator can ever hand out: those of the blocks with a bitmap. */
  ghost predicate IsManaged(vs: seq<BlockView>, address: nat) {
    exists i: nat, f: nat :: i < |vs| && f < |vs[i].used| && address == vs[i].FrameAt(f)
  }

  predicate InRun(address: nat, first: nat, count: nat) {
    first <= address < first + count * FRAME_SIZE && (address - first) % FRAME_SIZE == 0
  }

  /** No frame address belongs to two blocks. */
  lemma FrameIsUnique(vs: seq<BlockView>, i: nat, f: nat, j: nat, g: nat)
    requires ValidViews(vs)
    requires i < |vs| && f < vs[i].total && j < |vs| && g < vs[j].total
    requires vs[i].FrameAt(f) == vs[j].FrameAt(g)
    ensures i == j && f == g
  {
    if i < j {
      assert false;
    } else if j < i {
      assert false;
    }
  }

  lemma ManagedIsAligned(vs: seq<BlockView>, address: nat)
    requires ValidViews(vs) && IsManaged(vs, address)
    ensures address % FRAME_SIZE == 0 && address < PHYS_LIMIT
  {
    var i: nat, f: nat :| i < |vs| && f < |vs[i].used| && address == vs[i].FrameAt(f);
    assert vs[i].Valid();
  }

  /** Neither allocation nor release moves a block or resizes its bitmap. */
  ghost predicate SameShape(before: seq<BlockView>, after: seq<BlockView>) {
    && |after| == |before|
    && forall i :: 0 <= i < |before| ==>
         |after[i].used| == |before[i].used| && after[i] == before[i].(used := after[i].used)
  }

  lemma ShapeReflexive(vs: seq<BlockView>)
    ensures SameShape(vs, vs)
  {
  }

  lemma ShapeTransitive(a: seq<BlockView>, b: seq<BlockView>, c: seq<BlockView>)
    requires SameShape(a, b) && SameShape(b, c)
    ensures SameShape(a, c)
  {
  }

  lemma ShapeIsKept(before: seq<BlockView>, after: seq<BlockView>)
    requires ValidViews(before) && SameShape(before, after)
    ensures ValidViews(after)
    ensures forall a: nat :: IsManaged(after, a) <==> IsManaged(before, a)
  {
    forall j, k | 0 <= j < k < |after| ensures Disjoint(after[j], after[k]) {
      assert Disjoint(before[j], before[k]);
    }
    forall a: nat ensures IsManaged(after, a) <==> IsManaged(before, a) {
      if IsManaged(after, a) {
        var j: nat, f: nat :| j < |after| && f < |after[j].used| && a == after[j].FrameAt(f);
        assert a == before[j].FrameAt(f) && f < |before[j].used|;
      }
      if IsManaged(before, a) {
        var j: nat, f: nat :| j < |before| && f < |before[j].used| && a == before[j].FrameAt(f);
        assert a == after[j].FrameAt(f) && f < |after[j].used|;
      }
    }
  }

  /** The frame of a run at a given address. */
  lemma RunMember(address: nat, first: nat, count: nat) returns (k: nat)
    requires InRun(address, first, count)
    ensures k < count && address == first + k * FRAME_SIZE
  {
    k := (address - first) / FRAME_SIZE;
  }

  lemma TakenWasFree(before: seq<BlockView>, after: seq<BlockView>, i: nat, count: nat, address: nat, a: nat)
    requires FromBlock(before, after, i, count, address) && InRun(a, address, count)
    ensures exists f: nat :: FreeAt(before, i, f, a)
  {
    var start: nat :| RunTaken(before[i], after[i], start, count, address);
    var k := RunMember(a, address, count);
    assert FreeAt(before, i, start + k, a);
  }

  lemma FreeAfterAllocation(before: seq<BlockView>, after: seq<BlockView>, i: nat, count: nat, address: nat,
                            j: nat, f: nat, a: nat)
    requires ValidViews(before) && FromBlock(before, after, i, count, address)
    requires FreeAt(before, j, f, a)
    ensures FreeAt(after, j, f, a) <==> !InRun(a, address, count)
  {
    var start: nat :| RunTaken(before[i], after[i], start, count, address);
    if j == i {
      assert a - address == (f - start) * FRAME_SIZE;
      assert start <= f < start + count <==> InRun(a, address, count);
    } else if InRun(a, address, count) {
      var k := RunMember(a, address, count);
      assert false;
    }
  }

  lemma RunWasFree(before: seq<BlockView>, after: seq<BlockView>, i: nat, count: nat, address: nat)
    requires FromBlock(before, after, i, count, address)
    ensures forall a: nat :: InRun(a, address, count) ==> IsFree(before, a)
  {
    forall a: nat | InRun(a, address, count) ensures IsFree(before, a) {
      TakenWasFree(before, after, i, count, address, a);
      var f: nat :| FreeAt(before, i, f, a);
    }
  }

  lemma FreeAfterMeansFreeBefore(before: seq<BlockView>, after: seq<BlockView>, i: nat, count: nat, address: nat, a: nat)
    requires FromBlock(before, after, i, count, address) && IsFree(after, a)
    ensures IsFree(before, a)
  {
    var j: nat, f: nat :| FreeAt(after, j, f, a);
    assert FreeAt(before, j, f, a);
  }

  lemma StillFreeIffOutside(before: seq<BlockView>, after: seq<BlockView>, i: nat, count: nat, address: nat, a: nat)
    requires ValidViews(before) && FromBlock(before, after, i, count, address) && IsFree(before, a)
    ensures IsFree(after, a) <==> !InRun(a, address, count)
  {
    hide FromBlock, ValidViews;
    var j: nat, f: nat :| FreeAt(before, j, f, a);
    FreeAfterAllocation(before, after, i, count, address, j, f, a);
    if g: nat, k: nat :| FreeAt(after, k, g, a) {
      SameFrame(before, after, i, count, address, j, f, k, g, a);
    }
  }

  lemma SameFrame(before: seq<BlockView>, after: seq<BlockView>, i: nat, count: nat, address: nat,
                  j: nat, f: nat, k: nat, g: nat, a: nat)
    requires ValidViews(before) && FromBlock(before, after, i, count, address)
    requires FreeAt(before, j, f, a) && FreeAt(after, k, g, a)
    ensures j == k && f == g
  {
    assert FreeAt(before, k, g, a);
    FrameIsUnique(before, j, f, k, g);
  }

  /** What an allocation does to the free set. */
  lemma AllocationTakesRun(before: seq<BlockView>, after: seq<BlockView>, count: nat, address: nat)
    requires ValidViews(before) && Allocated(before, after, count, address) && address != NO_FRAME
    ensures SameShape(before, after)
    ensures forall a: nat :: InRun(a, address, count) ==> IsFree(before, a)
    ensures forall a: nat :: IsFree(after, a) <==> IsFree(before, a) && !InRun(a, address, count)
  {
    var i: nat :| FromBlock(before, after, i, count, address);
    RunWasFree(before, after, i, count, address);
    forall a: nat | IsFree(before, a) ensures IsFree(after, a) <==> !InRun(a, address, count) {
      StillFreeIffOutside(before, after, i, count, address, a);
    }
    forall a: nat | IsFree(after, a) ensures IsFree(before, a) {
      FreeAfterMeansFreeBefore(before, after, i, count, address, a);
    }
  }

  /** A single allocation fails only when nothing is free. */
  lemma ExhaustedMeansEmpty(vs: seq<BlockView>)
    requires forall i :: 0 <= i < |vs| ==> NoFreeRun(vs[i].used, 1)
    ensures FreeFrames(vs) == {}
  {
    forall a: nat ensures !IsFree(vs, a) {
      if IsFree(vs, a) {
        var i: nat, f: nat :| FreeAt(vs, i, f, a);
        assert IsFreeRun(vs[i].used, f, 1);
        assert false;
      }
    }
  }

  lemma ReleasedFlag(before: seq<BlockView>, after: seq<BlockView>, address: nat, j: nat, f: nat)
    requires ValidViews(before) && Released(before, after, address) && address % FRAME_SIZE == 0
    requires j < |before| && f < |before[j].used|
    ensures |after[j].used| == |before[j].used|
    ensures after[j].FrameAt(f) == before[j].FrameAt(f)
    ensures after[j].used[f] == (before[j].used[f] && before[j].FrameAt(f) != address)
  {
    assert before[j].Valid();
    if InBlock(before[j], address) {
      var g := (address - before[j].address) / FRAME_SIZE;
      assert address == before[j].FrameAt(g);
    }
  }

  /** The address of the frame that holds a byte. */
  function FrameStart(address: nat): nat {
    address / FRAME_SIZE * FRAME_SIZE
  }

  /** Any byte of a frame stands for the frame. */
  lemma ByteOfFrame(v: BlockView, address: nat)
    requires v.Valid()
    ensures BlockReleased(v, address) == BlockReleased(v, FrameStart(address))
  {
    var b, q := v.address / FRAME_SIZE, address / FRAME_SIZE;
    assert v.address == b * FRAME_SIZE;
    if InBlock(v, address) {
      assert address - v.address == (q - b) * FRAME_SIZE + address % FRAME_SIZE;
    }
  }

  /** Releasing an address adds the frame that holds it to the free set if the allocator manages
      that frame. */
  lemma ReleaseReturnsFrame(before: seq<BlockView>, after: seq<BlockView>, address: nat)
    requires ValidViews(before) && Released(before, after, address)
    ensures SameShape(before, after)
    ensures forall a: nat :: IsFree(after, a) <==> IsFree(before, a) || (a == FrameStart(address) && IsManaged(before, a))
  {
    hide BlockReleased, FrameStart;
    forall i | 0 <= i < |before| ensures after[i] == BlockReleased(before[i], FrameStart(address)) {
      assert before[i].Valid();
      ByteOfFrame(before[i], address);
    }
    StartIsAligned(address);
    ReleaseReturnsAligned(before, after, FrameStart(address));
  }

  lemma StartIsAligned(address: nat)
    ensures FrameStart(address) % FRAME_SIZE == 0
    ensures address % FRAME_SIZE == 0 ==> FrameStart(address) == address
  {
  }

  lemma ReleaseReturnsAligned(before: seq<BlockView>, after: seq<BlockView>, address: nat)
    requires ValidViews(before) && Released(before, after, address)
    requires address % FRAME_SIZE == 0
    ensures SameShape(before, after)
    ensures forall a: nat :: IsFree(after, a) <==> IsFree(before, a) || (a == address && IsManaged(before, a))
  {
    assert SameShape(before, after) by {
      forall j | 0 <= j < |before| ensures |after[j].used| == |before[j].used| {
        assert before[j].Valid();
      }
    }
    forall a: nat | IsFree(after, a) ensures IsFree(before, a) || (a == address && IsManaged(before, a)) {
      var j: nat, f: nat :| FreeAt(after, j, f, a);
      ReleasedFlag(before, after, address, j, f);
      assert FreeAt(before, j, f, a) || a == address;
    }
    forall a: nat | IsFree(before, a) ensures IsFree(after, a) {
      var j: nat, f: nat :| FreeAt(before, j, f, a);
      ReleasedFlag(before, after, address, j, f);
      assert FreeAt(after, j, f, a);
    }
    if IsManaged(before, address) {
      var j: nat, f: nat :| j < |before| && f < |before[j].used| && address == before[j].FrameAt(f);
      ReleasedFlag(before, after, address, j, f);
      assert FreeAt(after, j, f, address);
    }
  }

  /** One frame: the allocator takes a free frame, or none is free. */
  lemma SingleAllocation(before: seq<BlockView>, after: seq<BlockView>, address: nat)
    requires ValidViews(before) && Allocated(before, after, 1, address)
    ensures SameShape(before, after)
    ensures address == NO_FRAME ==> after == before && FreeFrames(before) == {}
    ensures address != NO_FRAME ==>
              && address in FreeFrames(before) && IsManaged(before, address)
              && FreeFrames(after) == FreeFrames(before) - {address}
  {
    if address == NO_FRAME {
      ExhaustedMeansEmpty(before);
    } else {
      AllocationTakesRun(before, after, 1, address);
      assert InRun(address, address, 1);
      FreeIsManaged(before, address);
      forall a: nat ensures InRun(a, address, 1) <==> a == address {
      }
    }
  }

  lemma FreeIsManaged(vs: seq<BlockView>, address: nat)
    requires IsFree(vs, address)
    ensures IsManaged(vs, address)
  {
    var i: nat, f: nat :| FreeAt(vs, i, f, address);
  }
}
