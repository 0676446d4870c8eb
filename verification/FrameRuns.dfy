/** The allocator over whole runs of calls: what stays true between handing a frame out and
    getting it back, whatever is called in between and in whatever order. */
module FrameRuns {
  import opened FrameSpec

  /** A call with its answer: frames_allocate(count), or frame_allocate when count is 1; frame_free. */
  datatype Event = Take(count: nat, address: nat) | Give(address: nat)

  ghost predicate StepOk(before: seq<BlockView>, after: seq<BlockView>, e: Event) {
    match e
    case Take(count, address) =>
      if count == 0 then address == NO_FRAME && after == before else Allocated(before, after, count, address)
    case Give(address) =>
      Released(before, after, address)
  }

  ghost predicate IsRun(states: seq<seq<BlockView>>, events: seq<Event>) {
    && |states| == |events| + 1
    && ValidViews(states[0])
    && forall k: nat :: k < |events| ==> StepOk(states[k], states[k + 1], events[k])
  }

  /** The call handed out the frame at address a. */
  predicate Takes(e: Event, a: nat) {
    e.Take? && e.count > 0 && e.address != NO_FRAME && InRun(a, e.address, e.count)
  }

  /** The call freed the frame at address a; frame_free takes any byte of it. */
  predicate Gives(e: Event, a: nat) {
    e.Give? && FrameStart(e.address) == a
  }

  /** One call: the frames it takes were free, only Give frees, and only the frame of its address. */
  lemma StepFrees(before: seq<BlockView>, after: seq<BlockView>, e: Event, a: nat)
    requires ValidViews(before) && StepOk(before, after, e)
    ensures ValidViews(after)
    ensures IsManaged(after, a) <==> IsManaged(before, a)
    ensures Takes(e, a) ==> IsFree(before, a)
    ensures IsFree(after, a) <==>
              (IsFree(before, a) && !Takes(e, a)) || (Gives(e, a) && IsManaged(before, a))
  {
    hide IsFree, IsManaged, Allocated, Released, InRun, FrameStart;
    match e
    case Take(count, address) =>
      if count > 0 && address != NO_FRAME {
        AllocationTakesRun(before, after, count, address);
        ShapeIsKept(before, after);
      } else if count > 0 {
        FailedTake(before, after, count);
      }
    case Give(address) =>
      ReleaseReturnsFrame(before, after, address);
      ShapeIsKept(before, after);
  }

  lemma FailedTake(before: seq<BlockView>, after: seq<BlockView>, count: nat)
    requires Allocated(before, after, count, NO_FRAME)
    ensures after == before
  {
  }

  lemma {:induction false} RunIsValid(states: seq<seq<BlockView>>, events: seq<Event>, k: nat)
    requires IsRun(states, events) && k < |states|
    ensures ValidViews(states[k])
    ensures forall a: nat :: IsManaged(states[k], a) <==> IsManaged(states[0], a)
  {
    hide IsManaged, ValidViews, StepOk;
    if k > 0 {
      RunIsValid(states, events, k - 1);
      forall a: nat ensures IsManaged(states[k], a) <==> IsManaged(states[0], a) {
        StepFrees(states[k - 1], states[k], events[k - 1], a);
      }
      StepFrees(states[k - 1], states[k], events[k - 1], 0);
    }
  }

  /** A frame in use stays in use until it is given back. */
  lemma {:induction false} StaysUsed(states: seq<seq<BlockView>>, events: seq<Event>, a: nat, i: nat, j: nat)
    requires IsRun(states, events) && i <= j < |states| && !IsFree(states[i], a)
    requires forall k: nat :: i <= k < j ==> !Gives(events[k], a)
    ensures !IsFree(states[j], a)
    decreases j
  {
    hide IsFree, ValidViews, StepOk;
    if i < j {
      StaysUsed(states, events, a, i, j - 1);
      RunIsValid(states, events, j - 1);
      StepFrees(states[j - 1], states[j], events[j - 1], a);
    }
  }

  /** A frame handed out twice was given back in between. */
  lemma NotReissued(states: seq<seq<BlockView>>, events: seq<Event>, a: nat, i: nat, j: nat)
    requires IsRun(states, events) && i < j < |events|
    requires Takes(events[i], a) && Takes(events[j], a)
    ensures exists k: nat :: i < k < j && Gives(events[k], a)
  {
    hide IsFree, ValidViews, StepOk;
    RunIsValid(states, events, i);
    StepFrees(states[i], states[i + 1], events[i], a);
    RunIsValid(states, events, j);
    StepFrees(states[j], states[j + 1], events[j], a);
    if forall k: nat :: i + 1 <= k < j ==> !Gives(events[k], a) {
      StaysUsed(states, events, a, i + 1, j);
    }
  }

  /** A frame that starts out used and is never given back is never handed out; this is what
      keeps address 0 from ever being returned. */
  lemma NeverIssued(states: seq<seq<BlockView>>, events: seq<Event>, a: nat, j: nat)
    requires IsRun(states, events) && j < |events|
    requires !IsFree(states[0], a) && forall k: nat :: k < j ==> !Gives(events[k], a)
    ensures !Takes(events[j], a)
  {
    hide IsFree, ValidViews, StepOk;
    StaysUsed(states, events, a, 0, j);
    RunIsValid(states, events, j);
    StepFrees(states[j], states[j + 1], events[j], a);
  }

  /** After any run of calls a frame is free exactly if it started out free and was never taken, or
      was given back and not taken since. */
  lemma {:induction false} FreeAfterRun(states: seq<seq<BlockView>>, events: seq<Event>, a: nat, n: nat)
    requires IsRun(states, events) && n < |states|
    ensures IsFree(states[n], a) <==>
              || (IsFree(states[0], a) && forall k: nat :: k < n ==> !Takes(events[k], a))
              || (exists k: nat :: k < n && Gives(events[k], a) && IsManaged(states[0], a) &&
                    forall l: nat :: k < l < n ==> !Takes(events[l], a))
  {
    hide IsFree, IsManaged, ValidViews, StepOk, Takes, Gives;
    if n > 0 {
      FreeAfterRun(states, events, a, n - 1);
      RunIsValid(states, events, n - 1);
      StepFrees(states[n - 1], states[n], events[n - 1], a);
      GiveTakesNothing(events[n - 1], a);
    }
  }

  lemma GiveTakesNothing(e: Event, a: nat)
    ensures e.Give? ==> !Takes(e, a)
  {
  }
}
