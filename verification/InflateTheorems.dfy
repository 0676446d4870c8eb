/** What follows from the contracts of the inflater for inputs of some kinds: malformed input that
    can only be rejected, and streams that the source reads past the end of. */
module InflateTheorems {
  import opened BitStream
  import opened PrefixCodes
  import opened Deflate
  import opened DeflateStream
  import opened FixedCodes
  import opened BitBuffer
  import opened InflateCuts
  import opened InflateSteps

  // ----- malformed input is not mistaken for input that ends too early

  /** More than 25 bits that start with the reserved block type hold no stream and are cut off
      nowhere, however many are buffered, so they are rejected. */
  lemma ReservedTypeIsRejected(out: seq<byte>, u: seq<bool>, n: nat)
    requires |u| > SLACK + 1 && Number(u[1..3]) == 3
    ensures forall r, o :: !Inflates(out, u, r, o)
    ensures forall v :: !StreamCut(out, u, n, v)
  {
    hide Number, AfterAsk, TypeHeld;
  }

  /** More than 24 bits that no code of the first alphabet starts hold no block and are cut off
      nowhere. */
  lemma UnknownSymbolIsRejected(L: seq<nat>, D: seq<nat>, out: seq<byte>, u: seq<bool>, n: nat)
    requires |u| > SLACK && NoCodeStarts(L, u)
    ensures forall r, o :: !Body(L, D, out, u, r, o)
    ensures forall v :: !BodyCut(L, D, out, u, n, v)
  {
    hide SymbolBits, ItemBits, InReach, Codable, ItemCut;
    NoFirstSymbol(L, D, out, u);
    NotCutUnknown(L, D, u, n);
  }

  /** A length that is not the complement of its second copy: neither a stored block, nor one that
      is cut off. */
  lemma MismatchIsRejected(u: seq<bool>, len: nat, nlen: nat, w: seq<bool>)
    requires StoredHeader(u, len, nlen, w) && len < 0x1_0000 && nlen < 0x1_0000 && nlen != 0xFFFF - len
    ensures forall data, r :: !Stored(u, data, r)
    ensures forall v :: !StoredCut(u, v)
  {
    hide ToBits, Number, StoredCut, StoredHeader;
    StoredFrom(u, len, nlen, w);
    forall v ensures !StoredCut(u, v) {
      StoredCutDecides(u, len, nlen, w, v);
    }
  }

  // ----- streams whose end the source reads past

  /** A single block with the fixed code must be followed by at least 9 bits. */
  lemma FixedBlockNeedsMore(out: seq<byte>, u: seq<bool>, r: seq<bool>, o: seq<byte>)
    requires |u| >= 3 && u[0] && Number(u[1..3]) == 1
    ensures LeavesRoom(out, u, r, o) ==> |r| >= 9
  {
    hide FixedLengths, FixedDistances, Block, Number;
    if LeavesRoom(out, u, r, o) {
      var v, p :| Block(out, u, v, p) && |v| < |u|
        && (if u[0] then r == v && o == p && BlockRoom(u, v) else LeavesRoom(p, v, r, o));
    }
  }

  /** So the bits that fill up the last byte, at most 7, are never enough: a stream of one literal
      block and its padding is such an input for any data. */
  lemma FixedStreamNeedsMore(data: seq<byte>, r: seq<bool>)
    ensures Inflates([], FixedStream(data) + r, r, data)
    ensures LeavesRoom([], FixedStream(data) + r, r, data) ==> |r| >= 9
  {
    hide FixedStream, LeavesRoom, Inflates, Number;
    FixedRoundTrip(data, r);
    StreamType(data, r);
    FixedBlockNeedsMore([], FixedStream(data) + r, r, data);
  }

  lemma StreamType(data: seq<byte>, r: seq<bool>)
    ensures var u := FixedStream(data) + r; |u| >= 3 && u[0] && Number(u[1..3]) == 1
  {
    hide FixedLengths, FixedDistances, BlockBits, Literals, Number, Writable;
    LiteralsWrite([], data);
    StartOf(BlockBits(FixedLengths(), FixedDistances(), [], Literals(data)), r);
    TypeOne();
  }

  lemma StartOf(w: seq<bool>, r: seq<bool>)
    ensures var u := [true] + ([true, false] + w) + r; |u| >= 3 && u[0] && u[1..3] == [true, false]
  {
  }

  // ----- reserved symbols

  /** A block of the fixed code with the reserved symbols 286 and 30 is accepted: it copies nothing
      from nowhere. */
  lemma ReservedIsAccepted(r: seq<bool>)
    ensures var x := Copy(29, 0, 30, 0);
            && Codable(FixedLengths(), FixedDistances(), x) && Codable(FixedLengths(), FixedDistances(), EndOfBlock)
            && Body(FixedLengths(), FixedDistances(), [],
                 ItemBits(FixedLengths(), FixedDistances(), x) + ItemBits(FixedLengths(), FixedDistances(), EndOfBlock) + r,
                 r, [])
  {
    hide FixedLengths, FixedDistances, ItemBits, Body, Codable, InReach, Effect, Writable, Expanded, BlockBits;
    var L, D, x := FixedLengths(), FixedDistances(), Copy(29, 0, 30, 0);
    ReservedWrites();
    NothingWrites(L, D, []);
    OneMoreWrites(L, D, [], x, []);
    assert [x] + [] == [x];
    ReservedBits(L, D, x);
    WrittenBlock(L, D, [], [x], r);
  }

  lemma ReservedWrites()
    ensures var x := Copy(29, 0, 30, 0);
            && Codable(FixedLengths(), FixedDistances(), x) && Codable(FixedLengths(), FixedDistances(), EndOfBlock)
            && Codes(FixedLengths(), 256) && InReach([], x) && Effect([], x) == []
  {
    FixedLengthAt(256);
    FixedLengthAt(286);
    FewPowers();
  }

  lemma ReservedBits(L: seq<nat>, D: seq<nat>, x: Item)
    requires Codable(L, D, x) && Codable(L, D, EndOfBlock) && !x.EndOfBlock? && InReach([], x) && Effect([], x) == []
    requires Writable(L, D, [], [x])
    ensures BlockBits(L, D, [], [x]) == ItemBits(L, D, x) + ItemBits(L, D, EndOfBlock)
  {
    hide ItemBits, Codable, InReach, Effect;
  }
}
