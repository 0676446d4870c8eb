/** What the readers of the inflater may end with, and what follows for the bits they started on. */
module InflateSteps {
  import opened Bits
  import opened BitStream
  import opened HuffmanCodes
  import opened Huffman
  import opened PrefixCodes
  import opened Deflate
  import opened DeflateStream
  import opened BitBuffer
  import opened InflateCuts

  /** How a reader ends. `Undefined` is where the source would use bytes beyond its input, or
      output bytes that it never wrote. */
  datatype Outcome = Done | Rejected | Undefined

  // ----- items

  /** What a reader of one item ends with: it started on the bits u with n of them buffered, and
      stopped before the bits v with n' buffered. */
  ghost predicate ItemRead(
      L: seq<nat>, D: seq<nat>, out: seq<byte>, u: seq<bool>, n: nat, v: seq<bool>, n': nat, outcome: Outcome, x: Item) {
    match outcome
    case Done =>
      && |u| >= WINDOW && Next(L, D, out, u, x) && v == u[|ItemBits(L, D, x)|..] && n' == ItemHeld(L, D, n, x)
      && (forall w :: !ItemCut(L, D, u, n, w))
    case Rejected => |u| >= WINDOW && (forall y :: !Next(L, D, out, u, y)) && (forall w :: !ItemCut(L, D, u, n, w))
    case Undefined =>
      && ItemCut(L, D, u, n, v)
      && forall y :: Next(L, D, out, u, y) ==> |u| - |ItemBits(L, D, y)| <= SLACK
  }

  /** No item goes on with bits that no code of the first alphabet starts. */
  lemma NoFirstSymbol(L: seq<nat>, D: seq<nat>, out: seq<byte>, u: seq<bool>)
    requires NoCodeStarts(L, u)
    ensures forall y :: !Next(L, D, out, u, y)
  {
    hide SymbolBits, ItemBits, Codes, InReach;
    forall y | Next(L, D, out, u, y) ensures false {
      StartsWithHead(L, D, y, u);
    }
  }

  /** Once the first symbol is a copy's, any item to be read is a copy with that symbol. */
  lemma CopyFollows(L: seq<nat>, D: seq<nat>, out: seq<byte>, u: seq<bool>, l: LengthIndex, y: Item)
    requires GoodLengths(L) && Codes(L, 257 + l) && SymbolBits(L, 257 + l) <= u && Next(L, D, out, u, y)
    ensures y.Copy? && y.l == l
  {
    hide SymbolBits, ItemBits, Codes, InReach, GoodLengths;
    HeadIsUnique(L, D, y, 257 + l, u);
  }

  /** A reader that stops inside a copy, with v still unread: nothing to be read leaves more. */
  lemma StopAfterSymbol(L: seq<nat>, D: seq<nat>, out: seq<byte>, u: seq<bool>, l: LengthIndex, v: seq<bool>)
    requires GoodLengths(L) && Codes(L, 257 + l) && u == SymbolBits(L, 257 + l) + v
    ensures forall y :: Next(L, D, out, u, y) ==> |u| - |ItemBits(L, D, y)| <= |v|
  {
    hide SymbolBits, ItemBits, Codes, InReach, GoodLengths, LengthExtra, DistanceExtra;
    forall y | Next(L, D, out, u, y) ensures |u| - |ItemBits(L, D, y)| <= |v| {
      CopyFollows(L, D, out, u, l, y);
      CopyParts(L, D, y, u);
    }
  }

  lemma StopAfterLength(L: seq<nat>, D: seq<nat>, out: seq<byte>, u: seq<bool>, l: LengthIndex, u1: seq<bool>, v: seq<bool>)
    requires GoodLengths(L) && Codes(L, 257 + l) && u == SymbolBits(L, 257 + l) + u1
    requires LengthExtra(l) <= |u1| && v == u1[LengthExtra(l)..]
    ensures forall y :: Next(L, D, out, u, y) ==>
              y.Copy? && Codes(D, y.d) && SymbolBits(D, y.d) <= v && |u| - |ItemBits(L, D, y)| <= |v|
  {
    hide SymbolBits, ItemBits, Codes, InReach, GoodLengths, LengthExtra, DistanceExtra;
    assert u[|SymbolBits(L, 257 + l)|..] == u1;
    forall y | Next(L, D, out, u, y)
      ensures y.Copy? && Codes(D, y.d) && SymbolBits(D, y.d) <= v && |u| - |ItemBits(L, D, y)| <= |v|
    {
      CopyFollows(L, D, out, u, l, y);
      CopyParts(L, D, y, u);
    }
  }

  lemma StopAfterDistance(
      L: seq<nat>, D: seq<nat>, out: seq<byte>, u: seq<bool>, l: LengthIndex, u1: seq<bool>, d: DistanceIndex, v: seq<bool>)
    requires GoodLengths(L) && Codes(L, 257 + l) && u == SymbolBits(L, 257 + l) + u1
    requires LengthExtra(l) <= |u1| && GoodLengths(D) && Codes(D, d) && u1[LengthExtra(l)..] == SymbolBits(D, d) + v
    ensures forall y :: Next(L, D, out, u, y) ==> |u| - |ItemBits(L, D, y)| <= |v|
  {
    hide SymbolBits, ItemBits, Codes, InReach, Kraft, LengthsOk, LengthExtra, DistanceExtra;
    assert u[|SymbolBits(L, 257 + l)|..] == u1;
    forall y | Next(L, D, out, u, y) ensures |u| - |ItemBits(L, D, y)| <= |v| {
      CopyFollows(L, D, out, u, l, y);
      CopyParts(L, D, y, u);
      CodeIsUnique(D, y.d, d, SymbolBits(D, d) + v);
    }
  }

  /** A copy whose four parts have been read. */
  lemma WholeCopy(
      L: seq<nat>, D: seq<nat>, out: seq<byte>, u: seq<bool>, l: LengthIndex, u1: seq<bool>, d: DistanceIndex, u2: seq<bool>)
    returns (x: Item)
    requires GoodLengths(L) && Codes(L, 257 + l) && u == SymbolBits(L, 257 + l) + u1
    requires LengthExtra(l) <= |u1| && GoodLengths(D) && Codes(D, d) && u1[LengthExtra(l)..] == SymbolBits(D, d) + u2
    requires DistanceExtra(d) <= |u2|
    ensures x == Copy(l, Number(u1[..LengthExtra(l)]), d, Number(u2[..DistanceExtra(d)]))
    ensures Codable(L, D, x) && ItemBits(L, D, x) <= u && u[|ItemBits(L, D, x)|..] == u2[DistanceExtra(d)..]
    ensures forall y :: Next(L, D, out, u, y) ==> y == x
  {
    hide SymbolBits, Codes, InReach, GoodLengths, LengthExtra, DistanceExtra, ToBits, Number;
    var n, m := LengthExtra(l), DistanceExtra(d);
    x := Copy(l, Number(u1[..n]), d, Number(u2[..m]));
    BitsOfNumber(u1[..n]);
    BitsOfNumber(u2[..m]);
    assert u1 == u1[..n] + (SymbolBits(D, d) + (u2[..m] + u2[m..]));
    assert u == ItemBits(L, D, x) + u2[m..];
    forall y | Next(L, D, out, u, y) ensures y == x {
      ItemIsUnique(L, D, x, y, u);
    }
  }

  /** What a reader of a whole block ends with: it started after output `out`, and stopped with
      output o. */
  ghost predicate BodyRead(
      L: seq<nat>, D: seq<nat>, out: seq<byte>, u: seq<bool>, n: nat, v: seq<bool>, n': nat, outcome: Outcome, o: seq<byte>) {
    match outcome
    case Done =>
      && Body(L, D, out, u, v, o) && n' == BodyHeld(L, D, out, u, n) && Codes(L, 256) && L[256] + |v| >= WINDOW
      && (forall w :: !BodyCut(L, D, out, u, n, w))
    case Rejected => (forall v', o' :: !Body(L, D, out, u, v', o')) && (forall w :: !BodyCut(L, D, out, u, n, w))
    case Undefined => BodyCut(L, D, out, u, n, v) && forall v', o' :: Body(L, D, out, u, v', o') ==> |v'| <= SLACK
  }

  /** A block is stuck where its next item is. */
  lemma StuckItem(
      L: seq<nat>, D: seq<nat>, out: seq<byte>, u: seq<bool>, n: nat, v: seq<bool>, n': nat, outcome: Outcome, x: Item, o: seq<byte>)
    requires ItemRead(L, D, out, u, n, v, n', outcome, x) && outcome != Done
    ensures BodyRead(L, D, out, u, n, v, n', outcome, o)
  {
    hide ItemBits, InReach, Next, Body, ItemCut;
    forall v', o' | Body(L, D, out, u, v', o') ensures outcome == Undefined && |v'| <= SLACK {
      BodyRest(L, D, out, u, v', o');
    }
  }

  /** A later place in the same block means, is cut off, and ends as the block itself. */
  ghost predicate SameBody(
      L: seq<nat>, D: seq<nat>, out: seq<byte>, u: seq<bool>, n: nat, out': seq<byte>, u': seq<bool>, n': nat) {
    && (forall r, o :: Body(L, D, out, u, r, o) <==> Body(L, D, out', u', r, o))
    && (forall v :: BodyCut(L, D, out, u, n, v) <==> BodyCut(L, D, out', u', n', v))
    && BodyHeld(L, D, out, u, n) == BodyHeld(L, D, out', u', n')
  }

  lemma SameBodyStep(
      L: seq<nat>, D: seq<nat>, out: seq<byte>, u: seq<bool>, n: nat, out': seq<byte>, u': seq<bool>, n': nat, x: Item)
    requires GoodLengths(L) && GoodLengths(D) && SameBody(L, D, out, u, n, out', u', n')
    requires Next(L, D, out', u', x) && !x.EndOfBlock? && forall w :: !ItemCut(L, D, u', n', w)
    ensures SameBody(L, D, out, u, n, Effect(out', x), u'[|ItemBits(L, D, x)|..], ItemHeld(L, D, n', x))
  {
    hide ItemBits, InReach, Effect, GoodLengths, Body, Codable, ItemCut, BodyCut, BodyHeld, ItemHeld;
    var w, m := u'[|ItemBits(L, D, x)|..], ItemHeld(L, D, n', x);
    forall r, o ensures Body(L, D, out', u', r, o) <==> Body(L, D, Effect(out', x), w, r, o) {
      BodyStep(L, D, out', u', x, r, o);
    }
    forall v ensures BodyCut(L, D, out', u', n', v) <==> BodyCut(L, D, Effect(out', x), w, m, v) {
      BodyCutStep(L, D, out', u', n', x, v);
    }
    BodyHeldStep(L, D, out', u', n', x);
  }

  lemma BodyReadFurther(
      L: seq<nat>, D: seq<nat>, out: seq<byte>, u: seq<bool>, n: nat, out': seq<byte>, u': seq<bool>, n': nat,
      v: seq<bool>, n'': nat, outcome: Outcome, o: seq<byte>)
    requires BodyRead(L, D, out', u', n', v, n'', outcome, o) && SameBody(L, D, out, u, n, out', u', n')
    ensures BodyRead(L, D, out, u, n, v, n'', outcome, o)
  {
    hide Body, BodyCut, BodyHeld;
  }

  /** A block is read once its end is. */
  lemma EndRead(L: seq<nat>, D: seq<nat>, out: seq<byte>, u: seq<bool>, n: nat, v: seq<bool>, n': nat)
    requires GoodLengths(L) && GoodLengths(D) && ItemRead(L, D, out, u, n, v, n', Done, EndOfBlock)
    ensures BodyRead(L, D, out, u, n, v, n', Done, out)
  {
    hide GoodLengths, ItemCut, BodyHeld, Kraft, LengthsOk;
    assert After(L, D, out, u, EndOfBlock, v, out);
    BodyHeldStep(L, D, out, u, n, EndOfBlock);
    forall w ensures !BodyCut(L, D, out, u, n, w) {
      NotCutAtEnd(L, D, out, u, n, w);
    }
  }

  lemma NotCutAtEnd(L: seq<nat>, D: seq<nat>, out: seq<byte>, u: seq<bool>, n: nat, w: seq<bool>)
    requires GoodLengths(L) && GoodLengths(D) && Next(L, D, out, u, EndOfBlock) && !ItemCut(L, D, u, n, w)
    ensures !BodyCut(L, D, out, u, n, w)
  {
    hide ItemBits, InReach, Codable, ItemCut, GoodLengths;
    forall y | Next(L, D, out, u, y) ensures y == EndOfBlock {
      ItemIsUnique(L, D, EndOfBlock, y, u);
    }
  }

  // ----- runs of code lengths

  ghost predicate RunRead(
      C: seq<nat>, m: nat, lens: seq<nat>, u: seq<bool>, n: nat, v: seq<bool>, n': nat, outcome: Outcome, x: Run) {
    match outcome
    case Done =>
      && NextRun(C, m, lens, u, x) && v == u[|RunBits(C, x)|..] && n' == RunHeld(C, n, x)
      && (forall w :: !RunCut(C, u, n, w))
    case Rejected => (forall y :: !NextRun(C, m, lens, u, y)) && (forall w :: !RunCut(C, u, n, w))
    case Undefined => RunCut(C, u, n, v) && forall y :: NextRun(C, m, lens, u, y) ==> |u| - |RunBits(C, y)| <= SLACK
  }

  lemma NoRunSymbol(C: seq<nat>, n: nat, lens: seq<nat>, u: seq<bool>)
    requires NoCodeStarts(C, u)
    ensures forall y :: !NextRun(C, n, lens, u, y)
  {
    hide SymbolBits, RunBits;
    forall y | NextRun(C, n, lens, u, y) ensures false {
      RunParts(C, y, u);
    }
  }

  lemma StopAfterRunSymbol(C: seq<nat>, n: nat, lens: seq<nat>, u: seq<bool>, c: RunSymbol, v: seq<bool>)
    requires GoodLengths(C) && Codes(C, c) && u == SymbolBits(C, c) + v
    ensures forall y :: NextRun(C, n, lens, u, y) ==> y.symbol == c && |u| - |RunBits(C, y)| <= |v|
  {
    hide SymbolBits, RunBits, Kraft, LengthsOk;
    forall y | NextRun(C, n, lens, u, y) ensures y.symbol == c && |u| - |RunBits(C, y)| <= |v| {
      RunParts(C, y, u);
      CodeIsUnique(C, y.symbol, c, u);
    }
  }

  /** A run whose two parts have been read. */
  lemma WholeRun(C: seq<nat>, n: nat, lens: seq<nat>, u: seq<bool>, c: RunSymbol, v: seq<bool>) returns (x: Run)
    requires GoodLengths(C) && Codes(C, c) && u == SymbolBits(C, c) + v && RunExtraBits(c) <= |v|
    ensures x == Run(c, Number(v[..RunExtraBits(c)]))
    ensures RunCodable(C, x) && RunBits(C, x) <= u && u[|RunBits(C, x)|..] == v[RunExtraBits(c)..]
    ensures forall y :: NextRun(C, n, lens, u, y) ==> y == x
  {
    hide SymbolBits, Kraft, LengthsOk, ToBits, Number, Pow2, RunExtraBits;
    var m := RunExtraBits(c);
    x := Run(c, Number(v[..m]));
    BitsOfNumber(v[..m]);
    assert u == RunBits(C, x) + v[m..];
    forall y | NextRun(C, n, lens, u, y) ensures y == x {
      RunIsUnique(C, x, y, u);
    }
  }

  ghost predicate LengthsRead(
      C: seq<nat>, m: nat, lens: seq<nat>, u: seq<bool>, n: nat, v: seq<bool>, n': nat, outcome: Outcome, o: seq<nat>) {
    match outcome
    case Done =>
      && Lengths(C, m, lens, u, v, o) && n' == LengthsHeld(C, m, lens, u, n)
      && (forall w :: !LengthsCut(C, m, lens, u, n, w))
    case Rejected =>
      (forall v', o' :: !Lengths(C, m, lens, u, v', o')) && (forall w :: !LengthsCut(C, m, lens, u, n, w))
    case Undefined =>
      LengthsCut(C, m, lens, u, n, v) && forall v', o' :: Lengths(C, m, lens, u, v', o') ==> |v'| <= SLACK
  }

  lemma StuckRun(
      C: seq<nat>, m: nat, lens: seq<nat>, u: seq<bool>, n: nat, v: seq<bool>, n': nat, outcome: Outcome, x: Run, o: seq<nat>)
    requires RunRead(C, m, lens, u, n, v, n', outcome, x) && outcome != Done && |lens| < m
    ensures LengthsRead(C, m, lens, u, n, v, n', outcome, o)
  {
    hide RunBits, NextRun, Lengths, RunCut;
    forall v', o' | Lengths(C, m, lens, u, v', o') ensures outcome == Undefined && |v'| <= SLACK {
      LengthsRest(C, m, lens, u, v', o');
    }
  }

  ghost predicate SameLengths(
      C: seq<nat>, m: nat, lens: seq<nat>, u: seq<bool>, n: nat, lens': seq<nat>, u': seq<bool>, n': nat) {
    && (forall r, o :: Lengths(C, m, lens, u, r, o) <==> Lengths(C, m, lens', u', r, o))
    && (forall v :: LengthsCut(C, m, lens, u, n, v) <==> LengthsCut(C, m, lens', u', n', v))
    && LengthsHeld(C, m, lens, u, n) == LengthsHeld(C, m, lens', u', n')
  }

  lemma SameLengthsStep(
      C: seq<nat>, m: nat, lens: seq<nat>, u: seq<bool>, n: nat, lens': seq<nat>, u': seq<bool>, n': nat, x: Run)
    requires GoodLengths(C) && SameLengths(C, m, lens, u, n, lens', u', n') && |lens'| < m && NextRun(C, m, lens', u', x)
    requires forall w :: !RunCut(C, u', n', w)
    ensures SameLengths(C, m, lens, u, n, lens' + Times(RunLength(x), RunValue(lens', x)), u'[|RunBits(C, x)|..], RunHeld(C, n', x))
  {
    hide RunBits, RunCodable, RunLength, RunValue, RunHeld, GoodLengths, Lengths, RunCut, LengthsCut, LengthsHeld;
    var after, w, k := lens' + Times(RunLength(x), RunValue(lens', x)), u'[|RunBits(C, x)|..], RunHeld(C, n', x);
    forall r, o ensures Lengths(C, m, lens', u', r, o) <==> Lengths(C, m, after, w, r, o) {
      LengthsStep(C, m, lens', u', x, r, o);
    }
    forall v ensures LengthsCut(C, m, lens', u', n', v) <==> LengthsCut(C, m, after, w, k, v) {
      LengthsCutStep(C, m, lens', u', n', x, v);
    }
    LengthsHeldStep(C, m, lens', u', n', x);
  }

  lemma LengthsReadFurther(
      C: seq<nat>, m: nat, lens: seq<nat>, u: seq<bool>, n: nat, lens': seq<nat>, u': seq<bool>, n': nat, v: seq<bool>, n'': nat,
      outcome: Outcome, o: seq<nat>)
    requires LengthsRead(C, m, lens', u', n', v, n'', outcome, o) && SameLengths(C, m, lens, u, n, lens', u', n')
    ensures LengthsRead(C, m, lens, u, n, v, n'', outcome, o)
  {
    hide Lengths, LengthsCut, LengthsHeld;
  }

  // ----- the header of a dynamic block

  ghost predicate HeaderRead(
      u: seq<bool>, n: nat, v: seq<bool>, n': nat, outcome: Outcome, L: seq<nat>, D: seq<nat>) {
    match outcome
    case Done => Header(u, v, L, D) && n' == HeaderHeld(u, n) && forall w :: !HeaderCut(u, n, w)
    case Rejected => (forall v', L', D' :: !Header(u, v', L', D')) && forall w :: !HeaderCut(u, n, w)
    case Undefined => HeaderCut(u, n, v) && forall v', L', D' :: Header(u, v', L', D') ==> |v'| <= SLACK
  }

  /** The header is not cut off in its first k bits. */
  ghost predicate HeaderPassed(u: seq<bool>, n: nat, k: nat) {
    forall j: nat :: j < k ==> !HeaderShort(u, n, j)
  }

  /** Within the counts and the lengths of the code length code, stopping is stopping short. */
  lemma StopInHeader(u: seq<bool>, n: nat, k: nat)
    requires HeaderShort(u, n, k)
    ensures k <= |u| && HeaderCut(u, n, u[k..])
    ensures forall v', L', D' :: Header(u, v', L', D') ==> |v'| <= SLACK
  {
    hide Header, Sizes, Kraft, LengthsCut, SizesHeld, AfterAsk;
    forall v', L', D' | Header(u, v', L', D') ensures |v'| <= SLACK {
      HeaderFits(u, v', L', D');
    }
  }

  /** After its sizes a header is cut off exactly where its lengths are. */
  lemma CutAfterSizes(u: seq<bool>, n: nat, v: seq<bool>)
    requires SizesRead(u) && HeaderPassed(u, n, 14 + 3 * SizeCount(u)) && Kraft(Sizes(u[14..], SizeCount(u)))
    ensures HeaderCut(u, n, v) <==>
              LengthsCut(Sizes(u[14..], SizeCount(u)), LiteralCount(u) + DistanceCount(u), [],
                u[14 + 3 * SizeCount(u)..], SizesHeld(n, SizeCount(u)), v)
  {
    hide Sizes, Kraft, LengthsCut, SizesHeld, AfterAsk, Short, LiteralCount, DistanceCount;
    forall k: nat ensures !HeaderShort(u, n, k) {
    }
  }

  lemma NoCodeLengthCode(u: seq<bool>, n: nat, v: seq<bool>, n': nat)
    requires SizesRead(u) && HeaderPassed(u, n, 14 + 3 * SizeCount(u))
    requires !Kraft(Sizes(u[14..], SizeCount(u)))
    ensures forall L, D :: HeaderRead(u, n, v, n', Rejected, L, D)
  {
    hide Kraft, Sizes, Lengths, LiteralCount, DistanceCount, LengthsCut, SizesHeld, AfterAsk, Short;
    forall k: nat ensures !HeaderShort(u, n, k) {
    }
  }

  /** The header is stuck where its lengths are. */
  lemma StuckLengths(u: seq<bool>, n: nat, outcome: Outcome, v: seq<bool>, n': nat, o: seq<nat>)
    requires SizesRead(u) && HeaderPassed(u, n, 14 + 3 * SizeCount(u)) && Kraft(Sizes(u[14..], SizeCount(u)))
    requires outcome != Done
    requires LengthsRead(Sizes(u[14..], SizeCount(u)), LiteralCount(u) + DistanceCount(u), [],
               u[14 + 3 * SizeCount(u)..], SizesHeld(n, SizeCount(u)), v, n', outcome, o)
    ensures forall L, D :: HeaderRead(u, n, v, n', outcome, L, D)
  {
    hide LengthsCut, Kraft, Sizes, SizeCount, Lengths, LiteralCount, DistanceCount, HeaderCut, SizesHeld, HeaderPassed;
    forall w ensures HeaderCut(u, n, w) <==> LengthsCut(Sizes(u[14..], SizeCount(u)), LiteralCount(u) + DistanceCount(u), [],
                u[14 + 3 * SizeCount(u)..], SizesHeld(n, SizeCount(u)), w)
    {
      CutAfterSizes(u, n, w);
    }
  }

  /** Once the lengths are read, the header stands or falls with their two codes. */
  lemma LengthsDecide(u: seq<bool>, n: nat, v: seq<bool>, n': nat, o: seq<nat>)
    requires SizesRead(u) && LiteralCount(u) <= |o| && HeaderPassed(u, n, 14 + 3 * SizeCount(u))
    requires var C := Sizes(u[14..], SizeCount(u));
             && Kraft(C)
             && LengthsRead(C, LiteralCount(u) + DistanceCount(u), [], u[14 + 3 * SizeCount(u)..],
                  SizesHeld(n, SizeCount(u)), v, n', Done, o)
    ensures var L, D := o[..LiteralCount(u)], o[LiteralCount(u)..];
            HeaderRead(u, n, v, n', if Kraft(L) && Kraft(D) then Done else Rejected, L, D)
  {
    hide Kraft, Sizes, SizeCount, Lengths, LengthsOk, LengthsCut, LengthsHeld, SizesHeld, HeaderCut, HeaderPassed, LiteralCount,
      DistanceCount;
    var C, m := Sizes(u[14..], SizeCount(u)), LiteralCount(u) + DistanceCount(u);
    var L, D := o[..LiteralCount(u)], o[LiteralCount(u)..];
    assert o == L + D;
    SizesAreShort(u[14..], SizeCount(u));
    forall v', L', D' | Header(u, v', L', D') ensures L' == L && D' == D {
      LengthsAreUnique(C, m, [], u[14 + 3 * SizeCount(u)..], v, o, v', L' + D');
      assert L' == (L' + D')[..|L'|] && D' == (L' + D')[|L'|..];
    }
    forall w ensures !HeaderCut(u, n, w) {
      CutAfterSizes(u, n, w);
    }
  }

  // ----- stored blocks

  ghost predicate StoredRead(u: seq<bool>, v: seq<bool>, outcome: Outcome, data: seq<byte>) {
    match outcome
    case Done => Stored(u, data, v) && forall w :: !StoredCut(u, w)
    case Rejected => (forall v', data' :: !Stored(u, data', v')) && forall w :: !StoredCut(u, w)
    case Undefined => StoredCut(u, v) && forall v', data' :: Stored(u, data', v') ==> |v'| <= SLACK
  }

  lemma TooShortToStore(u: seq<bool>)
    requires |u[|u| % 8..]| < 32
    ensures forall v', data' :: !Stored(u, data', v')
  {
    hide Stored;
    forall v', data' | Stored(u, data', v') ensures false {
      StoredFields(u, data', v');
    }
  }

  lemma StoredFrom(u: seq<bool>, len: nat, nlen: nat, w: seq<bool>)
    requires StoredHeader(u, len, nlen, w) && len < 0x1_0000 && nlen < 0x1_0000
    ensures nlen != 0xFFFF - len ==> forall v', data' :: !Stored(u, data', v')
    ensures |w| < 8 * len ==> forall v', data' :: !Stored(u, data', v')
    ensures forall data, v :: |data| == len && nlen == 0xFFFF - len && w == BytesBits(data) + v ==> Stored(u, data, v)
  {
    hide ToBits, Number, BytesBits;
    var x := u[|u| % 8..];
    FourParts(ToBits(len, 16), ToBits(nlen, 16), w, []);
    assert x == ToBits(len, 16) + ToBits(nlen, 16) + w + [];
    SixteenBits(len);
    SixteenBits(nlen);
    forall v', data' | Stored(u, data', v') ensures len == |data'| && nlen == 0xFFFF - len && |w| >= 8 * len {
      StoredFields(u, data', v');
    }
    forall data, v | |data| == len && nlen == 0xFFFF - len && w == BytesBits(data) + v ensures Stored(u, data, v) {
      assert x == ToBits(len, 16) + ToBits(nlen, 16) + BytesBits(data) + v;
    }
  }

  lemma {:induction false} JoinedBits(a: nat, n: nat, b: nat, m: nat)
    requires a < Pow2(n)
    ensures ToBits(a + Pow2(n) * b, n + m) == ToBits(a, n) + ToBits(b, m)
  {
    if n > 0 {
      var p := Pow2(n - 1);
      assert a + 2 * p * b == 2 * (a / 2 + p * b) + a % 2 by { DoubleProduct(p, b); }
      JoinedBits(a / 2, n - 1, b, m);
    }
  }

  lemma DoubleProduct(p: nat, b: nat)
    ensures 2 * p * b == 2 * (p * b)
  {
  }

  function TwoBytes(low: nat, high: nat): nat {
    high * 256 + low
  }

  /** Four bytes as two numbers, least significant byte first. */
  lemma FourBytes(h: seq<byte>)
    requires |h| == 4
    ensures BytesBits(h) == ToBits(TwoBytes(h[0], h[1]), 16) + ToBits(TwoBytes(h[2], h[3]), 16)
  {
    hide ToBits;
    assert h == [h[0]] + ([h[1]] + ([h[2]] + [h[3]]));
    OneByte(h[0]);
    OneByte(h[1]);
    OneByte(h[2]);
    OneByte(h[3]);
    BytesBitsJoin([h[2]], [h[3]]);
    BytesBitsJoin([h[1]], [h[2]] + [h[3]]);
    BytesBitsJoin([h[0]], [h[1]] + ([h[2]] + [h[3]]));
    SmallPowers();
    JoinedBits(h[0], 8, h[1], 8);
    JoinedBits(h[2], 8, h[3], 8);
  }

  lemma OneByte(b: byte)
    ensures BytesBits([b]) == ToBits(b, 8)
  {
  }

  lemma Complement(len: nat)
    requires len < 0x1_0000
    ensures Xor(len, 0xFFFF) == 0xFFFF - len
  {
    SmallPowers();
    XorLowMask(len, 16);
  }

  // ----- blocks and streams

  ghost predicate ContentRead(
      out: seq<byte>, kind: nat, u: seq<bool>, n: nat, v: seq<bool>, n': nat, outcome: Outcome, o: seq<byte>) {
    match outcome
    case Done =>
      && Content(out, kind, u, v, o) && ContentRoom(kind, v) && n' == ContentHeld(out, kind, u, n)
      && (forall w :: !ContentCut(out, kind, u, n, w))
    case Rejected => (forall v', o' :: !Content(out, kind, u, v', o')) && (forall w :: !ContentCut(out, kind, u, n, w))
    case Undefined => ContentCut(out, kind, u, n, v) && forall v', o' :: Content(out, kind, u, v', o') ==> |v'| <= SLACK
  }

  lemma NoSuchType(out: seq<byte>, kind: nat, u: seq<bool>, n: nat, v: seq<bool>, n': nat, o: seq<byte>)
    requires kind > 2
    ensures ContentRead(out, kind, u, n, v, n', Rejected, o)
  {
    hide Body, Stored, Header;
  }

  lemma StoredContent(out: seq<byte>, u: seq<bool>, n: nat, v: seq<bool>, outcome: Outcome, data: seq<byte>, o: seq<byte>)
    requires StoredRead(u, v, outcome, data) && (outcome == Done ==> o == out + data)
    ensures ContentRead(out, 0, u, n, v, 0, outcome, o)
  {
    hide Body, Stored, Header, StoredCut, BodyCut, HeaderCut, FixedLengths, FixedDistances;
  }

  lemma FixedContent(out: seq<byte>, u: seq<bool>, n: nat, v: seq<bool>, n': nat, outcome: Outcome, o: seq<byte>)
    requires BodyRead(FixedLengths(), FixedDistances(), out, u, n, v, n', outcome, o)
    ensures ContentRead(out, 1, u, n, v, n', outcome, o)
  {
    hide Body, Stored, Header, StoredCut, BodyCut, BodyHeld, HeaderCut, FixedLengths, FixedDistances;
    FixedLengthAt(256);
  }

  lemma StuckHeader(
      out: seq<byte>, u: seq<bool>, n: nat, v: seq<bool>, n': nat, outcome: Outcome, L: seq<nat>, D: seq<nat>, o: seq<byte>)
    requires HeaderRead(u, n, v, n', outcome, L, D) && outcome != Done
    ensures ContentRead(out, 2, u, n, v, n', outcome, o)
  {
    hide Body, Stored, Header, StoredCut, BodyCut, HeaderCut, FixedLengths, FixedDistances;
    forall v', o' | Content(out, 2, u, v', o') ensures outcome == Undefined && |v'| <= SLACK {
      var w, L', D' :| Header(u, w, L', D') && Body(L', D', out, w, v', o');
      BodyRest(L', D', out, w, v', o');
    }
  }

  lemma DynamicContent(
      out: seq<byte>, u: seq<bool>, n: nat, w: seq<bool>, m: nat, L: seq<nat>, D: seq<nat>, v: seq<bool>, n': nat,
      outcome: Outcome, o: seq<byte>)
    requires HeaderRead(u, n, w, m, Done, L, D) && BodyRead(L, D, out, w, m, v, n', outcome, o)
    ensures ContentRead(out, 2, u, n, v, n', outcome, o)
  {
    hide Body, Stored, Header, StoredCut, BodyCut, BodyHeld, HeaderCut, HeaderHeld, ContentCut, ContentHeld, FixedLengths,
      FixedDistances;
    DynamicHeld(out, u, n, w, L, D);
    forall t ensures ContentCut(out, 2, u, n, t) <==> BodyCut(L, D, out, w, m, t) {
      DynamicCut(out, u, n, w, L, D, t);
    }
    forall v', o' | Content(out, 2, u, v', o') ensures Body(L, D, out, w, v', o') {
      var w', L', D' :| Header(u, w', L', D') && Body(L', D', out, w', v', o');
      HeaderIsUnique(u, w, L, D, w', L', D');
    }
  }

  ghost predicate BlockRead(
      out: seq<byte>, u: seq<bool>, n: nat, v: seq<bool>, n': nat, outcome: Outcome, o: seq<byte>) {
    match outcome
    case Done =>
      && Block(out, u, v, o) && BlockRoom(u, v) && n' == BlockHeld(out, u, n) && (forall w :: !BlockCut(out, u, n, w))
    case Rejected => (forall v', o' :: !Block(out, u, v', o')) && (forall w :: !BlockCut(out, u, n, w))
    case Undefined => BlockCut(out, u, n, v) && forall v', o' :: Block(out, u, v', o') ==> |v'| <= SLACK
  }

  /** The bits that a block starts with are not all there. */
  lemma ShortOfBlock(out: seq<byte>, u: seq<bool>, n: nat, v: seq<bool>, n': nat, o: seq<byte>)
    requires (v == u && Short(n, 1, u)) || (|u| >= 1 && v == u[1..] && Short(AfterAsk(n, 1, 1), 2, v))
    ensures BlockRead(out, u, n, v, n', Undefined, o)
  {
    hide Block, ContentCut, AfterAsk;
    forall v', o' | Block(out, u, v', o') ensures |v'| <= SLACK {
      BlockRest(out, u, v', o');
    }
  }

  lemma TypedBlock(out: seq<byte>, u: seq<bool>, n: nat, v: seq<bool>, n': nat, outcome: Outcome, o: seq<byte>)
    requires |u| >= 3 && !Short(n, 1, u) && !Short(AfterAsk(n, 1, 1), 2, u[1..])
    requires ContentRead(out, Number(u[1..3]), u[3..], TypeHeld(n), v, n', outcome, o)
    ensures BlockRead(out, u, n, v, n', outcome, o)
  {
    hide Content, ContentCut, ContentHeld, ContentRoom, Number, AfterAsk, Short, TypeHeld;
  }

  ghost predicate StreamRead(out: seq<byte>, u: seq<bool>, n: nat, v: seq<bool>, outcome: Outcome, o: seq<byte>) {
    match outcome
    case Done => Inflates(out, u, v, o) && LeavesRoom(out, u, v, o) && forall w :: !StreamCut(out, u, n, w)
    case Rejected => (forall v', o' :: !Inflates(out, u, v', o')) && forall w :: !StreamCut(out, u, n, w)
    case Undefined => StreamCut(out, u, n, v) && forall v', o' :: Inflates(out, u, v', o') ==> |v'| <= SLACK
  }

  lemma StuckBlock(out: seq<byte>, u: seq<bool>, n: nat, v: seq<bool>, n': nat, outcome: Outcome, o: seq<byte>)
    requires BlockRead(out, u, n, v, n', outcome, o) && outcome != Done
    ensures StreamRead(out, u, n, v, outcome, o)
  {
    hide Block, Inflates, BlockCut, BlockHeld;
    forall v', o' | Inflates(out, u, v', o') ensures outcome == Undefined && |v'| <= SLACK {
      InflatesRest(out, u, v', o');
    }
  }

  /** A later block of the same stream means, is cut off, and leaves room as the stream itself. */
  ghost predicate SameStream(out: seq<byte>, u: seq<bool>, n: nat, out': seq<byte>, u': seq<bool>, n': nat) {
    && (forall r, o :: Inflates(out, u, r, o) <==> Inflates(out', u', r, o))
    && (forall r, o :: LeavesRoom(out', u', r, o) ==> LeavesRoom(out, u, r, o))
    && (forall v :: StreamCut(out, u, n, v) <==> StreamCut(out', u', n', v))
  }

  lemma SameStreamStep(
      out: seq<byte>, u: seq<bool>, n: nat, out': seq<byte>, u': seq<bool>, n': nat, v: seq<bool>, m: nat, p: seq<byte>)
    requires SameStream(out, u, n, out', u', n') && BlockRead(out', u', n', v, m, Done, p) && |u'| > 0 && !u'[0]
    ensures SameStream(out, u, n, p, v, m)
  {
    hide Block, Inflates, BlockCut, BlockHeld, StreamCut;
    BlockRest(out', u', v, p);
    forall r, o ensures Inflates(out', u', r, o) <==> Inflates(p, v, r, o) {
      InflatesStep(out', u', v, p, r, o);
    }
    forall t ensures StreamCut(out', u', n', t) <==> StreamCut(p, v, m, t) {
      StreamCutStep(out', u', n', v, p, t);
    }
  }

  lemma StreamReadFurther(
      out: seq<byte>, u: seq<bool>, n: nat, out': seq<byte>, u': seq<bool>, n': nat, v: seq<bool>, outcome: Outcome, o: seq<byte>)
    requires StreamRead(out', u', n', v, outcome, o) && SameStream(out, u, n, out', u', n')
    ensures StreamRead(out, u, n, v, outcome, o)
  {
    hide Inflates, StreamCut, LeavesRoom;
  }

  /** A stream is read once its final block is. */
  lemma FinalRead(out: seq<byte>, u: seq<bool>, n: nat, v: seq<bool>, n': nat, o: seq<byte>)
    requires BlockRead(out, u, n, v, n', Done, o) && |u| > 0 && u[0]
    ensures StreamRead(out, u, n, v, Done, o)
  {
    hide Block, BlockRoom, BlockCut, BlockHeld;
    BlockRest(out, u, v, o);
  }

  /** The reading of the bits is cut off somewhere. */
  ghost predicate IsCut(out: seq<byte>, u: seq<bool>, n: nat) {
    exists v :: StreamCut(out, u, n, v)
  }

  ghost predicate HoldsStream(out: seq<byte>, u: seq<bool>) {
    exists r, o :: Inflates(out, u, r, o)
  }

  lemma CutSomewhere(out: seq<byte>, u: seq<bool>, n: nat, v: seq<bool>)
    requires StreamCut(out, u, n, v)
    ensures IsCut(out, u, n)
  {
  }

  lemma StreamThere(out: seq<byte>, u: seq<bool>, r: seq<bool>, o: seq<byte>)
    requires Inflates(out, u, r, o)
    ensures HoldsStream(out, u)
  {
  }

  /** The first refill needs more than 24 bits. */
  lemma ShortInput(out: seq<byte>, u: seq<bool>)
    requires |u| <= SLACK
    ensures IsCut(out, u, 0)
  {
    hide StreamCut;
    CutAtStart(out, u);
    CutSomewhere(out, u, 0, u);
  }

  lemma CutAtStart(out: seq<byte>, u: seq<bool>)
    requires |u| <= SLACK
    ensures StreamCut(out, u, 0, u)
  {
    hide ContentCut, Block;
  }

  /** The bits and the number of them that are buffered decide how a reader of a stream ends. */
  lemma OutcomeDecided(out: seq<byte>, u: seq<bool>, n: nat, v: seq<bool>, outcome: Outcome, o: seq<byte>)
    requires StreamRead(out, u, n, v, outcome, o)
    ensures outcome == if IsCut(out, u, n) then Undefined else if HoldsStream(out, u) then Done else Rejected
    ensures forall r, p :: Inflates(out, u, r, p) && outcome == Done ==> r == v && p == o
    ensures forall r, p :: Inflates(out, u, r, p) && |r| > SLACK ==> outcome == Done && o == p
    ensures forall r, p :: Inflates(out, u, r, p) && !LeavesRoom(out, u, r, p) ==> outcome == Undefined
  {
    hide Inflates, StreamCut, LeavesRoom;
    match outcome
    case Done =>
      StreamThere(out, u, v, o);
      forall r, p | Inflates(out, u, r, p) ensures r == v && p == o {
        InflatesUniquely(out, u, r, p, v, o);
      }
    case Rejected =>
    case Undefined =>
      CutSomewhere(out, u, n, v);
  }

  // ----- copying

  lemma NoneRepeated(out: seq<byte>, dist: nat)
    requires dist <= |out|
    ensures Repeated(out, 0, dist) == out
  {
  }

  /** Repeating the last byte only: the branch for distance 1 reads the same byte every time. */
  lemma ConstantTail(out: seq<byte>, n: nat)
    requires |out| > 0
    ensures |Repeated(out, n, 1)| == |out| + n && Repeated(out, n, 1)[|out| - 1 + n] == out[|out| - 1]
  {
  }

  /** Copying one byte after the other from `dist` bytes back extends the periodic tail. */
  lemma RepeatedStep(out: seq<byte>, n: nat, dist: nat)
    requires 0 < dist <= |out|
    ensures |Repeated(out, n, dist)| == |out| + n
    ensures Repeated(out, n + 1, dist) == Repeated(out, n, dist) + [Repeated(out, n, dist)[|out| - dist + n]]
  {
    if n >= dist {
      ModBack(n, dist);
    } else {
      SmallMod(n, dist);
    }
  }

  lemma ModBack(n: nat, p: nat)
    requires 0 < p <= n
    ensures (n - p) % p == n % p
  {
    NextRemainder(n - p, p);
  }

  lemma FewExtraBits(l: LengthIndex, d: DistanceIndex)
    ensures LengthExtra(l) <= 5 && DistanceExtra(d) <= 13
  {
  }
}
