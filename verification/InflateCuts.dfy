/** Where the source leaves what it is given: the places of a reading at which it asks for more bits
    than are left, and the copies of output that was never written. How many bits are buffered at each
    place is a function of what has been read, so these places are determined by the bits alone. */
module InflateCuts {
  import opened BitStream
  import opened HuffmanCodes
  import opened PrefixCodes
  import opened BitBuffer
  import opened Deflate
  import opened DeflateStream

  // ----- items

  /** What is buffered after the symbol of length l, with its extra bits or without. */
  function LengthHeld(L: seq<nat>, n: nat, l: LengthIndex, extra: bool): nat
    requires Codes(L, 257 + l)
  {
    var held := AfterAsk(n, WINDOW, L[257 + l]);
    if extra then AfterAsk(held, LengthExtra(l), LengthExtra(l)) else held
  }

  function DistanceHeld(L: seq<nat>, D: seq<nat>, n: nat, l: LengthIndex, d: DistanceIndex): nat
    requires Codes(L, 257 + l) && Codes(D, d)
  {
    AfterAsk(LengthHeld(L, n, l, true), WINDOW, D[d])
  }

  /** What is buffered after an item. */
  function ItemHeld(L: seq<nat>, D: seq<nat>, n: nat, x: Item): nat
    requires Codable(L, D, x)
  {
    match x
    case Literal(v) => AfterAsk(n, WINDOW, L[v])
    case EndOfBlock => AfterAsk(n, WINDOW, L[256])
    case Copy(l, _, d, _) => AfterAsk(DistanceHeld(L, D, n, l, d), DistanceExtra(d), DistanceExtra(d))
  }

  /** The bits u start with the symbol of length l, of which v is left, with the extra bits or
      without. */
  ghost predicate PastLength(L: seq<nat>, u: seq<bool>, l: LengthIndex, extra: bool, v: seq<bool>)
    ensures PastLength(L, u, l, extra, v) ==> Codes(L, 257 + l)
  {
    && Codes(L, 257 + l)
    && var n := L[257 + l] + (if extra then LengthExtra(l) else 0);
       n <= |u| && SymbolBits(L, 257 + l) <= u && v == u[n..]
  }

  /** Cut off in a copy at the extra bits of its length, or at its distance symbol. */
  ghost predicate LengthCut(L: seq<nat>, u: seq<bool>, n: nat, v: seq<bool>) {
    exists l: LengthIndex, extra: bool :: PastLength(L, u, l, extra, v)
      && Short(LengthHeld(L, n, l, extra), if extra then WINDOW else LengthExtra(l), v)
  }

  /** Cut off in a copy at the extra bits of its distance. */
  ghost predicate DistanceCut(L: seq<nat>, D: seq<nat>, u: seq<bool>, n: nat, v: seq<bool>) {
    exists l: LengthIndex, w, d: DistanceIndex :: PastLength(L, u, l, true, w)
      && Codes(D, d) && w == SymbolBits(D, d) + v && Short(DistanceHeld(L, D, n, l, d), DistanceExtra(d), v)
  }

  /** Stopped after a copy from distance 0. */
  ghost predicate StaleCut(L: seq<nat>, D: seq<nat>, u: seq<bool>, v: seq<bool>) {
    exists x :: StaleCopy(L, D, x) && u == ItemBits(L, D, x) + v
  }

  /** The reader of the item at the start of u, with n bits buffered, is cut off before v. */
  ghost predicate ItemCut(L: seq<nat>, D: seq<nat>, u: seq<bool>, n: nat, v: seq<bool>) {
    || (Short(n, WINDOW, u) && v == u)
    || LengthCut(L, u, n, v)
    || DistanceCut(L, D, u, n, v)
    || StaleCut(L, D, u, v)
  }

  /** A first symbol that is no copy's. */
  lemma NotCutAtSymbol(L: seq<nat>, D: seq<nat>, u: seq<bool>, n: nat, s: nat)
    requires GoodLengths(L) && Codes(L, s) && SymbolBits(L, s) <= u && s <= 256 && !Short(n, WINDOW, u)
    ensures forall v :: !ItemCut(L, D, u, n, v)
  {
    hide SymbolBits, ItemBits, LengthExtra, DistanceExtra, Kraft, LengthsOk, AfterAsk, Short;
    forall l: LengthIndex, extra, v ensures !PastLength(L, u, l, extra, v) {
      if PastLength(L, u, l, extra, v) {
        CodeIsUnique(L, 257 + l, s, u);
      }
    }
    forall v ensures !StaleCut(L, D, u, v) {
      if x :| StaleCopy(L, D, x) && u == ItemBits(L, D, x) + v {
        HeadIsUnique(L, D, x, s, u);
      }
    }
  }

  /** No first symbol at all. */
  lemma NotCutUnknown(L: seq<nat>, D: seq<nat>, u: seq<bool>, n: nat)
    requires NoCodeStarts(L, u) && !Short(n, WINDOW, u)
    ensures forall v :: !ItemCut(L, D, u, n, v)
  {
    hide SymbolBits, ItemBits, LengthExtra, DistanceExtra, AfterAsk, Short, Codable;
    forall v ensures !StaleCut(L, D, u, v) {
      if x :| StaleCopy(L, D, x) && u == ItemBits(L, D, x) + v {
        StartsWithHead(L, D, x, u);
      }
    }
  }

  /** The length symbol of a copy and what follows it are determined. */
  lemma LengthIsUnique(L: seq<nat>, u: seq<bool>, l: LengthIndex, extra: bool, v: seq<bool>, l': LengthIndex, v': seq<bool>)
    requires GoodLengths(L) && PastLength(L, u, l, extra, v) && PastLength(L, u, l', extra, v')
    ensures l' == l && v' == v
  {
    hide SymbolBits, Kraft, LengthsOk, LengthExtra;
    CodeIsUnique(L, 257 + l, 257 + l', u);
  }

  /** A copy that was read past its length: v after the symbol, w after the extra bits. */
  ghost predicate LengthPassed(L: seq<nat>, u: seq<bool>, n: nat, l: LengthIndex, v: seq<bool>, w: seq<bool>) {
    && !Short(n, WINDOW, u)
    && PastLength(L, u, l, false, v) && !Short(LengthHeld(L, n, l, false), LengthExtra(l), v)
    && PastLength(L, u, l, true, w) && !Short(LengthHeld(L, n, l, true), WINDOW, w)
  }

  lemma NotLengthCut(L: seq<nat>, u: seq<bool>, n: nat, l: LengthIndex, v: seq<bool>, w: seq<bool>)
    requires GoodLengths(L) && LengthPassed(L, u, n, l, v, w)
    ensures forall v' :: !LengthCut(L, u, n, v')
  {
    hide PastLength, Short, LengthExtra, Kraft, LengthsOk, AfterAsk, LengthHeld;
    forall v' ensures !LengthCut(L, u, n, v') {
      if l': LengthIndex, extra: bool :|
        && PastLength(L, u, l', extra, v')
        && Short(LengthHeld(L, n, l', extra), if extra then WINDOW else LengthExtra(l'), v')
      {
        LengthIsUnique(L, u, l, extra, if extra then w else v, l', v');
      }
    }
  }

  /** A copy whose distance symbol is d at most. */
  lemma NotDistanceCut(L: seq<nat>, D: seq<nat>, u: seq<bool>, n: nat, l: LengthIndex, w: seq<bool>)
    requires GoodLengths(L) && PastLength(L, u, l, true, w)
    requires forall d: DistanceIndex, t :: Codes(D, d) && w == SymbolBits(D, d) + t ==>
               !Short(DistanceHeld(L, D, n, l, d), DistanceExtra(d), t)
    ensures forall v' :: !DistanceCut(L, D, u, n, v')
  {
    hide PastLength, Short, DistanceExtra, Kraft, LengthsOk, DistanceHeld, SymbolBits;
    forall v' ensures !DistanceCut(L, D, u, n, v') {
      if l': LengthIndex, w', d: DistanceIndex :|
        && PastLength(L, u, l', true, w')
        && Codes(D, d) && w' == SymbolBits(D, d) + v' && Short(DistanceHeld(L, D, n, l', d), DistanceExtra(d), v')
      {
        LengthIsUnique(L, u, l, true, w, l', w');
      }
    }
  }

  /** Where the distance symbol of a stale copy stands. */
  lemma StaleStarts(L: seq<nat>, D: seq<nat>, u: seq<bool>, x: Item, v: seq<bool>) returns (w: seq<bool>)
    requires x.Copy? && Codable(L, D, x) && u == ItemBits(L, D, x) + v
    ensures PastLength(L, u, x.l, true, w) && SymbolBits(D, x.d) <= w
  {
    hide SymbolBits, ItemBits, LengthExtra, DistanceExtra, Number;
    CopyParts(L, D, x, u);
    w := u[L[257 + x.l]..][LengthExtra(x.l)..];
  }

  /** A copy whose distance no code starts. */
  lemma NotCutNoDistance(L: seq<nat>, D: seq<nat>, u: seq<bool>, n: nat, l: LengthIndex, v: seq<bool>, w: seq<bool>)
    requires GoodLengths(L) && LengthPassed(L, u, n, l, v, w) && NoCodeStarts(D, w)
    ensures forall v' :: !ItemCut(L, D, u, n, v')
  {
    hide PastLength, Short, LengthExtra, DistanceExtra, SymbolBits, ItemBits, Kraft, LengthsOk, AfterAsk, LengthHeld,
      DistanceHeld, LengthCut, DistanceCut;
    NotLengthCut(L, u, n, l, v, w);
    NotDistanceCut(L, D, u, n, l, w);
    forall v' ensures !StaleCut(L, D, u, v') {
      if x :| StaleCopy(L, D, x) && u == ItemBits(L, D, x) + v' {
        var w' := StaleStarts(L, D, u, x, v');
        LengthIsUnique(L, u, l, true, w, x.l, w');
      }
    }
  }

  /** A copy that was read to its end, and is not from distance 0. */
  lemma NotCutInCopy(
      L: seq<nat>, D: seq<nat>, u: seq<bool>, n: nat, v: seq<bool>, w: seq<bool>, x: Item, t: seq<bool>)
    requires GoodLengths(L) && GoodLengths(D) && x.Copy? && Codable(L, D, x) && ItemBits(L, D, x) <= u
    requires LengthPassed(L, u, n, x.l, v, w)
    requires w == SymbolBits(D, x.d) + t && !Short(DistanceHeld(L, D, n, x.l, x.d), DistanceExtra(x.d), t)
    requires !StaleCopy(L, D, x)
    ensures forall v' :: !ItemCut(L, D, u, n, v')
  {
    hide PastLength, Short, LengthExtra, DistanceExtra, SymbolBits, ItemBits, Kraft, LengthsOk, AfterAsk, LengthHeld,
      DistanceHeld, LengthCut, DistanceCut;
    NotLengthCut(L, u, n, x.l, v, w);
    forall d: DistanceIndex, t' | Codes(D, d) && w == SymbolBits(D, d) + t'
      ensures !Short(DistanceHeld(L, D, n, x.l, d), DistanceExtra(d), t')
    {
      CodeIsUnique(D, d, x.d, w);
      SameTail(SymbolBits(D, x.d), t, t');
    }
    NotDistanceCut(L, D, u, n, x.l, w);
    forall v' ensures !StaleCut(L, D, u, v') {
      if y :| StaleCopy(L, D, y) && u == ItemBits(L, D, y) + v' {
        OnlyItem(L, D, x, y, u);
      }
    }
  }

  lemma SameTail(p: seq<bool>, a: seq<bool>, b: seq<bool>)
    requires p + a == p + b
    ensures a == b
  {
    assert a == (p + a)[|p|..] && b == (p + b)[|p|..];
  }

  lemma OnlyItem(L: seq<nat>, D: seq<nat>, x: Item, y: Item, u: seq<bool>)
    requires GoodLengths(L) && GoodLengths(D) && Codable(L, D, x) && ItemBits(L, D, x) <= u
    requires StaleCopy(L, D, y) && ItemBits(L, D, y) <= u
    ensures x == y
  {
    hide ItemBits, GoodLengths;
    ItemIsUnique(L, D, x, y, u);
  }

  // ----- blocks

  /** A block is cut off before v in one of its items. */
  ghost predicate BodyCut(L: seq<nat>, D: seq<nat>, out: seq<byte>, u: seq<bool>, n: nat, v: seq<bool>)
    decreases |u|
  {
    || ItemCut(L, D, u, n, v)
    || exists x :: Next(L, D, out, u, x) && !x.EndOfBlock? && BodyCutAfter(L, D, out, u, n, x, v)
  }

  ghost predicate BodyCutAfter(L: seq<nat>, D: seq<nat>, out: seq<byte>, u: seq<bool>, n: nat, x: Item, v: seq<bool>)
    requires Next(L, D, out, u, x)
    decreases |u|, 0
  {
    BodyCut(L, D, Effect(out, x), u[|ItemBits(L, D, x)|..], ItemHeld(L, D, n, x), v)
  }

  /** What is buffered after a block. */
  ghost function BodyHeld(L: seq<nat>, D: seq<nat>, out: seq<byte>, u: seq<bool>, n: nat): nat
    decreases |u|
  {
    if x :| Next(L, D, out, u, x) then
      if x.EndOfBlock? then ItemHeld(L, D, n, x)
      else BodyHeld(L, D, Effect(out, x), u[|ItemBits(L, D, x)|..], ItemHeld(L, D, n, x))
    else n
  }

  lemma BodyHeldStep(L: seq<nat>, D: seq<nat>, out: seq<byte>, u: seq<bool>, n: nat, x: Item)
    requires GoodLengths(L) && GoodLengths(D) && Next(L, D, out, u, x)
    ensures BodyHeld(L, D, out, u, n) ==
              if x.EndOfBlock? then ItemHeld(L, D, n, x)
              else BodyHeld(L, D, Effect(out, x), u[|ItemBits(L, D, x)|..], ItemHeld(L, D, n, x))
  {
    hide ItemBits, Codable, InReach, Effect, ItemHeld, GoodLengths;
    forall y | Next(L, D, out, u, y) ensures y == x {
      ItemIsUnique(L, D, x, y, u);
    }
  }

  lemma BodyCutStep(L: seq<nat>, D: seq<nat>, out: seq<byte>, u: seq<bool>, n: nat, x: Item, v: seq<bool>)
    requires GoodLengths(L) && GoodLengths(D) && Next(L, D, out, u, x) && !x.EndOfBlock?
    requires !ItemCut(L, D, u, n, v)
    ensures BodyCut(L, D, out, u, n, v) <==>
              BodyCut(L, D, Effect(out, x), u[|ItemBits(L, D, x)|..], ItemHeld(L, D, n, x), v)
  {
    hide ItemBits, Codable, InReach, Effect, ItemHeld, GoodLengths, ItemCut;
    assert BodyCutAfter(L, D, out, u, n, x, v) <==>
             BodyCut(L, D, Effect(out, x), u[|ItemBits(L, D, x)|..], ItemHeld(L, D, n, x), v);
    forall y | Next(L, D, out, u, y) ensures y == x {
      ItemIsUnique(L, D, x, y, u);
    }
  }

  // ----- runs of code lengths

  function RunHeld(C: seq<nat>, n: nat, x: Run): nat
    requires RunCodable(C, x)
  {
    AfterAsk(AfterAsk(n, WINDOW, C[x.symbol]), RunExtraBits(x.symbol), RunExtraBits(x.symbol))
  }

  /** A run of code lengths is cut off before v. */
  ghost predicate RunCut(C: seq<nat>, u: seq<bool>, n: nat, v: seq<bool>) {
    || (Short(n, WINDOW, u) && v == u)
    || exists c: RunSymbol ::
         Codes(C, c) && u == SymbolBits(C, c) + v && Short(AfterAsk(n, WINDOW, C[c]), RunExtraBits(c), v)
  }

  lemma NotCutInRun(C: seq<nat>, u: seq<bool>, n: nat, c: RunSymbol, w: seq<bool>)
    requires GoodLengths(C) && Codes(C, c) && u == SymbolBits(C, c) + w && !Short(n, WINDOW, u)
    requires !Short(AfterAsk(n, WINDOW, C[c]), RunExtraBits(c), w)
    ensures forall v :: !RunCut(C, u, n, v)
  {
    hide SymbolBits, Kraft, LengthsOk, Short, AfterAsk, RunExtraBits;
    forall v ensures !RunCut(C, u, n, v) {
      if c': RunSymbol :|
        Codes(C, c') && u == SymbolBits(C, c') + v && Short(AfterAsk(n, WINDOW, C[c']), RunExtraBits(c'), v)
      {
        CodeIsUnique(C, c, c', u);
        SameTail(SymbolBits(C, c), w, v);
      }
    }
  }

  lemma NotCutNoRun(C: seq<nat>, u: seq<bool>, n: nat)
    requires NoCodeStarts(C, u) && !Short(n, WINDOW, u)
    ensures forall v :: !RunCut(C, u, n, v)
  {
    hide SymbolBits, Short, AfterAsk;
  }

  ghost predicate LengthsCut(C: seq<nat>, m: nat, lens: seq<nat>, u: seq<bool>, n: nat, v: seq<bool>)
    decreases |u|
  {
    && |lens| < m
    && (|| RunCut(C, u, n, v)
        || exists x :: NextRun(C, m, lens, u, x) && LengthsCutAfter(C, m, lens, u, n, x, v))
  }

  ghost predicate LengthsCutAfter(C: seq<nat>, m: nat, lens: seq<nat>, u: seq<bool>, n: nat, x: Run, v: seq<bool>)
    requires NextRun(C, m, lens, u, x)
    decreases |u|, 0
  {
    LengthsCut(C, m, lens + Times(RunLength(x), RunValue(lens, x)), u[|RunBits(C, x)|..], RunHeld(C, n, x), v)
  }

  /** What is buffered after all lengths. */
  ghost function LengthsHeld(C: seq<nat>, m: nat, lens: seq<nat>, u: seq<bool>, n: nat): nat
    decreases |u|
  {
    if |lens| >= m then n
    else if x :| NextRun(C, m, lens, u, x) then
      LengthsHeld(C, m, lens + Times(RunLength(x), RunValue(lens, x)), u[|RunBits(C, x)|..], RunHeld(C, n, x))
    else n
  }

  lemma LengthsHeldStep(C: seq<nat>, m: nat, lens: seq<nat>, u: seq<bool>, n: nat, x: Run)
    requires GoodLengths(C) && |lens| < m && NextRun(C, m, lens, u, x)
    ensures LengthsHeld(C, m, lens, u, n) ==
              LengthsHeld(C, m, lens + Times(RunLength(x), RunValue(lens, x)), u[|RunBits(C, x)|..], RunHeld(C, n, x))
  {
    hide RunBits, RunCodable, RunLength, RunValue, RunHeld, GoodLengths;
    forall y | NextRun(C, m, lens, u, y) ensures y == x {
      RunIsUnique(C, x, y, u);
    }
  }

  lemma LengthsCutStep(C: seq<nat>, m: nat, lens: seq<nat>, u: seq<bool>, n: nat, x: Run, v: seq<bool>)
    requires GoodLengths(C) && |lens| < m && NextRun(C, m, lens, u, x) && !RunCut(C, u, n, v)
    ensures LengthsCut(C, m, lens, u, n, v) <==>
              LengthsCut(C, m, lens + Times(RunLength(x), RunValue(lens, x)), u[|RunBits(C, x)|..], RunHeld(C, n, x), v)
  {
    hide RunBits, RunCodable, RunLength, RunValue, RunHeld, GoodLengths, RunCut;
    assert LengthsCutAfter(C, m, lens, u, n, x, v) <==>
             LengthsCut(C, m, lens + Times(RunLength(x), RunValue(lens, x)), u[|RunBits(C, x)|..], RunHeld(C, n, x), v);
    forall y | NextRun(C, m, lens, u, y) ensures y == x {
      RunIsUnique(C, x, y, u);
    }
  }

  // ----- the header of a dynamic block

  /** The bits u hold the lengths of the code length code. */
  predicate SizesRead(u: seq<bool>) {
    |u| >= 14 && SizeCount(u) <= 19 && 14 + 3 * SizeCount(u) <= |u|
  }

  /** What is buffered after the counts and the first k lengths of the code length code. */
  function SizesHeld(n: nat, k: nat): nat {
    if k == 0 then AfterAsk(AfterAsk(AfterAsk(n, 5, 5), 5, 5), 4, 4) else AfterAsk(SizesHeld(n, k - 1), 3, 3)
  }

  /** After k bits of a header the next count or length is asked for, and is not all there. */
  ghost predicate HeaderShort(u: seq<bool>, n: nat, k: nat) {
    && k <= |u|
    && (|| (k == 0 && Short(n, 5, u))
        || (k == 5 && Short(AfterAsk(n, 5, 5), 5, u[k..]))
        || (k == 10 && Short(AfterAsk(AfterAsk(n, 5, 5), 5, 5), 4, u[k..]))
        || (|u| >= 14 && exists i: nat :: i < SizeCount(u) && k == 14 + 3 * i && Short(SizesHeld(n, i), 3, u[k..])))
  }

  /** The header of a dynamic block is cut off before v. */
  ghost predicate HeaderCut(u: seq<bool>, n: nat, v: seq<bool>) {
    || (exists k: nat :: HeaderShort(u, n, k) && v == u[k..])
    || (SizesRead(u)
        && var C := Sizes(u[14..], SizeCount(u));
           && Kraft(C)
           && LengthsCut(C, LiteralCount(u) + DistanceCount(u), [], u[14 + 3 * SizeCount(u)..],
                SizesHeld(n, SizeCount(u)), v))
  }

  ghost function HeaderHeld(u: seq<bool>, n: nat): nat {
    if SizesRead(u) then
      LengthsHeld(Sizes(u[14..], SizeCount(u)), LiteralCount(u) + DistanceCount(u), [], u[14 + 3 * SizeCount(u)..],
        SizesHeld(n, SizeCount(u)))
    else n
  }

  // ----- stored blocks

  /** The two numbers before the data of a stored block. */
  ghost predicate StoredHeader(u: seq<bool>, len: nat, nlen: nat, w: seq<bool>) {
    u[|u| % 8..] == ToBits(len, 16) + ToBits(nlen, 16) + w
  }

  /** A stored block is cut off before v: its header does not fit, or it announces more data than
      is left. */
  ghost predicate StoredCut(u: seq<bool>, v: seq<bool>) {
    || (|u[|u| % 8..]| < 32 && v == [])
    || exists len: nat :: len < 0x1_0000 && StoredHeader(u, len, 0xFFFF - len, v) && |v| < 8 * len
  }

  lemma HeaderNumbers(u: seq<bool>, len: nat, nlen: nat, w: seq<bool>)
    requires StoredHeader(u, len, nlen, w) && len < 0x1_0000 && nlen < 0x1_0000
    ensures var x := u[|u| % 8..]; |x| >= 32 && Number(x[..16]) == len && Number(x[16..32]) == nlen && x[32..] == w
  {
    hide ToBits, Number;
    FourParts(ToBits(len, 16), ToBits(nlen, 16), w, []);
    assert u[|u| % 8..] == ToBits(len, 16) + ToBits(nlen, 16) + w + [];
    SixteenBits(len);
    SixteenBits(nlen);
  }

  /** Its header decides whether a stored block is cut off. */
  lemma StoredCutDecides(u: seq<bool>, len: nat, nlen: nat, w: seq<bool>, v: seq<bool>)
    requires StoredHeader(u, len, nlen, w) && len < 0x1_0000 && nlen < 0x1_0000
    ensures StoredCut(u, v) <==> nlen == 0xFFFF - len && |w| < 8 * len && v == w
  {
    hide ToBits, Number, StoredHeader;
    HeaderNumbers(u, len, nlen, w);
    if len': nat :| len' < 0x1_0000 && StoredHeader(u, len', 0xFFFF - len', v) && |v| < 8 * len' {
      HeaderNumbers(u, len', 0xFFFF - len', v);
    }
  }

  // ----- blocks and streams

  /** What is buffered after the first three bits of a block. */
  function TypeHeld(n: nat): nat {
    AfterAsk(AfterAsk(n, 1, 1), 2, 2)
  }

  /** The block types, once the bits of the type are read. */
  ghost predicate ContentCut(out: seq<byte>, kind: nat, u: seq<bool>, n: nat, v: seq<bool>) {
    match kind
    case 0 => StoredCut(u, v)
    case 1 => BodyCut(FixedLengths(), FixedDistances(), out, u, n, v)
    case 2 =>
      HeaderCut(u, n, v) || exists w, L, D :: Header(u, w, L, D) && BodyCut(L, D, out, w, HeaderHeld(u, n), v)
    case _ => false
  }

  /** A block is cut off before v. */
  ghost predicate BlockCut(out: seq<byte>, u: seq<bool>, n: nat, v: seq<bool>) {
    || (v == u && Short(n, 1, u))
    || (|u| >= 1 && v == u[1..] && Short(AfterAsk(n, 1, 1), 2, v))
    || (|u| >= 3 && ContentCut(out, Number(u[1..3]), u[3..], TypeHeld(n), v))
  }

  ghost function ContentHeld(out: seq<byte>, kind: nat, u: seq<bool>, n: nat): nat {
    match kind
    case 0 => 0
    case 1 => BodyHeld(FixedLengths(), FixedDistances(), out, u, n)
    case _ =>
      if w, L, D :| Header(u, w, L, D) then BodyHeld(L, D, out, w, HeaderHeld(u, n)) else n
  }

  /** What is buffered after a block. */
  ghost function BlockHeld(out: seq<byte>, u: seq<bool>, n: nat): nat
    requires |u| >= 3
  {
    ContentHeld(out, Number(u[1..3]), u[3..], TypeHeld(n))
  }

  lemma DynamicHeld(out: seq<byte>, u: seq<bool>, n: nat, w: seq<bool>, L: seq<nat>, D: seq<nat>)
    requires Header(u, w, L, D)
    ensures ContentHeld(out, 2, u, n) == BodyHeld(L, D, out, w, HeaderHeld(u, n))
  {
    hide Header, BodyHeld, HeaderHeld;
    forall w', L', D' | Header(u, w', L', D') ensures w' == w && L' == L && D' == D {
      HeaderIsUnique(u, w, L, D, w', L', D');
    }
  }

  /** A dynamic block whose header was read is cut off where its body is. */
  lemma DynamicCut(out: seq<byte>, u: seq<bool>, n: nat, w: seq<bool>, L: seq<nat>, D: seq<nat>, v: seq<bool>)
    requires Header(u, w, L, D) && !HeaderCut(u, n, v)
    ensures ContentCut(out, 2, u, n, v) <==> BodyCut(L, D, out, w, HeaderHeld(u, n), v)
  {
    hide Header, BodyCut, HeaderHeld, HeaderCut;
    forall w', L', D' | Header(u, w', L', D') ensures w' == w && L' == L && D' == D {
      HeaderIsUnique(u, w, L, D, w', L', D');
    }
  }

  /** A stream is cut off before v in one of its blocks. */
  ghost predicate StreamCut(out: seq<byte>, u: seq<bool>, n: nat, v: seq<bool>)
    decreases |u|
  {
    || BlockCut(out, u, n, v)
    || exists w, p :: Block(out, u, w, p) && |w| < |u| && !u[0] && StreamCut(p, w, BlockHeld(out, u, n), v)
  }

  lemma StreamCutStep(out: seq<byte>, u: seq<bool>, n: nat, w: seq<bool>, p: seq<byte>, v: seq<bool>)
    requires Block(out, u, w, p) && |u| >= 3 && !u[0] && !BlockCut(out, u, n, v)
    ensures StreamCut(out, u, n, v) <==> StreamCut(p, w, BlockHeld(out, u, n), v)
  {
    hide Block, BlockCut, BlockHeld;
    BlockRest(out, u, w, p);
    forall w', p' | Block(out, u, w', p') ensures w' == w && p' == p {
      BlockIsUnique(out, u, w, p, w', p');
    }
  }

  // ----- how much must follow

  /** A symbol is looked up in a window of 16 bits, so behind the end of a compressed block the rest
      of the window must follow: behind the 7 bits that end a block with the fixed code, 9 more. */
  ghost predicate ContentRoom(kind: nat, r: seq<bool>) {
    && (kind == 1 ==> |r| >= WINDOW - 7)
    && (kind == 2 ==> |r| >= WINDOW - MAX_LENGTH)
  }

  ghost predicate BlockRoom(u: seq<bool>, r: seq<bool>) {
    |u| >= 3 && ContentRoom(Number(u[1..3]), r)
  }

  /** The stream that the bits u hold leaves room behind its final block. */
  ghost predicate LeavesRoom(out: seq<byte>, u: seq<bool>, r: seq<bool>, o: seq<byte>)
    decreases |u|
  {
    exists v, p :: Block(out, u, v, p) && |v| < |u|
      && (if u[0] then r == v && o == p && BlockRoom(u, v) else LeavesRoom(p, v, r, o))
  }
}
