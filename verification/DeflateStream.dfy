/** Whole DEFLATE streams (RFC 1951): stored blocks, the lengths that a dynamic block starts with,
    the fixed code, and blocks one after another. Nothing here refers to how the bits are read. */
module DeflateStream {
  import opened Bits
  import opened BitStream
  import opened HuffmanCodes
  import opened PrefixCodes
  import opened Deflate

  // ----- runs of code lengths (section 3.2.7)

  type RunSymbol = s: nat | s < 19

  /** A symbol of the code length alphabet and its extra bits. */
  datatype Run = Run(symbol: RunSymbol, extra: nat)

  function RunExtraBits(s: RunSymbol): nat {
    if s < 16 then 0 else if s == 16 then 2 else if s == 17 then 3 else 7
  }

  predicate RunCodable(C: seq<nat>, x: Run) {
    Codes(C, x.symbol) && x.extra < Pow2(RunExtraBits(x.symbol))
  }

  function RunBits(C: seq<nat>, x: Run): (b: seq<bool>)
    requires RunCodable(C, x)
    ensures |b| > 0
  {
    SymbolBits(C, x.symbol) + ToBits(x.extra, RunExtraBits(x.symbol))
  }

  function RunLength(x: Run): nat {
    if x.symbol < 16 then 1 else if x.symbol < 18 then 3 + x.extra else 11 + x.extra
  }

  function RunValue(lens: seq<nat>, x: Run): nat
    requires x.symbol == 16 ==> lens != []
  {
    if x.symbol < 16 then x.symbol else if x.symbol == 16 then lens[|lens| - 1] else 0
  }

  /** The bits u go on with run x, which stays within n lengths and refers back to one if it must. */
  ghost predicate NextRun(C: seq<nat>, n: nat, lens: seq<nat>, u: seq<bool>, x: Run) {
    && RunCodable(C, x) && RunBits(C, x) <= u
    && |lens| + RunLength(x) <= n && (x.symbol == 16 ==> lens != [])
  }

  function Times(n: nat, v: nat): seq<nat> {
    seq(n, k => v)
  }

  /** The bits u complete the lengths to o, n in number, and leave r. */
  ghost predicate Lengths(C: seq<nat>, n: nat, lens: seq<nat>, u: seq<bool>, r: seq<bool>, o: seq<nat>)
    decreases |u|
  {
    if |lens| >= n then r == u && o == lens
    else exists x :: NextRun(C, n, lens, u, x) && AfterRun(C, n, lens, u, x, r, o)
  }

  ghost predicate AfterRun(C: seq<nat>, n: nat, lens: seq<nat>, u: seq<bool>, x: Run, r: seq<bool>, o: seq<nat>)
    requires NextRun(C, n, lens, u, x)
    decreases |u|, 0
  {
    Lengths(C, n, lens + Times(RunLength(x), RunValue(lens, x)), u[|RunBits(C, x)|..], r, o)
  }

  lemma RunParts(C: seq<nat>, x: Run, u: seq<bool>)
    requires RunCodable(C, x) && RunBits(C, x) <= u
    ensures SymbolBits(C, x.symbol) <= u
    ensures var v := u[C[x.symbol]..]; var n := RunExtraBits(x.symbol);
            n <= |v| && Number(v[..n]) == x.extra && |u| == |RunBits(C, x)| + |v[n..]|
  {
    hide SymbolBits, ToBits, Pow2, Number, RunExtraBits;
    var n := RunExtraBits(x.symbol);
    var e := ToBits(x.extra, n);
    Peel(SymbolBits(C, x.symbol), e, u);
    assert u[C[x.symbol]..][..n] == e;
    NumberOfBits(x.extra, n);
  }

  lemma RunIsUnique(C: seq<nat>, x: Run, y: Run, u: seq<bool>)
    requires GoodLengths(C) && RunCodable(C, x) && RunCodable(C, y) && RunBits(C, x) <= u && RunBits(C, y) <= u
    ensures x == y
  {
    hide SymbolBits, ToBits, Pow2, Number, RunExtraBits, RunBits, LengthsOk, Kraft;
    RunParts(C, x, u);
    RunParts(C, y, u);
    CodeIsUnique(C, x.symbol, y.symbol, u);
  }

  lemma LengthsStep(C: seq<nat>, n: nat, lens: seq<nat>, u: seq<bool>, x: Run, r: seq<bool>, o: seq<nat>)
    requires GoodLengths(C) && NextRun(C, n, lens, u, x)
    ensures Lengths(C, n, lens, u, r, o) <==> AfterRun(C, n, lens, u, x, r, o)
  {
    hide RunBits, RunCodable, AfterRun, GoodLengths, RunValue;
    if Lengths(C, n, lens, u, r, o) {
      var y :| NextRun(C, n, lens, u, y) && AfterRun(C, n, lens, u, y, r, o);
      RunIsUnique(C, x, y, u);
    }
  }

  lemma {:induction false} LengthsRest(C: seq<nat>, n: nat, lens: seq<nat>, u: seq<bool>, r: seq<bool>, o: seq<nat>)
    requires Lengths(C, n, lens, u, r, o)
    ensures |r| <= |u|
    ensures |lens| < n ==> exists x :: NextRun(C, n, lens, u, x) && |r| <= |u| - |RunBits(C, x)|
    decreases |u|
  {
    hide RunBits, RunCodable, RunValue, RunLength;
    if |lens| < n {
      var x :| NextRun(C, n, lens, u, x) && AfterRun(C, n, lens, u, x, r, o);
      LengthsRest(C, n, lens + Times(RunLength(x), RunValue(lens, x)), u[|RunBits(C, x)|..], r, o);
    }
  }

  lemma {:induction false} LengthsAreUnique(
      C: seq<nat>, n: nat, lens: seq<nat>, u: seq<bool>, r: seq<bool>, o: seq<nat>, r': seq<bool>, o': seq<nat>)
    requires GoodLengths(C) && Lengths(C, n, lens, u, r, o) && Lengths(C, n, lens, u, r', o')
    ensures r == r' && o == o'
    decreases |u|
  {
    hide RunBits, RunCodable, RunValue, RunLength, GoodLengths;
    if |lens| < n {
      var x :| NextRun(C, n, lens, u, x) && AfterRun(C, n, lens, u, x, r, o);
      LengthsStep(C, n, lens, u, x, r', o');
      LengthsAreUnique(C, n, lens + Times(RunLength(x), RunValue(lens, x)), u[|RunBits(C, x)|..], r, o, r', o');
    }
  }

  /** There are n lengths in the end, none over 15. */
  lemma {:induction false} LengthsFit(C: seq<nat>, n: nat, lens: seq<nat>, u: seq<bool>, r: seq<bool>, o: seq<nat>)
    requires Lengths(C, n, lens, u, r, o) && |lens| <= n && (lens == [] || LengthsOk(lens))
    ensures |o| == n && LengthsOk(o)
    decreases |u|
  {
    hide RunBits, RunCodable, RunLength;
    if |lens| < n {
      var x :| NextRun(C, n, lens, u, x) && AfterRun(C, n, lens, u, x, r, o);
      LengthsFit(C, n, lens + Times(RunLength(x), RunValue(lens, x)), u[|RunBits(C, x)|..], r, o);
    }
  }

  // ----- the header of a dynamic block

  /** The order in which the lengths of the code length code are sent. */
  function SizeOrder(i: nat): RunSymbol
    requires i < 19
  {
    [16, 17, 18, 0, 8, 7, 9, 6, 10, 5, 11, 4, 12, 3, 13, 2, 14, 1, 15][i]
  }

  /** The lengths of the code length code after k groups of three bits. */
  function Sizes(u: seq<bool>, k: nat): (C: seq<nat>)
    requires k <= 19 && 3 * k <= |u|
    ensures |C| == 19
  {
    if k == 0 then Times(19, 0) else Sizes(u, k - 1)[SizeOrder(k - 1) := Number(u[3 * (k - 1)..3 * k])]
  }

  lemma {:induction false} SizesAreShort(u: seq<bool>, k: nat)
    requires k <= 19 && 3 * k <= |u|
    ensures LengthsOk(Sizes(u, k))
  {
    if k > 0 {
      SizesAreShort(u, k - 1);
      NumberBound(u[3 * (k - 1)..3 * k]);
      SmallPowers();
    }
  }

  /** How many lengths of each kind the header announces. */
  function LiteralCount(u: seq<bool>): nat
    requires |u| >= 14
  {
    Number(u[..5]) + 257
  }

  function DistanceCount(u: seq<bool>): nat
    requires |u| >= 14
  {
    Number(u[5..10]) + 1
  }

  function SizeCount(u: seq<bool>): nat
    requires |u| >= 14
  {
    Number(u[10..14]) + 4
  }

  lemma CountsFit(u: seq<bool>)
    requires |u| >= 14
    ensures LiteralCount(u) <= 288 && DistanceCount(u) <= 32 && SizeCount(u) <= 19
  {
    NumberBound(u[..5]);
    NumberBound(u[5..10]);
    NumberBound(u[10..14]);
    SmallPowers();
  }

  /** The bits u start with the header of a dynamic block that gives these lengths. */
  ghost predicate Header(u: seq<bool>, r: seq<bool>, L: seq<nat>, D: seq<nat>) {
    && |u| >= 14 && SizeCount(u) <= 19 && 14 + 3 * SizeCount(u) <= |u|
    && var C := Sizes(u[14..], SizeCount(u));
    && Kraft(C) && Lengths(C, LiteralCount(u) + DistanceCount(u), [], u[14 + 3 * SizeCount(u)..], r, L + D)
    && |L| == LiteralCount(u) && Kraft(L) && Kraft(D)
  }

  lemma HeaderFits(u: seq<bool>, r: seq<bool>, L: seq<nat>, D: seq<nat>)
    requires Header(u, r, L, D)
    ensures GoodLengths(L) && GoodLengths(D) && |L| <= 288 && |D| <= 32
    ensures |r| <= |u| - 14 - 3 * SizeCount(u)
  {
    hide Sizes, Number, Lengths, Kraft, LiteralCount, DistanceCount, SizeCount;
    var C := Sizes(u[14..], SizeCount(u));
    CountsFit(u);
    LengthsFit(C, LiteralCount(u) + DistanceCount(u), [], u[14 + 3 * SizeCount(u)..], r, L + D);
    LengthsRest(C, LiteralCount(u) + DistanceCount(u), [], u[14 + 3 * SizeCount(u)..], r, L + D);
    forall i | 0 <= i < |L| ensures L[i] <= MAX_LENGTH {
      assert L[i] == (L + D)[i];
    }
    forall i | 0 <= i < |D| ensures D[i] <= MAX_LENGTH {
      assert D[i] == (L + D)[|L| + i];
    }
  }

  lemma HeaderIsUnique(
      u: seq<bool>, r: seq<bool>, L: seq<nat>, D: seq<nat>, r': seq<bool>, L': seq<nat>, D': seq<nat>)
    requires Header(u, r, L, D) && Header(u, r', L', D')
    ensures r == r' && L == L' && D == D'
  {
    hide Sizes, Number, Lengths, Kraft, LengthsOk, LiteralCount, DistanceCount, SizeCount;
    var C := Sizes(u[14..], SizeCount(u));
    SizesAreShort(u[14..], SizeCount(u));
    LengthsAreUnique(C, LiteralCount(u) + DistanceCount(u), [], u[14 + 3 * SizeCount(u)..], r, L + D, r', L' + D');
    assert L == (L + D)[..|L|] && D == (L + D)[|L|..];
    assert L' == (L' + D')[..|L'|] && D' == (L' + D')[|L'|..];
  }

  // ----- stored blocks (section 3.2.4)

  /** After the rest of the byte, the bits u hold a stored block with this content. The number of
      bits to the end of the input tells how far the next byte is. */
  ghost predicate Stored(u: seq<bool>, data: seq<byte>, r: seq<bool>) {
    && |data| < 0x1_0000
    && u[|u| % 8..] == ToBits(|data|, 16) + ToBits(0xFFFF - |data|, 16) + BytesBits(data) + r
  }

  lemma StoredFields(u: seq<bool>, data: seq<byte>, r: seq<bool>)
    requires Stored(u, data, r)
    ensures var v := u[|u| % 8..];
            && |v| == 32 + 8 * |data| + |r|
            && Number(v[..16]) == |data| && Number(v[16..32]) == 0xFFFF - |data|
            && v[32..32 + 8 * |data|] == BytesBits(data) && v[32 + 8 * |data|..] == r
  {
    hide ToBits, Number, BytesBits;
    StoredParts(u[|u| % 8..], data, r);
  }

  lemma StoredParts(v: seq<bool>, data: seq<byte>, r: seq<bool>)
    requires |data| < 0x1_0000 && v == ToBits(|data|, 16) + ToBits(0xFFFF - |data|, 16) + BytesBits(data) + r
    ensures |v| == 32 + 8 * |data| + |r|
    ensures Number(v[..16]) == |data| && Number(v[16..32]) == 0xFFFF - |data|
    ensures v[32..32 + 8 * |data|] == BytesBits(data) && v[32 + 8 * |data|..] == r
  {
    hide ToBits, Number, BytesBits;
    BytesBitsLength(data);
    FourParts(ToBits(|data|, 16), ToBits(0xFFFF - |data|, 16), BytesBits(data), r);
    SixteenBits(|data|);
    SixteenBits(0xFFFF - |data|);
  }

  lemma SixteenBits(k: nat)
    requires k < 0x1_0000
    ensures Number(ToBits(k, 16)) == k
  {
    SmallPowers();
    NumberOfBits(k, 16);
  }

  lemma FourParts(a: seq<bool>, b: seq<bool>, c: seq<bool>, d: seq<bool>)
    ensures var v := a + b + c + d;
            && v[..|a|] == a && v[|a|..|a| + |b|] == b
            && v[|a| + |b|..|a| + |b| + |c|] == c && v[|a| + |b| + |c|..] == d
  {
  }

  lemma {:induction false} BytesAreUnique(a: seq<byte>, b: seq<byte>)
    requires BytesBits(a) == BytesBits(b)
    ensures a == b
  {
    BytesBitsLength(a);
    BytesBitsLength(b);
    if a != [] {
      assert BytesBits(a)[..8] == ToBits(a[0], 8) && BytesBits(b)[..8] == ToBits(b[0], 8);
      assert BytesBits(a)[8..] == BytesBits(a[1..]) && BytesBits(b)[8..] == BytesBits(b[1..]);
      SmallPowers();
      NumberOfBits(a[0], 8);
      NumberOfBits(b[0], 8);
      BytesAreUnique(a[1..], b[1..]);
      assert a == [a[0]] + a[1..] && b == [b[0]] + b[1..];
    }
  }

  lemma StoredIsUnique(u: seq<bool>, data: seq<byte>, r: seq<bool>, data': seq<byte>, r': seq<bool>)
    requires Stored(u, data, r) && Stored(u, data', r')
    ensures data == data' && r == r'
  {
    hide Stored, BytesBits, Number;
    StoredFields(u, data, r);
    StoredFields(u, data', r');
    BytesAreUnique(data, data');
  }

  // ----- the fixed code (section 3.2.6)

  function FixedLengths(): (L: seq<nat>)
    ensures |L| == 288
  {
    Times(144, 8) + Times(112, 9) + Times(24, 7) + Times(8, 8)
  }

  function FixedDistances(): (D: seq<nat>)
    ensures |D| == 32
  {
    Times(32, 5)
  }

  /** The lengths symbol by symbol, as the table in section 3.2.6 gives them. */
  lemma FixedLengthAt(i: nat)
    requires i < 288
    ensures FixedLengths()[i] == if i <= 143 then 8 else if i <= 255 then 9 else if i <= 279 then 7 else 8
  {
  }

  lemma {:induction false} KraftOfRepeats(lens: seq<nat>, n: nat, l: nat)
    requires 0 < l <= MAX_LENGTH
    ensures KraftSum(lens + Times(n, l), MAX_LENGTH) == KraftSum(lens, MAX_LENGTH) + n * Shl(1, WINDOW - l)
  {
    var all := lens + Times(n, l);
    if n == 0 {
      assert all == lens;
    } else {
      KraftOfRepeats(lens, n - 1, l);
      assert all[..|all| - 1] == lens + Times(n - 1, l);
      AddOne(n, Shl(1, WINDOW - l));
    }
  }

  lemma AddOne(n: nat, p: nat)
    requires n > 0
    ensures n * p == (n - 1) * p + p
  {
  }

  /** The fixed codes use their whole code space. */
  lemma FixedIsComplete()
    ensures KraftSum(FixedLengths(), MAX_LENGTH) == WINDOW_LIMIT && KraftSum(FixedDistances(), MAX_LENGTH) == WINDOW_LIMIT
    ensures GoodLengths(FixedLengths()) && GoodLengths(FixedDistances())
  {
    hide KraftSum, Times, Shl, Pow2, FixedLengths, FixedDistances;
    FixedKraft();
    FixedAreOk();
  }

  lemma FixedAreOk()
    ensures LengthsOk(FixedLengths()) && LengthsOk(FixedDistances())
  {
  }

  lemma FixedKraft()
    ensures KraftSum(FixedLengths(), MAX_LENGTH) == WINDOW_LIMIT && KraftSum(FixedDistances(), MAX_LENGTH) == WINDOW_LIMIT
  {
    hide KraftSum, Times, Shl, Pow2;
    var a := Times(144, 8);
    var b := a + Times(112, 9);
    var c := b + Times(24, 7);
    KraftOfRepeats([], 144, 8);
    KraftOfRepeats(a, 112, 9);
    KraftOfRepeats(b, 24, 7);
    KraftOfRepeats(c, 8, 8);
    KraftOfRepeats([], 32, 5);
    assert [] + a == a && [] + Times(32, 5) == Times(32, 5);
    KraftOfNone();
    ShlIsMul(1, 8);
    ShlIsMul(1, 7);
    ShlIsMul(1, 9);
    ShlIsMul(1, 11);
    SmallPowers();
  }

  lemma KraftOfNone()
    ensures KraftSum([], MAX_LENGTH) == 0
  {
  }

  // ----- blocks one after another (section 3.2.3)

  /** Behind the type of a block the bits u hold its content, leaving r; it turns the output into o. */
  ghost predicate Content(out: seq<byte>, kind: nat, u: seq<bool>, r: seq<bool>, o: seq<byte>) {
    match kind
    case 0 => exists data :: Stored(u, data, r) && o == out + data
    case 1 => Body(FixedLengths(), FixedDistances(), out, u, r, o)
    case 2 => exists v, L, D :: Header(u, v, L, D) && Body(L, D, out, v, r, o)
    case _ => false
  }

  /** The bits u hold one block, leaving r; it turns the output into o. */
  ghost predicate Block(out: seq<byte>, u: seq<bool>, r: seq<bool>, o: seq<byte>) {
    |u| >= 3 && Content(out, Number(u[1..3]), u[3..], r, o)
  }

  lemma BlockRest(out: seq<byte>, u: seq<bool>, r: seq<bool>, o: seq<byte>)
    requires Block(out, u, r, o)
    ensures |r| < |u|
  {
    hide Body, Header, Stored, Number, FixedLengths, FixedDistances;
    if Number(u[1..3]) == 0 {
      var data :| Stored(u[3..], data, r) && o == out + data;
      StoredFields(u[3..], data, r);
    } else if Number(u[1..3]) == 1 {
      BodyRest(FixedLengths(), FixedDistances(), out, u[3..], r, o);
    } else {
      var v, L, D :| Header(u[3..], v, L, D) && Body(L, D, out, v, r, o);
      HeaderFits(u[3..], v, L, D);
      BodyRest(L, D, out, v, r, o);
    }
  }

  lemma BlockIsUnique(out: seq<byte>, u: seq<bool>, r: seq<bool>, o: seq<byte>, r': seq<bool>, o': seq<byte>)
    requires Block(out, u, r, o) && Block(out, u, r', o')
    ensures r == r' && o == o'
  {
    hide Body, Header, Stored, Number, FixedLengths, FixedDistances, Kraft, LengthsOk;
    if Number(u[1..3]) == 0 {
      var data :| Stored(u[3..], data, r) && o == out + data;
      var data' :| Stored(u[3..], data', r') && o' == out + data';
      StoredIsUnique(u[3..], data, r, data', r');
    } else if Number(u[1..3]) == 1 {
      FixedIsComplete();
      BodyIsUnique(FixedLengths(), FixedDistances(), out, u[3..], r, o, r', o');
    } else {
      var v, L, D :| Header(u[3..], v, L, D) && Body(L, D, out, v, r, o);
      var v', L', D' :| Header(u[3..], v', L', D') && Body(L', D', out, v', r', o');
      HeaderIsUnique(u[3..], v, L, D, v', L', D');
      HeaderFits(u[3..], v, L, D);
      BodyIsUnique(L, D, out, v, r, o, r', o');
    }
  }

  /** The bits u hold blocks up to a final one, leaving r; they turn the output into o. */
  ghost predicate Inflates(out: seq<byte>, u: seq<bool>, r: seq<bool>, o: seq<byte>)
    decreases |u|
  {
    exists v, p :: Block(out, u, v, p) && |v| < |u| && (if u[0] then r == v && o == p else Inflates(p, v, r, o))
  }

  lemma InflatesStep(out: seq<byte>, u: seq<bool>, v: seq<bool>, p: seq<byte>, r: seq<bool>, o: seq<byte>)
    requires Block(out, u, v, p)
    ensures |v| < |u|
    ensures Inflates(out, u, r, o) <==> if u[0] then r == v && o == p else Inflates(p, v, r, o)
  {
    hide Block;
    BlockRest(out, u, v, p);
    assert |u| > 0;
    if Inflates(out, u, r, o) {
      var v', p' :| Block(out, u, v', p') && |v'| < |u| && (if u[0] then r == v' && o == p' else Inflates(p', v', r, o));
      BlockIsUnique(out, u, v, p, v', p');
    }
  }

  /** What is left after a stream is no more than what is left after its first block. */
  lemma {:induction false} InflatesRest(out: seq<byte>, u: seq<bool>, r: seq<bool>, o: seq<byte>)
    requires Inflates(out, u, r, o)
    ensures exists v, p :: Block(out, u, v, p) && |r| <= |v| < |u|
    decreases |u|
  {
    hide Block;
    var v, p :| Block(out, u, v, p) && |v| < |u| && (if u[0] then r == v && o == p else Inflates(p, v, r, o));
    if !u[0] {
      InflatesRest(p, v, r, o);
    }
  }

  /** A sequence of bits holds at most one stream, with one meaning. */
  lemma {:induction false} InflatesUniquely(
      out: seq<byte>, u: seq<bool>, r: seq<bool>, o: seq<byte>, r': seq<bool>, o': seq<byte>)
    requires Inflates(out, u, r, o) && Inflates(out, u, r', o')
    ensures r == r' && o == o'
    decreases |u|
  {
    hide Block;
    var v, p :| Block(out, u, v, p) && |v| < |u| && (if u[0] then r == v && o == p else Inflates(p, v, r, o));
    InflatesStep(out, u, v, p, r', o');
    if !u[0] {
      InflatesUniquely(p, v, r, o, r', o');
    }
  }

  // ----- every output has a stream

  function Literals(data: seq<byte>): seq<Item> {
    if data == [] then [] else [Literal(data[0])] + Literals(data[1..])
  }

  lemma LiteralWrites(out: seq<byte>, b: byte)
    ensures Codable(FixedLengths(), FixedDistances(), Literal(b)) && Codes(FixedLengths(), 256)
    ensures InReach(out, Literal(b)) && Effect(out, Literal(b)) == out + [b]
  {
    FixedLengthAt(b);
    FixedLengthAt(256);
  }

  lemma {:induction false} LiteralsWrite(out: seq<byte>, data: seq<byte>)
    ensures var items := Literals(data);
            && Writable(FixedLengths(), FixedDistances(), out, items)
            && Expanded(FixedLengths(), FixedDistances(), out, items) == out + data
    decreases |data|
  {
    hide FixedLengths, FixedDistances, Codable, InReach, Effect, Writable, Expanded;
    if data == [] {
      LiteralWrites(out, 0);
      NothingWrites(FixedLengths(), FixedDistances(), out);
      assert out + data == out;
    } else {
      LiteralWrites(out, data[0]);
      LiteralsWrite(out + [data[0]], data[1..]);
      OneMoreWrites(FixedLengths(), FixedDistances(), out, Literal(data[0]), Literals(data[1..]));
      assert out + [data[0]] + data[1..] == out + data;
    }
  }

  lemma NothingWrites(L: seq<nat>, D: seq<nat>, out: seq<byte>)
    requires Codes(L, 256)
    ensures Writable(L, D, out, []) && Expanded(L, D, out, []) == out
  {
  }

  lemma OneMoreWrites(L: seq<nat>, D: seq<nat>, out: seq<byte>, x: Item, items: seq<Item>)
    requires Codable(L, D, x) && !x.EndOfBlock? && InReach(out, x) && Writable(L, D, Effect(out, x), items)
    ensures Writable(L, D, out, [x] + items)
    ensures Expanded(L, D, out, [x] + items) == Expanded(L, D, Effect(out, x), items)
  {
    hide Codable, InReach, Effect;
    assert ([x] + items)[1..] == items;
  }

  /** One final block with the fixed code that holds these items. */
  ghost function FixedBlock(items: seq<Item>): seq<bool>
    requires Writable(FixedLengths(), FixedDistances(), [], items)
  {
    [true] + ([true, false] + BlockBits(FixedLengths(), FixedDistances(), [], items))
  }

  lemma FixedBlockInflates(items: seq<Item>, r: seq<bool>)
    requires Writable(FixedLengths(), FixedDistances(), [], items)
    ensures Inflates([], FixedBlock(items) + r, r, Expanded(FixedLengths(), FixedDistances(), [], items))
  {
    hide FixedLengths, FixedDistances, BlockBits, Body, Number, Writable, Expanded;
    var L, D := FixedLengths(), FixedDistances();
    WrittenBlock(L, D, [], items, r);
    var u, w := FixedBlock(items) + r, BlockBits(L, D, [], items) + r;
    assert u == [true, true, false] + w;
    assert u[3..] == w && u[1..3] == [true, false];
    TypeOne();
    assert Block([], u, r, Expanded(L, D, [], items));
  }

  /** One final block with the fixed code, all literals. */
  ghost function FixedStream(data: seq<byte>): seq<bool> {
    LiteralsWrite([], data);
    FixedBlock(Literals(data))
  }

  lemma FixedRoundTrip(data: seq<byte>, r: seq<bool>)
    ensures Inflates([], FixedStream(data) + r, r, data)
  {
    hide FixedBlock, Literals, Writable, Expanded, Inflates;
    LiteralsWrite([], data);
    FixedBlockInflates(Literals(data), r);
    assert [] + data == data;
  }

  lemma TypeOne()
    ensures Number([true, false]) == 1
  {
    assert [true, false][1..] == [false];
    assert [false][1..] == [];
  }
}
