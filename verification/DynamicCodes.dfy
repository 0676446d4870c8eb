/** Writing the header of a dynamic block as section 3.2.7 of RFC 1951 describes it, and the proof that
    the headers that can be read are exactly those written so. */
module DynamicCodes {
  import opened Bits
  import opened BitStream
  import opened HuffmanCodes
  import opened PrefixCodes
  import opened Deflate
  import opened DeflateStream

  // ----- the order of the lengths of the code length code

  /** 16, 17, 18, 0, and then by turns up from 8 and down from 7. */
  function OrderSymbol(i: nat): RunSymbol
    requires i < 19
  {
    if i < 3 then 16 + i
    else if i == 3 then 0
    else if i % 2 == 0 then 8 + (i - 4) / 2
    else 7 - (i - 5) / 2
  }

  lemma SizeOrderIs(i: nat)
    requires i < 19
    ensures SizeOrder(i) == OrderSymbol(i)
  {
  }

  /** The place of a symbol in the order. */
  function OrderPlace(s: RunSymbol): nat {
    if s >= 16 then s - 16
    else if s == 0 then 3
    else if s >= 8 then 4 + 2 * (s - 8)
    else 5 + 2 * (7 - s)
  }

  lemma OrderIsPermutation(i: nat, s: RunSymbol)
    requires i < 19
    ensures OrderPlace(s) < 19
    ensures OrderSymbol(i) == s <==> OrderPlace(s) == i
  {
  }

  // ----- those lengths, three bits each

  function SizeBits(C: seq<nat>, m: nat): (b: seq<bool>)
    requires |C| == 19 && m <= 19
    ensures |b| == 3 * m
  {
    if m == 0 then [] else SizeBits(C, m - 1) + ToBits(C[OrderSymbol(m - 1)], 3)
  }

  /** Lengths of three bits each; those after the first m in the order are 0. */
  ghost predicate SizesOk(C: seq<nat>, m: nat) {
    && |C| == 19 && 4 <= m <= 19
    && (forall s :: 0 <= s < 19 ==> C[s] <= 7)
    && (forall s: RunSymbol :: OrderPlace(s) >= m ==> C[s] == 0)
  }

  lemma {:induction false} SizeBitsAt(C: seq<nat>, m: nat, k: nat)
    requires |C| == 19 && k < m <= 19
    ensures SizeBits(C, m)[3 * k..3 * (k + 1)] == ToBits(C[OrderSymbol(k)], 3)
  {
    hide ToBits, OrderSymbol;
    if k < m - 1 {
      SizeBitsAt(C, m - 1, k);
      assert SizeBits(C, m)[3 * k..3 * (k + 1)] == SizeBits(C, m - 1)[3 * k..3 * (k + 1)];
    }
  }

  lemma {:induction false} SizesWritten(C: seq<nat>, m: nat, rest: seq<bool>, k: nat, s: RunSymbol)
    requires SizesOk(C, m) && k <= m
    ensures Sizes(SizeBits(C, m) + rest, k)[s] == if OrderPlace(s) < k then C[s] else 0
  {
    hide SizeBits, OrderSymbol, OrderPlace, SizeOrder, ToBits, Number, SizesOk;
    assert |C| == 19 && m <= 19 by { SizesShape(C, m); }
    if k > 0 {
      var u := SizeBits(C, m) + rest;
      SizesWritten(C, m, rest, k - 1, s);
      SizeOrderIs(k - 1);
      OrderIsPermutation(k - 1, s);
      SizeBitsAt(C, m, k - 1);
      assert u[3 * (k - 1)..3 * k] == SizeBits(C, m)[3 * (k - 1)..3 * k];
      ThreeBits(C, m, OrderSymbol(k - 1));
    }
  }

  lemma SizesShape(C: seq<nat>, m: nat)
    requires SizesOk(C, m)
    ensures |C| == 19 && 4 <= m <= 19
  {
  }

  lemma ThreeBits(C: seq<nat>, m: nat, s: RunSymbol)
    requires SizesOk(C, m)
    ensures Number(ToBits(C[s], 3)) == C[s]
  {
    SmallPowers();
    NumberOfBits(C[s], 3);
  }

  /** The lengths are read back. */
  lemma SizesRead(C: seq<nat>, m: nat, rest: seq<bool>)
    requires SizesOk(C, m)
    ensures Sizes(SizeBits(C, m) + rest, m) == C
  {
    hide SizeBits, OrderPlace, Sizes;
    var S := Sizes(SizeBits(C, m) + rest, m);
    forall s: nat | s < 19 ensures S[s] == C[s] {
      SizesWritten(C, m, rest, m, s);
    }
  }

  /** Conversely, the bits are those that the lengths read from them are written as. */
  lemma {:induction false} SizesWereWritten(u: seq<bool>, k: nat, m: nat)
    requires k <= m <= 19 && 3 * m <= |u|
    ensures SizeBits(Sizes(u, m), k) == u[..3 * k]
  {
    hide Sizes, ToBits, Number, OrderSymbol;
    if k > 0 {
      SizesWereWritten(u, k - 1, m);
      SizeRead(u, k - 1, m);
      assert u[..3 * k] == u[..3 * (k - 1)] + u[3 * (k - 1)..3 * k];
    }
  }

  lemma {:induction false} SizeRead(u: seq<bool>, i: nat, m: nat)
    requires i < m <= 19 && 3 * m <= |u|
    ensures ToBits(Sizes(u, m)[OrderSymbol(i)], 3) == u[3 * i..3 * (i + 1)]
  {
    hide ToBits, Number, OrderSymbol, SizeOrder, OrderPlace;
    SizeOrderIs(m - 1);
    OrderIsPermutation(m - 1, OrderSymbol(i));
    OrderIsPermutation(i, OrderSymbol(i));
    BitsOfNumber(u[3 * (m - 1)..3 * m]);
    if i < m - 1 {
      SizeRead(u, i, m - 1);
    }
  }

  lemma {:induction false} SizesAreOk(u: seq<bool>, m: nat)
    requires m <= 19 && 3 * m <= |u|
    ensures forall s: RunSymbol :: Sizes(u, m)[s] <= 7 && (OrderPlace(s) >= m ==> Sizes(u, m)[s] == 0)
  {
    hide Number, OrderSymbol, SizeOrder, OrderPlace;
    if m > 0 {
      SizesAreOk(u, m - 1);
      NumberBound(u[3 * (m - 1)..3 * m]);
      SmallPowers();
      SizeOrderIs(m - 1);
      OrderIsPermutation(m - 1, OrderSymbol(m - 1));
    }
  }

  // ----- the list of code lengths

  /** One length; the last length 3 to 6 more times; 3 to 138 zeros. */
  datatype Op = One(value: nat) | Again(n: nat) | Zeros(n: nat)

  predicate OpOk(C: seq<nat>, x: Op) {
    match x
    case One(v) => v <= 15 && Codes(C, v)
    case Again(n) => 3 <= n <= 6 && Codes(C, 16)
    case Zeros(n) => 3 <= n <= 138 && Codes(C, if n <= 10 then 17 else 18)
  }

  function OpBits(C: seq<nat>, x: Op): seq<bool>
    requires OpOk(C, x)
  {
    match x
    case One(v) => SymbolBits(C, v)
    case Again(n) => SymbolBits(C, 16) + ToBits(n - 3, 2)
    case Zeros(n) => if n <= 10 then SymbolBits(C, 17) + ToBits(n - 3, 3) else SymbolBits(C, 18) + ToBits(n - 11, 7)
  }

  /** The list after one step. */
  function Extended(lens: seq<nat>, x: Op): seq<nat>
    requires x.Again? ==> lens != []
  {
    match x
    case One(v) => lens + [v]
    case Again(n) => lens + seq(n, k => lens[|lens| - 1])
    case Zeros(n) => lens + seq(n, k => 0)
  }

  predicate OpsOk(C: seq<nat>, lens: seq<nat>, ops: seq<Op>)
    decreases |ops|
  {
    ops != [] ==>
      && OpOk(C, ops[0]) && (ops[0].Again? ==> lens != [])
      && OpsOk(C, Extended(lens, ops[0]), ops[1..])
  }

  function OpsBits(C: seq<nat>, lens: seq<nat>, ops: seq<Op>): seq<bool>
    requires OpsOk(C, lens, ops)
    decreases |ops|
  {
    if ops == [] then [] else OpBits(C, ops[0]) + OpsBits(C, Extended(lens, ops[0]), ops[1..])
  }

  /** The list after all steps. */
  function Described(C: seq<nat>, lens: seq<nat>, ops: seq<Op>): seq<nat>
    requires OpsOk(C, lens, ops)
    decreases |ops|
  {
    if ops == [] then lens else Described(C, Extended(lens, ops[0]), ops[1..])
  }

  /** The symbol and the extra bits that stand for a step. */
  function RunOf(C: seq<nat>, x: Op): Run
    requires OpOk(C, x)
  {
    match x
    case One(v) => Run(v, 0)
    case Again(n) => Run(16, n - 3)
    case Zeros(n) => if n <= 10 then Run(17, n - 3) else Run(18, n - 11)
  }

  lemma RunOfOp(C: seq<nat>, x: Op)
    requires OpOk(C, x)
    ensures RunCodable(C, RunOf(C, x)) && RunBits(C, RunOf(C, x)) == OpBits(C, x)
  {
    hide SymbolBits, Pow2;
    SmallPowers();
    if x.One? {
      assert SymbolBits(C, x.value) + [] == SymbolBits(C, x.value);
    }
  }

  lemma RunExtends(C: seq<nat>, lens: seq<nat>, x: Op)
    requires OpOk(C, x) && (x.Again? ==> lens != [])
    ensures var z := RunOf(C, x);
            && (z.symbol == 16 ==> lens != []) && RunLength(z) > 0
            && Extended(lens, x) == lens + Times(RunLength(z), RunValue(lens, z))
            && |Extended(lens, x)| == |lens| + RunLength(z)
  {
    hide Codes;
    if x.One? {
      assert Times(1, x.value) == [x.value];
    }
  }

  lemma {:induction false} DescribedGrows(C: seq<nat>, lens: seq<nat>, ops: seq<Op>)
    requires OpsOk(C, lens, ops)
    ensures |Described(C, lens, ops)| >= |lens|
    ensures ops != [] ==> |Described(C, lens, ops)| >= |Extended(lens, ops[0])| > |lens|
    decreases |ops|
  {
    hide OpOk, Extended;
    if ops != [] {
      RunExtends(C, lens, ops[0]);
      DescribedGrows(C, Extended(lens, ops[0]), ops[1..]);
    }
  }

  /** A list that was written is read back, whatever follows it. */
  lemma {:induction false} OpsRead(C: seq<nat>, lens: seq<nat>, ops: seq<Op>, r: seq<bool>)
    requires OpsOk(C, lens, ops)
    ensures var o := Described(C, lens, ops); Lengths(C, |o|, lens, OpsBits(C, lens, ops) + r, r, o)
    decreases |ops|
  {
    hide OpOk, OpBits, Extended, RunOf, RunBits, RunCodable, RunLength, RunValue, Times;
    var o, u := Described(C, lens, ops), OpsBits(C, lens, ops) + r;
    if ops == [] {
      assert u == r;
    } else {
      var x, lens' := ops[0], Extended(lens, ops[0]);
      OpsRead(C, lens', ops[1..], r);
      DescribedGrows(C, lens, ops);
      assert OpOk(C, x);
      RunOfOp(C, x);
      RunExtends(C, lens, x);
      var rest := OpsBits(C, lens', ops[1..]) + r;
      assert u == OpBits(C, x) + rest;
      assert u[|OpBits(C, x)|..] == rest;
      assert NextRun(C, |o|, lens, u, RunOf(C, x)) && AfterRun(C, |o|, lens, u, RunOf(C, x), r, o);
    }
  }

  function OpOf(C: seq<nat>, z: Run): Op
    requires RunCodable(C, z)
  {
    if z.symbol < 16 then One(z.symbol)
    else if z.symbol == 16 then Again(z.extra + 3)
    else if z.symbol == 17 then Zeros(z.extra + 3)
    else Zeros(z.extra + 11)
  }

  lemma OpOfRun(C: seq<nat>, z: Run)
    requires RunCodable(C, z)
    ensures OpOk(C, OpOf(C, z)) && RunOf(C, OpOf(C, z)) == z
  {
    hide Pow2;
    SmallPowers();
  }

  lemma OneMoreOp(C: seq<nat>, lens: seq<nat>, x: Op, ops: seq<Op>)
    requires OpOk(C, x) && (x.Again? ==> lens != []) && OpsOk(C, Extended(lens, x), ops)
    ensures OpsOk(C, lens, [x] + ops)
    ensures OpsBits(C, lens, [x] + ops) == OpBits(C, x) + OpsBits(C, Extended(lens, x), ops)
    ensures Described(C, lens, [x] + ops) == Described(C, Extended(lens, x), ops)
  {
    hide OpOk, OpBits, Extended;
    assert ([x] + ops)[1..] == ops;
  }

  /** Conversely, every list that can be read was written from some steps. */
  lemma {:induction false} LengthsWereWritten(
      C: seq<nat>, n: nat, lens: seq<nat>, u: seq<bool>, r: seq<bool>, o: seq<nat>) returns (ops: seq<Op>)
    requires Lengths(C, n, lens, u, r, o)
    ensures OpsOk(C, lens, ops) && u == OpsBits(C, lens, ops) + r && o == Described(C, lens, ops)
    decreases |u|
  {
    hide OpOk, OpBits, OpsOk, OpsBits, Described, Extended, RunOf, RunBits, RunCodable, RunLength, RunValue, Times, OpOf;
    if |lens| >= n {
      ops := [];
      NoOps(C, lens);
    } else {
      var z :| NextRun(C, n, lens, u, z) && AfterRun(C, n, lens, u, z, r, o);
      assert RunCodable(C, z);
      var x, v := OpOf(C, z), u[|RunBits(C, z)|..];
      OpOfRun(C, z);
      RunOfOp(C, x);
      AgainOf(C, z);
      RunExtends(C, lens, x);
      var more := LengthsWereWritten(C, n, Extended(lens, x), v, r, o);
      ops := [x] + more;
      OneMoreOp(C, lens, x, more);
      assert u == OpBits(C, x) + v;
    }
  }

  lemma NoOps(C: seq<nat>, lens: seq<nat>)
    ensures OpsOk(C, lens, []) && OpsBits(C, lens, []) == [] && Described(C, lens, []) == lens
  {
  }

  lemma AgainOf(C: seq<nat>, z: Run)
    requires RunCodable(C, z)
    ensures OpOf(C, z).Again? <==> z.symbol == 16
  {
  }

  // ----- the header

  /** Steps that describe both lists, in a code of which m lengths are sent. */
  ghost predicate HeaderOk(C: seq<nat>, m: nat, ops: seq<Op>, L: seq<nat>, D: seq<nat>) {
    && SizesOk(C, m) && Kraft(C)
    && 257 <= |L| <= 288 && 1 <= |D| <= 32 && Kraft(L) && Kraft(D)
    && OpsOk(C, [], ops) && Described(C, [], ops) == L + D
  }

  /** The three counts, the lengths of the code length code, and the list. */
  ghost function HeaderBits(C: seq<nat>, m: nat, ops: seq<Op>, L: seq<nat>, D: seq<nat>): seq<bool>
    requires HeaderOk(C, m, ops, L, D)
  {
    CountBits(|L|, |D|, m) + (SizeBits(C, m) + OpsBits(C, [], ops))
  }

  function CountBits(hlit: nat, hdist: nat, hclen: nat): (b: seq<bool>)
    requires 257 <= hlit && 1 <= hdist && 4 <= hclen
    ensures |b| == 14
  {
    ToBits(hlit - 257, 5) + (ToBits(hdist - 1, 5) + ToBits(hclen - 4, 4))
  }

  lemma CountsRead(hlit: nat, hdist: nat, hclen: nat, rest: seq<bool>)
    requires 257 <= hlit <= 288 && 1 <= hdist <= 32 && 4 <= hclen <= 19
    ensures var u := CountBits(hlit, hdist, hclen) + rest;
            LiteralCount(u) == hlit && DistanceCount(u) == hdist && SizeCount(u) == hclen && u[14..] == rest
  {
    hide ToBits, Number;
    var a, b, c := ToBits(hlit - 257, 5), ToBits(hdist - 1, 5), ToBits(hclen - 4, 4);
    var u := a + (b + c) + rest;
    assert u[..5] == a && u[5..10] == b && u[10..14] == c;
    SmallPowers();
    NumberOfBits(hlit - 257, 5);
    NumberOfBits(hdist - 1, 5);
    NumberOfBits(hclen - 4, 4);
  }

  lemma CountsWereWritten(u: seq<bool>)
    requires |u| >= 14
    ensures CountBits(LiteralCount(u), DistanceCount(u), SizeCount(u)) == u[..14]
  {
    hide ToBits, Number;
    BitsOfNumber(u[..5]);
    BitsOfNumber(u[5..10]);
    BitsOfNumber(u[10..14]);
    assert u[..14] == u[..5] + (u[5..10] + u[10..14]);
  }

  /** A header that was written is read back, whatever follows it. */
  lemma HeaderRoundTrip(C: seq<nat>, m: nat, ops: seq<Op>, L: seq<nat>, D: seq<nat>, r: seq<bool>)
    requires HeaderOk(C, m, ops, L, D)
    ensures Header(HeaderBits(C, m, ops, L, D) + r, r, L, D)
  {
    hide CountBits, SizeBits, OpsBits, Described, OpsOk, Kraft, Sizes, Lengths, LiteralCount, DistanceCount, SizeCount;
    var list := OpsBits(C, [], ops) + r;
    var u := HeaderBits(C, m, ops, L, D) + r;
    assert u == CountBits(|L|, |D|, m) + (SizeBits(C, m) + list);
    CountsRead(|L|, |D|, m, SizeBits(C, m) + list);
    SizesRead(C, m, list);
    OpsRead(C, [], ops, r);
    assert u[14 + 3 * m..] == u[14..][3 * m..] == list;
  }

  /** Conversely, every header that can be read was written so. */
  lemma HeaderWasWritten(u: seq<bool>, r: seq<bool>, L: seq<nat>, D: seq<nat>)
    returns (C: seq<nat>, m: nat, ops: seq<Op>)
    requires Header(u, r, L, D)
    ensures HeaderOk(C, m, ops, L, D) && u == HeaderBits(C, m, ops, L, D) + r
  {
    hide CountBits, SizeBits, OpsBits, Described, OpsOk, Kraft, Sizes, Lengths, Number, OrderPlace;
    m := SizeCount(u);
    C := Sizes(u[14..], m);
    CountsFit(u);
    SizesAreOk(u[14..], m);
    LengthsFit(C, LiteralCount(u) + DistanceCount(u), [], u[14 + 3 * m..], r, L + D);
    ops := LengthsWereWritten(C, LiteralCount(u) + DistanceCount(u), [], u[14 + 3 * m..], r, L + D);
    CountsWereWritten(u);
    SizesWereWritten(u[14..], m, m);
    assert u == u[..14] + (u[14..][..3 * m] + u[14 + 3 * m..]);
    assert u == CountBits(|L|, |D|, m) + (SizeBits(C, m) + OpsBits(C, [], ops)) + r;
  }

  // ----- every pair of codes can be sent

  /** A code of four bits for each of the lengths 0 to 15, and none for repetitions. */
  function PlainCode(): (C: seq<nat>)
    ensures |C| == 19
  {
    Times(16, 4) + Times(3, 0)
  }

  lemma PlainCodeIsOk()
    ensures SizesOk(PlainCode(), 19) && Kraft(PlainCode()) && forall v: nat :: v <= 15 ==> Codes(PlainCode(), v)
  {
    hide KraftSum, Shl, Pow2;
    KraftOfRepeats([], 16, 4);
    assert [] + Times(16, 4) == Times(16, 4);
    KraftOfNone();
    ShlIsMul(1, 12);
    SmallPowers();
    NoKraft(Times(16, 4), 3);
  }

  lemma {:induction false} NoKraft(lens: seq<nat>, n: nat)
    ensures KraftSum(lens + Times(n, 0), MAX_LENGTH) == KraftSum(lens, MAX_LENGTH)
  {
    hide Shl;
    var all := lens + Times(n, 0);
    if n == 0 {
      assert all == lens;
    } else {
      NoKraft(lens, n - 1);
      assert all[..|all| - 1] == lens + Times(n - 1, 0);
    }
  }

  function OneByOne(o: seq<nat>): seq<Op> {
    if o == [] then [] else [One(o[0])] + OneByOne(o[1..])
  }

  lemma {:induction false} OneByOneDescribes(C: seq<nat>, lens: seq<nat>, o: seq<nat>)
    requires LengthsOk(o) && forall v: nat :: v <= 15 ==> Codes(C, v)
    ensures OpsOk(C, lens, OneByOne(o)) && Described(C, lens, OneByOne(o)) == lens + o
    decreases |o|
  {
    hide Codes, OpsOk, Described, OpsBits, OpBits;
    if o == [] {
      NoOps(C, lens);
      assert lens + o == lens;
    } else {
      OneByOneDescribes(C, lens + [o[0]], o[1..]);
      OneMoreOp(C, lens, One(o[0]), OneByOne(o[1..]));
      assert lens + [o[0]] + o[1..] == lens + o;
    }
  }

  /** Any two codes of the sizes that the counts can say have a header. */
  lemma EveryCodeHasHeader(L: seq<nat>, D: seq<nat>) returns (C: seq<nat>, m: nat, ops: seq<Op>)
    requires 257 <= |L| <= 288 && 1 <= |D| <= 32 && GoodLengths(L) && GoodLengths(D)
    ensures HeaderOk(C, m, ops, L, D)
  {
    hide Kraft, PlainCode, SizesOk, OneByOne, OpsOk, Described, Codes;
    C, m, ops := PlainCode(), 19, OneByOne(L + D);
    PlainCodeIsOk();
    OneByOneDescribes(C, [], L + D);
    assert [] + (L + D) == L + D;
  }
}
