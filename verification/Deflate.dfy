/** Compressed blocks of the DEFLATE format (RFC 1951): what a sequence of bits means, given the
    code lengths of its two alphabets. Nothing here refers to how the bits are read. */
module Deflate {
  import opened Bits
  import opened BitStream
  import opened HuffmanCodes
  import opened PrefixCodes

  // ----- lengths and distances: the tables of section 3.2.5

  /** Length symbols from 257 on, and distance symbols. */
  type LengthIndex = l: nat | l < 31
  type DistanceIndex = d: nat | d < 32

  /** `_ssfn__zlength_base` */
  function LengthBase(l: LengthIndex): nat
  {
    [3, 4, 5, 6, 7, 8, 9, 10, 11, 13, 15, 17, 19, 23, 27, 31, 35, 43, 51, 59,
     67, 83, 99, 115, 131, 163, 195, 227, 258, 0, 0][l]
  }

  /** `_ssfn__zlength_extra` */
  function LengthExtra(l: LengthIndex): nat
  {
    [0, 0, 0, 0, 0, 0, 0, 0, 1, 1, 1, 1, 2, 2, 2, 2, 3, 3, 3, 3, 4, 4, 4, 4, 5, 5, 5, 5, 0, 0, 0][l]
  }

  /** `_ssfn__zdist_base` */
  function DistanceBase(d: DistanceIndex): nat
  {
    [1, 2, 3, 4, 5, 7, 9, 13, 17, 25, 33, 49, 65, 97, 129, 193, 257, 385, 513, 769, 1025, 1537,
     2049, 3073, 4097, 6145, 8193, 12289, 16385, 24577, 0, 0][d]
  }

  /** `_ssfn__zdist_extra` */
  function DistanceExtra(d: DistanceIndex): nat
  {
    [0, 0, 0, 0, 1, 1, 2, 2, 3, 3, 4, 4, 5, 5, 6, 6, 7, 7, 8, 8, 9, 9, 10, 10, 11, 11, 12, 12, 13, 13, 0, 0][d]
  }

  // ----- the items of a block

  datatype Item =
    | Literal(value: byte)
    | Copy(l: LengthIndex, le: nat, d: DistanceIndex, de: nat)
    | EndOfBlock
  {
    function Length(): nat
      requires Copy?
    {
      LengthBase(l) + le
    }

    function Distance(): nat
      requires Copy?
    {
      DistanceBase(d) + de
    }
  }

  /** The item can be written with these codes. */
  predicate Codable(L: seq<nat>, D: seq<nat>, x: Item) {
    match x
    case Literal(v) => Codes(L, v)
    case EndOfBlock => Codes(L, 256)
    case Copy(l, le, d, de) =>
      && Codes(L, 257 + l) && le < Pow2(LengthExtra(l))
      && Codes(D, d) && de < Pow2(DistanceExtra(d))
  }

  function ItemBits(L: seq<nat>, D: seq<nat>, x: Item): (b: seq<bool>)
    requires Codable(L, D, x)
    ensures |b| > 0
  {
    match x
    case Literal(v) => SymbolBits(L, v)
    case EndOfBlock => SymbolBits(L, 256)
    case Copy(l, le, d, de) =>
      SymbolBits(L, 257 + l) + (ToBits(le, LengthExtra(l)) + (SymbolBits(D, d) + ToBits(de, DistanceExtra(d))))
  }

  /** The item refers to output that exists. */
  predicate InReach(out: seq<byte>, x: Item)
  {
    x.Copy? ==> x.Distance() <= |out| && (x.Distance() > 0 || x.Length() == 0)
  }

  /** A copy from distance 0: the source copies bytes of its output buffer that it never wrote. */
  predicate StaleCopy(L: seq<nat>, D: seq<nat>, x: Item) {
    x.Copy? && Codable(L, D, x) && x.Distance() == 0 && x.Length() > 0
  }

  /** The output extended by n bytes that repeat its last `dist` ones. */
  function Repeated(out: seq<byte>, n: nat, dist: nat): seq<byte>
    requires dist <= |out| && (dist > 0 || n == 0)
  {
    out + seq(n, k requires 0 <= k < n => out[|out| - dist + k % dist])
  }

  function Effect(out: seq<byte>, x: Item): seq<byte>
    requires InReach(out, x)
  {
    match x
    case Literal(v) => out + [v]
    case EndOfBlock => out
    case Copy(_, _, _, _) => Repeated(out, x.Length(), x.Distance())
  }

  /** The bits u go on with item x. */
  ghost predicate Next(L: seq<nat>, D: seq<nat>, out: seq<byte>, u: seq<bool>, x: Item) {
    Codable(L, D, x) && InReach(out, x) && ItemBits(L, D, x) <= u
  }

  /** The bits u hold a block up to its end, leaving r; it turns the output into o. */
  ghost predicate Body(L: seq<nat>, D: seq<nat>, out: seq<byte>, u: seq<bool>, r: seq<bool>, o: seq<byte>)
    decreases |u|
  {
    exists x :: Next(L, D, out, u, x) && After(L, D, out, u, x, r, o)
  }

  ghost predicate After(L: seq<nat>, D: seq<nat>, out: seq<byte>, u: seq<bool>, x: Item, r: seq<bool>, o: seq<byte>)
    requires Next(L, D, out, u, x)
    decreases |u|, 0
  {
    var v := u[|ItemBits(L, D, x)|..];
    if x.EndOfBlock? then r == v && o == out else Body(L, D, Effect(out, x), v, r, o)
  }

  // ----- items are prefix-free

  lemma NumberOfBits(k: nat, n: nat)
    requires k < Pow2(n)
    ensures Number(ToBits(k, n)) == k
  {
    NumberOfToBits(k, n);
    SmallMod(k, Pow2(n));
  }

  /** What comes after a known beginning. */
  lemma Peel(p: seq<bool>, q: seq<bool>, u: seq<bool>)
    requires p + q <= u
    ensures p <= u && q <= u[|p|..]
  {
    assert u[..|p|] == (p + q)[..|p|] == p;
    assert u[|p|..][..|q|] == (p + q)[|p|..] == q;
  }

  /** Where the four parts of a copy stand. */
  lemma CopyParts(L: seq<nat>, D: seq<nat>, x: Item, u: seq<bool>)
    requires x.Copy? && Codable(L, D, x) && ItemBits(L, D, x) <= u
    ensures SymbolBits(L, 257 + x.l) <= u
    ensures var u1 := u[L[257 + x.l]..]; var n := LengthExtra(x.l);
            && n <= |u1| && Number(u1[..n]) == x.le
            && SymbolBits(D, x.d) <= u1[n..]
            && var u2 := u1[n..][D[x.d]..]; var m := DistanceExtra(x.d);
               m <= |u2| && Number(u2[..m]) == x.de && |u| == |ItemBits(L, D, x)| + |u2[m..]|
  {
    hide SymbolBits, ToBits, LengthExtra, DistanceExtra, Pow2, Number;
    var n, m := LengthExtra(x.l), DistanceExtra(x.d);
    var c, e, s, f := SymbolBits(L, 257 + x.l), ToBits(x.le, n), SymbolBits(D, x.d), ToBits(x.de, m);
    Peel(c, e + (s + f), u);
    var u1 := u[|c|..];
    Peel(e, s + f, u1);
    Peel(s, f, u1[n..]);
    var u2 := u1[n..][|s|..];
    assert u1[..n] == e && u2[..m] == f;
    NumberOfBits(x.le, n);
    NumberOfBits(x.de, m);
  }

  /** The symbol that an item starts with. */
  function Head(x: Item): nat {
    match x
    case Literal(v) => v
    case EndOfBlock => 256
    case Copy(l, _, _, _) => 257 + l
  }

  ghost predicate GoodLengths(lens: seq<nat>) {
    LengthsOk(lens) && Kraft(lens)
  }

  lemma HeadIsUnique(L: seq<nat>, D: seq<nat>, x: Item, s: nat, u: seq<bool>)
    requires GoodLengths(L) && Codable(L, D, x) && ItemBits(L, D, x) <= u
    requires Codes(L, s) && SymbolBits(L, s) <= u
    ensures Head(x) == s
  {
    hide SymbolBits, LengthsOk, Kraft, Codes, ToBits, LengthExtra, DistanceExtra, Pow2;
    if x.Copy? {
      Peel(SymbolBits(L, 257 + x.l), ToBits(x.le, LengthExtra(x.l)) + (SymbolBits(D, x.d) + ToBits(x.de, DistanceExtra(x.d))), u);
    }
    CodeIsUnique(L, Head(x), s, u);
  }

  lemma ItemIsUnique(L: seq<nat>, D: seq<nat>, x: Item, y: Item, u: seq<bool>)
    requires GoodLengths(L) && GoodLengths(D) && Codable(L, D, x) && Codable(L, D, y)
    requires ItemBits(L, D, x) <= u && ItemBits(L, D, y) <= u
    ensures x == y
  {
    hide SymbolBits, LengthsOk, Kraft, ToBits, LengthExtra, DistanceExtra, Pow2, Number, ItemBits;
    StartsWithHead(L, D, x, u);
    HeadIsUnique(L, D, y, Head(x), u);
    if x.Copy? {
      CopyParts(L, D, x, u);
      CopyParts(L, D, y, u);
      CodeIsUnique(D, x.d, y.d, u[L[257 + x.l]..][LengthExtra(x.l)..]);
    }
  }

  lemma StartsWithHead(L: seq<nat>, D: seq<nat>, x: Item, u: seq<bool>)
    requires Codable(L, D, x) && ItemBits(L, D, x) <= u
    ensures Codes(L, Head(x)) && SymbolBits(L, Head(x)) <= u
  {
    hide SymbolBits, ToBits, LengthExtra, DistanceExtra, Pow2, Number;
    if x.Copy? {
      CopyParts(L, D, x, u);
    }
  }

  // ----- the meaning of a block is unique, item by item

  /** A block that goes on with x means what it means after x. */
  lemma BodyStep(L: seq<nat>, D: seq<nat>, out: seq<byte>, u: seq<bool>, x: Item, r: seq<bool>, o: seq<byte>)
    requires GoodLengths(L) && GoodLengths(D) && Next(L, D, out, u, x)
    ensures Body(L, D, out, u, r, o) <==> After(L, D, out, u, x, r, o)
  {
    hide ItemBits, Codable, InReach, Effect, After, GoodLengths;
    if Body(L, D, out, u, r, o) {
      var y :| Next(L, D, out, u, y) && After(L, D, out, u, y, r, o);
      ItemIsUnique(L, D, x, y, u);
    }
  }

  /** What is left after a block is no more than what is left after its first item. */
  lemma {:induction false} BodyRest(L: seq<nat>, D: seq<nat>, out: seq<byte>, u: seq<bool>, r: seq<bool>, o: seq<byte>)
    requires Body(L, D, out, u, r, o)
    ensures |r| <= |u|
    ensures exists x :: Next(L, D, out, u, x) && |r| <= |u| - |ItemBits(L, D, x)|
    decreases |u|
  {
    hide ItemBits, Codable, InReach, Effect;
    var x :| Next(L, D, out, u, x) && After(L, D, out, u, x, r, o);
    var v := u[|ItemBits(L, D, x)|..];
    if !x.EndOfBlock? {
      BodyRest(L, D, Effect(out, x), v, r, o);
    }
  }

  /** A sequence of bits holds at most one block, with one meaning. */
  lemma {:induction false} BodyIsUnique(
      L: seq<nat>, D: seq<nat>, out: seq<byte>, u: seq<bool>, r: seq<bool>, o: seq<byte>, r': seq<bool>, o': seq<byte>)
    requires GoodLengths(L) && GoodLengths(D) && Body(L, D, out, u, r, o) && Body(L, D, out, u, r', o')
    ensures r == r' && o == o'
    decreases |u|
  {
    hide ItemBits, Codable, InReach, Effect, GoodLengths;
    var x :| Next(L, D, out, u, x) && After(L, D, out, u, x, r, o);
    BodyStep(L, D, out, u, x, r', o');
    var v := u[|ItemBits(L, D, x)|..];
    if !x.EndOfBlock? {
      BodyIsUnique(L, D, Effect(out, x), v, r, o, r', o');
    }
  }

  // ----- writing a block

  /** The items can be written, and each refers to output that exists by then. */
  predicate Writable(L: seq<nat>, D: seq<nat>, out: seq<byte>, items: seq<Item>)
    decreases |items|
  {
    && (items == [] ==> Codes(L, 256))
    && (items != [] ==>
          && Codable(L, D, items[0]) && !items[0].EndOfBlock? && InReach(out, items[0])
          && Writable(L, D, Effect(out, items[0]), items[1..]))
  }

  /** The items one after another, and the end of the block. */
  function BlockBits(L: seq<nat>, D: seq<nat>, out: seq<byte>, items: seq<Item>): seq<bool>
    requires Writable(L, D, out, items)
    decreases |items|
  {
    if items == [] then ItemBits(L, D, EndOfBlock)
    else ItemBits(L, D, items[0]) + BlockBits(L, D, Effect(out, items[0]), items[1..])
  }

  function Expanded(L: seq<nat>, D: seq<nat>, out: seq<byte>, items: seq<Item>): seq<byte>
    requires Writable(L, D, out, items)
    decreases |items|
  {
    if items == [] then out else Expanded(L, D, Effect(out, items[0]), items[1..])
  }

  /** What was written is read back, whatever follows it. */
  lemma {:induction false} WrittenBlock(L: seq<nat>, D: seq<nat>, out: seq<byte>, items: seq<Item>, r: seq<bool>)
    requires Writable(L, D, out, items)
    ensures Body(L, D, out, BlockBits(L, D, out, items) + r, r, Expanded(L, D, out, items))
    decreases |items|
  {
    hide ItemBits, Codable, InReach, Effect;
    var u := BlockBits(L, D, out, items) + r;
    if items == [] {
      assert Codable(L, D, EndOfBlock) && InReach(out, EndOfBlock) && Effect(out, EndOfBlock) == out by { EndItem(L, D, out); }
      assert Next(L, D, out, u, EndOfBlock) && After(L, D, out, u, EndOfBlock, r, out);
    } else {
      var x, rest := items[0], BlockBits(L, D, Effect(out, items[0]), items[1..]);
      WrittenBlock(L, D, Effect(out, x), items[1..], r);
      assert u == ItemBits(L, D, x) + (rest + r);
      assert u[|ItemBits(L, D, x)|..] == rest + r;
      assert Next(L, D, out, u, x) && After(L, D, out, u, x, r, Expanded(L, D, out, items));
    }
  }

  lemma EndItem(L: seq<nat>, D: seq<nat>, out: seq<byte>)
    ensures Codable(L, D, EndOfBlock) <==> Codes(L, 256)
    ensures InReach(out, EndOfBlock) && Effect(out, EndOfBlock) == out
  {
  }

  /** Conversely, every block was written from some items. */
  lemma {:induction false} BlockWasWritten(
      L: seq<nat>, D: seq<nat>, out: seq<byte>, u: seq<bool>, r: seq<bool>, o: seq<byte>) returns (items: seq<Item>)
    requires Body(L, D, out, u, r, o)
    ensures Writable(L, D, out, items)
    ensures u == BlockBits(L, D, out, items) + r && o == Expanded(L, D, out, items)
    decreases |u|
  {
    hide ItemBits, Codable, InReach, Effect;
    var x :| Next(L, D, out, u, x) && After(L, D, out, u, x, r, o);
    var v := u[|ItemBits(L, D, x)|..];
    assert u == ItemBits(L, D, x) + v;
    if x.EndOfBlock? {
      EndItem(L, D, out);
      items := [];
    } else {
      var more := BlockWasWritten(L, D, Effect(out, x), v, r, o);
      items := [x] + more;
      assert items[1..] == more;
    }
  }

  // ----- what the tables of lengths and distances can say

  lemma FewPowers()
    ensures Pow2(0) == 1 && Pow2(1) == 2 && Pow2(2) == 4 && Pow2(3) == 8 && Pow2(4) == 0x10 && Pow2(5) == 0x20
  {
    SmallPowers();
  }

  /** The lengths of neighbouring symbols follow one another; 258 has a symbol of its own. */
  lemma LengthStep(l: LengthIndex)
    ensures l < 27 ==> LengthBase(l + 1) == LengthBase(l) + Pow2(LengthExtra(l))
    ensures LengthBase(0) == 3
    ensures LengthBase(27) + Pow2(LengthExtra(27)) == 259 && LengthBase(28) == 258 && Pow2(LengthExtra(28)) == 1
  {
    hide Pow2;
    FewPowers();
  }

  lemma DistanceStep(d: DistanceIndex)
    ensures d < 29 ==> DistanceBase(d + 1) == DistanceBase(d) + Pow2(DistanceExtra(d))
    ensures DistanceBase(0) == 1 && DistanceBase(29) + Pow2(DistanceExtra(29)) == 0x8001
  {
    hide Pow2;
    SmallPowers();
  }

  lemma {:induction false} DistancesGrow(d: DistanceIndex, d': DistanceIndex)
    requires d < d' < 30
    ensures DistanceBase(d) + Pow2(DistanceExtra(d)) <= DistanceBase(d')
  {
    hide DistanceBase, DistanceExtra, Pow2;
    DistanceStep(d' - 1);
    if d < d' - 1 {
      DistancesGrow(d, d' - 1);
    }
  }

  /** Every length from 3 to 258 can be written. */
  lemma EveryLength(n: nat) returns (l: LengthIndex, e: nat)
    requires 3 <= n <= 258
    ensures l < 29 && e < Pow2(LengthExtra(l)) && LengthBase(l) + e == n
  {
    hide LengthBase, LengthExtra, Pow2;
    l := 0;
    LengthStep(0);
    while l < 27 && LengthBase(l + 1) <= n
      invariant l <= 27 && LengthBase(l) <= n
    {
      l := l + 1;
    }
    LengthStep(l);
    e := n - LengthBase(l);
  }

  /** Every distance from 1 to 32768 can be written, in exactly one way. */
  lemma EveryDistance(n: nat) returns (d: DistanceIndex, e: nat)
    requires 1 <= n <= 0x8000
    ensures d < 30 && e < Pow2(DistanceExtra(d)) && DistanceBase(d) + e == n
    ensures forall d': DistanceIndex ::
              d' < 30 && DistanceBase(d') <= n < DistanceBase(d') + Pow2(DistanceExtra(d')) ==> d' == d
  {
    hide DistanceBase, DistanceExtra, Pow2;
    d := 0;
    DistanceStep(0);
    while d < 29 && DistanceBase(d + 1) <= n
      invariant d <= 29 && DistanceBase(d) <= n
    {
      d := d + 1;
    }
    DistanceStep(d);
    e := n - DistanceBase(d);
    forall d': DistanceIndex | d' < 30 && DistanceBase(d') <= n < DistanceBase(d') + Pow2(DistanceExtra(d'))
      ensures d' == d
    {
      if d < d' {
        DistancesGrow(d, d');
      } else if d' < d {
        DistancesGrow(d', d);
      }
    }
  }

  /** The symbols that the standard reserves: lengths 286 and 287 stand for nothing to copy, and
      distances 30 and 31 for distance 0. So an item with one of them leaves the output as it is,
      or is a copy from distance 0. */
  lemma ReservedSymbols(L: seq<nat>, D: seq<nat>, out: seq<byte>, x: Item)
    requires x.Copy? && Codable(L, D, x) && (x.l >= 29 || x.d >= 30)
    ensures x.l >= 29 ==> x.Length() == 0
    ensures x.d >= 30 ==> x.Distance() == 0
    ensures x.Distance() <= |out| ==> (InReach(out, x) <==> !StaleCopy(L, D, x))
    ensures InReach(out, x) ==> Effect(out, x) == out
  {
    FewPowers();
  }
}
