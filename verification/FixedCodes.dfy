/** The fixed code and the tables of lengths and distances in closed form (sections 3.2.5 and 3.2.6 of
    RFC 1951), and what blocks written with them inflate to. */
module FixedCodes {
  import opened Bits
  import opened BitStream
  import opened HuffmanCodes
  import opened PrefixCodes
  import opened Deflate
  import opened DeflateStream

  // ----- lengths and distances

  /** The length tables: groups of four symbols, each group with one more extra bit than the one
      before; 258 apart; the reserved symbols at 0. */
  lemma LengthTable(l: LengthIndex)
    ensures LengthExtra(l) == if l < 8 || l >= 28 then 0 else l / 4 - 1
    ensures LengthBase(l) ==
              if l < 8 then l + 3
              else if l < 28 then (4 + l % 4) * Pow2(l / 4 - 1) + 3
              else if l == 28 then 258 else 0
  {
    hide Pow2;
    FewPowers();
  }

  /** The distance tables: groups of two. */
  lemma DistanceTable(d: DistanceIndex)
    ensures DistanceExtra(d) == if d < 4 || d >= 30 then 0 else d / 2 - 1
    ensures DistanceBase(d) ==
              if d < 2 then d + 1
              else if d < 30 then (2 + d % 2) * Pow2(d / 2 - 1) + 1
              else 0
  {
    hide DistanceBase, DistanceExtra, Pow2;
    DistanceExtras(d);
    DistanceBases(d);
  }

  lemma DistanceExtras(d: DistanceIndex)
    ensures DistanceExtra(d) == if d < 4 || d >= 30 then 0 else d / 2 - 1
  {
  }

  lemma DistanceBases(d: DistanceIndex)
    ensures DistanceBase(d) ==
              if d < 2 then d + 1
              else if d < 30 then (2 + d % 2) * Pow2(d / 2 - 1) + 1
              else 0
  {
    hide Pow2;
    SmallPowers();
  }

  // ----- the codes

  lemma {:induction false} NoneOfLength(lens: seq<nat>, s: nat)
    requires forall i :: 0 <= i < |lens| ==> lens[i] != s
    ensures Count(lens, s) == 0
  {
    if lens != [] {
      NoneOfLength(lens[..|lens| - 1], s);
    }
  }

  lemma {:induction false} NothingShorter(lens: seq<nat>, s: nat)
    requires forall i :: 0 <= i < |lens| ==> lens[i] >= s
    ensures FirstCode(lens, s) == 0
  {
    hide Count;
    if s > 0 {
      NothingShorter(lens, s - 1);
      if s == 1 {
        CountZero(lens);
      } else {
        NoneOfLength(lens, s - 1);
      }
    }
  }

  /** How many of the numbers from lo to hi are below v. */
  function Below(v: nat, lo: nat, hi: nat): nat
    requires lo <= hi
  {
    if v <= lo then 0 else if v < hi then v - lo else hi - lo
  }

  lemma {:induction false} FixedCount(v: nat, s: nat)
    requires v <= 288 && s > 0
    ensures Count(FixedLengths()[..v], s) ==
              if s == 7 then Below(v, 256, 280)
              else if s == 8 then Below(v, 0, 144) + Below(v, 280, 288)
              else if s == 9 then Below(v, 144, 256) else 0
  {
    hide FixedLengths;
    if v > 0 {
      FixedCount(v - 1, s);
      assert FixedLengths()[..v][..v - 1] == FixedLengths()[..v - 1];
      FixedLengthAt(v - 1);
    }
  }

  lemma FixedFirstCodes()
    ensures FirstCode(FixedLengths(), 7) == 0 && FirstCode(FixedLengths(), 8) == 0x30 && FirstCode(FixedLengths(), 9) == 0x190
  {
    hide FixedLengths, Count;
    var L := FixedLengths();
    forall i: nat | i < 288 ensures L[i] >= 7 {
      FixedLengthAt(i);
    }
    NothingShorter(L, 7);
    assert L[..288] == L;
    FixedCount(288, 7);
    FixedCount(288, 8);
  }

  /** The table of section 3.2.6: the code of every literal and length symbol. */
  lemma FixedCode(v: nat)
    requires v < 288
    ensures Codes(FixedLengths(), v)
    ensures SymbolBits(FixedLengths(), v) ==
              if v <= 143 then CodeBits(0x30 + v, 8)
              else if v <= 255 then CodeBits(0x190 + (v - 144), 9)
              else if v <= 279 then CodeBits(v - 256, 7)
              else CodeBits(0xC0 + (v - 280), 8)
  {
    hide FixedLengths, Count, FirstCode, CodeBits;
    FixedLengthAt(v);
    FixedFirstCodes();
    FixedCount(v, FixedLengths()[v]);
  }

  lemma {:induction false} CountOfTimes(n: nat, v: nat)
    requires v > 0
    ensures Count(Times(n, v), v) == n
  {
    if n > 0 {
      assert Times(n, v)[..n - 1] == Times(n - 1, v);
      CountOfTimes(n - 1, v);
    }
  }

  /** Every distance symbol has its own five bits. */
  lemma FixedDistanceCode(d: nat)
    requires d < 32
    ensures Codes(FixedDistances(), d) && SymbolBits(FixedDistances(), d) == CodeBits(d, 5)
  {
    hide Count, FirstCode, CodeBits;
    NothingShorter(FixedDistances(), 5);
    assert FixedDistances()[..d] == Times(d, 5);
    CountOfTimes(d, 5);
  }

  /** Codes are sent from their most significant bit on. */
  lemma {:induction false} BitOfCode(c: nat, s: nat, i: nat)
    requires i < s
    ensures CodeBits(c, s)[i] == Bit(c, s - 1 - i)
  {
    if i < s - 1 {
      BitOfCode(c / 2, s - 1, i);
    }
  }

  lemma {:induction false} ZeroCode(s: nat)
    ensures CodeBits(0, s) == seq(s, i => false)
  {
    if s > 0 {
      ZeroCode(s - 1);
    }
  }

  /** The end of a block is the first code of the fixed code: seven zeros. */
  lemma FixedEnd()
    ensures Codes(FixedLengths(), 256) && SymbolBits(FixedLengths(), 256) == seq(7, i => false)
  {
    hide FixedLengths, SymbolBits, CodeBits;
    FixedCode(256);
    ZeroCode(7);
  }

  // ----- copies

  /** A copy in the fixed code: the length symbol, its extra bits as a number, the distance symbol, its
      extra bits. */
  lemma CopyBits(x: Item)
    requires x.Copy? && x.le < Pow2(LengthExtra(x.l)) && x.de < Pow2(DistanceExtra(x.d))
    ensures Codable(FixedLengths(), FixedDistances(), x)
    ensures ItemBits(FixedLengths(), FixedDistances(), x) ==
              (if x.l <= 22 then CodeBits(x.l + 1, 7) else CodeBits(0xC0 + (x.l - 23), 8))
              + ToBits(x.le, LengthExtra(x.l)) + CodeBits(x.d, 5) + ToBits(x.de, DistanceExtra(x.d))
  {
    hide FixedLengths, FixedDistances, SymbolBits, CodeBits, ToBits, LengthExtra, DistanceExtra, Pow2;
    FixedCode(257 + x.l);
    FixedDistanceCode(x.d);
    JoinFour(SymbolBits(FixedLengths(), 257 + x.l), ToBits(x.le, LengthExtra(x.l)),
      SymbolBits(FixedDistances(), x.d), ToBits(x.de, DistanceExtra(x.d)));
  }

  lemma JoinFour(a: seq<bool>, b: seq<bool>, c: seq<bool>, d: seq<bool>)
    ensures a + (b + (c + d)) == a + b + c + d
  {
  }

  /** A copy can be carried out if the output reaches back as far as it refers to, up to and
      including the first byte. Only a copy of nothing needs no distance. */
  lemma ReachIsExact(out: seq<byte>, x: Item)
    requires x.Copy?
    ensures 1 <= x.Distance() <= |out| ==> InReach(out, x)
    ensures InReach(out, x) && x.Length() > 0 ==> 1 <= x.Distance() <= |out|
    ensures x.Length() == 0 ==> (InReach(out, x) <==> x.Distance() <= |out|)
  {
  }

  /** o is the output with n more bytes, each the one `dist` before it. */
  predicate GoesOnFrom(out: seq<byte>, n: nat, dist: nat, o: seq<byte>) {
    && |o| == |out| + n && out <= o && 1 <= dist <= |out|
    && forall k :: |out| <= k < |o| ==> o[k] == o[k - dist]
  }

  lemma RepeatedGoesOn(out: seq<byte>, n: nat, dist: nat)
    requires 1 <= dist <= |out|
    ensures GoesOnFrom(out, n, dist, Repeated(out, n, dist))
  {
    var o := Repeated(out, n, dist);
    forall k | |out| <= k < |o| ensures o[k] == o[k - dist] {
      var j := k - |out|;
      if j < dist {
        SmallMod(j, dist);
      } else {
        DivModUnique(j, dist, (j - dist) / dist + 1, (j - dist) % dist);
      }
    }
  }

  /** Any bytes as literals and then any copy from among them: the copy can be written in the fixed
      code, and the block inflates to the bytes and what the copy repeats. */
  lemma LiteralsThenCopy(data: seq<byte>, n: nat, dist: nat, r: seq<bool>) returns (x: Item, o: seq<byte>)
    requires 3 <= n <= 258 && 1 <= dist <= |data| && dist <= 0x8000
    ensures x.Copy? && x.Length() == n && x.Distance() == dist && x.l < 29 && x.d < 30
    ensures Writable(FixedLengths(), FixedDistances(), [], Literals(data) + [x])
    ensures GoesOnFrom(data, n, dist, o)
    ensures Inflates([], FixedBlock(Literals(data) + [x]) + r, r, o)
  {
    hide FixedLengths, FixedDistances, Writable, Expanded, FixedBlock, Inflates, Repeated, InReach, Codable, Literals,
      GoesOnFrom, Effect;
    var l, le := EveryLength(n);
    var d, de := EveryDistance(dist);
    x := Copy(l, le, d, de);
    o := Repeated(data, n, dist);
    CopyWrites(data, x);
    assert [] + data == data;
    LiteralsThen([], data, x);
    RepeatedGoesOn(data, n, dist);
    FixedBlockInflates(Literals(data) + [x], r);
  }

  lemma CopyWrites(out: seq<byte>, x: Item)
    requires x.Copy? && x.l < 29 && x.le < Pow2(LengthExtra(x.l)) && x.d < 30 && x.de < Pow2(DistanceExtra(x.d))
    requires 1 <= x.Distance() <= |out|
    ensures Codable(FixedLengths(), FixedDistances(), x)
    ensures InReach(out, x) && Effect(out, x) == Repeated(out, x.Length(), x.Distance())
  {
    hide FixedLengths, FixedDistances, SymbolBits, Repeated, LengthBase, LengthExtra, DistanceBase, DistanceExtra, Pow2;
    FixedCode(257 + x.l);
    FixedDistanceCode(x.d);
  }

  lemma {:induction false} LiteralsThen(out: seq<byte>, data: seq<byte>, x: Item)
    requires Codable(FixedLengths(), FixedDistances(), x) && !x.EndOfBlock? && InReach(out + data, x)
    ensures Writable(FixedLengths(), FixedDistances(), out, Literals(data) + [x])
    ensures Expanded(FixedLengths(), FixedDistances(), out, Literals(data) + [x]) == Effect(out + data, x)
    decreases |data|
  {
    hide FixedLengths, FixedDistances, Codable, InReach, Effect, Writable, Expanded;
    var L, D := FixedLengths(), FixedDistances();
    if data == [] {
      assert out + data == out;
      LiteralWrites(out, 0);
      NothingWrites(L, D, Effect(out, x));
      OneMoreWrites(L, D, out, x, []);
      assert Literals(data) + [x] == [x] + [];
    } else {
      LiteralWrites(out, data[0]);
      assert out + [data[0]] + data[1..] == out + data;
      LiteralsThen(out + [data[0]], data[1..], x);
      OneMoreWrites(L, D, out, Literal(data[0]), Literals(data[1..]) + [x]);
      assert Literals(data) + [x] == [Literal(data[0])] + (Literals(data[1..]) + [x]);
    }
  }

  function Same(n: nat, b: byte): seq<byte> {
    seq(n, k => b)
  }

  /** One literal and a copy from distance 1, the whole output so far: a run of the byte. */
  lemma ByteRun(b: byte, n: nat, r: seq<bool>) returns (x: Item)
    requires 3 <= n <= 258
    ensures x.Copy? && x.Length() == n && x.Distance() == 1
    ensures Writable(FixedLengths(), FixedDistances(), [], [Literal(b), x])
    ensures Inflates([], FixedBlock([Literal(b), x]) + r, r, Same(n + 1, b))
  {
    hide FixedLengths, FixedDistances, Writable, FixedBlock, Inflates;
    var o;
    x, o := LiteralsThenCopy([b], n, 1, r);
    assert Literals([b]) == [Literal(b)];
    assert Literals([b]) + [x] == [Literal(b), x];
    AllSame(b, n, o, n + 1);
    assert o == Same(n + 1, b);
  }

  lemma {:induction false} AllSame(b: byte, n: nat, o: seq<byte>, m: nat)
    requires GoesOnFrom([b], n, 1, o) && m <= n + 1
    ensures forall k :: 0 <= k < m ==> o[k] == b
  {
    if m > 1 {
      AllSame(b, n, o, m - 1);
      assert o[m - 1] == o[m - 2];
    }
  }
}
