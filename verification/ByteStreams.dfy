/** Streams as bytes: stored data for any input, and a few short streams bit by bit. */
module ByteStreams {
  import opened Bits
  import opened BitStream
  import opened PrefixCodes
  import opened Deflate
  import opened DeflateStream
  import opened FixedCodes
  import opened StreamWriter
  import opened InflateSteps

  // ----- stored data

  /** A byte that says whether this is the last block, the length and its complement, low byte first,
      and the data. */
  function Framed(data: seq<byte>, last: bool): seq<byte>
    requires |data| < 0x1_0000
  {
    var low, high := |data| % 256, |data| / 256;
    [if last then 1 else 0, low, high, 255 - low, 255 - high] + data
  }

  function StoredFile(pieces: seq<seq<byte>>): seq<byte>
    requires forall i :: 0 <= i < |pieces| ==> |pieces[i]| < 0x1_0000
  {
    if pieces == [] then [] else Framed(pieces[0], |pieces| == 1) + StoredFile(pieces[1..])
  }

  function Joined(pieces: seq<seq<byte>>): seq<byte> {
    if pieces == [] then [] else pieces[0] + Joined(pieces[1..])
  }

  lemma TypeByte(last: bool)
    ensures BytesBits([if last then 1 else 0]) == [last] + ([false, false] + seq(5, k => false))
  {
  }

  lemma LengthBytes(n: nat)
    requires n < 0x1_0000
    ensures BytesBits([n % 256, n / 256, 255 - n % 256, 255 - n / 256]) == ToBits(n, 16) + ToBits(0xFFFF - n, 16)
  {
    hide ToBits, BytesBits;
    FourBytes([n % 256, n / 256, 255 - n % 256, 255 - n / 256]);
  }

  lemma FramedBits(data: seq<byte>, last: bool, rest: seq<byte>)
    requires |data| < 0x1_0000
    ensures BytesBits(Framed(data, last) + rest) ==
              [last] + ([false, false] + (seq(5, k => false) + StoredBits(data)) + BytesBits(rest))
  {
    hide ToBits, BytesBits;
    var n := |data|;
    var a: seq<byte>, b: seq<byte> := [if last then 1 else 0], [n % 256, n / 256, 255 - n % 256, 255 - n / 256];
    assert Framed(data, last) + rest == a + (b + (data + rest));
    BytesBitsJoin(a, b + (data + rest));
    BytesBitsJoin(b, data + rest);
    BytesBitsJoin(data, rest);
    TypeByte(last);
    LengthBytes(n);
  }

  lemma FramedIsBlock(out: seq<byte>, data: seq<byte>, last: bool, rest: seq<byte>)
    requires |data| < 0x1_0000
    ensures var u := BytesBits(Framed(data, last) + rest);
            u != [] && u[0] == last && Block(out, u, BytesBits(rest), out + data)
  {
    hide BytesBits, Block, StoredBits, Framed;
    FramedBits(data, last, rest);
    BytesBitsLength(rest);
    StoredIsBlock(out, seq(5, k => false), data, last, BytesBits(rest));
  }

  /** Any data cut into pieces of less than 64 KiB and framed inflates to the data, whatever follows. */
  lemma {:induction false} StoredRoundTrip(out: seq<byte>, pieces: seq<seq<byte>>, tail: seq<byte>)
    requires pieces != [] && forall i :: 0 <= i < |pieces| ==> |pieces[i]| < 0x1_0000
    ensures Inflates(out, BytesBits(StoredFile(pieces) + tail), BytesBits(tail), out + Joined(pieces))
    decreases |pieces|
  {
    hide BytesBits, Block, Framed;
    var data, last, rest := pieces[0], |pieces| == 1, StoredFile(pieces[1..]) + tail;
    assert StoredFile(pieces) + tail == Framed(data, last) + rest;
    FramedIsBlock(out, data, last, rest);
    InflatesStep(out, BytesBits(StoredFile(pieces) + tail), BytesBits(rest), out + data, BytesBits(tail), out + Joined(pieces));
    assert out + Joined(pieces) == out + data + Joined(pieces[1..]);
    if last {
      assert rest == tail;
    } else {
      StoredRoundTrip(out + data, pieces[1..], tail);
    }
  }

  // ----- short streams with the fixed code

  /** The codes of literals below 144. */
  function LetterBits(data: seq<byte>): seq<bool> {
    if data == [] then []
    else
      var v: nat := data[0];
      CodeBits(0x30 + v, 8) + LetterBits(data[1..])
  }

  lemma {:induction false} LetterBlock(out: seq<byte>, data: seq<byte>, items: seq<Item>)
    requires forall i :: 0 <= i < |data| ==> data[i] < 144
    requires Writable(FixedLengths(), FixedDistances(), out + data, items)
    ensures Writable(FixedLengths(), FixedDistances(), out, Literals(data) + items)
    ensures BlockBits(FixedLengths(), FixedDistances(), out, Literals(data) + items) ==
              LetterBits(data) + BlockBits(FixedLengths(), FixedDistances(), out + data, items)
    decreases |data|
  {
    hide FixedLengths, FixedDistances, Writable, BlockBits, CodeBits, SymbolBits, InReach, Effect, Codes;
    if data == [] {
      assert out + data == out;
      assert Literals(data) + items == items;
    } else {
      var rest := Literals(data[1..]) + items;
      LiteralWrites(out, data[0]);
      FixedCode(data[0]);
      assert out + [data[0]] + data[1..] == out + data;
      LetterBlock(out + [data[0]], data[1..], items);
      OneMoreWrites(FixedLengths(), FixedDistances(), out, Literal(data[0]), rest);
      OneMoreBits(FixedLengths(), FixedDistances(), out, Literal(data[0]), rest);
      assert Literals(data) + items == [Literal(data[0])] + rest;
    }
  }

  lemma OneMoreBits(L: seq<nat>, D: seq<nat>, out: seq<byte>, x: Item, items: seq<Item>)
    requires Codable(L, D, x) && InReach(out, x) && Writable(L, D, Effect(out, x), items)
    requires Writable(L, D, out, [x] + items)
    ensures BlockBits(L, D, out, [x] + items) == ItemBits(L, D, x) + BlockBits(L, D, Effect(out, x), items)
  {
    hide Codable, InReach, Effect, ItemBits;
    assert ([x] + items)[1..] == items;
  }

  lemma EndBits(out: seq<byte>)
    ensures Writable(FixedLengths(), FixedDistances(), out, [])
    ensures BlockBits(FixedLengths(), FixedDistances(), out, []) == seq(7, k => false)
  {
    hide FixedLengths, SymbolBits;
    FixedEnd();
  }

  /** The two bytes 3 and 0 hold a complete stream, the one of no bytes at all. */
  lemma EmptyStream()
    ensures BytesBits([3, 0]) == FixedStream([]) + seq(6, i => false)
    ensures Inflates([], BytesBits([3, 0]), seq(6, i => false), [])
  {
    hide FixedStream, Inflates, BytesBits;
    EmptyBits();
    TwoBytesBits();
    ThreeAndSeven();
    FixedRoundTrip([], seq(6, i => false));
  }

  lemma EmptyBits()
    ensures FixedStream([]) == [true] + ([true, false] + seq(7, i => false))
  {
    hide FixedLengths, FixedDistances, SymbolBits, Writable, BlockBits;
    FixedEnd();
    LiteralsWrite([], []);
    NothingWritten(FixedLengths(), FixedDistances());
    assert Literals([]) == [];
  }

  lemma ThreeAndSeven()
    ensures [true] + ([true, false] + seq(7, i => false)) + seq(6, i => false) == [true, true] + seq(14, i => false)
  {
  }

  lemma NothingWritten(L: seq<nat>, D: seq<nat>)
    requires Codes(L, 256)
    ensures Writable(L, D, [], []) && BlockBits(L, D, [], []) == SymbolBits(L, 256)
  {
  }

  lemma TwoBytesBits()
    ensures BytesBits([3, 0]) == [true, true] + seq(14, i => false)
  {
    hide ToBits, BytesBits;
    JoinBytes(3, [0]);
    OneByte(0);
    assert [3, 0 as byte] == [3] + [0];
    EightOfWord(3);
    EightOfWord(0);
  }

  /** The bytes 4B 04 00 are a stream of the letter a; six bits are left over. */
  lemma LetterStream()
    ensures Inflates([], BytesBits([0x4B, 4, 0]), seq(6, k => false), [97])
  {
    hide FixedLengths, FixedDistances, Writable, BlockBits, Inflates;
    var a: seq<byte> := [97];
    assert [] + a == a;
    EndBits(a);
    LetterBlock([], a, []);
    assert Literals(a) + [] == Literals(a);
    FixedRoundTrip(a, seq(6, k => false));
    assert a[1..] == [];
    LetterIsBytes();
    assert LetterBits(a) == CodeBits(0x91, 8);
  }

  lemma LetterIsBytes()
    ensures [true] + ([true, false] + (CodeBits(0x91, 8) + seq(7, k => false))) + seq(6, k => false) == BytesBits([0x4B, 4, 0])
  {
    hide BytesBits, ToBits, CodeBits;
    LetterPatterns();
    JoinBytes(0x4B, [4, 0]);
    JoinBytes(4, [0]);
    OneByte(0);
    assert [0x4B, 4, 0 as byte] == [0x4B] + [4, 0] && [4, 0 as byte] == [4] + [0];
  }

  lemma LetterPatterns()
    ensures CodeBits(0x91, 8) == [true, false, false, true, false, false, false, true]
    ensures ToBits(0x4B, 8) == [true, true, false, true, false, false, true, false]
    ensures ToBits(4, 8) == [false, false, true, false, false, false, false, false]
    ensures ToBits(0, 8) == [false, false, false, false, false, false, false, false]
  {
    hide ToBits, CodeBits;
    EightOfCode(0x91);
    EightOfWord(0x4B);
    EightOfWord(4);
    EightOfWord(0);
  }

  lemma EightOfWord(w: nat)
    ensures ToBits(w, 8) == [w % 2 == 1, w / 2 % 2 == 1, w / 4 % 2 == 1, w / 8 % 2 == 1,
                             w / 16 % 2 == 1, w / 32 % 2 == 1, w / 64 % 2 == 1, w / 128 % 2 == 1]
  {
    hide ToBits, Bit;
    LowBits(w);
    forall i | 0 <= i < 8 ensures ToBits(w, 8)[i] == Bit(w, i) {
      BitOfToBits(w, 8, i);
    }
  }

  lemma EightOfCode(w: nat)
    ensures CodeBits(w, 8) == [w / 128 % 2 == 1, w / 64 % 2 == 1, w / 32 % 2 == 1, w / 16 % 2 == 1,
                               w / 8 % 2 == 1, w / 4 % 2 == 1, w / 2 % 2 == 1, w % 2 == 1]
  {
    hide CodeBits, Bit;
    LowBits(w);
    forall i | 0 <= i < 8 ensures CodeBits(w, 8)[i] == Bit(w, 7 - i) {
      BitOfCode(w, 8, i);
    }
  }

  lemma JoinBytes(b: byte, rest: seq<byte>)
    ensures BytesBits([b] + rest) == ToBits(b, 8) + BytesBits(rest)
  {
    BytesBitsJoin([b], rest);
    OneByte(b);
  }
}
