/** Bit sequences: the order in which DEFLATE packs bits into bytes and codes into bits
    (section 3.1.1 of RFC 1951), and the 16-bit reversal of the source. */
module BitStream {
  import opened Bits

  /** The n low bits of a word, least significant first. */
  function ToBits(w: nat, n: nat): (b: seq<bool>)
    ensures |b| == n
  {
    if n == 0 then [] else [w % 2 == 1] + ToBits(w / 2, n - 1)
  }

  /** The number whose bits are b, least significant first: how lengths and counts are stored. */
  function Number(b: seq<bool>): nat {
    if b == [] then 0 else (if b[0] then 1 else 0) + 2 * Number(b[1..])
  }

  /** The number whose bits are b, most significant first: how Huffman codes are stored. */
  function CodeNumber(b: seq<bool>): nat {
    if b == [] then 0 else 2 * CodeNumber(b[..|b| - 1]) + (if b[|b| - 1] then 1 else 0)
  }

  /** A code of s bits as it appears in the stream. */
  function CodeBits(c: nat, s: nat): (b: seq<bool>)
    ensures |b| == s
  {
    if s == 0 then [] else CodeBits(c / 2, s - 1) + [c % 2 == 1]
  }

  type byte = b: nat | b < 256

  /** Bytes are sent least significant bit first. */
  function BytesBits(bytes: seq<byte>): seq<bool> {
    if bytes == [] then [] else ToBits(bytes[0], 8) + BytesBits(bytes[1..])
  }

  // ----- single bits

  lemma {:induction false} BitOfToBits(w: nat, n: nat, i: nat)
    requires i < n
    ensures ToBits(w, n)[i] == Bit(w, i)
  {
    if i > 0 {
      BitOfToBits(w / 2, n - 1, i - 1);
    }
  }

  lemma {:induction false} BitOfCodeNumber(b: seq<bool>, k: nat)
    ensures Bit(CodeNumber(b), k) <==> k < |b| && b[|b| - 1 - k]
  {
    if b == [] {
      BitOfZero(k);
    } else if k > 0 {
      BitOfCodeNumber(b[..|b| - 1], k - 1);
    }
  }

  lemma {:induction false} CodeNumberBound(b: seq<bool>)
    ensures CodeNumber(b) < Pow2(|b|)
  {
    if b != [] {
      CodeNumberBound(b[..|b| - 1]);
    }
  }

  lemma {:induction false} NumberBound(b: seq<bool>)
    ensures Number(b) < Pow2(|b|)
  {
    if b != [] {
      NumberBound(b[1..]);
    }
  }

  /** The leading bits of a code number are the code number of the leading bits. */
  lemma {:induction false} CodeNumberPrefix(b: seq<bool>, s: nat)
    requires s <= |b|
    ensures Shr(CodeNumber(b), |b| - s) == CodeNumber(b[..s])
  {
    if s == |b| {
      assert b[..s] == b;
    } else {
      var shorter := b[..|b| - 1];
      CodeNumberPrefix(shorter, s);
      assert shorter[..s] == b[..s];
      assert CodeNumber(b) / 2 == CodeNumber(shorter);
    }
  }

  lemma {:induction false} CodeNumberOfBits(c: nat, s: nat)
    requires c < Pow2(s)
    ensures CodeNumber(CodeBits(c, s)) == c
  {
    if s > 0 {
      CodeNumberOfBits(c / 2, s - 1);
      assert CodeBits(c, s)[..s - 1] == CodeBits(c / 2, s - 1);
    }
  }

  lemma {:induction false} CodeBitsOfNumber(b: seq<bool>)
    ensures CodeBits(CodeNumber(b), |b|) == b
  {
    if b != [] {
      CodeBitsOfNumber(b[..|b| - 1]);
      assert b == b[..|b| - 1] + [b[|b| - 1]];
    }
  }

  /** A bit sequence starts with the code c of length s exactly if its first s bits make c. */
  lemma StartsWithCode(b: seq<bool>, c: nat, s: nat)
    requires s <= |b| && c < Pow2(s)
    ensures CodeBits(c, s) <= b <==> CodeNumber(b[..s]) == c
  {
    if CodeBits(c, s) <= b {
      assert b[..s] == CodeBits(c, s);
      CodeNumberOfBits(c, s);
    }
    if CodeNumber(b[..s]) == c {
      CodeBitsOfNumber(b[..s]);
    }
  }

  lemma {:induction false} NumberOfToBits(w: nat, n: nat)
    ensures Number(ToBits(w, n)) == w % Pow2(n)
  {
    if n > 0 {
      NumberOfToBits(w / 2, n - 1);
      assert ToBits(w, n)[1..] == ToBits(w / 2, n - 1);
      DivModDouble(w, Pow2(n - 1));
    }
  }

  lemma {:induction false} BitsOfNumber(b: seq<bool>)
    ensures ToBits(Number(b), |b|) == b && Number(b) < Pow2(|b|)
  {
    if b != [] {
      BitsOfNumber(b[1..]);
      assert b == [b[0]] + b[1..];
    }
  }

  // ----- bytes

  lemma {:induction false} BytesBitsLength(bytes: seq<byte>)
    ensures |BytesBits(bytes)| == 8 * |bytes|
  {
    if bytes != [] {
      BytesBitsLength(bytes[1..]);
    }
  }

  lemma {:induction false} BytesBitsJoin(a: seq<byte>, b: seq<byte>)
    ensures BytesBits(a + b) == BytesBits(a) + BytesBits(b)
  {
    if a == [] {
      assert a + b == b;
    } else {
      assert (a + b)[1..] == a[1..] + b;
      BytesBitsJoin(a[1..], b);
    }
  }

  // ----- _ssfn__bitreverse16

  /** The four rounds of `_ssfn__bitreverse16`: swap neighbours, pairs, nibbles, bytes. */
  function BitReverse16(n: nat): nat {
    var n1 := Or(Shr(And(n, 0xAAAA), 1), Shl(And(n, 0x5555), 1));
    var n2 := Or(Shr(And(n1, 0xCCCC), 2), Shl(And(n1, 0x3333), 2));
    var n3 := Or(Shr(And(n2, 0xF0F0), 4), Shl(And(n2, 0x0F0F), 4));
    Or(Shr(And(n3, 0xFF00), 8), Shl(And(n3, 0x00FF), 8))
  }

  /** `_ssfn__bit_reverse` */
  function BitReverse(v: nat, bits: nat): nat
    requires bits <= 16
  {
    Shr(BitReverse16(v), 16 - bits)
  }

  lemma {:induction false} BitOfShr(w: nat, k: nat, j: nat)
    ensures Bit(Shr(w, k), j) == Bit(w, k + j)
  {
    if k > 0 {
      BitOfShr(w / 2, k - 1, j);
    }
  }

  lemma BitByDivision(m: nat, k: nat, p: nat)
    requires p == Pow2(k)
    ensures Bit(m, k) <==> m / p % 2 == 1
  {
    ShrIsDiv(m, k);
  }

  lemma SmallPowers()
    ensures Pow2(0) == 1 && Pow2(1) == 2 && Pow2(2) == 4 && Pow2(3) == 8
    ensures Pow2(4) == 0x10 && Pow2(5) == 0x20 && Pow2(6) == 0x40 && Pow2(7) == 0x80
    ensures Pow2(8) == 0x100 && Pow2(9) == 0x200 && Pow2(10) == 0x400 && Pow2(11) == 0x800
    ensures Pow2(12) == 0x1000 && Pow2(13) == 0x2000 && Pow2(14) == 0x4000 && Pow2(15) == 0x8000
    ensures Pow2(16) == 0x1_0000
  {
    Pow2Values();
    assert Pow2(6) == 8 * Pow2(3);
  }

  /** The bits of the first 16 places, by division. */
  lemma LowBits(m: nat)
    ensures Bit(m, 0) == (m % 2 == 1) && Bit(m, 1) == (m / 2 % 2 == 1)
    ensures Bit(m, 2) == (m / 4 % 2 == 1) && Bit(m, 3) == (m / 8 % 2 == 1)
    ensures Bit(m, 4) == (m / 0x10 % 2 == 1) && Bit(m, 5) == (m / 0x20 % 2 == 1)
    ensures Bit(m, 6) == (m / 0x40 % 2 == 1) && Bit(m, 7) == (m / 0x80 % 2 == 1)
    ensures Bit(m, 8) == (m / 0x100 % 2 == 1) && Bit(m, 9) == (m / 0x200 % 2 == 1)
    ensures Bit(m, 10) == (m / 0x400 % 2 == 1) && Bit(m, 11) == (m / 0x800 % 2 == 1)
    ensures Bit(m, 12) == (m / 0x1000 % 2 == 1) && Bit(m, 13) == (m / 0x2000 % 2 == 1)
    ensures Bit(m, 14) == (m / 0x4000 % 2 == 1) && Bit(m, 15) == (m / 0x8000 % 2 == 1)
  {
    hide Bit, Pow2;
    SmallPowers();
    BitByDivision(m, 0, 1);
    BitByDivision(m, 1, 2);
    BitByDivision(m, 2, 4);
    BitByDivision(m, 3, 8);
    BitByDivision(m, 4, 0x10);
    BitByDivision(m, 5, 0x20);
    BitByDivision(m, 6, 0x40);
    BitByDivision(m, 7, 0x80);
    BitByDivision(m, 8, 0x100);
    BitByDivision(m, 9, 0x200);
    BitByDivision(m, 10, 0x400);
    BitByDivision(m, 11, 0x800);
    BitByDivision(m, 12, 0x1000);
    BitByDivision(m, 13, 0x2000);
    BitByDivision(m, 14, 0x4000);
    BitByDivision(m, 15, 0x8000);
  }

  lemma HighBits(m: nat, j: nat)
    requires m < 0x1_0000 && j >= 16
    ensures !Bit(m, j)
  {
    SmallPowers();
    BitOfMod(m, 16, j);
  }

  lemma MaskBits1(j: nat)
    ensures Bit(0xAAAA, j) <==> j < 16 && j % 2 == 1
    ensures Bit(0x5555, j) <==> j < 16 && j % 2 == 0
  {
    hide Bit;
    LowBits(0xAAAA);
    LowBits(0x5555);
    if j >= 16 {
      HighBits(0xAAAA, j);
      HighBits(0x5555, j);
    }
  }

  lemma MaskBits2(j: nat)
    ensures Bit(0xCCCC, j) <==> j < 16 && j % 4 >= 2
    ensures Bit(0x3333, j) <==> j < 16 && j % 4 < 2
  {
    hide Bit;
    LowBits(0xCCCC);
    LowBits(0x3333);
    if j >= 16 {
      HighBits(0xCCCC, j);
      HighBits(0x3333, j);
    }
  }

  lemma MaskBits4(j: nat)
    ensures Bit(0xF0F0, j) <==> j < 16 && j % 8 >= 4
    ensures Bit(0x0F0F, j) <==> j < 16 && j % 8 < 4
  {
    hide Bit;
    LowBits(0xF0F0);
    LowBits(0x0F0F);
    if j >= 16 {
      HighBits(0xF0F0, j);
      HighBits(0x0F0F, j);
    }
  }

  lemma MaskBits8(j: nat)
    ensures Bit(0xFF00, j) <==> j < 16 && j >= 8
    ensures Bit(0x00FF, j) <==> j < 8
  {
    hide Bit;
    LowBits(0xFF00);
    LowBits(0x00FF);
    if j >= 16 {
      HighBits(0xFF00, j);
      HighBits(0x00FF, j);
    }
  }

  /** One round: bits selected by `up` move d places down, bits selected by `down` d places up. */
  lemma RoundBit(n: nat, high: nat, low: nat, d: nat, k: nat)
    ensures Bit(Or(Shr(And(n, high), d), Shl(And(n, low), d)), k) <==>
              (Bit(n, d + k) && Bit(high, d + k)) || (k >= d && Bit(n, k - d) && Bit(low, k - d))
  {
    hide Bit, And, Or, Shl, Shr;
    BitOfOr(Shr(And(n, high), d), Shl(And(n, low), d), k);
    BitOfShr(And(n, high), d, k);
    BitOfAnd(n, high, d + k);
    BitOfShl(And(n, low), d, k);
    if k >= d {
      BitOfAnd(n, low, k - d);
    }
  }

  /** After the four rounds every one of the 16 low bits is in the mirrored place, and no other
      bit is left. */
  lemma BitOfReverse16(n: nat, k: nat)
    ensures Bit(BitReverse16(n), k) <==> k < 16 && Bit(n, 15 - k)
  {
    hide Bit, And, Or, Shl, Shr;
    var n1 := Or(Shr(And(n, 0xAAAA), 1), Shl(And(n, 0x5555), 1));
    var n2 := Or(Shr(And(n1, 0xCCCC), 2), Shl(And(n1, 0x3333), 2));
    var n3 := Or(Shr(And(n2, 0xF0F0), 4), Shl(And(n2, 0x0F0F), 4));
    Round8(n3, k);
    if k < 16 {
      var k3 := if k < 8 then k + 8 else k - 8;
      Round4(n2, k3);
      var k2 := if k3 % 8 < 4 then k3 + 4 else k3 - 4;
      Round2(n1, k2);
      var k1 := if k2 % 4 < 2 then k2 + 2 else k2 - 2;
      Round1(n, k1);
    }
  }

  lemma Round1(n: nat, k: nat)
    requires k < 16
    ensures Bit(Or(Shr(And(n, 0xAAAA), 1), Shl(And(n, 0x5555), 1)), k) == Bit(n, if k % 2 == 0 then k + 1 else k - 1)
  {
    hide Bit, And, Or, Shl, Shr;
    RoundBit(n, 0xAAAA, 0x5555, 1, k);
    MaskBits1(k + 1);
    if k >= 1 {
      MaskBits1(k - 1);
    }
  }

  lemma Round2(n: nat, k: nat)
    requires k < 16
    ensures Bit(Or(Shr(And(n, 0xCCCC), 2), Shl(And(n, 0x3333), 2)), k) == Bit(n, if k % 4 < 2 then k + 2 else k - 2)
  {
    hide Bit, And, Or, Shl, Shr;
    RoundBit(n, 0xCCCC, 0x3333, 2, k);
    MaskBits2(k + 2);
    if k >= 2 {
      MaskBits2(k - 2);
    }
  }

  lemma Round4(n: nat, k: nat)
    requires k < 16
    ensures Bit(Or(Shr(And(n, 0xF0F0), 4), Shl(And(n, 0x0F0F), 4)), k) == Bit(n, if k % 8 < 4 then k + 4 else k - 4)
  {
    hide Bit, And, Or, Shl, Shr;
    RoundBit(n, 0xF0F0, 0x0F0F, 4, k);
    MaskBits4(k + 4);
    if k >= 4 {
      MaskBits4(k - 4);
    }
  }

  lemma Round8(n: nat, k: nat)
    ensures Bit(Or(Shr(And(n, 0xFF00), 8), Shl(And(n, 0x00FF), 8)), k) <==>
              k < 16 && Bit(n, if k < 8 then k + 8 else k - 8)
  {
    hide Bit, And, Or, Shl, Shr;
    RoundBit(n, 0xFF00, 0x00FF, 8, k);
    MaskBits8(k + 8);
    if k >= 8 {
      MaskBits8(k - 8);
    }
  }

  /** The reversal of a buffer's low 16 bits is the number that a code made of them would have:
      the window in which codes are looked up. */
  lemma ReverseIsWindow(w: nat)
    ensures BitReverse16(w) == CodeNumber(ToBits(w, 16))
  {
    hide Bit, BitReverse16, CodeNumber, ToBits;
    forall k: nat ensures Bit(BitReverse16(w), k) <==> Bit(CodeNumber(ToBits(w, 16)), k) {
      BitOfReverse16(w, k);
      BitOfCodeNumber(ToBits(w, 16), k);
      if k < 16 {
        BitOfToBits(w, 16, 15 - k);
      }
    }
    SameBits(BitReverse16(w), CodeNumber(ToBits(w, 16)));
  }
}
