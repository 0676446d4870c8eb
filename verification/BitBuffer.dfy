/** The input side of the inflater in include/ssfn.h: a 32-bit buffer of bits over unread bytes,
    and the decoding of one symbol from it. */
module BitBuffer {
  import opened Bits
  import opened BitStream
  import opened HuffmanCodes
  import opened Huffman
  import opened PrefixCodes

  // ----- shifting bits in and out of a word

  lemma {:induction false} DropBits(w: nat, m: nat, n: nat)
    requires n <= m
    ensures ToBits(w, m)[n..] == ToBits(Shr(w, n), m - n)
  {
    if n > 0 {
      DropBits(w / 2, m - 1, n - 1);
    }
  }

  lemma {:induction false} ShrBound(w: nat, m: nat, n: nat)
    requires n <= m && w < Pow2(m)
    ensures Shr(w, n) < Pow2(m - n)
  {
    if n > 0 {
      ShrBound(w / 2, m - 1, n - 1);
    }
  }

  /** ORing a byte in above the n bits of w appends the bits of the byte. */
  lemma AppendByte(w: nat, n: nat, b: byte)
    requires w < Pow2(n)
    ensures ToBits(Or(w, Shl(b, n)), n + 8) == ToBits(w, n) + ToBits(b, 8)
    ensures Or(w, Shl(b, n)) < Pow2(n + 8)
  {
    hide Bit, ToBits, Or, Shl;
    var x := Or(w, Shl(b, n));
    forall i: nat | i < n + 8 ensures ToBits(x, n + 8)[i] == (ToBits(w, n) + ToBits(b, 8))[i] {
      BitOfToBits(x, n + 8, i);
      BitOfOr(w, Shl(b, n), i);
      BitOfShl(b, n, i);
      if i < n {
        BitOfToBits(w, n, i);
      } else {
        BitAbove(w, n, i);
        BitOfToBits(b, 8, i - n);
      }
    }
    ByteShifted(b, n);
    Pow2Monotone(n, n + 8);
    OrFits(w, Shl(b, n), n + 8);
  }

  lemma ByteShifted(b: byte, n: nat)
    ensures Shl(b, n) < Pow2(n + 8)
  {
    ShlIsMul(b, n);
    Pow2Add(n, 8);
    SmallPowers();
    MulLess(b, Pow2(n), 256);
  }

  lemma MulLess(b: nat, p: nat, c: nat)
    requires b < c && p > 0
    ensures b * p < p * c
  {
    assert p * c == b * p + (c - b) * p;
    MulAtLeast(c - b, p);
  }

  // ----- how many bits are buffered

  /** No more than the bits that one refill of the buffer may miss. */
  const SLACK := 24

  /** After a refill of n buffered bits: the first number over 24 in steps of 8. */
  function Refilled(n: nat): nat {
    25 + (n + 7) % 8
  }

  /** What is buffered after a reader has asked for `need` bits and taken `take` of them. */
  function AfterAsk(n: nat, need: nat, take: nat): nat {
    var held := if n < need then Refilled(n) else n;
    if take <= held then held - take else 0
  }

  /** A reader that asks for `need` bits with n buffered and u unread runs out of its input. */
  predicate Short(n: nat, need: nat, u: seq<bool>) {
    n < need && |u| <= SLACK
  }

  // ----- the buffer

  class Input {
    const bytes: seq<byte>
    var pos: nat
    var numBits: nat
    var codeBuffer: nat

    constructor (bytes: seq<byte>)
      ensures Valid() && Unread() == BytesBits(bytes) && numBits == 0 && this.bytes == bytes
    {
      this.bytes := bytes;
      pos, numBits, codeBuffer := 0, 0, 0;
    }

    ghost predicate Valid()
      reads this
      ensures Valid() ==> pos <= |bytes| && numBits <= 32
    {
      && pos <= |bytes|
      && numBits <= 32
      && codeBuffer < Pow2(numBits)
    }

    /** The bits still to be consumed: those buffered, then those of the unread bytes. */
    ghost function Unread(): seq<bool>
      requires Valid()
      reads this
    {
      ToBits(codeBuffer, numBits) + BytesBits(bytes[pos..])
    }

    /** `_ssfn__zget8` and the OR that follows it. */
    method AppendNextByte()
      requires Valid() && numBits <= 24 && pos < |bytes|
      modifies this
      ensures Valid() && Unread() == old(Unread())
      ensures numBits == old(numBits) + 8 && pos == old(pos) + 1
    {
      hide ToBits, Or, Shl;
      var b := bytes[pos];
      ghost var rest := bytes[pos..];
      assert rest[0] == b && rest[1..] == bytes[pos + 1..];
      AppendByte(codeBuffer, numBits, b);
      Below32(Or(codeBuffer, Shl(b, numBits)), numBits + 8);
      pos := pos + 1;
      codeBuffer := Or(codeBuffer, Shl(b, numBits)) % 0x1_0000_0000;
      numBits := numBits + 8;
    }

    /** `_ssfn__fill_bits`. The source does not check for the end of its input; `inside` tells
        that it stayed within it, which takes more than 24 bits. */
    method FillBits() returns (inside: bool)
      requires Valid() && numBits <= 24
      modifies this
      ensures Valid() && Unread() == old(Unread())
      ensures inside ==> numBits > 24 && numBits == Refilled(old(numBits))
      ensures inside <==> |Unread()| > SLACK
    {
      hide Valid, Unread, BytesBits;
      if pos == |bytes| {
        UnreadLength();
        return false;
      }
      AppendNextByte();
      while numBits <= 24
        invariant Valid() && Unread() == old(Unread())
        invariant numBits % 8 == old(numBits) % 8
        decreases 32 - numBits
      {
        if pos == |bytes| {
          UnreadLength();
          return false;
        }
        AppendNextByte();
      }
      UnreadLength();
      return true;
    }

    lemma UnreadLength()
      requires Valid()
      ensures |Unread()| == numBits + 8 * (|bytes| - pos)
    {
      BytesBitsLength(bytes[pos..]);
    }

    /** Takes the lowest n buffered bits away. */
    method Drop(n: nat)
      requires Valid() && n <= numBits
      modifies this
      ensures Valid() && n <= |old(Unread())| && Unread() == old(Unread())[n..]
      ensures numBits == old(numBits) - n && pos == old(pos)
    {
      DropBits(codeBuffer, numBits, n);
      ShrBound(codeBuffer, numBits, n);
      codeBuffer := Shr(codeBuffer, n);
      numBits := numBits - n;
    }

    /** The buffered bits are those up to the next byte of the input. */
    lemma ByteBoundary()
      requires Valid()
      ensures |Unread()| % 8 == numBits % 8
    {
      UnreadLength();
    }

    /** The first loop of `_ssfn__parse_uncompressed_block`: a byte of the buffer. */
    method TakeByte() returns (b: byte)
      requires Valid() && numBits >= 8
      modifies this
      ensures Valid() && old(Unread()) == ToBits(b, 8) + Unread()
      ensures numBits == old(numBits) - 8
    {
      hide ToBits, Number, And, Pow2, BytesBits;
      ghost var u := Unread();
      ByteOfWord(codeBuffer);
      LeadingNumber(codeBuffer, numBits, 8, BytesBits(bytes[pos..]));
      b := And(codeBuffer, 255);
      BitsOfNumber(u[..8]);
      Drop(8);
    }

    /** `_ssfn__zget8`, with the buffer empty. */
    method NextByte() returns (b: byte)
      requires Valid() && numBits == 0 && pos < |bytes|
      modifies this
      ensures Valid() && old(Unread()) == ToBits(b, 8) + Unread() && numBits == 0
    {
      b := bytes[pos];
      ghost var rest := bytes[pos..];
      assert rest[0] == b && rest[1..] == bytes[pos + 1..];
      pos := pos + 1;
    }

    /** Moves past bytes that were copied. */
    method SkipBytes(n: nat)
      requires Valid() && numBits == 0 && n <= |bytes| - pos
      modifies this
      ensures Valid() && old(Unread()) == BytesBits(bytes[old(pos)..old(pos) + n]) + Unread()
      ensures numBits == 0
    {
      ghost var rest := bytes[pos..];
      assert rest == bytes[pos..pos + n] + bytes[pos + n..];
      BytesBitsJoin(bytes[pos..pos + n], bytes[pos + n..]);
      pos := pos + n;
    }

    /** `_ssfn__zreceive`: the next n bits as a number. */
    method Receive(n: nat) returns (inside: bool, k: nat)
      requires Valid() && n <= 25
      modifies this
      ensures Valid()
      ensures inside ==> n <= |old(Unread())| && k == Number(old(Unread())[..n]) && Unread() == old(Unread())[n..]
      ensures !inside ==> Unread() == old(Unread())
      ensures inside <==> !Short(old(numBits), n, old(Unread()))
      ensures inside ==> numBits == AfterAsk(old(numBits), n, n)
    {
      hide ToBits, Number, And, Pow2, BytesBits;
      inside, k := true, 0;
      if numBits < n {
        inside := FillBits();
        if !inside {
          return;
        }
      }
      ShlIsMul(1, n);
      AndLowMask(codeBuffer, n);
      k := And(codeBuffer, Shl(1, n) - 1);
      LeadingNumber(codeBuffer, numBits, n, BytesBits(bytes[pos..]));
      Drop(n);
    }

    /** `_ssfn__zhuffman_decode_slowpath` */
    method DecodeSlow(z: Tables, ghost lens: seq<nat>) returns (sym: int)
      requires Valid() && z.Represents(lens) && numBits >= 16
      requires Limit(lens, ZFAST_BITS) <= CodeNumber(Unread()[..WINDOW])
      modifies this
      ensures Valid()
      ensures sym < 0 ==> Unread() == old(Unread()) && NoCodeStarts(lens, old(Unread()))
      ensures sym >= 0 ==> Codes(lens, sym) && old(Unread()) == SymbolBits(lens, sym) + Unread()
      ensures sym >= 0 ==> numBits == old(numBits) - lens[sym]
    {
      hide Valid, Unread, Limit, CodeNumber, Shr, BitReverse16;
      var k := BitReverse(codeBuffer, 16);
      WindowOfBuffer();
      assert k == CodeNumber(Unread()[..WINDOW]);
      WindowBelowLimit(Unread()[..WINDOW]);
      var s := ZFAST_BITS + 1;
      while k >= z.maxcode[s]
        invariant ZFAST_BITS < s <= 16
        decreases 16 - s
        invariant Limit(lens, s - 1) <= k
      {
        s := s + 1;
      }
      if s == 16 {
        NoneStarts(lens, Unread());
        return -1;
      }
      SlowHit(z, lens, s, k);
      var b := Shr(k, 16 - s) - z.firstcode[s] + z.firstsymbol[s];
      MatchIsPrefix(lens, z.value[b], Unread());
      Drop(s);
      return z.value[b];
    }

    /** `_ssfn__zhuffman_decode`: the symbol whose code the unread bits start with, or -1. */
    method Decode(z: Tables, ghost lens: seq<nat>) returns (inside: bool, sym: int)
      requires Valid() && z.Represents(lens)
      modifies this
      ensures Valid()
      ensures !inside ==> Unread() == old(Unread())
      ensures inside <==> !Short(old(numBits), WINDOW, old(Unread()))
      ensures inside ==> |old(Unread())| >= WINDOW
      ensures inside && sym < 0 ==> Unread() == old(Unread()) && NoCodeStarts(lens, old(Unread()))
      ensures inside && sym >= 0 ==> Codes(lens, sym) && old(Unread()) == SymbolBits(lens, sym) + Unread()
      ensures inside && sym >= 0 ==> numBits == AfterAsk(old(numBits), WINDOW, lens[sym])
    {
      hide Valid, Unread, Limit, CodeNumber, And;
      inside, sym := true, -1;
      if numBits < 16 {
        inside := FillBits();
        if !inside {
          return;
        }
      }
      WindowOfBuffer();
      FastIndex(codeBuffer);
      var b := z.fast[And(codeBuffer, ZFAST_SIZE - 1)];
      if b != 0 {
        FastHit(z, lens, codeBuffer);
        sym := b % 512;
        MatchIsPrefix(lens, sym, Unread());
        Drop(b / 512);
        return;
      }
      FastMiss(z, lens, codeBuffer);
      sym := DecodeSlow(z, lens);
    }

    /** The window that the source looks codes up in holds the next 16 unread bits. */
    lemma WindowOfBuffer()
      requires Valid() && numBits >= 16
      ensures |Unread()| >= WINDOW && ToBits(codeBuffer, WINDOW) == Unread()[..WINDOW]
      ensures BitReverse(codeBuffer, 16) == CodeNumber(Unread()[..WINDOW])
    {
      hide BitReverse16, CodeNumber, ToBits, BytesBits;
      LowBitsOfWindow(codeBuffer, WINDOW, numBits);
      ReverseIsWindow(codeBuffer);
      NoShift(BitReverse16(codeBuffer));
    }
  }

  lemma WindowBelowLimit(w: seq<bool>)
    requires |w| == WINDOW
    ensures CodeNumber(w) < WINDOW_LIMIT
  {
    CodeNumberBound(w);
    SmallPowers();
  }

  lemma ByteOfWord(w: nat)
    ensures And(w, 255) == w % Pow2(8) < 256
  {
    SmallPowers();
    AndLowMask(w, 8);
  }

  lemma NoShift(w: nat)
    ensures Shr(w, 0) == w
  {
  }

  lemma FastIndex(w: nat)
    ensures And(w, ZFAST_SIZE - 1) == w % 512 < 512
  {
    AndLowMask(w, 9);
    Pow2Values();
  }

  lemma Below32(w: nat, n: nat)
    requires n <= 32 && w < Pow2(n)
    ensures w % 0x1_0000_0000 == w
  {
    Pow2Values();
    Pow2Add(1, 31);
    Pow2Monotone(n, 32);
  }

  lemma LeadingNumber(w: nat, m: nat, n: nat, rest: seq<bool>)
    requires n <= m
    ensures Number((ToBits(w, m) + rest)[..n]) == w % Pow2(n)
  {
    LowBitsOfWindow(w, n, m);
    NumberOfToBits(w, n);
    assert (ToBits(w, m) + rest)[..n] == ToBits(w, m)[..n];
  }
}
