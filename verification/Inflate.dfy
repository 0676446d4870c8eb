/** The inflater of include/ssfn.h: blocks decoded from the bit buffer into growing output. */
module Inflate {
  import opened Bits
  import opened BitStream
  import opened HuffmanCodes
  import opened Huffman
  import opened BitBuffer
  import opened PrefixCodes
  import opened Deflate
  import opened DeflateStream
  import opened InflateCuts
  import opened InflateSteps

  class Inflater {
    const input: Input
    const lengths: Tables
    const distances: Tables
    const defaultLength: array<nat>
    const defaultDistance: array<nat>
    var out: seq<byte>

    constructor (bytes: seq<byte>)
      ensures fresh(input) && fresh(lengths.Arrays()) && fresh(distances.Arrays())
      ensures fresh(defaultLength) && fresh(defaultDistance)
      ensures Apart() && input.Valid() && input.Unread() == BytesBits(bytes) && input.numBits == 0 && out == []
    {
      input := new Input(bytes);
      lengths := new Tables();
      distances := new Tables();
      defaultLength := new nat[288];
      defaultDistance := new nat[32];
      out := [];
    }

    /** `_ssfn__init_zdefaults` */
    method InitDefaults()
      requires Apart()
      modifies defaultLength, defaultDistance
      ensures Ready()
    {
      hide FixedLengths;
      var i: nat := 0;
      while i <= 143
        invariant i <= 144 && forall k: nat :: k < i ==> defaultLength[k] == FixedLengths()[k]
      {
        FixedLengthAt(i);
        defaultLength[i] := 8;
        i := i + 1;
      }
      while i <= 255
        invariant 144 <= i <= 256 && forall k: nat :: k < i ==> defaultLength[k] == FixedLengths()[k]
      {
        FixedLengthAt(i);
        defaultLength[i] := 9;
        i := i + 1;
      }
      while i <= 279
        invariant 256 <= i <= 280 && forall k: nat :: k < i ==> defaultLength[k] == FixedLengths()[k]
      {
        FixedLengthAt(i);
        defaultLength[i] := 7;
        i := i + 1;
      }
      while i <= 287
        invariant 280 <= i <= 288 && forall k: nat :: k < i ==> defaultLength[k] == FixedLengths()[k]
      {
        FixedLengthAt(i);
        defaultLength[i] := 8;
        i := i + 1;
      }
      i := 0;
      while i <= 31
        invariant i <= 32 && forall k: nat :: k < i ==> defaultDistance[k] == 5
        invariant forall k: nat :: k < 288 ==> defaultLength[k] == FixedLengths()[k]
      {
        defaultDistance[i] := 5;
        i := i + 1;
      }
    }

    ghost predicate Separate() {
      lengths.Shaped() && distances.Shaped() && lengths.Arrays() !! distances.Arrays()
    }

    ghost predicate Apart() {
      && Separate() && defaultLength.Length == 288 && defaultDistance.Length == 32 && defaultLength != defaultDistance
      && {defaultLength, defaultDistance} !! lengths.Arrays() + distances.Arrays()
    }

    /** The lengths of the fixed code are in place. */
    ghost predicate Ready()
      reads defaultLength, defaultDistance
    {
      Apart() && defaultLength[..] == FixedLengths() && defaultDistance[..] == FixedDistances()
    }

    /** One round of the loop of `_ssfn__parse_huffman_block`, up to the output. */
    method ReadItem(lengths: Tables, distances: Tables, ghost L: seq<nat>, ghost D: seq<nat>)
      returns (outcome: Outcome, x: Item)
      requires input.Valid() && lengths.Represents(L) && distances.Represents(D) && |D| <= 32
      modifies input
      ensures input.Valid()
      ensures ItemRead(L, D, out, old(input.Unread()), old(input.numBits), input.Unread(), input.numBits, outcome, x)
    {
      hide SymbolBits, ItemBits, Input.Valid, Input.Unread, Kraft, LengthsOk, ItemCut, AfterAsk;
      x := EndOfBlock;
      ghost var u, n := input.Unread(), input.numBits;
      var inside, z := input.Decode(lengths, L);
      if !inside {
        CutAtFirst(L, D, u, n);
        ShortOfItem(L, D, out, u);
        return Undefined, x;
      }
      if z < 0 {
        NoFirstSymbol(L, D, out, u);
        NotCutUnknown(L, D, u, n);
        return Rejected, x;
      }
      if z <= 256 {
        x := if z < 256 then Literal(z) else EndOfBlock;
        NotCutAtSymbol(L, D, u, n, z);
        OneSymbol(L, D, x);
        return Done, x;
      }
      var l := z - 257;
      outcome, x := ReadCopy(l, distances, L, D, u, n);
    }

    /** `_ssfn__zreceive`, called for symbols that have extra bits. */
    method ReceiveExtra(n: nat) returns (inside: bool, k: nat)
      requires input.Valid() && n <= 25
      modifies input
      ensures input.Valid()
      ensures inside ==> n <= |old(input.Unread())| && k == Number(old(input.Unread())[..n])
      ensures inside ==> input.Unread() == old(input.Unread())[n..]
      ensures inside <==> !Short(old(input.numBits), n, old(input.Unread()))
      ensures inside ==> input.numBits == AfterAsk(old(input.numBits), n, n)
      ensures !inside ==> input.Unread() == old(input.Unread())
    {
      inside, k := true, 0;
      if n != 0 {
        inside, k := input.Receive(n);
      }
    }

    /** The rest of a copy, after its first symbol. */
    method ReadCopy(l: LengthIndex, distances: Tables, ghost L: seq<nat>, ghost D: seq<nat>, ghost u: seq<bool>, ghost n: nat)
      returns (outcome: Outcome, x: Item)
      requires input.Valid() && GoodLengths(L) && distances.Represents(D) && |D| <= 32
      requires Codes(L, 257 + l) && u == SymbolBits(L, 257 + l) + input.Unread() && |u| >= WINDOW
      requires !Short(n, WINDOW, u) && input.numBits == LengthHeld(L, n, l, false)
      modifies input
      ensures input.Valid() && ItemRead(L, D, out, u, n, input.Unread(), input.numBits, outcome, x)
    {
      hide SymbolBits, ItemBits, Input.Valid, Input.Unread, Kraft, LengthsOk, LengthExtra, DistanceExtra, LengthBase,
        DistanceBase, Number, Codable, ItemCut, PastLength, AfterAsk, LengthPassed, StaleCopy;
      x := EndOfBlock;
      ghost var u1 := input.Unread();
      FewExtraBits(l, 0);
      AfterSymbol(L, u, l, u1);
      var inside, le := ReceiveExtra(LengthExtra(l));
      if !inside {
        StopAfterSymbol(L, D, out, u, l, u1);
        CutPastLength(L, D, u, n, l, false, u1);
        return Undefined, x;
      }
      var d;
      ghost var v := input.Unread();
      StopAfterLength(L, D, out, u, l, u1, v);
      inside, d := input.Decode(distances, D);
      if !inside {
        CutPastLength(L, D, u, n, l, true, v);
        return Undefined, x;
      }
      PassedLength(L, u, n, l, u1, v);
      if d < 0 {
        NotCutNoDistance(L, D, u, n, l, u1, v);
        return Rejected, x;
      }
      ghost var u2 := input.Unread();
      FewExtraBits(l, d);
      var de;
      inside, de := ReceiveExtra(DistanceExtra(d));
      if !inside {
        StopAfterDistance(L, D, out, u, l, u1, d, u2);
        CutPastDistance(L, D, u, n, l, v, d, u2);
        return Undefined, x;
      }
      x := Copy(l, le, d, de);
      ghost var same := WholeCopy(L, D, out, u, l, u1, d, u2);
      if x.Distance() == 0 && x.Length() > 0 {
        FromZero(L, D, x);
        CutAtStale(L, D, u, n, x, input.Unread());
        return Undefined, x;
      }
      FromBefore(L, D, x);
      NotCutInCopy(L, D, u, n, u1, v, x, u2);
      outcome := if |out| < x.Distance() then Rejected else Done;
    }

    /** The copying loops of `_ssfn__parse_huffman_block`. */
    method CopyBytes(len: nat, dist: nat)
      requires dist <= |out| && (dist > 0 || len == 0)
      modifies this`out
      ensures out == Repeated(old(out), len, dist)
    {
      hide Repeated;
      var p: nat, n: nat := |out| - dist, len;
      NoneRepeated(out, dist);
      if dist == 1 {
        var v := out[p];
        while n != 0
          invariant n <= len && out == Repeated(old(out), len - n, dist)
          decreases n
        {
          RepeatedStep(old(out), len - n, dist);
          ConstantTail(old(out), len - n);
          out := out + [v];
          n := n - 1;
        }
      } else {
        while n != 0
          invariant n <= len && out == Repeated(old(out), len - n, dist)
          invariant p == |old(out)| - dist + (len - n)
          decreases n
        {
          RepeatedStep(old(out), len - n, dist);
          out := out + [out[p]];
          p := p + 1;
          n := n - 1;
        }
      }
    }

    /** The output of one item. */
    method Write(x: Item)
      requires InReach(out, x)
      modifies this`out
      ensures out == Effect(old(out), x)
    {
      match x
      case Literal(v) => out := out + [v];
      case EndOfBlock =>
      case Copy(_, _, _, _) => CopyBytes(x.Length(), x.Distance());
    }

    /** `_ssfn__parse_huffman_block` */
    method ParseHuffmanBlock(lengths: Tables, distances: Tables, ghost L: seq<nat>, ghost D: seq<nat>)
      returns (outcome: Outcome)
      requires input.Valid() && lengths.Represents(L) && distances.Represents(D) && |D| <= 32
      modifies this`out, input
      ensures input.Valid()
      ensures BodyRead(L, D, old(out), old(input.Unread()), old(input.numBits), input.Unread(), input.numBits, outcome, out)
    {
      hide BodyRead, ItemBits, Input.Valid, Input.Unread, Kraft, LengthsOk, Codable, InReach, Effect, Body, BodyCut, SameBody,
        ItemHeld, ItemCut;
      ghost var out0, u0, n0 := out, input.Unread(), input.numBits;
      SameBodyStart(L, D, out0, u0, n0);
      while true
        invariant input.Valid() && lengths.Represents(L) && distances.Represents(D)
        invariant SameBody(L, D, out0, u0, n0, out, input.Unread(), input.numBits)
        decreases |input.Unread()|
      {
        ghost var u, n, before := input.Unread(), input.numBits, out;
        var x;
        outcome, x := ReadItem(lengths, distances, L, D);
        ghost var v, n' := input.Unread(), input.numBits;
        if outcome != Done {
          StuckItem(L, D, out, u, n, v, n', outcome, x, out);
          BodyReadFurther(L, D, out0, u0, n0, out, u, n, v, n', outcome, out);
          return;
        }
        Write(x);
        if x.EndOfBlock? {
          EndItem(L, D, before);
          EndRead(L, D, before, u, n, v, n');
          BodyReadFurther(L, D, out0, u0, n0, before, u, n, v, n', Done, out);
          return;
        }
        SameBodyStep(L, D, out0, u0, n0, before, u, n, x);
      }
    }

    /** One round of the loop of `_ssfn__compute_huffman_codes`, up to the filling. */
    method ReadRun(z: Tables, ghost C: seq<nat>, lencodes: array<nat>, n: nat, ntot: nat)
      returns (outcome: Outcome, fill: nat, count: nat, ghost x: Run)
      requires input.Valid() && z.Represents(C) && |C| == 19 && n < ntot <= lencodes.Length
      modifies input
      ensures input.Valid()
      ensures RunRead(C, ntot, lencodes[..n], old(input.Unread()), old(input.numBits), input.Unread(), input.numBits, outcome, x)
      ensures outcome == Done ==> fill == RunValue(lencodes[..n], x) && count == RunLength(x)
    {
      hide SymbolBits, RunBits, RunCodable, Input.Valid, Input.Unread, Kraft, LengthsOk, Number, RunCut, AfterAsk, Short;
      fill, count, x := 0, 1, Run(0, 0);
      ghost var u, lens, m := input.Unread(), lencodes[..n], input.numBits;
      var inside, c := input.Decode(z, C);
      if !inside {
        CutAtRun(C, ntot, lens, u, m);
        return Undefined, fill, count, x;
      }
      if c < 0 || c >= 19 {
        NoRunSymbol(C, ntot, lens, u);
        NotCutNoRun(C, u, m);
        return Rejected, fill, count, x;
      }
      ghost var v := input.Unread();
      StopAfterRunSymbol(C, ntot, lens, u, c, v);
      var e;
      inside, e := ReceiveExtra(RunExtraBits(c));
      if !inside {
        CutPastSymbol(C, u, m, c, v);
        return Undefined, fill, count, x;
      }
      x := WholeRun(C, ntot, lens, u, c, v);
      NotCutInRun(C, u, m, c, v);
      if c < 16 {
        fill := c;
      } else if c == 16 {
        count := 3 + e;
        if n == 0 {
          return Rejected, fill, count, x;
        }
        fill := lencodes[n - 1];
      } else {
        count := if c == 17 then 3 + e else 11 + e;
      }
      if ntot - n < count {
        return Rejected, fill, count, x;
      }
      outcome := Done;
    }

    /** The loop of `_ssfn__compute_huffman_codes`. */
    method ReadLengths(z: Tables, ghost C: seq<nat>, lencodes: array<nat>, ntot: nat) returns (outcome: Outcome)
      requires input.Valid() && z.Represents(C) && |C| == 19 && ntot <= lencodes.Length
      requires lencodes !in z.Arrays()
      modifies input, lencodes
      ensures input.Valid()
      ensures LengthsRead(C, ntot, [], old(input.Unread()), old(input.numBits), input.Unread(), input.numBits, outcome,
                lencodes[..ntot])
    {
      hide RunBits, RunCodable, RunLength, RunValue, RunHeld, Lengths, LengthsCut, SameLengths, LengthsRead, Input.Valid,
        Input.Unread, Kraft, LengthsOk, Tables.Represents, RunCut;
      ghost var u0, m0 := input.Unread(), input.numBits;
      var n: nat := 0;
      SameLengthsStart(C, ntot, [], u0, m0);
      while n < ntot
        invariant n <= ntot <= lencodes.Length && input.Valid() && z.Represents(C)
        invariant SameLengths(C, ntot, [], u0, m0, lencodes[..n], input.Unread(), input.numBits)
        decreases |input.Unread()|
      {
        ghost var u, m, lens := input.Unread(), input.numBits, lencodes[..n];
        var fill, count;
        ghost var x;
        outcome, fill, count, x := ReadRun(z, C, lencodes, n, ntot);
        if outcome != Done {
          StuckRun(C, ntot, lens, u, m, input.Unread(), input.numBits, outcome, x, lencodes[..ntot]);
          LengthsReadFurther(C, ntot, [], u0, m0, lens, u, m, input.Unread(), input.numBits, outcome, lencodes[..ntot]);
          return;
        }
        SameLengthsStep(C, ntot, [], u0, m0, lens, u, m, x);
        forall k | n <= k < n + count {
          lencodes[k] := fill;
        }
        assert lencodes[..n + count] == lens + Times(count, fill);
        n := n + count;
      }
      NoMoreLengths(C, ntot, lencodes[..n], input.Unread(), input.numBits);
      LengthsReadFurther(C, ntot, [], u0, m0, lencodes[..n], input.Unread(), input.numBits, input.Unread(), input.numBits, Done,
        lencodes[..n]);
      outcome := Done;
    }

    /** The three counts that a dynamic block starts with. */
    method ReadCounts() returns (outcome: Outcome, hlit: nat, hdist: nat, hclen: nat)
      requires input.Valid()
      modifies input
      ensures input.Valid()
      ensures var u, n := old(input.Unread()), old(input.numBits);
              if outcome == Done then
                && |u| >= 14 && hlit == LiteralCount(u) && hdist == DistanceCount(u) && hclen == SizeCount(u)
                && input.Unread() == u[14..] && input.numBits == SizesHeld(n, 0) && HeaderPassed(u, n, 14)
              else
                outcome == Undefined && forall L, D :: HeaderRead(u, n, input.Unread(), input.numBits, outcome, L, D)
    {
      hide Input.Valid, Input.Unread, Number, Header, HeaderCut, AfterAsk;
      ghost var u, n := input.Unread(), input.numBits;
      outcome, hlit, hdist, hclen := Undefined, 0, 0, 0;
      var inside, k := input.Receive(5);
      if !inside {
        StopInHeader(u, n, 0);
        return;
      }
      hlit := k + 257;
      inside, k := input.Receive(5);
      if !inside {
        StopInHeader(u, n, 5);
        return;
      }
      hdist := k + 1;
      assert u[5..][..5] == u[5..10] && u[5..][5..] == u[10..];
      inside, k := input.Receive(4);
      if !inside {
        StopInHeader(u, n, 10);
        return;
      }
      hclen := k + 4;
      assert u[10..][..4] == u[10..14] && u[10..][4..] == u[14..];
      outcome := Done;
    }

    /** The lengths of the code length code. */
    method ReadSizes(hclen: nat, ghost u: seq<bool>, ghost n: nat) returns (outcome: Outcome, sizes: array<nat>)
      requires input.Valid() && |u| >= 14 && input.Unread() == u[14..] && hclen == SizeCount(u) <= 19
      requires input.numBits == SizesHeld(n, 0) && HeaderPassed(u, n, 14)
      modifies input
      ensures input.Valid() && fresh(sizes) && sizes.Length == 19
      ensures if outcome == Done then
                && 14 + 3 * hclen <= |u| && sizes[..] == Sizes(u[14..], hclen) && input.Unread() == u[14 + 3 * hclen..]
                && input.numBits == SizesHeld(n, hclen) && HeaderPassed(u, n, 14 + 3 * hclen)
              else
                outcome == Undefined && forall L, D :: HeaderRead(u, n, input.Unread(), input.numBits, outcome, L, D)
    {
      hide Input.Valid, Input.Unread, Number, Header, HeaderCut, SizeOrder, SizeCount, AfterAsk, Short, HeaderPassed;
      sizes := new nat[19](i => 0);
      ghost var w := u[14..];
      assert sizes[..] == Times(19, 0);
      var i := 0;
      while i < hclen
        invariant i <= hclen && input.Valid() && 3 * i <= |w|
        invariant input.Unread() == w[3 * i..] && sizes[..] == Sizes(w, i)
        invariant input.numBits == SizesHeld(n, i) && HeaderPassed(u, n, 14 + 3 * i)
      {
        assert w[3 * i..] == u[14 + 3 * i..];
        var inside, k := input.Receive(3);
        if !inside {
          ShortInSizes(u, n, i);
          StopInHeader(u, n, 14 + 3 * i);
          return Undefined, sizes;
        }
        assert w[3 * i..][..3] == w[3 * i..3 * (i + 1)] && w[3 * i..][3..] == w[3 * (i + 1)..];
        PassedSize(u, n, i);
        sizes[SizeOrder(i)] := k;
        i := i + 1;
      }
      assert w[3 * hclen..] == u[14 + 3 * hclen..];
      outcome := Done;
    }

    /** The tables of the two alphabets, from the lengths of both. */
    method BuildCodes(lencodes: array<nat>, hlit: nat, hdist: nat) returns (ok: bool)
      requires Separate() && hlit <= 288 && hdist <= 32 && hlit + hdist <= lencodes.Length
      requires LengthsOk(lencodes[..hlit]) && LengthsOk(lencodes[hlit..hlit + hdist])
      requires lencodes !in lengths.Arrays() && lencodes !in distances.Arrays()
      modifies lengths.Arrays(), distances.Arrays()
      ensures ok <==> Kraft(lencodes[..hlit]) && Kraft(lencodes[hlit..hlit + hdist])
      ensures ok ==> lengths.Represents(lencodes[..hlit]) && distances.Represents(lencodes[hlit..hlit + hdist])
    {
      hide Kraft, LengthsOk, Tables.Represents;
      ok := lengths.Build(lencodes[..hlit]);
      if ok {
        ok := distances.Build(lencodes[hlit..hlit + hdist]);
      }
    }

    /** The lengths of both alphabets, sent with the code of z, and their tables. */
    method ReadCodes(z: Tables, hlit: nat, hdist: nat, ghost u: seq<bool>, ghost n: nat)
      returns (outcome: Outcome, ghost L: seq<nat>, ghost D: seq<nat>)
      requires input.Valid() && Separate() && SizesRead(u) && input.Unread() == u[14 + 3 * SizeCount(u)..]
      requires input.numBits == SizesHeld(n, SizeCount(u)) && HeaderPassed(u, n, 14 + 3 * SizeCount(u))
      requires z.Represents(Sizes(u[14..], SizeCount(u)))
      requires hlit == LiteralCount(u) <= 288 && hdist == DistanceCount(u) <= 32
      modifies input, lengths.Arrays(), distances.Arrays()
      ensures input.Valid() && HeaderRead(u, n, input.Unread(), input.numBits, outcome, L, D)
      ensures outcome == Done ==> lengths.Represents(L) && distances.Represents(D) && |D| <= 32
    {
      hide Input.Valid, Input.Unread, Header, HeaderRead, Sizes, Lengths, LengthsCut, LengthsHeld, Kraft, LengthsOk,
        LiteralCount, DistanceCount, SizeCount, Tables.Represents, SizesHeld, HeaderPassed;
      L, D := [], [];
      ghost var C := Sizes(u[14..], SizeCount(u));
      var lencodes := new nat[286 + 32 + 137];
      outcome := ReadLengths(z, C, lencodes, hlit + hdist);
      ghost var o := lencodes[..hlit + hdist];
      if outcome != Done {
        StuckLengths(u, n, outcome, input.Unread(), input.numBits, o);
        return;
      }
      LengthsFit(C, hlit + hdist, [], u[14 + 3 * SizeCount(u)..], input.Unread(), o);
      LengthsDecide(u, n, input.Unread(), input.numBits, o);
      L, D := o[..hlit], o[hlit..];
      PartsAreShort(o, hlit);
      assert lencodes[..hlit] == L && lencodes[hlit..hlit + hdist] == D;
      var ok := BuildCodes(lencodes, hlit, hdist);
      if !ok {
        outcome := Rejected;
      }
    }

    /** `_ssfn__compute_huffman_codes` */
    method ComputeHuffmanCodes() returns (outcome: Outcome, ghost L: seq<nat>, ghost D: seq<nat>)
      requires input.Valid() && Separate()
      modifies input, lengths.Arrays(), distances.Arrays()
      ensures input.Valid()
      ensures HeaderRead(old(input.Unread()), old(input.numBits), input.Unread(), input.numBits, outcome, L, D)
      ensures outcome == Done ==> lengths.Represents(L) && distances.Represents(D) && |D| <= 32
    {
      hide Input.Valid, Input.Unread, HeaderRead, Sizes, Kraft, LengthsOk, LiteralCount, DistanceCount, SizeCount,
        Tables.Represents, SizesHeld, HeaderPassed;
      ghost var u, n := input.Unread(), input.numBits;
      L, D := [], [];
      var hlit, hdist, hclen, sizes;
      outcome, hlit, hdist, hclen := ReadCounts();
      if outcome != Done {
        return;
      }
      CountsFit(u);
      outcome, sizes := ReadSizes(hclen, u, n);
      if outcome != Done {
        return;
      }
      var z := new Tables();
      SizesAreShort(u[14..], hclen);
      var ok := z.Build(sizes[..]);
      if !ok {
        NoCodeLengthCode(u, n, input.Unread(), input.numBits);
        return Rejected, L, D;
      }
      outcome, L, D := ReadCodes(z, hlit, hdist, u, n);
    }

    /** The header of a stored block: what the buffer holds, and the bytes after it. */
    method ReadHeader() returns (inside: bool, header: array<byte>)
      requires input.Valid() && input.numBits % 8 == 0
      modifies input
      ensures input.Valid() && fresh(header) && header.Length == 4
      ensures inside ==> input.numBits == 0 && old(input.Unread()) == BytesBits(header[..]) + input.Unread()
      ensures !inside ==> |old(input.Unread())| < 32 && input.Unread() == []
    {
      hide Input.Valid, Input.Unread, BytesBits, ToBits;
      header := new byte[4](i => 0);
      ghost var u := input.Unread();
      var k: nat := 0;
      NoBytes(u);
      assert header[..0] == [];
      while input.numBits > 0
        invariant input.Valid() && input.numBits % 8 == 0 && 8 * k + input.numBits <= 32
        invariant u == BytesBits(header[..k]) + input.Unread()
        decreases input.numBits
      {
        ghost var h := header[..k];
        var b := input.TakeByte();
        OneMoreByte(h, b, input.Unread());
        header[k] := b;
        k := k + 1;
        assert header[..k] == h + [b];
      }
      while k < 4
        invariant k <= 4 && input.Valid() && input.numBits == 0
        invariant u == BytesBits(header[..k]) + input.Unread()
      {
        if input.pos == |input.bytes| {
          input.UnreadLength();
          BytesBitsLength(header[..k]);
          return false, header;
        }
        ghost var h := header[..k];
        var b := input.NextByte();
        OneMoreByte(h, b, input.Unread());
        header[k] := b;
        k := k + 1;
        assert header[..k] == h + [b];
      }
      assert header[..4] == header[..];
      inside := true;
    }

    /** The copying loop of `_ssfn__parse_uncompressed_block`. */
    method CopyStored(len: nat)
      requires input.pos + len <= |input.bytes|
      modifies this`out
      ensures out == old(out) + input.bytes[input.pos..input.pos + len]
    {
      var k: nat := 0;
      while k < len
        invariant k <= len
        invariant out == old(out) + input.bytes[input.pos..input.pos + k]
      {
        out := out + [input.bytes[input.pos + k]];
        k := k + 1;
      }
    }

    /** `_ssfn__parse_uncompressed_block` */
    method ParseUncompressedBlock() returns (outcome: Outcome, ghost data: seq<byte>)
      requires input.Valid()
      modifies this`out, input
      ensures input.Valid() && StoredRead(old(input.Unread()), input.Unread(), outcome, data)
      ensures out == old(out) + data
      ensures outcome == Done ==> input.numBits == 0
    {
      hide Input.Valid, Input.Unread, BytesBits, ToBits, Stored, And, Xor, StoredCut, AfterAsk;
      data := [];
      ghost var u := input.Unread();
      input.ByteBoundary();
      LowThreeBits(input.numBits);
      var inside, header;
      if And(input.numBits, 7) != 0 {
        var padding;
        inside, padding := input.Receive(And(input.numBits, 7));
      }
      input.ByteBoundary();
      inside, header := ReadHeader();
      if !inside {
        TooShortToStore(u);
        CutInStoredHeader(u);
        return Undefined, data;
      }
      FourBytes(header[..]);
      var len, nlen := TwoBytes(header[0], header[1]), TwoBytes(header[2], header[3]);
      StoredFrom(u, len, nlen, input.Unread());
      StoredDecides(u, len, nlen, input.Unread());
      Complement(len);
      if nlen != Xor(len, 0xFFFF) {
        return Rejected, data;
      }
      if |input.bytes| - input.pos < len {
        input.UnreadLength();
        return Undefined, data;
      }
      CopyStored(len);
      data := input.bytes[input.pos..input.pos + len];
      input.SkipBytes(len);
      outcome := Done;
    }

    /** The first bits of a round of `_ssfn__parse_zlib`. */
    method ReadBlockType() returns (inside: bool, fin: nat, kind: nat)
      requires input.Valid()
      modifies input
      ensures input.Valid()
      ensures var u, n, v := old(input.Unread()), old(input.numBits), input.Unread();
              if inside then
                && |u| >= 3 && fin == (if u[0] then 1 else 0) && kind == Number(u[1..3]) < 4 && v == u[3..]
                && !Short(n, 1, u) && !Short(AfterAsk(n, 1, 1), 2, u[1..]) && input.numBits == TypeHeld(n)
              else
                (v == u && Short(n, 1, u)) || (|u| >= 1 && v == u[1..] && Short(AfterAsk(n, 1, 1), 2, v))
    {
      hide Input.Valid, Input.Unread, ToBits, AfterAsk, Short;
      ghost var u := input.Unread();
      kind := 0;
      inside, fin := input.Receive(1);
      if !inside {
        return;
      }
      OneBit(u);
      inside, kind := input.Receive(2);
      if inside {
        assert u[1..][..2] == u[1..3] && u[1..][2..] == u[3..];
        TwoBits(u[1..3]);
      }
    }

    /** A block with the fixed code. */
    method ParseFixedBlock() returns (outcome: Outcome)
      requires input.Valid() && Ready()
      modifies this`out, input, lengths.Arrays(), distances.Arrays()
      ensures input.Valid()
      ensures BodyRead(FixedLengths(), FixedDistances(), old(out), old(input.Unread()), old(input.numBits), input.Unread(),
                input.numBits, outcome, out)
    {
      hide Input.Valid, Input.Unread, Tables.Represents, FixedLengths, FixedDistances, Kraft, LengthsOk, BodyRead;
      FixedIsComplete();
      var ok := lengths.Build(defaultLength[..]);
      ok := distances.Build(defaultDistance[..]);
      outcome := ParseHuffmanBlock(lengths, distances, FixedLengths(), FixedDistances());
    }

    /** The content of a block, by its type. */
    method ParseContent(kind: nat) returns (outcome: Outcome)
      requires input.Valid() && Ready() && kind < 4
      modifies this`out, input, lengths.Arrays(), distances.Arrays()
      ensures input.Valid()
      ensures ContentRead(old(out), kind, old(input.Unread()), old(input.numBits), input.Unread(), input.numBits, outcome, out)
    {
      hide Input.Valid, Input.Unread, Tables.Represents, FixedLengths, FixedDistances, Kraft, LengthsOk, ContentRead,
        BodyRead, StoredRead, HeaderRead;
      ghost var u, n, out0 := input.Unread(), input.numBits, out;
      if kind == 0 {
        ghost var data;
        outcome, data := ParseUncompressedBlock();
        StoredContent(out0, u, n, input.Unread(), outcome, data, out);
        HeldAfterFailure(out0, 0, u, n, input.Unread(), 0, input.numBits, outcome, out);
      } else if kind == 3 {
        outcome := Rejected;
        NoSuchType(out0, kind, u, n, input.Unread(), input.numBits, out);
      } else if kind == 1 {
        outcome := ParseFixedBlock();
        FixedContent(out0, u, n, input.Unread(), input.numBits, outcome, out);
      } else {
        ghost var L, D;
        outcome, L, D := ComputeHuffmanCodes();
        if outcome != Done {
          StuckHeader(out0, u, n, input.Unread(), input.numBits, outcome, L, D, out);
          return;
        }
        ghost var w, m := input.Unread(), input.numBits;
        outcome := ParseHuffmanBlock(lengths, distances, L, D);
        DynamicContent(out0, u, n, w, m, L, D, input.Unread(), input.numBits, outcome, out);
      }
    }

    /** One round of the loop of `_ssfn__parse_zlib`. */
    method ParseBlock() returns (outcome: Outcome, fin: nat)
      requires input.Valid() && Ready()
      modifies this`out, input, lengths.Arrays(), distances.Arrays()
      ensures input.Valid()
      ensures BlockRead(old(out), old(input.Unread()), old(input.numBits), input.Unread(), input.numBits, outcome, out)
      ensures outcome == Done ==> |old(input.Unread())| > 0 && fin == if old(input.Unread())[0] then 1 else 0
    {
      hide Input.Valid, Input.Unread, FixedLengths, FixedDistances, Number, BlockRead, ContentRead, AfterAsk, Short, TypeHeld;
      ghost var u, n, out0 := input.Unread(), input.numBits, out;
      var inside, kind;
      inside, fin, kind := ReadBlockType();
      if !inside {
        ShortOfBlock(out, u, n, input.Unread(), input.numBits, out);
        return Undefined, fin;
      }
      outcome := ParseContent(kind);
      TypedBlock(out0, u, n, input.Unread(), input.numBits, outcome, out);
    }

    /** `_ssfn__parse_zlib` */
    method ParseZlib() returns (outcome: Outcome)
      requires input.Valid() && Ready()
      modifies this`out, input, lengths.Arrays(), distances.Arrays()
      ensures input.Valid()
      ensures StreamRead(old(out), old(input.Unread()), old(input.numBits), input.Unread(), outcome, out)
    {
      hide Input.Valid, Input.Unread, Block, BlockRead, StreamRead, SameStream, Inflates, StreamCut, FixedLengths,
        FixedDistances;
      ghost var u0, n0, out0 := input.Unread(), input.numBits, out;
      SameStreamStart(out0, u0, n0);
      while true
        invariant input.Valid() && Ready()
        invariant SameStream(out0, u0, n0, out, input.Unread(), input.numBits)
        decreases |input.Unread()|
      {
        ghost var u, n, before := input.Unread(), input.numBits, out;
        var fin;
        outcome, fin := ParseBlock();
        ghost var v, n' := input.Unread(), input.numBits;
        if outcome != Done {
          StuckBlock(before, u, n, v, n', outcome, out);
          StreamReadFurther(out0, u0, n0, before, u, n, v, outcome, out);
          return;
        }
        if fin != 0 {
          FinalRead(before, u, n, v, n', out);
          StreamReadFurther(out0, u0, n0, before, u, n, v, outcome, out);
          return;
        }
        SameStreamStep(out0, u0, n0, before, u, n, v, n', out);
        BlockShrinks(before, u, n, v, n', out);
      }
    }
  }

  /** `_ssfn_zlib_decode`. The bits alone decide how it ends: it is undefined exactly if the reading
      is cut off somewhere; otherwise it gives the output of the stream if there is one, and rejects
      what holds none. */
  method ZlibDecode(bytes: seq<byte>) returns (outcome: Outcome, out: seq<byte>, ghost rest: seq<bool>)
    ensures outcome ==
              if IsCut([], BytesBits(bytes), 0) then Undefined
              else if HoldsStream([], BytesBits(bytes)) then Done
              else Rejected
    ensures outcome == Undefined ==> StreamCut([], BytesBits(bytes), 0, rest)
    ensures outcome == Done ==> Inflates([], BytesBits(bytes), rest, out) && LeavesRoom([], BytesBits(bytes), rest, out)
    ensures forall r, o :: Inflates([], BytesBits(bytes), r, o) && |r| > SLACK ==> outcome == Done && out == o
    ensures forall r, o :: Inflates([], BytesBits(bytes), r, o) && !LeavesRoom([], BytesBits(bytes), r, o) ==>
              outcome == Undefined
    ensures |bytes| <= 3 ==> outcome == Undefined
  {
    hide Inflates, StreamCut, LeavesRoom, IsCut, HoldsStream, Input.Valid, Input.Unread, BytesBits;
    var z := new Inflater(bytes);
    z.InitDefaults();
    assert z.input.numBits == 0;
    outcome := z.ParseZlib();
    out, rest := z.out, z.input.Unread();
    OutcomeDecided([], BytesBits(bytes), 0, rest, outcome, out);
    BytesBitsLength(bytes);
    if |bytes| <= 3 {
      ShortInput([], BytesBits(bytes));
    }
  }

  lemma TwoBits(b: seq<bool>)
    requires |b| == 2
    ensures Number(b) < 4
  {
    NumberBound(b);
    SmallPowers();
  }

  lemma OneBit(u: seq<bool>)
    requires |u| >= 1
    ensures Number(u[..1]) == if u[0] then 1 else 0
  {
    assert u[..1][1..] == [];
  }

  // ----- where a reader was cut off

  lemma CutAtFirst(L: seq<nat>, D: seq<nat>, u: seq<bool>, n: nat)
    requires Short(n, WINDOW, u)
    ensures ItemCut(L, D, u, n, u)
  {
    hide LengthCut, DistanceCut, StaleCut;
  }

  lemma ShortOfItem(L: seq<nat>, D: seq<nat>, out: seq<byte>, u: seq<bool>)
    requires |u| <= SLACK
    ensures forall y :: Next(L, D, out, u, y) ==> |u| - |ItemBits(L, D, y)| <= SLACK
  {
    hide ItemBits, Codable, InReach;
  }

  lemma OneSymbol(L: seq<nat>, D: seq<nat>, x: Item)
    requires !x.Copy? && Codes(L, Head(x))
    ensures Codable(L, D, x) && ItemBits(L, D, x) == SymbolBits(L, Head(x))
    ensures forall n :: ItemHeld(L, D, n, x) == AfterAsk(n, WINDOW, L[Head(x)])
  {
    hide AfterAsk, SymbolBits;
  }

  lemma AfterSymbol(L: seq<nat>, u: seq<bool>, l: LengthIndex, u1: seq<bool>)
    requires Codes(L, 257 + l) && u == SymbolBits(L, 257 + l) + u1
    ensures PastLength(L, u, l, false, u1)
    ensures LengthExtra(l) <= |u1| ==> PastLength(L, u, l, true, u1[LengthExtra(l)..])
  {
    hide SymbolBits, LengthExtra;
  }

  lemma PassedLength(L: seq<nat>, u: seq<bool>, n: nat, l: LengthIndex, v: seq<bool>, w: seq<bool>)
    requires !Short(n, WINDOW, u)
    requires PastLength(L, u, l, false, v) && !Short(LengthHeld(L, n, l, false), LengthExtra(l), v)
    requires PastLength(L, u, l, true, w) && !Short(LengthHeld(L, n, l, true), WINDOW, w)
    ensures LengthPassed(L, u, n, l, v, w)
  {
    hide Short, PastLength, LengthHeld, LengthExtra;
  }

  lemma CutPastLength(L: seq<nat>, D: seq<nat>, u: seq<bool>, n: nat, l: LengthIndex, extra: bool, v: seq<bool>)
    requires PastLength(L, u, l, extra, v)
    requires Short(LengthHeld(L, n, l, extra), if extra then WINDOW else LengthExtra(l), v)
    ensures ItemCut(L, D, u, n, v)
  {
    hide PastLength, DistanceCut, StaleCut, Short, LengthHeld, LengthExtra;
  }

  lemma CutPastDistance(
      L: seq<nat>, D: seq<nat>, u: seq<bool>, n: nat, l: LengthIndex, w: seq<bool>, d: DistanceIndex, v: seq<bool>)
    requires PastLength(L, u, l, true, w) && Codes(D, d) && w == SymbolBits(D, d) + v
    requires Short(DistanceHeld(L, D, n, l, d), DistanceExtra(d), v)
    ensures ItemCut(L, D, u, n, v)
  {
    hide PastLength, SymbolBits, LengthCut, StaleCut, Short, DistanceHeld, DistanceExtra;
    assert DistanceCut(L, D, u, n, v);
  }

  lemma CutAtStale(L: seq<nat>, D: seq<nat>, u: seq<bool>, n: nat, x: Item, v: seq<bool>)
    requires StaleCopy(L, D, x) && ItemBits(L, D, x) <= u && v == u[|ItemBits(L, D, x)|..]
    ensures ItemCut(L, D, u, n, v)
  {
    hide LengthCut, DistanceCut, ItemBits, Codable, Short;
    assert u == ItemBits(L, D, x) + v;
    assert StaleCut(L, D, u, v);
  }

  lemma FromZero(L: seq<nat>, D: seq<nat>, x: Item)
    requires x.Copy? && Codable(L, D, x) && x.Distance() == 0 && x.Length() > 0
    ensures StaleCopy(L, D, x)
  {
  }

  lemma FromBefore(L: seq<nat>, D: seq<nat>, x: Item)
    requires x.Copy? && !(x.Distance() == 0 && x.Length() > 0)
    ensures !StaleCopy(L, D, x)
  {
    hide Codable;
  }

  lemma CutAtRun(C: seq<nat>, m: nat, lens: seq<nat>, u: seq<bool>, n: nat)
    requires Short(n, WINDOW, u)
    ensures RunCut(C, u, n, u)
    ensures forall y :: NextRun(C, m, lens, u, y) ==> |u| - |RunBits(C, y)| <= SLACK
  {
    hide SymbolBits, RunBits, RunCodable;
  }

  lemma CutPastSymbol(C: seq<nat>, u: seq<bool>, n: nat, c: RunSymbol, v: seq<bool>)
    requires Codes(C, c) && u == SymbolBits(C, c) + v && Short(AfterAsk(n, WINDOW, C[c]), RunExtraBits(c), v)
    ensures RunCut(C, u, n, v) && |v| <= SLACK
  {
    hide SymbolBits, AfterAsk;
  }

  lemma ShortInSizes(u: seq<bool>, n: nat, i: nat)
    requires |u| >= 14 + 3 * i && i < SizeCount(u) && Short(SizesHeld(n, i), 3, u[14 + 3 * i..])
    ensures HeaderShort(u, n, 14 + 3 * i)
  {
    hide Short, SizesHeld, AfterAsk, SizeCount;
  }

  lemma PassedSize(u: seq<bool>, n: nat, i: nat)
    requires |u| >= 14 + 3 * i && HeaderPassed(u, n, 14 + 3 * i) && !Short(SizesHeld(n, i), 3, u[14 + 3 * i..])
    ensures HeaderPassed(u, n, 14 + 3 * (i + 1))
  {
    hide Short, SizesHeld, AfterAsk, SizeCount;
    forall j: nat | 14 + 3 * i <= j < 14 + 3 * (i + 1) ensures !HeaderShort(u, n, j) {
    }
  }

  lemma CutInStoredHeader(u: seq<bool>)
    requires |u[|u| % 8..]| < 32
    ensures StoredCut(u, [])
  {
  }

  lemma StoredDecides(u: seq<bool>, len: nat, nlen: nat, w: seq<bool>)
    requires StoredHeader(u, len, nlen, w) && len < 0x1_0000 && nlen < 0x1_0000
    ensures if nlen == 0xFFFF - len && |w| < 8 * len then StoredCut(u, w) else forall v :: !StoredCut(u, v)
  {
    hide StoredCut, StoredHeader;
    forall v ensures StoredCut(u, v) <==> nlen == 0xFFFF - len && |w| < 8 * len && v == w {
      StoredCutDecides(u, len, nlen, w, v);
    }
  }

  /** What is buffered after a reader that failed does not matter. */
  lemma HeldAfterFailure(
      out: seq<byte>, kind: nat, u: seq<bool>, n: nat, v: seq<bool>, n': nat, n'': nat, outcome: Outcome, o: seq<byte>)
    requires ContentRead(out, kind, u, n, v, n', outcome, o) && (outcome == Done ==> n'' == n')
    ensures ContentRead(out, kind, u, n, v, n'', outcome, o)
  {
    hide Content, ContentCut, ContentHeld;
  }

  lemma SameBodyStart(L: seq<nat>, D: seq<nat>, out: seq<byte>, u: seq<bool>, n: nat)
    ensures SameBody(L, D, out, u, n, out, u, n)
  {
  }

  lemma SameLengthsStart(C: seq<nat>, m: nat, lens: seq<nat>, u: seq<bool>, n: nat)
    ensures SameLengths(C, m, lens, u, n, lens, u, n)
  {
  }

  lemma SameStreamStart(out: seq<byte>, u: seq<bool>, n: nat)
    ensures SameStream(out, u, n, out, u, n)
  {
  }

  lemma BlockShrinks(out: seq<byte>, u: seq<bool>, n: nat, v: seq<bool>, n': nat, o: seq<byte>)
    requires BlockRead(out, u, n, v, n', Done, o)
    ensures |v| < |u|
  {
    hide Block, BlockCut, BlockHeld;
    BlockRest(out, u, v, o);
  }

  lemma LowThreeBits(n: nat)
    ensures And(n, 7) == n % 8
  {
    SmallPowers();
    AndLowMask(n, 3);
  }

  lemma NoBytes(u: seq<bool>)
    ensures BytesBits([]) + u == u
  {
  }

  lemma OneMoreByte(h: seq<byte>, b: byte, v: seq<bool>)
    ensures BytesBits(h) + (ToBits(b, 8) + v) == BytesBits(h + [b]) + v
  {
    hide ToBits, BytesBits;
    BytesBitsJoin(h, [b]);
    OneByte(b);
  }

  lemma PartsAreShort(o: seq<nat>, n: nat)
    requires LengthsOk(o) && n <= |o|
    ensures LengthsOk(o[..n]) && LengthsOk(o[n..])
  {
  }

  lemma NoMoreLengths(C: seq<nat>, m: nat, lens: seq<nat>, u: seq<bool>, n: nat)
    requires |lens| >= m
    ensures LengthsRead(C, m, lens, u, n, u, n, Done, lens)
  {
  }
}
