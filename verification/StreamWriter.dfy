/** Writing whole DEFLATE streams, of blocks of any kinds, and the proof that the streams that inflate
    are exactly those written so. */
module StreamWriter {
  import opened BitStream
  import opened Deflate
  import opened DeflateStream
  import opened DynamicCodes

  /** What one block holds. The bits before a stored block that fill up the byte can be any. */
  datatype Chunk =
    | StoredChunk(pad: seq<bool>, data: seq<byte>)
    | FixedChunk(items: seq<Item>)
    | DynamicChunk(C: seq<nat>, m: nat, ops: seq<Op>, L: seq<nat>, D: seq<nat>, items: seq<Item>)

  /** The block can be written behind this output. */
  ghost predicate ChunkOk(out: seq<byte>, c: Chunk) {
    match c
    case StoredChunk(pad, data) => |pad| < 8 && |data| < 0x1_0000
    case FixedChunk(items) => Writable(FixedLengths(), FixedDistances(), out, items)
    case DynamicChunk(C, m, ops, L, D, items) => HeaderOk(C, m, ops, L, D) && Writable(L, D, out, items)
  }

  /** The length, its complement, and the bytes. */
  function StoredBits(data: seq<byte>): seq<bool>
    requires |data| < 0x1_0000
  {
    ToBits(|data|, 16) + ToBits(0xFFFF - |data|, 16) + BytesBits(data)
  }

  /** The two bits for the kind, and what follows them. */
  ghost function ChunkBits(out: seq<byte>, c: Chunk): seq<bool>
    requires ChunkOk(out, c)
  {
    match c
    case StoredChunk(pad, data) =>
      [false, false] + (pad + StoredBits(data))
    case FixedChunk(items) => [true, false] + BlockBits(FixedLengths(), FixedDistances(), out, items)
    case DynamicChunk(C, m, ops, L, D, items) =>
      [false, true] + (HeaderBits(C, m, ops, L, D) + BlockBits(L, D, out, items))
  }

  ghost function ChunkOutput(out: seq<byte>, c: Chunk): seq<byte>
    requires ChunkOk(out, c)
  {
    match c
    case StoredChunk(_, data) => out + data
    case FixedChunk(items) => Expanded(FixedLengths(), FixedDistances(), out, items)
    case DynamicChunk(_, _, _, L, D, items) => Expanded(L, D, out, items)
  }

  /** The bits u are those of the block, and r. A stored block ends whole bytes before the end. */
  ghost predicate WrittenChunk(out: seq<byte>, c: Chunk, u: seq<bool>, r: seq<bool>) {
    ChunkOk(out, c) && u == ChunkBits(out, c) + r && (c.StoredChunk? ==> |r| % 8 == 0)
  }

  /** The bits u are those of the blocks one after another, each behind a bit that is set for the last
      one, and r; together the blocks turn the output into o. */
  ghost predicate Written(out: seq<byte>, chunks: seq<Chunk>, u: seq<bool>, r: seq<bool>, o: seq<byte>)
    decreases |chunks|
  {
    && chunks != [] && ChunkOk(out, chunks[0])
    && exists v ::
         && u != [] && u[0] == (|chunks| == 1) && WrittenChunk(out, chunks[0], u[1..], v)
         && var p := ChunkOutput(out, chunks[0]);
            if |chunks| == 1 then v == r && p == o else Written(p, chunks[1..], v, r, o)
  }

  // ----- one block

  lemma Kinds()
    ensures Number([false, false]) == 0 && Number([true, false]) == 1 && Number([false, true]) == 2
  {
    TypeOne();
    TypeTwo();
    assert [false, false][1..] == [false];
    assert [false][1..] == [];
  }

  lemma TypeTwo()
    ensures Number([false, true]) == 2
  {
    assert [false, true][1..] == [true];
    assert [true][1..] == [];
  }

  lemma BehindKind(fin: bool, kind: seq<bool>, w: seq<bool>, r: seq<bool>)
    requires |kind| == 2
    ensures var u := [fin] + (kind + w + r); |u| >= 3 && u[1..3] == kind && u[3..] == w + r
  {
  }

  lemma StoredIs(u: seq<bool>, data: seq<byte>, r: seq<bool>)
    requires |data| < 0x1_0000
    ensures |StoredBits(data)| == 8 * (4 + |data|)
    ensures Stored(u, data, r) <==> u[|u| % 8..] == StoredBits(data) + r
  {
    hide ToBits, BytesBits;
    BytesBitsLength(data);
  }

  lemma StoredIsBlock(out: seq<byte>, pad: seq<bool>, data: seq<byte>, fin: bool, r: seq<bool>)
    requires var c := StoredChunk(pad, data); ChunkOk(out, c) && |r| % 8 == 0
    ensures Block(out, [fin] + (ChunkBits(out, StoredChunk(pad, data)) + r), r, out + data)
  {
    hide StoredBits, Number, Body, Header, FixedLengths, FixedDistances, Stored;
    Kinds();
    BehindKind(fin, [false, false], pad + StoredBits(data), r);
    var v := pad + StoredBits(data) + r;
    StoredIs(v, data, r);
    PadLength(|pad|, 4 + |data|, |r|);
    assert v[|pad|..] == StoredBits(data) + r;
  }

  lemma PadLength(p: nat, k: nat, n: nat)
    requires p < 8 && n % 8 == 0
    ensures (p + 8 * k + n) % 8 == p
  {
  }

  lemma FixedIsBlock(out: seq<byte>, items: seq<Item>, fin: bool, r: seq<bool>)
    requires ChunkOk(out, FixedChunk(items))
    ensures Block(out, [fin] + (ChunkBits(out, FixedChunk(items)) + r), r, ChunkOutput(out, FixedChunk(items)))
  {
    hide BlockBits, Number, Body, Header, FixedLengths, FixedDistances, Writable, Expanded;
    Kinds();
    BehindKind(fin, [true, false], BlockBits(FixedLengths(), FixedDistances(), out, items), r);
    WrittenBlock(FixedLengths(), FixedDistances(), out, items, r);
  }

  lemma DynamicIsBlock(out: seq<byte>, c: Chunk, fin: bool, r: seq<bool>)
    requires c.DynamicChunk? && ChunkOk(out, c)
    ensures Block(out, [fin] + (ChunkBits(out, c) + r), r, ChunkOutput(out, c))
  {
    hide BlockBits, Number, Body, Header, FixedLengths, FixedDistances, Writable, Expanded, HeaderBits, HeaderOk;
    Kinds();
    var h, b := HeaderBits(c.C, c.m, c.ops, c.L, c.D), BlockBits(c.L, c.D, out, c.items);
    BehindKind(fin, [false, true], h + b, r);
    assert h + b + r == h + (b + r);
    HeaderRoundTrip(c.C, c.m, c.ops, c.L, c.D, b + r);
    WrittenBlock(c.L, c.D, out, c.items, r);
  }

  /** A block that was written is read back. */
  lemma ChunkRead(out: seq<byte>, c: Chunk, u: seq<bool>, r: seq<bool>)
    requires u != [] && WrittenChunk(out, c, u[1..], r)
    ensures Block(out, u, r, ChunkOutput(out, c))
  {
    hide ChunkOk, ChunkBits, Block;
    assert u == [u[0]] + (ChunkBits(out, c) + r);
    match c
    case StoredChunk(pad, data) =>
      StoredIsBlock(out, pad, data, u[0], r);
    case FixedChunk(items) =>
      FixedIsBlock(out, items, u[0], r);
    case DynamicChunk(_, _, _, _, _, _) =>
      DynamicIsBlock(out, c, u[0], r);
  }

  lemma StoredWasWritten(out: seq<byte>, kind: seq<bool>, w: seq<bool>, data: seq<byte>, r: seq<bool>) returns (c: Chunk)
    requires kind == [false, false] && Stored(w, data, r)
    ensures WrittenChunk(out, c, kind + w, r) && ChunkOutput(out, c) == out + data
  {
    hide StoredBits, Stored;
    c := StoredChunk(w[..|w| % 8], data);
    assert |data| < 0x1_0000 by { StoredFits(w, data, r); }
    StoredIs(w, data, r);
    BehindPad(kind, w, |w| % 8, StoredBits(data), r);
    RestLength(|w|, 4 + |data|, |r|);
  }

  lemma StoredFits(w: seq<bool>, data: seq<byte>, r: seq<bool>)
    requires Stored(w, data, r)
    ensures |data| < 0x1_0000
  {
  }

  lemma BehindPad(kind: seq<bool>, w: seq<bool>, k: nat, b: seq<bool>, r: seq<bool>)
    requires k <= |w| && w[k..] == b + r
    ensures kind + w == kind + (w[..k] + b) + r
  {
    assert w == w[..k] + w[k..];
  }

  lemma RestLength(n: nat, k: nat, r: nat)
    requires n - n % 8 == 8 * k + r
    ensures r % 8 == 0
  {
  }

  lemma TwoBits(kind: seq<bool>)
    requires |kind| == 2
    ensures kind == ToBits(Number(kind), 2)
  {
    BitsOfNumber(kind);
  }

  lemma KindOf(kind: seq<bool>)
    requires |kind| == 2
    ensures Number(kind) == 0 ==> kind == [false, false]
    ensures Number(kind) == 1 ==> kind == [true, false]
    ensures Number(kind) == 2 ==> kind == [false, true]
  {
    hide Number, ToBits;
    Kinds();
    TwoBits(kind);
    TwoBits([false, false]);
    TwoBits([true, false]);
    TwoBits([false, true]);
  }

  /** Conversely, every block was written so. */
  lemma ChunkWasWritten(out: seq<byte>, u: seq<bool>, r: seq<bool>, o: seq<byte>) returns (c: Chunk)
    requires Block(out, u, r, o)
    ensures u != [] && ChunkOk(out, c) && WrittenChunk(out, c, u[1..], r) && ChunkOutput(out, c) == o
  {
    hide Number, Stored, Body, Header, BlockBits, FixedLengths, FixedDistances, Writable, Expanded, HeaderBits, HeaderOk;
    var kind, w := u[1..3], u[3..];
    assert u[1..] == kind + w;
    KindOf(kind);
    if Number(kind) == 0 {
      var data :| Stored(w, data, r) && o == out + data;
      c := StoredWasWritten(out, kind, w, data, r);
    } else if Number(kind) == 1 {
      var items := BlockWasWritten(FixedLengths(), FixedDistances(), out, w, r, o);
      c := FixedChunk(items);
      assert kind + w == [true, false] + BlockBits(FixedLengths(), FixedDistances(), out, items) + r;
    } else {
      var v, L, D :| Header(w, v, L, D) && Body(L, D, out, v, r, o);
      var C, m, ops := HeaderWasWritten(w, v, L, D);
      var items := BlockWasWritten(L, D, out, v, r, o);
      c := DynamicChunk(C, m, ops, L, D, items);
      assert kind + w == [false, true] + (HeaderBits(C, m, ops, L, D) + BlockBits(L, D, out, items)) + r;
    }
  }

  // ----- streams

  /** A stream that was written inflates to what its blocks hold. */
  lemma {:induction false} StreamRead(out: seq<byte>, chunks: seq<Chunk>, u: seq<bool>, r: seq<bool>, o: seq<byte>)
    requires Written(out, chunks, u, r, o)
    ensures Inflates(out, u, r, o)
    decreases |chunks|
  {
    hide ChunkOk, WrittenChunk, Block, ChunkOutput;
    var p := ChunkOutput(out, chunks[0]);
    var v :|
      && u != [] && u[0] == (|chunks| == 1) && WrittenChunk(out, chunks[0], u[1..], v)
      && if |chunks| == 1 then v == r && p == o else Written(p, chunks[1..], v, r, o);
    ChunkRead(out, chunks[0], u, v);
    BlockRest(out, u, v, p);
    if |chunks| > 1 {
      StreamRead(p, chunks[1..], v, r, o);
    }
  }

  /** Conversely, every stream that inflates was written from some blocks. */
  lemma {:induction false} StreamWasWritten(out: seq<byte>, u: seq<bool>, r: seq<bool>, o: seq<byte>)
    returns (chunks: seq<Chunk>)
    requires Inflates(out, u, r, o)
    ensures Written(out, chunks, u, r, o)
    decreases |u|
  {
    hide ChunkOk, Block, ChunkOutput, WrittenChunk;
    var v, p :| Block(out, u, v, p) && |v| < |u| && (if u[0] then r == v && o == p else Inflates(p, v, r, o));
    var c := ChunkWasWritten(out, u, v, p);
    if u[0] {
      chunks := [c];
    } else {
      var more := StreamWasWritten(p, v, r, o);
      chunks := [c] + more;
      assert chunks[1..] == more;
    }
  }

  /** The streams that inflate are exactly those that can be written. */
  lemma StreamsAreWritten(out: seq<byte>, u: seq<bool>, r: seq<bool>, o: seq<byte>)
    ensures Inflates(out, u, r, o) <==> exists chunks :: Written(out, chunks, u, r, o)
  {
    hide Inflates, Written;
    if Inflates(out, u, r, o) {
      var chunks := StreamWasWritten(out, u, r, o);
    }
    if chunks :| Written(out, chunks, u, r, o) {
      StreamRead(out, chunks, u, r, o);
    }
  }
}
