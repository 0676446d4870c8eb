/** Canonical codes as they stand in a bit sequence: which one starts it, and that no two do. */
module PrefixCodes {
  import opened Bits
  import opened BitStream
  import opened HuffmanCodes

  /** The symbol has a code. */
  predicate Codes(lens: seq<nat>, i: int) {
    0 <= i < |lens| && 0 < lens[i] <= MAX_LENGTH
  }

  /** The code of a symbol as it stands in the stream. */
  function SymbolBits(lens: seq<nat>, i: nat): (b: seq<bool>)
    requires Codes(lens, i)
    ensures |b| == lens[i]
  {
    CodeBits(Code(lens, i), lens[i])
  }

  /** No code is a prefix of u. */
  ghost predicate NoCodeStarts(lens: seq<nat>, u: seq<bool>) {
    forall i: nat :: Codes(lens, i) ==> !(SymbolBits(lens, i) <= u)
  }

  /** A code is a prefix of u exactly if it is a prefix of the 16-bit window. */
  lemma StartsMeansMatches(lens: seq<nat>, i: nat, u: seq<bool>)
    requires LengthsOk(lens) && Kraft(lens) && Codes(lens, i) && |u| >= WINDOW
    ensures SymbolBits(lens, i) <= u <==> Matches(lens, i, CodeNumber(u[..WINDOW]))
  {
    hide Kraft, LengthsOk, Code, CodeBits, CodeNumber, Pow2;
    var w := u[..WINDOW];
    CodeFits(lens, i);
    CodeNumberPrefix(w, lens[i]);
    StartsWithCode(w, Code(lens, i), lens[i]);
    assert SymbolBits(lens, i) <= u <==> SymbolBits(lens, i) <= w;
  }

  lemma MatchIsPrefix(lens: seq<nat>, i: nat, u: seq<bool>)
    requires LengthsOk(lens) && Kraft(lens) && i < |lens| && |u| >= WINDOW
    requires Matches(lens, i, CodeNumber(u[..WINDOW])) && lens[i] > 0
    ensures Codes(lens, i) && u == SymbolBits(lens, i) + u[lens[i]..]
  {
    hide Kraft, Matches, CodeNumber, SymbolBits;
    StartsMeansMatches(lens, i, u);
  }

  /** A window at or above the limit of the longest codes starts with none. */
  lemma NoneStarts(lens: seq<nat>, u: seq<bool>)
    requires LengthsOk(lens) && Kraft(lens) && |u| >= WINDOW
    requires Limit(lens, MAX_LENGTH) <= CodeNumber(u[..WINDOW])
    ensures NoCodeStarts(lens, u)
  {
    hide Kraft, LengthsOk, Matches, CodeNumber, SymbolBits, Limit;
    forall i: nat | Codes(lens, i) ensures !(SymbolBits(lens, i) <= u) {
      StartsMeansMatches(lens, i, u);
      Tiling(lens, CodeNumber(u[..WINDOW]));
    }
  }

  /** At most one code is a prefix of a bit sequence, however short. */
  lemma CodeIsUnique(lens: seq<nat>, i: nat, j: nat, u: seq<bool>)
    requires LengthsOk(lens) && Kraft(lens) && Codes(lens, i) && Codes(lens, j)
    requires SymbolBits(lens, i) <= u && SymbolBits(lens, j) <= u
    ensures i == j
  {
    hide Kraft, LengthsOk, Matches, CodeNumber, SymbolBits;
    var w := u + seq(WINDOW, k => false);
    StartsMeansMatches(lens, i, w);
    StartsMeansMatches(lens, j, w);
    MatchIsUnique(lens, i, j, CodeNumber(w[..WINDOW]));
  }
}
