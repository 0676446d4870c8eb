/** Canonical Huffman codes as section 3.2.2 of RFC 1951 defines them from code lengths: what
    the codes are, when they exist, and that they are prefix-free. */
module HuffmanCodes {
  import opened Bits

  /** No code is longer than 15 bits. */
  const MAX_LENGTH := 15
  /** Codes are compared as the leading bits of a 16-bit window. */
  const WINDOW := 16
  const WINDOW_LIMIT := 0x1_0000

  ghost predicate LengthsOk(lens: seq<nat>) {
    forall i :: 0 <= i < |lens| ==> lens[i] <= MAX_LENGTH
  }

  // ----- section 3.2.2, steps 1 to 3

  /** How many symbols have codes of length s; length 0 means no code. */
  function Count(lens: seq<nat>, s: nat): (n: nat)
    ensures n <= |lens|
  {
    if lens == [] then 0
    else Count(lens[..|lens| - 1], s) + (if s > 0 && lens[|lens| - 1] == s then 1 else 0)
  }

  /** The first code of length s. */
  function FirstCode(lens: seq<nat>, s: nat): nat {
    if s == 0 then 0 else 2 * (FirstCode(lens, s - 1) + Count(lens, s - 1))
  }

  /** Codes of one length are consecutive, in the order of their symbols. */
  function Code(lens: seq<nat>, i: nat): nat
    requires i < |lens|
  {
    FirstCode(lens, lens[i]) + Count(lens[..i], lens[i])
  }

  // ----- codes as intervals of the 16-bit window

  /** The end of the windows that start with a code of length at most s. */
  function Limit(lens: seq<nat>, s: nat): nat
    requires s <= WINDOW
  {
    Shl(FirstCode(lens, s) + Count(lens, s), WINDOW - s)
  }

  /** The window starts with the code of symbol i. */
  predicate Matches(lens: seq<nat>, i: nat, window: nat)
    requires i < |lens| && lens[i] <= WINDOW
  {
    lens[i] > 0 && Shr(window, WINDOW - lens[i]) == Code(lens, i)
  }

  /** The Kraft sum of the lengths, in units of 2^-16. */
  function KraftSum(lens: seq<nat>, s: nat): nat
    requires s <= WINDOW
  {
    if lens == [] then 0
    else
      var l := lens[|lens| - 1];
      KraftSum(lens[..|lens| - 1], s) + (if 0 < l <= s then Shl(1, WINDOW - l) else 0)
  }

  // ----- shifting

  lemma {:induction false} ShlAdd(a: nat, b: nat, k: nat)
    ensures Shl(a + b, k) == Shl(a, k) + Shl(b, k)
  {
    if k > 0 {
      ShlAdd(a, b, k - 1);
    }
  }

  lemma {:induction false} ShlDouble(a: nat, k: nat)
    ensures Shl(2 * a, k) == Shl(a, k + 1)
  {
    ShlAdd(a, a, k);
  }

  lemma {:induction false} ShlMonotone(a: nat, b: nat, k: nat)
    ensures a <= b <==> Shl(a, k) <= Shl(b, k)
  {
    if k > 0 {
      ShlMonotone(a, b, k - 1);
    }
  }

  /** The leading bits of w are c exactly when w lies in the interval of c. */
  lemma {:induction false} ShrInterval(w: nat, k: nat, c: nat)
    ensures Shr(w, k) == c <==> Shl(c, k) <= w < Shl(c + 1, k)
  {
    if k > 0 {
      ShrInterval(w / 2, k - 1, c);
    }
  }

  // ----- the intervals of the lengths follow one another

  /** The codes of length s start where those of length s - 1 end. */
  lemma StartIsLimit(lens: seq<nat>, s: nat)
    requires 1 <= s <= WINDOW
    ensures Shl(FirstCode(lens, s), WINDOW - s) == Limit(lens, s - 1)
    ensures Limit(lens, s) == Limit(lens, s - 1) + Shl(Count(lens, s), WINDOW - s)
  {
    ShlDouble(FirstCode(lens, s - 1) + Count(lens, s - 1), WINDOW - s);
    ShlAdd(FirstCode(lens, s), Count(lens, s), WINDOW - s);
  }

  lemma {:induction false} LimitGrows(lens: seq<nat>, s: nat, t: nat)
    requires s <= t <= WINDOW
    ensures Limit(lens, s) <= Limit(lens, t)
    decreases t
  {
    if s < t {
      LimitGrows(lens, s, t - 1);
      StartIsLimit(lens, t);
    }
  }

  lemma {:induction false} CountOfPrefix(lens: seq<nat>, i: nat, s: nat)
    requires i <= |lens|
    ensures Count(lens[..i], s) <= Count(lens, s)
    ensures i < |lens| && s > 0 && lens[i] == s ==> Count(lens[..i], s) < Count(lens, s)
    decreases |lens|
  {
    if i < |lens| {
      var shorter := lens[..|lens| - 1];
      assert shorter[..i] == lens[..i];
      CountOfPrefix(shorter, i, s);
    } else {
      assert lens[..i] == lens;
    }
  }

  /** The interval of a symbol lies between the limits of its length. */
  lemma IntervalInside(lens: seq<nat>, i: nat)
    requires LengthsOk(lens) && i < |lens| && lens[i] > 0
    ensures Limit(lens, lens[i] - 1) <= Shl(Code(lens, i), WINDOW - lens[i])
    ensures Shl(Code(lens, i) + 1, WINDOW - lens[i]) <= Limit(lens, lens[i])
  {
    var s := lens[i];
    StartIsLimit(lens, s);
    CountOfPrefix(lens, i, s);
    ShlMonotone(FirstCode(lens, s), Code(lens, i), WINDOW - s);
    ShlMonotone(Code(lens, i) + 1, FirstCode(lens, s) + Count(lens, s), WINDOW - s);
  }

  lemma {:induction false} CodesDiffer(lens: seq<nat>, i: nat, j: nat)
    requires i < j < |lens| && lens[i] == lens[j] > 0
    ensures Code(lens, i) < Code(lens, j)
  {
    assert lens[..j][..i] == lens[..i];
    CountOfPrefix(lens[..j], i, lens[i]);
  }

  /** Prefix-freeness: a window starts with the code of at most one symbol. */
  lemma MatchIsUnique(lens: seq<nat>, i: nat, j: nat, window: nat)
    requires LengthsOk(lens) && i < |lens| && j < |lens|
    requires Matches(lens, i, window) && Matches(lens, j, window)
    ensures i == j
  {
    hide Code, Limit, Shl, Shr;
    if lens[i] == lens[j] {
      if i < j {
        CodesDiffer(lens, i, j);
      } else if j < i {
        CodesDiffer(lens, j, i);
      }
    } else {
      var a, b := if lens[i] < lens[j] then i else j, if lens[i] < lens[j] then j else i;
      ShrInterval(window, WINDOW - lens[a], Code(lens, a));
      ShrInterval(window, WINDOW - lens[b], Code(lens, b));
      IntervalInside(lens, a);
      IntervalInside(lens, b);
      LimitGrows(lens, lens[a], lens[b] - 1);
    }
  }

  // ----- every window below the limit starts with a code

  /** The symbol with the r-th code of length s. */
  lemma {:induction false} NthSymbol(lens: seq<nat>, s: nat, r: nat) returns (i: nat)
    requires s > 0 && r < Count(lens, s)
    ensures i < |lens| && lens[i] == s && Count(lens[..i], s) == r
  {
    var n := |lens| - 1;
    if r < Count(lens[..n], s) {
      i := NthSymbol(lens[..n], s, r);
      assert lens[..n][..i] == lens[..i];
    } else {
      i := n;
    }
  }

  /** Where a window between the limits of length s - 1 and s decodes to. */
  lemma MatchAtLength(lens: seq<nat>, s: nat, window: nat) returns (i: nat)
    requires LengthsOk(lens) && 1 <= s <= MAX_LENGTH
    requires Limit(lens, s - 1) <= window < Limit(lens, s)
    ensures i < |lens| && lens[i] == s && Matches(lens, i, window)
    ensures Shr(window, WINDOW - s) >= FirstCode(lens, s)
    ensures Count(lens[..i], s) == Shr(window, WINDOW - s) - FirstCode(lens, s)
  {
    hide Shl, Shr, Count, Limit;
    var c := Shr(window, WINDOW - s);
    ShrInterval(window, WINDOW - s, c);
    StartIsLimit(lens, s);
    ShlMonotone(c + 1, FirstCode(lens, s), WINDOW - s);
    LimitShape(lens, s);
    ShlMonotone(FirstCode(lens, s) + Count(lens, s), c, WINDOW - s);
    i := NthSymbol(lens, s, c - FirstCode(lens, s));
  }

  lemma LimitShape(lens: seq<nat>, s: nat)
    requires s <= WINDOW
    ensures Limit(lens, s) == Shl(FirstCode(lens, s) + Count(lens, s), WINDOW - s)
  {
  }

  lemma {:induction false} LengthOfWindow(lens: seq<nat>, s: nat, window: nat) returns (t: nat)
    requires s <= MAX_LENGTH && window < Limit(lens, s)
    ensures 1 <= t <= s && Limit(lens, t - 1) <= window < Limit(lens, t)
    decreases s
  {
    hide Limit;
    if s == 0 {
      NoCodeOfNoLength(lens);
      assert false;
    } else if window < Limit(lens, s - 1) {
      t := LengthOfWindow(lens, s - 1, window);
    } else {
      t := s;
    }
  }

  lemma NoCodeOfNoLength(lens: seq<nat>)
    ensures Limit(lens, 0) == 0
  {
    CountZero(lens);
    ShlIsMul(0, WINDOW);
  }

  lemma {:induction false} CountZero(lens: seq<nat>)
    ensures Count(lens, 0) == 0
  {
    if lens != [] {
      CountZero(lens[..|lens| - 1]);
    }
  }

  /** The intervals tile [0, Limit(15)): a window starts with a code exactly if it is below the
      limit of the longest codes. */
  lemma Tiling(lens: seq<nat>, window: nat)
    requires LengthsOk(lens)
    ensures window < Limit(lens, MAX_LENGTH) <==> exists i: nat :: i < |lens| && Matches(lens, i, window)
  {
    hide Limit, Matches;
    if window < Limit(lens, MAX_LENGTH) {
      var s := LengthOfWindow(lens, MAX_LENGTH, window);
      var i := MatchAtLength(lens, s, window);
    }
    if i: nat :| i < |lens| && Matches(lens, i, window) {
      MatchIsBelow(lens, i, window);
    }
  }

  lemma MatchIsBelow(lens: seq<nat>, i: nat, window: nat)
    requires LengthsOk(lens) && i < |lens| && Matches(lens, i, window)
    ensures Limit(lens, lens[i] - 1) <= window < Limit(lens, lens[i])
    ensures window < Limit(lens, MAX_LENGTH)
  {
    hide Limit, Code, Shl, Shr;
    ShrInterval(window, WINDOW - lens[i], Code(lens, i));
    IntervalInside(lens, i);
    LimitGrows(lens, lens[i], MAX_LENGTH);
  }

  // ----- the Kraft inequality

  lemma {:induction false} KraftStep(lens: seq<nat>, s: nat)
    requires 1 <= s <= WINDOW
    ensures KraftSum(lens, s) == KraftSum(lens, s - 1) + Shl(Count(lens, s), WINDOW - s)
  {
    if lens == [] {
      ShlIsMul(0, WINDOW - s);
    } else {
      KraftStep(lens[..|lens| - 1], s);
      ShlAdd(Count(lens[..|lens| - 1], s), 1, WINDOW - s);
    }
  }

  lemma {:induction false} KraftNone(lens: seq<nat>)
    ensures KraftSum(lens, 0) == 0
  {
    if lens != [] {
      KraftNone(lens[..|lens| - 1]);
    }
  }

  /** The limit of the codes is the Kraft sum of their lengths. */
  lemma {:induction false} LimitIsKraftSum(lens: seq<nat>, s: nat)
    requires s <= WINDOW
    ensures Limit(lens, s) == KraftSum(lens, s)
  {
    hide Limit, Count;
    if s == 0 {
      KraftNone(lens);
      NoCodeOfNoLength(lens);
    } else {
      LimitIsKraftSum(lens, s - 1);
      KraftStep(lens, s);
      StartIsLimit(lens, s);
    }
  }

  /** The lengths satisfy the Kraft inequality: the sum of 2^-length is at most 1. */
  predicate Kraft(lens: seq<nat>) {
    KraftSum(lens, MAX_LENGTH) <= WINDOW_LIMIT
  }

  // ----- symbols sorted by code

  /** How many symbols have codes shorter than s. */
  function FirstSymbol(lens: seq<nat>, s: nat): nat {
    if s == 0 then 0 else FirstSymbol(lens, s - 1) + Count(lens, s - 1)
  }

  /** The place of a symbol among all symbols sorted by length, then by value. */
  function SymbolPlace(lens: seq<nat>, i: nat): nat
    requires i < |lens|
  {
    FirstSymbol(lens, lens[i]) + Count(lens[..i], lens[i])
  }

  lemma {:induction false} FirstSymbolGrows(lens: seq<nat>, s: nat, t: nat)
    requires s <= t
    ensures FirstSymbol(lens, s) <= FirstSymbol(lens, t)
    ensures s < t ==> FirstSymbol(lens, s) + Count(lens, s) <= FirstSymbol(lens, t)
    decreases t
  {
    if s < t {
      FirstSymbolGrows(lens, s, t - 1);
    }
  }

  lemma {:induction false} FirstSymbolStep(lens: seq<nat>, s: nat)
    requires lens != []
    ensures FirstSymbol(lens, s) ==
              FirstSymbol(lens[..|lens| - 1], s) + (if 0 < lens[|lens| - 1] < s then 1 else 0)
  {
    if s > 0 {
      FirstSymbolStep(lens, s - 1);
    }
  }

  lemma {:induction false} SymbolsFit(lens: seq<nat>, s: nat)
    ensures FirstSymbol(lens, s) <= |lens|
  {
    if lens == [] {
      NoSymbols(s);
    } else {
      SymbolsFit(lens[..|lens| - 1], s);
      FirstSymbolStep(lens, s);
    }
  }

  lemma {:induction false} NoSymbols(s: nat)
    ensures FirstSymbol([], s) == 0
  {
    if s > 0 {
      NoSymbols(s - 1);
    }
  }

  /** Different symbols have different places, all below the number of symbols. */
  lemma PlacesDiffer(lens: seq<nat>, i: nat, j: nat)
    requires i < |lens| && j < |lens| && lens[i] > 0 && lens[j] > 0 && i != j
    ensures SymbolPlace(lens, i) != SymbolPlace(lens, j)
    ensures SymbolPlace(lens, i) < |lens|
  {
    hide FirstSymbol, Count;
    CountOfPrefix(lens, i, lens[i]);
    CountOfPrefix(lens, j, lens[j]);
    PlaceFits(lens, i);
    if lens[i] < lens[j] {
      FirstSymbolGrows(lens, lens[i], lens[j]);
    } else if lens[j] < lens[i] {
      FirstSymbolGrows(lens, lens[j], lens[i]);
    } else if i < j {
      assert lens[..j][..i] == lens[..i];
      CountOfPrefix(lens[..j], i, lens[i]);
    } else {
      assert lens[..i][..j] == lens[..j];
      CountOfPrefix(lens[..i], j, lens[j]);
    }
  }

  lemma PlaceFits(lens: seq<nat>, i: nat)
    requires i < |lens| && lens[i] > 0
    ensures SymbolPlace(lens, i) < |lens|
  {
    hide Count;
    CountOfPrefix(lens, i, lens[i]);
    SymbolsFit(lens, lens[i] + 1);
  }

  /** Under the Kraft inequality a code of length s has s bits. */
  lemma CodeFits(lens: seq<nat>, i: nat)
    requires LengthsOk(lens) && Kraft(lens) && i < |lens| && lens[i] > 0
    ensures Code(lens, i) < Pow2(lens[i])
  {
    hide Limit, Code, KraftSum;
    var s := lens[i];
    IntervalInside(lens, i);
    LimitGrows(lens, s, MAX_LENGTH);
    LimitIsKraftSum(lens, MAX_LENGTH);
    WindowOfPower(s);
    ShlMonotone(Code(lens, i) + 1, Pow2(s), WINDOW - s);
  }

  lemma {:induction false} WindowOfPower(s: nat)
    requires s <= WINDOW
    ensures Shl(Pow2(s), WINDOW - s) == WINDOW_LIMIT
  {
    ShlIsMul(Pow2(s), WINDOW - s);
    Pow2Add(s, WINDOW - s);
    Pow2Values();
    Pow2Add(3, 9);
    Pow2Add(4, 12);
  }
}
