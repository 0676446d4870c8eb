/** The Huffman tables of include/ssfn.h: built from code lengths, and looked up through a table
    over 9 bits with a slow path for longer codes. */
module Huffman {
  import opened Bits
  import opened BitStream
  import opened HuffmanCodes

  const ZFAST_BITS := 9
  const ZFAST_SIZE := 512
  const MAX_SYMBOLS := 288

  // ----- the entries of the fast table

  /** The low bits of x, read as a code, are the code of symbol i, and that is short enough. */
  ghost predicate FastMatch(lens: seq<nat>, i: nat, x: nat)
    requires i < |lens|
  {
    0 < lens[i] <= ZFAST_BITS && CodeNumber(ToBits(x, lens[i])) == Code(lens, i)
  }

  /** `(s << 9) | i` */
  function FastEntry(lens: seq<nat>, i: nat): nat
    requires i < |lens|
  {
    lens[i] * 512 + i
  }

  /** Slot x of the fast table after the first n symbols. */
  ghost predicate FastSlot(lens: seq<nat>, n: nat, x: nat, entry: nat)
    requires n <= |lens|
  {
    && (forall i: nat :: i < n && FastMatch(lens, i, x) ==> entry == FastEntry(lens, i))
    && ((forall i: nat :: i < n ==> !FastMatch(lens, i, x)) ==> entry == 0)
  }

  lemma {:induction false} LowBitsOfWindow(w: nat, s: nat, n: nat)
    requires s <= n
    ensures ToBits(w, n)[..s] == ToBits(w, s)
  {
    if s > 0 {
      LowBitsOfWindow(w / 2, s - 1, n - 1);
    }
  }

  /** The window of a buffer starts with the code of symbol i exactly if its low bits say so. */
  lemma WindowMatch(lens: seq<nat>, i: nat, w: nat)
    requires i < |lens| && 0 < lens[i] <= WINDOW
    ensures Matches(lens, i, CodeNumber(ToBits(w, WINDOW))) <==> CodeNumber(ToBits(w, lens[i])) == Code(lens, i)
  {
    hide Code, CodeNumber, ToBits;
    CodeNumberPrefix(ToBits(w, WINDOW), lens[i]);
    LowBitsOfWindow(w, lens[i], WINDOW);
  }

  /** No two symbols claim the same slot. */
  lemma SlotIsUnique(lens: seq<nat>, i: nat, j: nat, x: nat)
    requires LengthsOk(lens) && i < |lens| && j < |lens| && FastMatch(lens, i, x) && FastMatch(lens, j, x)
    ensures i == j
  {
    hide Code, CodeNumber, ToBits, Matches;
    WindowMatch(lens, i, x);
    WindowMatch(lens, j, x);
    MatchIsUnique(lens, i, j, CodeNumber(ToBits(x, WINDOW)));
  }

  lemma {:induction false} LowBitsDecide(x: nat, y: nat, s: nat)
    ensures ToBits(x, s) == ToBits(y, s) <==> x % Pow2(s) == y % Pow2(s)
  {
    NumberOfToBits(x, s);
    NumberOfToBits(y, s);
    if x % Pow2(s) == y % Pow2(s) {
      SameNumber(ToBits(x, s), ToBits(y, s));
    }
  }

  lemma {:induction false} SameNumber(a: seq<bool>, b: seq<bool>)
    requires |a| == |b| && Number(a) == Number(b)
    ensures a == b
  {
    if a != [] {
      SameNumber(a[1..], b[1..]);
      assert a == [a[0]] + a[1..] && b == [b[0]] + b[1..];
    }
  }

  lemma SameCodeNumber(a: seq<bool>, b: seq<bool>)
    requires |a| == |b| && CodeNumber(a) == CodeNumber(b)
    ensures a == b
  {
    CodeBitsOfNumber(a);
    CodeBitsOfNumber(b);
  }

  /** The reversed code fills its s bits and reads back as the code. */
  lemma ReversedCode(c: nat, s: nat)
    requires 0 < s <= WINDOW && c < Pow2(s)
    ensures BitReverse(c, s) < Pow2(s)
    ensures CodeNumber(ToBits(BitReverse(c, s), s)) == c
  {
    hide Bit, BitReverse16, CodeNumber, ToBits, Shr;
    var r := BitReverse(c, s);
    forall k: nat ensures Bit(r, k) <==> k < s && Bit(c, s - 1 - k) {
      BitOfShr(BitReverse16(c), 16 - s, k);
      BitOfReverse16(c, 16 - s + k);
    }
    forall k: nat ensures Bit(CodeNumber(ToBits(r, s)), k) <==> Bit(c, k) {
      BitOfCodeNumber(ToBits(r, s), k);
      if k < s {
        BitOfToBits(r, s, s - 1 - k);
      } else {
        BitAbove(c, s, k);
      }
    }
    SameBits(CodeNumber(ToBits(r, s)), c);
    forall k: nat ensures Bit(r % Pow2(s), k) <==> Bit(r, k) {
      BitOfMod(r, s, k);
    }
    SameBits(r % Pow2(s), r);
  }

  lemma BitAbove(c: nat, s: nat, k: nat)
    requires c < Pow2(s) && k >= s
    ensures !Bit(c, k)
  {
    BitOfMod(c, s, k);
    SmallMod(c, Pow2(s));
  }

  /** The slots of a code of s bits: those equal to the reversed code modulo 2^s. */
  lemma SlotsOfCode(c: nat, s: nat, x: nat)
    requires 0 < s <= WINDOW && c < Pow2(s)
    ensures CodeNumber(ToBits(x, s)) == c <==> x % Pow2(s) == BitReverse(c, s)
  {
    hide CodeNumber, ToBits, BitReverse;
    ReversedCode(c, s);
    LowBitsDecide(x, BitReverse(c, s), s);
    SmallMod(BitReverse(c, s), Pow2(s));
    if CodeNumber(ToBits(x, s)) == c {
      SameCodeNumber(ToBits(x, s), ToBits(BitReverse(c, s), s));
    }
  }

  // ----- checking the lengths

  /** Too many codes of one length break the Kraft inequality. */
  lemma TooManyCodes(lens: seq<nat>, s: nat)
    requires 1 <= s <= MAX_LENGTH
    ensures FirstCode(lens, s) + Count(lens, s) > Pow2(s) <==> Limit(lens, s) > WINDOW_LIMIT
    ensures Count(lens, s) > Pow2(s) ==> !Kraft(lens)
    ensures Limit(lens, s) > WINDOW_LIMIT ==> !Kraft(lens)
  {
    hide Limit, Count, FirstCode, KraftSum, Shl;
    LimitShape(lens, s);
    WindowOfPower(s);
    ShlMonotone(FirstCode(lens, s) + Count(lens, s), Pow2(s), WINDOW - s);
    LimitGrows(lens, s, MAX_LENGTH);
    LimitIsKraftSum(lens, MAX_LENGTH);
  }

  lemma NoNewCodes(lens: seq<nat>, s: nat)
    requires 1 <= s <= MAX_LENGTH && Count(lens, s) == 0
    ensures Limit(lens, s) == Limit(lens, s - 1)
  {
    hide Limit, Count, FirstCode;
    StartIsLimit(lens, s);
    ShlIsMul(0, WINDOW - s);
  }

  /** The first code of a length fits 16 bits as long as the shorter codes fit the window. */
  lemma FirstCodeFits(lens: seq<nat>, s: nat)
    requires 1 <= s <= MAX_LENGTH && Limit(lens, s - 1) <= WINDOW_LIMIT
    ensures FirstCode(lens, s) < 0x1_0000
  {
    hide Limit, Count, FirstCode, Shl;
    StartIsLimit(lens, s);
    WindowOfPower(s);
    ShlMonotone(FirstCode(lens, s), Pow2(s), WINDOW - s);
    Pow2Monotone(s, 15);
    SmallPowers();
  }

  lemma LimitsWithin(lens: seq<nat>)
    requires Limit(lens, MAX_LENGTH) <= WINDOW_LIMIT
    ensures Kraft(lens)
  {
    LimitIsKraftSum(lens, MAX_LENGTH);
  }

  // ----- filling the fast table

  /** Stepping by p through the numbers that leave remainder r. */
  lemma SameRemainder(x: nat, j: nat, p: nat)
    requires p > 0 && x % p == j % p && j <= x < j + p
    ensures x == j
  {
    var q, r, d := j / p, j % p, x - j;
    assert x == q * p + (r + d);
    if r + d < p {
      DivModUnique(x, p, q, r + d);
    } else {
      assert (q + 1) * p == q * p + p;
      DivModUnique(x, p, q + 1, r + d - p);
    }
  }

  lemma NextRemainder(j: nat, p: nat)
    requires p > 0
    ensures (j + p) % p == j % p
  {
    assert (j / p + 1) * p == j / p * p + p;
    DivModUnique(j + p, p, j / p + 1, j % p);
  }

  /** Writing the slots of symbol n completes the fast table for the symbols up to n. */
  lemma FastSlotStep(lens: seq<nat>, n: nat, x: nat, before: nat, after: nat)
    requires LengthsOk(lens) && n < |lens| && FastSlot(lens, n, x, before)
    requires after == (if FastMatch(lens, n, x) then FastEntry(lens, n) else before)
    ensures FastSlot(lens, n + 1, x, after)
  {
    hide FastMatch, LengthsOk;
    forall i: nat | i < n + 1 && FastMatch(lens, i, x) ensures after == FastEntry(lens, i) {
      if FastMatch(lens, n, x) {
        SlotIsUnique(lens, i, n, x);
      }
    }
  }

  // ----- _ssfn__zhuffman

  class Tables {
    const fast: array<nat>
    const firstcode: array<nat>
    const maxcode: array<nat>
    const firstsymbol: array<nat>
    const size: array<nat>
    const value: array<nat>

    constructor ()
      ensures Shaped()
      ensures fresh(fast) && fresh(firstcode) && fresh(maxcode) && fresh(firstsymbol) && fresh(size) && fresh(value)
    {
      fast := new nat[ZFAST_SIZE];
      firstcode := new nat[16];
      maxcode := new nat[17];
      firstsymbol := new nat[16];
      size := new nat[MAX_SYMBOLS];
      value := new nat[MAX_SYMBOLS];
    }

    /** The six arrays are separate and have the declared lengths. */
    ghost predicate Shaped() {
      && fast.Length == ZFAST_SIZE && firstcode.Length == 16 && maxcode.Length == 17 && firstsymbol.Length == 16
      && size.Length == MAX_SYMBOLS && value.Length == MAX_SYMBOLS
      && fast !in {firstcode, maxcode, firstsymbol, size, value}
      && firstcode !in {maxcode, firstsymbol, size, value}
      && maxcode !in {firstsymbol, size, value}
      && firstsymbol !in {size, value}
      && size != value
    }

    ghost function Arrays(): set<object> {
      {fast, firstcode, maxcode, firstsymbol, size, value}
    }

    /** The limits by length, up to length n - 1. */
    ghost predicate LimitsOk(lens: seq<nat>, n: nat)
      requires Shaped() && n <= WINDOW
      reads firstcode, maxcode, firstsymbol
    {
      forall s: nat :: 1 <= s < n ==>
        firstcode[s] == FirstCode(lens, s) && maxcode[s] == Limit(lens, s) && firstsymbol[s] == FirstSymbol(lens, s)
    }

    /** The first n symbols stand at their places. */
    ghost predicate PlacesOk(lens: seq<nat>, n: nat)
      requires Shaped() && n <= |lens| <= MAX_SYMBOLS
      reads size, value
    {
      forall i: nat :: i < n && lens[i] > 0 ==>
        SymbolPlace(lens, i) < MAX_SYMBOLS && value[SymbolPlace(lens, i)] == i && size[SymbolPlace(lens, i)] == lens[i]
    }

    ghost predicate FastOk(lens: seq<nat>, n: nat)
      requires Shaped() && n <= |lens|
      reads fast
    {
      forall x: nat :: x < ZFAST_SIZE ==> FastSlot(lens, n, x, fast[x])
    }

    /** The tables hold the canonical code of these lengths. */
    ghost predicate Represents(lens: seq<nat>)
      reads fast, firstcode, maxcode, firstsymbol, size, value
      ensures Represents(lens) ==> Shaped() && LengthsOk(lens) && Kraft(lens)
    {
      && Shaped()
      && LengthsOk(lens) && |lens| <= MAX_SYMBOLS && Kraft(lens)
      && LimitsOk(lens, WINDOW) && maxcode[WINDOW] == WINDOW_LIMIT
      && PlacesOk(lens, |lens|)
      && FastOk(lens, |lens|)
    }

    /** The lengths of each code, counted. */
    static method CountSizes(lens: seq<nat>) returns (sizes: array<nat>)
      requires LengthsOk(lens)
      ensures fresh(sizes) && sizes.Length == 17
      ensures forall s: nat :: s <= MAX_LENGTH ==> sizes[s] == Count(lens, s)
    {
      hide LengthsOk;
      sizes := new nat[17](i => 0);
      var i := 0;
      while i < |lens|
        invariant i <= |lens|
        invariant forall s: nat :: 1 <= s <= MAX_LENGTH ==> sizes[s] == Count(lens[..i], s)
      {
        LengthAt(lens, i);
        sizes[lens[i]] := sizes[lens[i]] + 1;
        assert lens[..i + 1][..i] == lens[..i];
        i := i + 1;
      }
      sizes[0] := 0;
      CountZero(lens);
      assert lens[..|lens|] == lens;
    }

    /** The two loops of `_ssfn__zbuild_huffman` that check the lengths and set the limits. */
    method SetLimits(lens: seq<nat>, sizes: array<nat>, nextCode: array<nat>) returns (ok: bool)
      requires Shaped() && LengthsOk(lens) && |lens| <= MAX_SYMBOLS && sizes.Length == 17 && nextCode.Length == 16
      requires forall s: nat :: s <= MAX_LENGTH ==> sizes[s] == Count(lens, s)
      requires sizes !in {nextCode, firstcode, maxcode, firstsymbol}
      requires nextCode !in {firstcode, maxcode, firstsymbol}
      modifies nextCode, firstcode, maxcode, firstsymbol
      ensures ok <==> Kraft(lens)
      ensures ok ==> LimitsOk(lens, WINDOW) && maxcode[WINDOW] == WINDOW_LIMIT
      ensures ok ==> forall s: nat :: 1 <= s <= MAX_LENGTH ==> nextCode[s] == FirstCode(lens, s)
    {
      hide Limit, Count, FirstCode, FirstSymbol, Kraft, Shl, Pow2;
      var i := 1;
      while i < 16
        invariant 1 <= i <= 16
      {
        ShlIsMul(1, i);
        if sizes[i] > Shl(1, i) {
          TooManyCodes(lens, i);
          return false;
        }
        i := i + 1;
      }
      var code, k := 0, 0;
      NoCodeOfNoLength(lens);
      CountZero(lens);
      StartValues(lens);
      i := 1;
      while i < 16
        invariant 1 <= i <= 16
        invariant code == FirstCode(lens, i) && k == FirstSymbol(lens, i)
        invariant Limit(lens, i - 1) <= WINDOW_LIMIT
        invariant LimitsOk(lens, i)
        invariant forall s: nat :: 1 <= s < i ==> nextCode[s] == FirstCode(lens, s)
      {
        FirstCodeFits(lens, i);
        SymbolsFit(lens, i);
        TooManyCodes(lens, i);
        LimitShape(lens, i);
        ShlIsMul(1, i);
        nextCode[i] := code;
        firstcode[i] := code % 0x1_0000;
        firstsymbol[i] := k % 0x1_0000;
        code := code + sizes[i];
        if sizes[i] != 0 {
          if code - 1 >= Shl(1, i) {
            return false;
          }
        } else {
          NoNewCodes(lens, i);
        }
        maxcode[i] := Shl(code, 16 - i);
        NextValues(lens, i);
        code := 2 * code;
        k := k + sizes[i];
        i := i + 1;
      }
      maxcode[16] := 0x1_0000;
      LimitsWithin(lens);
      return true;
    }

    /** The innermost loop: one entry in every slot whose low s bits are the reversed code. */
    method FillFast(start: nat, s: nat, entry: nat)
      requires Shaped() && 0 < s <= ZFAST_BITS && start < Pow2(s)
      modifies fast
      ensures forall x: nat :: x < ZFAST_SIZE ==> fast[x] == if x % Pow2(s) == start then entry else old(fast[x])
    {
      hide Pow2, Shl;
      SmallMod(start, Pow2(s));
      ShlIsMul(1, s);
      ghost var p := Pow2(s);
      var j := start;
      while j < ZFAST_SIZE
        invariant j % p == start
        invariant forall x: nat :: x < ZFAST_SIZE ==>
                    fast[x] == if x < j && x % p == start then entry else old(fast[x])
      {
        fast[j] := entry;
        forall x: nat | j <= x < j + p && x % p == start ensures x == j {
          SameRemainder(x, j, p);
        }
        NextRemainder(j, p);
        j := j + Shl(1, s);
      }
    }

    /** The last loop of `_ssfn__zbuild_huffman`: every symbol to its place and its fast slots. */
    method PlaceSymbols(lens: seq<nat>, nextCode: array<nat>)
      requires Shaped() && LengthsOk(lens) && Kraft(lens) && |lens| <= MAX_SYMBOLS && nextCode.Length == 16
      requires nextCode !in {fast, firstcode, maxcode, firstsymbol, size, value}
      requires LimitsOk(lens, WINDOW)
      requires forall s: nat :: 1 <= s <= MAX_LENGTH ==> nextCode[s] == FirstCode(lens, s)
      requires forall x :: 0 <= x < ZFAST_SIZE ==> fast[x] == 0
      modifies nextCode, fast, size, value
      ensures PlacesOk(lens, |lens|) && FastOk(lens, |lens|)
    {
      hide Limit, Count, FirstCode, FirstSymbol, Kraft, Shl, FastSlot, FastMatch, LengthsOk, Or, BitReverse;
      var i := 0;
      NothingPlaced(lens);
      while i < |lens|
        invariant i <= |lens|
        invariant PlacesOk(lens, i) && FastOk(lens, i)
        invariant forall s: nat :: 1 <= s <= MAX_LENGTH ==> nextCode[s] == FirstCode(lens, s) + Count(lens[..i], s)
      {
        var s := lens[i];
        LengthAt(lens, i);
        NextCount(lens, i);
        if s != 0 {
          PlaceFits(lens, i);
          var c := nextCode[s] - firstcode[s] + firstsymbol[s];
          assert c == SymbolPlace(lens, i);
          forall m: nat | m < i && lens[m] > 0 ensures SymbolPlace(lens, m) != c {
            PlacesDiffer(lens, m, i);
          }
          size[c] := s;
          value[c] := i;
          ghost var before := fast[..];
          if s <= ZFAST_BITS {
            EntryValue(s, i);
            CodeFits(lens, i);
            ReversedCode(Code(lens, i), s);
            FillFast(BitReverse(nextCode[s], s), s, Or(Shl(s, 9), i));
          }
          FastStep(lens, i, before, fast[..]);
          nextCode[s] := nextCode[s] + 1;
        } else {
          FastStep(lens, i, fast[..], fast[..]);
        }
        i := i + 1;
      }
    }

    /** `_ssfn__zbuild_huffman`: succeeds exactly on lengths that satisfy the Kraft inequality, and
        then the tables hold their canonical code. */
    method Build(lens: seq<nat>) returns (ok: bool)
      requires Shaped() && LengthsOk(lens) && |lens| <= MAX_SYMBOLS
      modifies fast, firstcode, maxcode, firstsymbol, size, value
      ensures ok <==> Kraft(lens)
      ensures ok ==> Represents(lens)
    {
      hide Limit, Count, FirstCode, FirstSymbol, Kraft, FastSlot, FastMatch, LengthsOk;
      var nextCode := new nat[16];
      var x := 0;
      while x < ZFAST_SIZE
        invariant x <= ZFAST_SIZE
        invariant forall y :: 0 <= y < x ==> fast[y] == 0
      {
        fast[x] := 0;
        x := x + 1;
      }
      var sizes := CountSizes(lens);
      ok := SetLimits(lens, sizes, nextCode);
      if ok {
        PlaceSymbols(lens, nextCode);
      }
    }
  }

  lemma NothingPlaced(lens: seq<nat>)
    ensures forall x: nat :: FastSlot(lens, 0, x, 0)
    ensures forall s: nat :: Count(lens[..0], s) == 0
  {
  }

  lemma NextCount(lens: seq<nat>, i: nat)
    requires i < |lens|
    ensures forall s: nat :: Count(lens[..i + 1], s) == Count(lens[..i], s) + (if s > 0 && lens[i] == s then 1 else 0)
  {
    assert lens[..i + 1][..i] == lens[..i];
  }

  lemma EntryValue(s: nat, i: nat)
    requires i < 512
    ensures Or(Shl(s, 9), i) == s * 512 + i
  {
    hide And, Or;
    AndCommutes(Shl(s, 9), i);
    AndShiftedMask(i, s, 9);
    ShrIsDiv(i, 9);
    ShlIsMul(s, 9);
    Pow2Values();
    NoBits(s);
    ShlIsMul(0, 9);
    OrIsSum(Shl(s, 9), i);
  }

  lemma NoBits(s: nat)
    ensures And(0, s) == 0
  {
  }

  /** The fast table after symbol n, given what the innermost loop wrote. */
  lemma FastStep(lens: seq<nat>, n: nat, before: seq<nat>, after: seq<nat>)
    requires LengthsOk(lens) && Kraft(lens) && n < |lens| && |before| == |after| == ZFAST_SIZE
    requires forall x: nat :: x < ZFAST_SIZE ==> FastSlot(lens, n, x, before[x])
    requires 0 < lens[n] <= ZFAST_BITS ==>
               forall x: nat :: x < ZFAST_SIZE ==>
                 after[x] == if x % Pow2(lens[n]) == BitReverse(Code(lens, n), lens[n]) then FastEntry(lens, n) else before[x]
    requires !(0 < lens[n] <= ZFAST_BITS) ==> after == before
    ensures forall x: nat :: x < ZFAST_SIZE ==> FastSlot(lens, n + 1, x, after[x])
  {
    hide FastSlot, LengthsOk, Kraft, Code, BitReverse, Pow2, CodeNumber, ToBits;
    forall x: nat | x < ZFAST_SIZE ensures FastSlot(lens, n + 1, x, after[x]) {
      if 0 < lens[n] <= ZFAST_BITS {
        CodeFits(lens, n);
        SlotsOfCode(Code(lens, n), lens[n], x);
      }
      FastSlotStep(lens, n, x, before[x], after[x]);
    }
  }

  lemma StartValues(lens: seq<nat>)
    ensures FirstCode(lens, 1) == 0 && FirstSymbol(lens, 1) == 0 && FirstSymbol(lens, 0) == 0
  {
    CountZero(lens);
  }

  lemma NextValues(lens: seq<nat>, s: nat)
    ensures FirstCode(lens, s + 1) == 2 * (FirstCode(lens, s) + Count(lens, s))
    ensures FirstSymbol(lens, s + 1) == FirstSymbol(lens, s) + Count(lens, s)
  {
  }

  lemma LengthAt(lens: seq<nat>, i: nat)
    requires LengthsOk(lens) && i < |lens|
    ensures lens[i] <= MAX_LENGTH
  {
  }

  // ----- looking a window up

  lemma SlotHolder(lens: seq<nat>, x: nat, entry: nat) returns (i: nat)
    requires FastSlot(lens, |lens|, x, entry) && entry != 0
    ensures i < |lens| && FastMatch(lens, i, x) && entry == FastEntry(lens, i)
  {
    hide FastMatch;
    i :| i < |lens| && FastMatch(lens, i, x);
  }

  lemma EntryParts(lens: seq<nat>, i: nat)
    requires i < |lens| <= MAX_SYMBOLS
    ensures FastEntry(lens, i) / 512 == lens[i] && FastEntry(lens, i) % 512 == i
  {
  }

  /** A hit in the fast table names the symbol whose code starts the window. */
  lemma FastHit(z: Tables, lens: seq<nat>, w: nat)
    requires z.Represents(lens) && z.fast[w % 512] != 0
    ensures var i := z.fast[w % 512] % 512;
            && i < |lens| && lens[i] == z.fast[w % 512] / 512
            && 0 < lens[i] <= ZFAST_BITS && Matches(lens, i, CodeNumber(ToBits(w, WINDOW)))
  {
    hide Code, CodeNumber, ToBits, Kraft, FastMatch, Matches, FastSlot, FastEntry, Tables.PlacesOk, Tables.LimitsOk;
    assert FastSlot(lens, |lens|, w % 512, z.fast[w % 512]);
    var i := SlotHolder(lens, w % 512, z.fast[w % 512]);
    EntryParts(lens, i);
    MatchOfSlot(lens, i, w);
  }

  lemma MatchOfSlot(lens: seq<nat>, i: nat, w: nat)
    requires LengthsOk(lens) && i < |lens|
    ensures FastMatch(lens, i, w % 512) <==>
              0 < lens[i] <= ZFAST_BITS && Matches(lens, i, CodeNumber(ToBits(w, WINDOW)))
  {
    hide Code, CodeNumber, ToBits, Matches, LengthsOk;
    if 0 < lens[i] <= ZFAST_BITS {
      WindowMatch(lens, i, w);
      SlotBits(w, lens[i]);
    }
  }

  /** The low bits below 9 do not see the cut to 9 bits. */
  lemma SlotBits(w: nat, s: nat)
    requires s <= ZFAST_BITS
    ensures ToBits(w % 512, s) == ToBits(w, s)
  {
    hide Bit, ToBits;
    Pow2Values();
    forall i: nat | i < s ensures ToBits(w % 512, s)[i] == ToBits(w, s)[i] {
      BitOfToBits(w % 512, s, i);
      BitOfToBits(w, s, i);
      BitOfMod(w, 9, i);
    }
  }

  /** A miss means that no code of at most 9 bits starts the window. */
  lemma FastMiss(z: Tables, lens: seq<nat>, w: nat)
    requires z.Represents(lens) && z.fast[w % 512] == 0
    ensures Limit(lens, ZFAST_BITS) <= CodeNumber(ToBits(w, WINDOW))
  {
    hide Code, CodeNumber, ToBits, Kraft, FastMatch, Matches, Limit;
    var x, window := w % 512, CodeNumber(ToBits(w, WINDOW));
    assert FastSlot(lens, |lens|, x, z.fast[x]);
    if window < Limit(lens, ZFAST_BITS) {
      var s := LengthOfWindow(lens, ZFAST_BITS, window);
      var i := MatchAtLength(lens, s, window);
      MatchOfSlot(lens, i, w);
    }
  }

  /** The slow path: the window lies between the limits of length s - 1 and s. */
  lemma SlowHit(z: Tables, lens: seq<nat>, s: nat, window: nat)
    requires z.Represents(lens) && 1 <= s <= MAX_LENGTH
    requires Limit(lens, s - 1) <= window < Limit(lens, s)
    ensures Shr(window, WINDOW - s) >= z.firstcode[s]
    ensures var b := Shr(window, WINDOW - s) - z.firstcode[s] + z.firstsymbol[s];
            && b < MAX_SYMBOLS && z.value[b] < |lens| && lens[z.value[b]] == s
            && Matches(lens, z.value[b], window)
  {
    hide Code, CodeNumber, ToBits, Kraft, FastMatch, Matches, Limit, FirstCode, FirstSymbol, Count, Shr, FastSlot;
    var i := MatchAtLength(lens, s, window);
    assert z.firstcode[s] == FirstCode(lens, s);
    assert SymbolPlace(lens, i) == Shr(window, WINDOW - s) - FirstCode(lens, s) + FirstSymbol(lens, s);
  }
}
