/** Unsigned machine arithmetic on natural numbers: the bitwise operators of C as functions
    with a simple recursive definition, and the algebra the page-table code relies on.
    Words stay unbounded here; callers say where a 64-bit width matters. */
module Bits {

  /** One more than the largest uint64_t. */
  const WORD_LIMIT := 0x1_0000_0000_0000_0000
  const ALL_ONES: uint64 := 0xFFFF_FFFF_FFFF_FFFF

  type uint64 = w: nat | w < WORD_LIMIT

  function And(a: nat, b: nat): nat {
    if a == 0 || b == 0 then 0
    else 2 * And(a / 2, b / 2) + (if a % 2 == 1 && b % 2 == 1 then 1 else 0)
  }

  function Or(a: nat, b: nat): nat {
    if a == 0 then b
    else if b == 0 then a
    else 2 * Or(a / 2, b / 2) + (if a % 2 == 1 || b % 2 == 1 then 1 else 0)
  }

  function Xor(a: nat, b: nat): nat {
    if a == 0 then b
    else if b == 0 then a
    else 2 * Xor(a / 2, b / 2) + (if a % 2 != b % 2 then 1 else 0)
  }

  function Pow2(k: nat): (p: nat)
    ensures p >= 1
  {
    if k == 0 then 1 else 2 * Pow2(k - 1)
  }

  lemma {:induction false} AndHalves(a: nat, b: nat)
    ensures And(a, b) / 2 == And(a / 2, b / 2)
    ensures And(a, b) % 2 == 1 <==> a % 2 == 1 && b % 2 == 1
  {
  }

  lemma {:induction false} OrHalves(a: nat, b: nat)
    ensures Or(a, b) / 2 == Or(a / 2, b / 2)
    ensures Or(a, b) % 2 == 1 <==> a % 2 == 1 || b % 2 == 1
  {
  }

  lemma {:induction false} AndCommutes(a: nat, b: nat)
    ensures And(a, b) == And(b, a)
  {
    if a != 0 && b != 0 {
      AndCommutes(a / 2, b / 2);
    }
  }

  lemma {:induction false} AndSelf(a: nat)
    ensures And(a, a) == a
  {
    if a != 0 {
      AndSelf(a / 2);
    }
  }

  /** Two words are equal when their halves and their last bits are. */
  lemma {:induction false} HalvesDetermine(x: nat, y: nat)
    requires x / 2 == y / 2 && (x % 2 == 1 <==> y % 2 == 1)
    ensures x == y
  {
  }

  lemma {:induction false} AndAssociates(a: nat, b: nat, c: nat)
    ensures And(And(a, b), c) == And(a, And(b, c))
  {
    if a != 0 && b != 0 && c != 0 {
      var x, y := And(a, b), And(b, c);
      AndHalves(a, b);
      AndHalves(b, c);
      AndHalves(x, c);
      AndHalves(a, y);
      AndAssociates(a / 2, b / 2, c / 2);
      HalvesDetermine(And(x, c), And(a, y));
    }
  }

  /** Masking distributes over OR: a field of a combined word is the combination of the fields. */
  lemma {:induction false} AndDistributes(a: nat, b: nat, m: nat)
    ensures And(Or(a, b), m) == Or(And(a, m), And(b, m))
  {
    if a != 0 && b != 0 && m != 0 {
      var x, y, z := Or(a, b), And(a, m), And(b, m);
      OrHalves(a, b);
      AndHalves(a, m);
      AndHalves(b, m);
      AndHalves(x, m);
      OrHalves(y, z);
      AndDistributes(a / 2, b / 2, m / 2);
      HalvesDetermine(And(x, m), Or(y, z));
    }
  }

  /** OR of words that share no bit is addition. */
  lemma {:induction false} OrIsSum(a: nat, b: nat)
    requires And(a, b) == 0
    ensures Or(a, b) == a + b
  {
    if a != 0 && b != 0 {
      OrIsSum(a / 2, b / 2);
    }
  }

  lemma {:induction false} DivModUnique(a: nat, p: nat, q: nat, r: nat)
    requires p > 0 && r < p && a == q * p + r
    ensures a / p == q && a % p == r
  {
    var q', r' := a / p, a % p;
    assert a == q' * p + r';
    assert (q' - q) * p == r - r';
    assert q' == q by {
      if q' > q {
        MulAtLeast(q' - q, p);
      }
      if q > q' {
        MulAtLeast(q - q', p);
      }
    }
  }

  lemma {:induction false} MulAtLeast(k: nat, p: nat)
    requires k > 0
    ensures k * p >= p
  {
    assert k * p == (k - 1) * p + p;
  }

  /** Dividing by 2 and then by p is dividing by 2 * p. */
  lemma {:induction false} DivModDouble(a: nat, p: nat)
    requires p > 0
    ensures a / (2 * p) == a / 2 / p
    ensures a % (2 * p) == 2 * (a / 2 % p) + a % 2
  {
    var q, r := a / 2 / p, a / 2 % p;
    assert a / 2 == q * p + r;
    assert q * (2 * p) == 2 * (q * p);
    DivModUnique(a, 2 * p, q, 2 * r + a % 2);
  }

  /** Masking with 2^k - 1 is the remainder modulo 2^k. */
  lemma {:induction false} AndLowMask(a: nat, k: nat)
    ensures And(a, Pow2(k) - 1) == a % Pow2(k)
  {
    hide And;
    if k == 0 {
      AndZero(a);
    } else {
      var p := Pow2(k - 1);
      AndLowMask(a / 2, k - 1);
      DivModDouble(a, p);
      AndHalves(a, 2 * p - 1);
      assert (2 * p - 1) / 2 == p - 1 && (2 * p - 1) % 2 == 1;
    }
  }

  lemma AndZero(a: nat)
    ensures And(a, 0) == 0
  {
  }

  /** Exclusive or with 2^k - 1 is the complement within k bits. */
  lemma {:induction false} XorLowMask(a: nat, k: nat)
    requires a < Pow2(k)
    ensures Xor(a, Pow2(k) - 1) == Pow2(k) - 1 - a
  {
    if k > 0 {
      var p := Pow2(k - 1);
      XorLowMask(a / 2, k - 1);
      assert (2 * p - 1) / 2 == p - 1 && (2 * p - 1) % 2 == 1;
    }
  }

  /** The shifts of C on unsigned words that do not overflow. */
  function Shl(a: nat, k: nat): nat {
    if k == 0 then a else 2 * Shl(a, k - 1)
  }

  function Shr(a: nat, k: nat): nat {
    if k == 0 then a else Shr(a / 2, k - 1)
  }

  /** A mask shifted left by k selects from the word shifted right by k. */
  lemma {:induction false} AndShiftedMask(a: nat, m: nat, k: nat)
    ensures And(a, Shl(m, k)) == Shl(And(Shr(a, k), m), k)
  {
    if k > 0 {
      AndShiftedMask(a / 2, m, k - 1);
      AndHalves(a, Shl(m, k));
    }
  }

  /** Masking with a block of ones extracts the corresponding bit field. */
  lemma {:induction false} AndField(a: nat, low: nat, width: nat)
    ensures And(a, Shl(Pow2(width) - 1, low)) == Shl(Shr(a, low) % Pow2(width), low)
  {
    AndShiftedMask(a, Pow2(width) - 1, low);
    AndLowMask(Shr(a, low), width);
  }

  lemma {:induction false} ShlIsMul(a: nat, k: nat)
    ensures Shl(a, k) == a * Pow2(k)
  {
    if k > 0 {
      ShlIsMul(a, k - 1);
      assert a * (2 * Pow2(k - 1)) == 2 * (a * Pow2(k - 1));
    }
  }

  lemma {:induction false} ShrIsDiv(a: nat, k: nat)
    ensures Shr(a, k) == a / Pow2(k)
  {
    if k > 0 {
      ShrIsDiv(a / 2, k - 1);
      DivModDouble(a, Pow2(k - 1));
    }
  }

  /** The same with numbers in place of shifts. */
  lemma FieldMask(a: nat, m: nat, low: nat, width: nat)
    requires m == (Pow2(width) - 1) * Pow2(low)
    ensures And(a, m) == a / Pow2(low) % Pow2(width) * Pow2(low)
  {
    hide And, Shl, Shr;
    AndField(a, low, width);
    ShlIsMul(Pow2(width) - 1, low);
    ShlIsMul(Shr(a, low) % Pow2(width), low);
    ShrIsDiv(a, low);
  }

  lemma {:induction false} Pow2Add(j: nat, k: nat)
    ensures Pow2(j + k) == Pow2(j) * Pow2(k)
  {
    if j > 0 {
      Pow2Add(j - 1, k);
      assert 2 * Pow2(j - 1) * Pow2(k) == 2 * (Pow2(j - 1) * Pow2(k));
    }
  }

  lemma Pow2Values()
    ensures Pow2(3) == 8 && Pow2(9) == 512 && Pow2(12) == 0x1000 && Pow2(21) == 0x20_0000
    ensures Pow2(31) == 0x8000_0000 && Pow2(40) == 0x100_0000_0000
    ensures Pow2(43) == 0x800_0000_0000 && Pow2(52) == 0x10_0000_0000_0000
  {
    assert Pow2(3) == 8;
    Pow2Add(3, 3);
    Pow2Add(6, 3);
    Pow2Add(9, 3);
    Pow2Add(9, 12);
    Pow2Add(9, 21);
    Pow2Add(1, 30);
    Pow2Add(9, 31);
    Pow2Add(12, 31);
    Pow2Add(12, 40);
  }

  // ----- single bits of a word

  predicate Bit(w: nat, k: nat) {
    Shr(w, k) % 2 == 1
  }

  /** The complement of a 64-bit word. */
  function Not(w: uint64): uint64 {
    ALL_ONES - w
  }

  lemma {:induction false} BitOfAnd(a: nat, b: nat, k: nat)
    ensures Bit(And(a, b), k) <==> Bit(a, k) && Bit(b, k)
  {
    AndHalves(a, b);
    if k > 0 {
      BitOfAnd(a / 2, b / 2, k - 1);
    }
  }

  lemma {:induction false} BitOfOr(a: nat, b: nat, k: nat)
    ensures Bit(Or(a, b), k) <==> Bit(a, k) || Bit(b, k)
  {
    OrHalves(a, b);
    if k > 0 {
      BitOfOr(a / 2, b / 2, k - 1);
    }
  }

  lemma {:induction false} BitOfZero(k: nat)
    ensures !Bit(0, k)
  {
    if k > 0 {
      BitOfZero(k - 1);
    }
  }

  lemma {:induction false} BitOfShl(w: nat, n: nat, k: nat)
    ensures Bit(Shl(w, n), k) <==> k >= n && Bit(w, k - n)
  {
    if n > 0 && k > 0 {
      BitOfShl(w, n - 1, k - 1);
    }
  }

  lemma {:induction false} BitOfOne(n: nat, k: nat)
    ensures Bit(Shl(1, n), k) <==> k == n
  {
    BitOfShl(1, n, k);
    if k > n {
      BitOfZero(k - n - 1);
    }
  }

  lemma {:induction false} BitOfMask(n: nat, k: nat)
    ensures Bit(Pow2(n) - 1, k) <==> k < n
  {
    if n == 0 {
      BitOfZero(k);
    } else if k > 0 {
      BitOfMask(n - 1, k - 1);
    }
  }

  /** Truncating to n bits keeps the bits below n. */
  lemma {:induction false} BitOfMod(w: nat, n: nat, k: nat)
    ensures Bit(w % Pow2(n), k) <==> k < n && Bit(w, k)
  {
    AndLowMask(w, n);
    BitOfAnd(w, Pow2(n) - 1, k);
    BitOfMask(n, k);
  }

  lemma Pow2Of64()
    ensures Pow2(64) == WORD_LIMIT
  {
    Pow2Values();
    Pow2Add(12, 52);
  }

  lemma {:induction false} BitsDetermine(a: nat, b: nat, n: nat)
    requires a < Pow2(n) && b < Pow2(n)
    requires forall k: nat :: k < n ==> (Bit(a, k) <==> Bit(b, k))
    ensures a == b
  {
    if n > 0 {
      assert Bit(a, 0) <==> Bit(b, 0);
      forall k: nat | k < n - 1
        ensures Bit(a / 2, k) <==> Bit(b / 2, k)
      {
        assert Bit(a, k + 1) <==> Bit(b, k + 1);
      }
      BitsDetermine(a / 2, b / 2, n - 1);
      HalvesDetermine(a, b);
    }
  }

  /** Two numbers with the same bits are equal. */
  lemma SameBits(a: nat, b: nat)
    requires forall k: nat :: Bit(a, k) <==> Bit(b, k)
    ensures a == b
  {
    var n := a + b;
    BelowPower(a, n);
    BelowPower(b, n);
    BitsDetermine(a, b, n);
  }

  lemma {:induction false} BelowPower(a: nat, n: nat)
    requires a <= n
    ensures a < Pow2(n)
  {
    if n > 0 {
      BelowPower(a / 2, n - 1);
    }
  }

  lemma BitOfAllOnes(k: nat)
    ensures Bit(ALL_ONES, k) <==> k < 64
  {
    Pow2Of64();
    BitOfMask(64, k);
  }

  /** A word other than all ones has a clear bit. */
  lemma HasClearBit(w: uint64) returns (k: nat)
    requires w != ALL_ONES
    ensures k < 64 && !Bit(w, k)
  {
    if k' :| 0 <= k' < 64 && !Bit(w, k') {
      k := k';
    } else {
      k := 0;
      forall j: nat | j < 64 ensures Bit(w, j) <==> Bit(ALL_ONES, j) {
        BitOfAllOnes(j);
      }
      Pow2Of64();
      BitsDetermine(w, ALL_ONES, 64);
    }
  }

  lemma {:induction false} NotIsComplement(w: nat, n: nat, k: nat)
    requires w < Pow2(n)
    ensures Bit(Pow2(n) - 1 - w, k) <==> k < n && !Bit(w, k)
  {
    if n == 0 {
      BitOfZero(k);
    } else if k > 0 {
      NotIsComplement(w / 2, n - 1, k - 1);
      assert (Pow2(n) - 1 - w) / 2 == Pow2(n - 1) - 1 - w / 2;
    }
  }

  /** `w & (1 << k)` tests bit k. */
  lemma TestBit(w: nat, k: nat)
    ensures And(w, Shl(1, k)) != 0 <==> Bit(w, k)
  {
    AndShiftedMask(w, 1, k);
    ShlIsMul(And(Shr(w, k), 1), k);
  }

  lemma OrFits(a: nat, b: nat, n: nat)
    requires a < Pow2(n) && b < Pow2(n)
    ensures Or(a, b) < Pow2(n)
  {
    if n > 0 {
      OrFits(a / 2, b / 2, n - 1);
      OrHalves(a, b);
    }
  }

  lemma {:induction false} AndFits(a: nat, b: nat)
    ensures And(a, b) <= a
  {
    if a != 0 && b != 0 {
      AndFits(a / 2, b / 2);
    }
  }

  lemma {:induction false} Pow2Monotone(j: nat, k: nat)
    requires j <= k
    ensures Pow2(j) <= Pow2(k)
  {
    if j < k {
      Pow2Monotone(j, k - 1);
    }
  }

  // ----- the word operations the frame bitmap uses

  /** OR of 64-bit words is a 64-bit word. */
  function Or64(a: uint64, b: uint64): (r: uint64)
    ensures r == Or(a, b)
  {
    Pow2Of64();
    OrFits(a, b, 64);
    Or(a, b)
  }

  function And64(a: uint64, b: uint64): (r: uint64)
    ensures r == And(a, b)
  {
    AndFits(a, b);
    And(a, b)
  }

  /** `w | (1ULL << k)` */
  function SetBit(w: uint64, k: nat): (r: uint64)
    requires k < 64
    ensures forall j: nat :: Bit(r, j) <==> j == k || Bit(w, j)
  {
    var r := Or(w, Shl(1, k));
    assert r < WORD_LIMIT by {
      Pow2Of64();
      ShlIsMul(1, k);
      Pow2Monotone(k, 63);
      OrFits(w, Shl(1, k), 64);
    }
    assert forall j: nat :: Bit(r, j) <==> j == k || Bit(w, j) by {
      forall j: nat ensures Bit(r, j) <==> j == k || Bit(w, j) {
        BitOfOr(w, Shl(1, k), j);
        BitOfOne(k, j);
      }
    }
    r
  }

  /** `w & ~(1ULL << k)` */
  function ClearBit(w: uint64, k: nat): (r: uint64)
    requires k < 64
    ensures forall j: nat :: Bit(r, j) <==> j != k && Bit(w, j)
  {
    assert Shl(1, k) < WORD_LIMIT by {
      Pow2Of64();
      ShlIsMul(1, k);
      Pow2Monotone(k, 63);
    }
    var m := Not(Shl(1, k));
    AndFits(w, m);
    var r := And(w, m);
    assert forall j: nat :: Bit(r, j) <==> j != k && Bit(w, j) by {
      forall j: nat ensures Bit(r, j) <==> j != k && Bit(w, j) {
        BitOfAnd(w, m, j);
        Pow2Of64();
        NotIsComplement(Shl(1, k), 64, j);
        BitOfOne(k, j);
        BitOfMod(w, 64, j);
        SmallMod(w, WORD_LIMIT);
      }
    }
    r
  }

  lemma SmallMod(a: nat, p: nat)
    requires a < p
    ensures a % p == a
  {
  }

  /** `~0ULL << n`, truncated to 64 bits. */
  function OnesFrom(n: nat): (r: uint64)
    ensures forall j: nat :: Bit(r, j) <==> n <= j < 64
  {
    var r := Shl(ALL_ONES, n) % WORD_LIMIT;
    assert forall j: nat :: Bit(r, j) <==> n <= j < 64 by {
      forall j: nat ensures Bit(r, j) <==> n <= j < 64 {
        Pow2Of64();
        BitOfMod(Shl(ALL_ONES, n), 64, j);
        BitOfShl(ALL_ONES, n, j);
        if j >= n {
          BitOfAllOnes(j - n);
        }
      }
    }
    r
  }
}
