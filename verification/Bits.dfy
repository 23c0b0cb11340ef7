/** Unsigned machine arithmetic on naturals: powers of two, bitwise AND and right shift, written bit by bit. */
module Bits {

  function Pow2(k: nat): (p: nat)
    ensures p >= 1
  {
    if k == 0 then 1 else 2 * Pow2(k - 1)
  }

  lemma {:induction false} Pow2Grows(j: nat, k: nat)
    requires j <= k
    ensures Pow2(j) <= Pow2(k)
  {
    if j < k { Pow2Grows(j, k - 1); }
  }

  lemma Pow2Values()
    ensures Pow2(28) == 0x1000_0000 && Pow2(29) == 0x2000_0000
  {
    assert Pow2(8) == 256 && Pow2(16) == 0x1_0000 && Pow2(24) == 0x100_0000;
  }

  function BitAnd(x: nat, y: nat): nat
    decreases x
  {
    if x == 0 || y == 0 then 0
    else 2 * BitAnd(x / 2, y / 2) + (if x % 2 == 1 && y % 2 == 1 then 1 else 0)
  }

  function ShiftRight(x: nat, k: nat): (r: nat)
    ensures r <= x
  {
    if k == 0 then x else ShiftRight(x / 2, k - 1)
  }

  /** The k least significant bits of x. */
  function LowBits(x: nat, k: nat): nat
  {
    if k == 0 then 0 else 2 * LowBits(x / 2, k - 1) + x % 2
  }

  /** Shift and low bits are quotient and remainder by 2^k. */
  lemma {:induction false} ShiftAndLowBitsSplit(x: nat, k: nat)
    ensures LowBits(x, k) < Pow2(k)
    ensures x == ShiftRight(x, k) * Pow2(k) + LowBits(x, k)
  {
    if k > 0 {
      ShiftAndLowBitsSplit(x / 2, k - 1);
      DoubleFactor(ShiftRight(x / 2, k - 1), Pow2(k - 1));
    }
  }

  lemma DoubleFactor(q: nat, n: nat)
    ensures q * (2 * n) == 2 * (q * n)
  {
  }

  lemma QuotientIsUnique(q: nat, d: nat, r: nat)
    requires r < d
    ensures (q * d + r) / d == q && (q * d + r) % d == r
  {
    var x := q * d + r;
    var q', r' := x / d, x % d;
    assert x == q' * d + r' && 0 <= r' < d;
    if q' < q { QuotientStep(q', q, d); }
    if q < q' { QuotientStep(q, q', d); }
  }

  lemma QuotientStep(a: nat, b: nat, d: nat)
    requires a < b
    ensures a * d + d <= b * d
    decreases b - a
  {
    assert (a + 1) * d == a * d + d;
    if a + 1 < b { QuotientStep(a + 1, b, d); }
  }

  /** Shifting right by k is dividing by 2^k, and the k low bits are the remainder. */
  lemma ShiftIsDivision(x: nat, k: nat)
    ensures ShiftRight(x, k) == x / Pow2(k) && LowBits(x, k) == x % Pow2(k)
  {
    ShiftAndLowBitsSplit(x, k);
    QuotientIsUnique(ShiftRight(x, k), Pow2(k), LowBits(x, k));
  }

  /** Bit k of x is bit k - 1 of x / 2. */
  lemma NextBit(x: nat, k: nat)
    requires k > 0
    ensures x / Pow2(k) == x / 2 / Pow2(k - 1)
  {
    ShiftIsDivision(x, k);
    ShiftIsDivision(x / 2, k - 1);
  }

  /** Bitwise AND, bit by bit: the product of the two bits. */
  lemma {:induction false} AndBits(x: nat, y: nat, k: nat)
    ensures BitAnd(x, y) / Pow2(k) % 2 == (x / Pow2(k) % 2) * (y / Pow2(k) % 2)
    decreases k
  {
    if k > 0 {
      NextBit(x, k);
      NextBit(y, k);
      NextBit(BitAnd(x, y), k);
      if x == 0 || y == 0 {
        ZeroBits(k);
      } else {
        AndBits(x / 2, y / 2, k - 1);
      }
    }
  }

  lemma ZeroBits(k: nat)
    ensures 0 / Pow2(k) == 0
  {
    ShiftIsDivision(0, k);
  }

  /** The mask 2^k - 1 selects the k low bits. */
  lemma {:induction false} MaskIsLowBits(x: nat, k: nat)
    ensures BitAnd(x, Pow2(k) - 1) == LowBits(x, k)
    decreases k
  {
    if k > 0 {
      var n := Pow2(k - 1);
      assert (2 * n - 1) / 2 == n - 1;
      MaskIsLowBits(x / 2, k - 1);
      if x == 0 { LowBitsOfZero(k); }
    }
  }

  lemma {:induction false} LowBitsOfZero(k: nat)
    ensures LowBits(0, k) == 0
  {
    if k > 0 { LowBitsOfZero(k - 1); }
  }

  /** With one more bit, the value either stays or grows by 2^k. */
  lemma {:induction false} OneMoreBit(x: nat, k: nat)
    ensures LowBits(x, k + 1) == LowBits(x, k) || LowBits(x, k + 1) == LowBits(x, k) + Pow2(k)
  {
    if k > 0 { OneMoreBit(x / 2, k - 1); }
  }

  // ----- 32-bit words -----

  const WORD: nat := 0x1_0000_0000

  type byte = x: int | 0 <= x < 256

  /** The contents of a NUL-terminated character buffer. */
  type cstring = s: seq<byte> | 0 !in s

  type word = x: int | 0 <= x < WORD

  function WordAdd(x: word, y: word): word { if x + y < WORD then x + y else x + y - WORD }

  function WordSub(x: word, y: word): word { if x >= y then x - y else x - y + WORD }

  function WordShiftLeft(x: word, k: nat): word
    decreases k
  {
    if k == 0 then x else WordShiftLeft(WordAdd(x, x), k - 1)
  }

  function BitXor(x: nat, y: nat): nat
    decreases x + y
  {
    if x == 0 && y == 0 then 0
    else 2 * BitXor(x / 2, y / 2) + (if x % 2 == y % 2 then 0 else 1)
  }

  /** A left shift is a multiplication by 2^k that keeps the low 32 bits. */
  lemma {:induction false} LeftShiftIsProduct(x: word, k: nat)
    ensures WordShiftLeft(x, k) == x * Pow2(k) % WORD
    decreases k
  {
    if k > 0 {
      LeftShiftIsProduct(WordAdd(x, x), k - 1);
      DoubledProduct(x, Pow2(k - 1));
    }
  }

  lemma DoubledProduct(x: word, p: nat)
    ensures WordAdd(x, x) * p % WORD == x * (2 * p) % WORD
  {
    var z := x * (2 * p);
    assert z == (x + x) * p;
    assert (x + x - WORD) * p == z - WORD * p;
    WholeWords(z, p);
  }

  lemma WholeWords(z: int, p: nat)
    ensures (z - WORD * p) % WORD == z % WORD
  {
  }

  /** Bitwise XOR, bit by bit: the sum of the two bits without carry. */
  lemma {:induction false} XorBits(x: nat, y: nat, k: nat)
    ensures BitXor(x, y) / Pow2(k) % 2 == (x / Pow2(k) % 2 + y / Pow2(k) % 2) % 2
    decreases k
  {
    XorHalves(x, y);
    hide BitXor, Pow2;
    if k == 0 {
      PowerZero();
    } else {
      NextBit(x, k);
      NextBit(y, k);
      NextBit(BitXor(x, y), k);
      XorBits(x / 2, y / 2, k - 1);
    }
  }

  lemma XorHalves(x: nat, y: nat)
    ensures BitXor(x, y) / 2 == BitXor(x / 2, y / 2) && BitXor(x, y) % 2 == (x % 2 + y % 2) % 2
  {
    hide BitXor;
    XorUnfolded(x, y);
    Halves(BitXor(x / 2, y / 2), if x % 2 == y % 2 then 0 else 1);
    assert x % 2 == y % 2 ==> (x % 2 + y % 2) % 2 == 0;
  }

  lemma Halves(a: nat, b: nat)
    requires b < 2
    ensures (2 * a + b) / 2 == a && (2 * a + b) % 2 == b
  {
  }

  lemma XorUnfolded(x: nat, y: nat)
    ensures BitXor(x, y) == 2 * BitXor(x / 2, y / 2) + (if x % 2 == y % 2 then 0 else 1)
  {
    if x == 0 && y == 0 { assert BitXor(0, 0) == 0; }
  }

  lemma PowerZero()
    ensures Pow2(0) == 1
  {
  }

  lemma {:induction false} XorStaysBelow(x: nat, y: nat, k: nat)
    requires x < Pow2(k) && y < Pow2(k)
    ensures BitXor(x, y) < Pow2(k)
    decreases k
  {
    if k > 0 { XorStaysBelow(x / 2, y / 2, k - 1); }
  }

  function WordXor(x: word, y: word): word
  {
    assert Pow2(8) == 256 && Pow2(16) == 0x1_0000 && Pow2(24) == 0x100_0000 && Pow2(32) == WORD;
    XorStaysBelow(x, y, 32);
    BitXor(x, y)
  }

  lemma {:induction false} XorCancels(x: nat, y: nat)
    ensures BitXor(BitXor(x, y), y) == x
    decreases x + y
  {
    if x > 0 || y > 0 {
      XorCancels(x / 2, y / 2);
      var z := BitXor(x, y);
      assert z / 2 == BitXor(x / 2, y / 2);
    }
  }

  // ----- rounded-up division -----

  /** m is the quotient of n by d rounded up. */
  predicate IsCeil(n: nat, d: nat, m: nat)
  {
    n <= m * d && (m > 0 ==> (m - 1) * d < n)
  }

  lemma CeilIsQuotient(n: nat, d: nat, m: nat)
    requires d >= 1
    ensures IsCeil(n, d, m) <==> m == (n + d - 1) / d
  {
    var q, r := (n + d - 1) / d, (n + d - 1) % d;
    assert n + d - 1 == q * d + r && r < d;
    StepFactor(q, d);
    if m < q { QuotientStep(m, q, d); }
    if q < m { QuotientStep(q, m, d); StepFactor(m, d); }
  }

  /** The shift-and-mask form of a rounded-up division by a power of two. */
  lemma CeilByShiftAndMask(n: nat, k: nat)
    ensures IsCeil(n, Pow2(k), ShiftRight(n, k) + (if BitAnd(n, Pow2(k) - 1) != 0 then 1 else 0))
  {
    MaskIsLowBits(n, k);
    ShiftAndLowBitsSplit(n, k);
    StepFactor(ShiftRight(n, k), Pow2(k));
  }

  lemma StepFactor(q: nat, d: nat)
    ensures (q + 1) * d == q * d + d && (q - 1) * d == q * d - d
  {
  }
}
