/** Fixed-width machine words, as C++ computes with them.

    An unsigned word of n bits is a natural number below 2^n; a signed word is kept as
    its two's complement pattern and read through `S32` and `S64`.  The bitwise
    operators are defined on natural numbers, bit by bit, and the lemmas turn the
    mask-and-shift idioms of a decoder into division and remainder. */
module Bits {
  const TWO_8: int := 0x100
  const TWO_16: int := 0x1_0000
  const TWO_32: int := 0x1_0000_0000
  const TWO_63: int := 0x8000_0000_0000_0000
  const TWO_64: int := 0x1_0000_0000_0000_0000

  type u8 = x: int | 0 <= x < 0x100
  type u16 = x: int | 0 <= x < 0x1_0000
  type u32 = x: int | 0 <= x < 0x1_0000_0000
  type u64 = x: int | 0 <= x < 0x1_0000_0000_0000_0000

  // Casts between the signed and the unsigned reading of a word.
  function U8(i: int): u8 { i % TWO_8 }
  function U32(i: int): u32 { i % TWO_32 }
  function U64(i: int): u64 { i % TWO_64 }
  function S8(w: u8): int { if w < 0x80 then w else w - TWO_8 }
  function S16(w: u16): int { if w < 0x8000 then w else w - TWO_16 }
  function S32(w: u32): int { if w < 0x8000_0000 then w else w - TWO_32 }
  function S64(w: u64): int { if w < TWO_63 then w else w - TWO_64 }

  function Pow2(n: nat): (p: nat)
    ensures p > 0
  {
    if n == 0 then 1 else 2 * Pow2(n - 1)
  }

  function And(a: nat, b: nat): nat {
    if a == 0 || b == 0 then 0
    else 2 * And(a / 2, b / 2) + (if a % 2 == 1 && b % 2 == 1 then 1 else 0)
  }

  function Or(a: nat, b: nat): nat {
    if a == 0 then b else if b == 0 then a
    else 2 * Or(a / 2, b / 2) + (if a % 2 == 1 || b % 2 == 1 then 1 else 0)
  }

  function Xor(a: nat, b: nat): nat {
    if a == 0 then b else if b == 0 then a
    else 2 * Xor(a / 2, b / 2) + (if a % 2 != b % 2 then 1 else 0)
  }

  // ---- division by a power of two -------------------------------------------------

  lemma MulLeast(k: int, d: int)
    requires k > 0 && d > 0
    ensures k * d >= d
  {
  }

  lemma DivModUnique(x: int, d: int, q: int, r: int)
    requires d > 0 && 0 <= r < d && x == q * d + r
    ensures x / d == q && x % d == r
  {
    var q', r' := x / d, x % d;
    assert (q - q') * d == r' - r by {
      assert x == q' * d + r';
      assert (q - q') * d == q * d - q' * d;
    }
    if q > q' { MulLeast(q - q', d); }
    if q < q' {
      assert (q' - q) * d == r - r';
      MulLeast(q' - q, d);
    }
  }

  /** One bit of x moves from the remainder by d to the remainder by 2d. */
  lemma HalveMod(x: nat, d: nat)
    requires d > 0
    ensures x % (2 * d) == 2 * ((x / 2) % d) + x % 2
    ensures x / (2 * d) == (x / 2) / d
  {
    var h := x / 2;
    assert h == (h / d) * d + h % d;
    assert x == (h / d) * (2 * d) + (2 * (h % d) + x % 2);
    DivModUnique(x, 2 * d, h / d, 2 * (h % d) + x % 2);
  }

  // ---- masks and disjoint sums ----------------------------------------------------

  lemma {:induction false} AndMask(x: nat, k: nat)
    ensures And(x, Pow2(k) - 1) == x % Pow2(k)
  {
    if k == 0 {
      assert x % 1 == 0;
    } else {
      var m := Pow2(k) - 1;
      assert m / 2 == Pow2(k - 1) - 1 && m % 2 == 1;
      AndMask(x / 2, k - 1);
      HalveMod(x, Pow2(k - 1));
    }
  }

  function Shl(a: nat, k: nat): nat {
    if k == 0 then a else 2 * Shl(a, k - 1)
  }

  function Shr(a: nat, k: nat): nat {
    if k == 0 then a else Shr(a / 2, k - 1)
  }

  /** Masking with a shifted mask is shifting, masking and shifting back. */
  lemma {:induction false} AndShifted(x: nat, mask: nat, k: nat)
    ensures And(x, Shl(mask, k)) == Shl(And(Shr(x, k), mask), k)
  {
    if k > 0 {
      AndShifted(x / 2, mask, k - 1);
    }
  }

  lemma {:induction false} ShiftIsScale(a: nat, k: nat)
    ensures Shl(a, k) == Pow2(k) * a
    ensures Shr(a, k) == a / Pow2(k)
  {
    if k == 0 {
      assert a / 1 == a;
    } else {
      var p := Pow2(k - 1);
      ShlStep(a, k);
      ShiftIsScale(a / 2, k - 1);
      HalveMod(a, p);
    }
  }

  lemma {:induction false} ShlStep(a: nat, k: nat)
    ensures Shl(a, k) == Pow2(k) * a
  {
    if k > 0 {
      ShlStep(a, k - 1);
      MulTwo(a, Pow2(k - 1));
    }
  }

  lemma MulTwo(a: nat, b: nat)
    ensures (2 * b) * a == 2 * (b * a)
  {
  }

  /** Masking a field of m bits that starts at bit k, as quotient and remainder. */
  lemma AndField(x: nat, k: nat, m: nat, shift: nat, width: nat, mask: nat)
    requires shift == Pow2(k) && width == Pow2(m) && mask == shift * (width - 1)
    ensures And(x, mask) == shift * (x / shift % width)
  {
    ShiftIsScale(width - 1, k);
    AndShifted(x, width - 1, k);
    AndMask(Shr(x, k), m);
    ShiftIsScale(x, k);
    ShiftIsScale(Shr(x, k) % width, k);
  }

  /** Clearing the low k bits of an n-bit word. */
  lemma {:induction false} AndClearLow(x: nat, k: nat, n: nat)
    requires k <= n && x < Pow2(n)
    ensures Pow2(k) <= Pow2(n)
    ensures And(x, Pow2(n) - Pow2(k)) == x - x % Pow2(k)
  {
    if n == 0 {
    } else if k == 0 {
      assert x % 1 == 0;
      AndMask(x, n);
      DivModUnique(x, Pow2(n), 0, x);
    } else {
      AndClearLow(x / 2, k - 1, n - 1);
      HalveMod(x, Pow2(k - 1));
      assert (Pow2(n) - Pow2(k)) / 2 == Pow2(n - 1) - Pow2(k - 1);
    }
  }

  lemma {:induction false} OrDisjoint(high: nat, low: nat, k: nat)
    requires high % Pow2(k) == 0 && low < Pow2(k)
    ensures Or(high, low) == high + low
  {
    if k > 0 && high > 0 && low > 0 {
      HalveMod(high, Pow2(k - 1));
      OrDisjoint(high / 2, low / 2, k - 1);
    }
  }

  lemma {:induction false} BitwiseBound(a: nat, b: nat, n: nat)
    requires a < Pow2(n) && b < Pow2(n)
    ensures And(a, b) < Pow2(n) && Or(a, b) < Pow2(n) && Xor(a, b) < Pow2(n)
  {
    if n > 0 {
      BitwiseBound(a / 2, b / 2, n - 1);
    }
  }

  // The operators on 64-bit words.
  function And64(a: u64, b: u64): u64 { BitwiseBound64(a, b); And(a, b) }
  function Or64(a: u64, b: u64): u64 { BitwiseBound64(a, b); Or(a, b) }
  function Xor64(a: u64, b: u64): u64 { BitwiseBound64(a, b); Xor(a, b) }

  lemma BitwiseBound64(a: u64, b: u64)
    ensures And(a, b) < TWO_64 && Or(a, b) < TWO_64 && Xor(a, b) < TWO_64
  {
    Pow64();
    BitwiseBound(a, b, 64);
  }

  lemma {:induction false} PowAdd(m: nat, n: nat)
    ensures Pow2(m + n) == Pow2(m) * Pow2(n)
  {
    if m > 0 {
      PowAdd(m - 1, n);
      assert 2 * (Pow2(m - 1) * Pow2(n)) == (2 * Pow2(m - 1)) * Pow2(n);
    }
  }

  lemma Pow64()
    ensures Pow2(32) == TWO_32 && Pow2(64) == TWO_64
  {
    Pow4();
    hide Pow2;
    PowAdd(4, 4);
    PowAdd(8, 8);
    PowAdd(16, 16);
    PowAdd(32, 32);
  }

  lemma Pow4()
    ensures Pow2(4) == 16
  {
    assert Pow2(2) == 4;
  }

  /** The powers of two that the decoder's masks need. */
  lemma Powers()
    ensures Pow2(1) == 2 && Pow2(3) == 8 && Pow2(4) == 16 && Pow2(5) == 32 && Pow2(6) == 64
    ensures Pow2(7) == 0x80 && Pow2(8) == 0x100 && Pow2(10) == 0x400 && Pow2(11) == 0x800
    ensures Pow2(12) == 0x1000 && Pow2(20) == 0x10_0000 && Pow2(31) == 0x8000_0000
    ensures Pow2(32) == TWO_32 && Pow2(64) == TWO_64
  {
    assert Pow2(1) == 2 && Pow2(2) == 4 && Pow2(3) == 8 && Pow2(4) == 16;
    PowAdd(4, 1); PowAdd(4, 2); PowAdd(4, 3); PowAdd(4, 4);
    PowAdd(8, 2); PowAdd(8, 3); PowAdd(8, 4); PowAdd(8, 12); PowAdd(20, 11);
    Pow64();
  }

  lemma Mask3(x: nat) ensures And(x, 0x7) == x % 8 { Powers(); AndMask(x, 3); }
  lemma Mask5(x: nat) ensures And(x, 0x1f) == x % 32 { Powers(); AndMask(x, 5); }
  lemma Mask6(x: nat) ensures And(x, 0x3f) == x % 64 { Powers(); AndMask(x, 6); }
  lemma Mask7(x: nat) ensures And(x, 0x7f) == x % 128 { Powers(); AndMask(x, 7); }

  lemma Or5(high: nat, low: nat)
    requires high % 32 == 0 && low < 32
    ensures Or(high, low) == high + low
  {
    Powers(); OrDisjoint(high, low, 5);
  }

  lemma Or11(high: nat, low: nat)
    requires high % 0x800 == 0 && low < 0x800
    ensures Or(high, low) == high + low
  {
    Powers(); OrDisjoint(high, low, 11);
  }

  lemma Or12(high: nat, low: nat)
    requires high % 0x1000 == 0 && low < 0x1000
    ensures Or(high, low) == high + low
  {
    Powers(); OrDisjoint(high, low, 12);
  }

  lemma Or20(high: nat, low: nat)
    requires high % 0x10_0000 == 0 && low < 0x10_0000
    ensures Or(high, low) == high + low
  {
    Powers(); OrDisjoint(high, low, 20);
  }

  /** C++ `/` and `%` on signed integers: the quotient is truncated toward zero. */
  function TruncDiv(a: int, b: int): int
    requires b != 0
  {
    if a >= 0 then (if b > 0 then a / b else -(a / (-b)))
    else if b > 0 then -((-a) / b) else (-a) / (-b)
  }

  function TruncRem(a: int, b: int): int
    requires b != 0
  {
    a - b * TruncDiv(a, b)
  }

  // ---- what the operators compute -------------------------------------------------

  /** Bit n of a natural number. */
  predicate Bit(x: nat, n: nat) { x / Pow2(n) % 2 == 1 }

  lemma BitHalf(x: nat, n: nat)
    requires n > 0
    ensures Bit(x, n) <==> Bit(x / 2, n - 1)
  {
    HalveMod(x, Pow2(n - 1));
  }

  lemma BitZero(n: nat)
    ensures !Bit(0, n)
  {
    DivModUnique(0, Pow2(n), 0, 0);
  }

  /** Every operator works bit by bit. */
  lemma {:induction false} OperatorBits(a: nat, b: nat, n: nat)
    ensures Bit(And(a, b), n) <==> Bit(a, n) && Bit(b, n)
    ensures Bit(Or(a, b), n) <==> Bit(a, n) || Bit(b, n)
    ensures Bit(Xor(a, b), n) <==> Bit(a, n) != Bit(b, n)
  {
    if n == 0 {
      LowBits(a, b);
    } else {
      hide Bit;
      Halves(a, b);
      BitHalf(a, n);
      BitHalf(b, n);
      BitHalf(And(a, b), n);
      BitHalf(Or(a, b), n);
      BitHalf(Xor(a, b), n);
      OperatorBits(a / 2, b / 2, n - 1);
    }
  }

  lemma LowBits(a: nat, b: nat)
    ensures Bit(And(a, b), 0) <==> Bit(a, 0) && Bit(b, 0)
    ensures Bit(Or(a, b), 0) <==> Bit(a, 0) || Bit(b, 0)
    ensures Bit(Xor(a, b), 0) <==> Bit(a, 0) != Bit(b, 0)
  {
    assert forall x: nat :: Bit(x, 0) <==> x % 2 == 1;
  }

  lemma Halves(a: nat, b: nat)
    ensures And(a, b) / 2 == And(a / 2, b / 2)
    ensures Or(a, b) / 2 == Or(a / 2, b / 2)
    ensures Xor(a, b) / 2 == Xor(a / 2, b / 2)
  {
  }

  /** q and r are the quotient of a by b, truncated toward zero, and its remainder, which is zero
      or has the sign of a. */
  predicate Truncates(a: int, b: int, q: int, r: int) {
    && a == b * q + r && (r == 0 || (r > 0 <==> a > 0))
    && -(if b < 0 then -b else b) < r < if b < 0 then -b else b
  }

  lemma TruncDivides(a: int, b: int)
    requires b != 0
    ensures Truncates(a, b, TruncDiv(a, b), TruncRem(a, b))
  {
    hide Truncates;
    var (m, d) := (if a < 0 then -a else a, if b < 0 then -b else b);
    var k := m / d;
    Signed(m, d, k, m % d);
    assert a == (if a < 0 then -m else m) && b == if b < 0 then -d else d;
    assert TruncDiv(a, b) == if (a < 0) == (b < 0) then k else -k;
  }

  /** The quotient and the remainder of magnitudes, with the signs put back. */
  lemma Signed(m: int, d: int, k: int, r: int)
    requires m >= 0 && k >= 0 && d > 0 && m == d * k + r && 0 <= r < d
    ensures Truncates(m, d, k, m - d * k) && Truncates(-m, d, -k, -m - d * -k)
    ensures Truncates(m, -d, -k, m - -d * -k) && Truncates(-m, -d, k, -m - -d * k)
  {
    assert d * k >= 0;
    assert d * -k == -(d * k) && -d * k == -(d * k) && -d * -k == d * k;
  }
}
