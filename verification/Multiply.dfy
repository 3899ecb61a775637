/** The 64 x 64 -> 128 bit multiplication that the virtual machine falls back to where
    the compiler has no 128-bit integers.  Every operation is written with the wrap-around
    of the 64-bit type it is computed in. */
module Multiply {
  import opened Bits

  function Add64(a: u64, b: u64): u64 { U64(a + b) }
  function Mul64(a: u64, b: u64): u64 { U64(a * b) }
  function Low32(a: u64): u64 { a % TWO_32 }    // a & 0xFFFFFFFF
  function High32(a: u64): u64 { a / TWO_32 }   // a >> 32
  function Not64(a: u64): u64 { TWO_64 - 1 - a }

  datatype Wide = Wide(hi: u64, lo: u64) {
    function Value(): nat { hi * TWO_64 + lo }
  }

  function Mulu64_128(a: u64, b: u64): Wide {
    var (a_lo, a_hi) := (Low32(a), High32(a));
    var (b_lo, b_hi) := (Low32(b), High32(b));
    var p0 := Mul64(a_lo, b_lo);
    var p1 := Mul64(a_lo, b_hi);
    var p2 := Mul64(a_hi, b_lo);
    var p3 := Mul64(a_hi, b_hi);
    var mid := Add64(Add64(High32(p0), Low32(p1)), Low32(p2));
    // The two halves do not overlap, so `|` adds them (LowHalvesDisjoint).
    var lo := Or64(Low32(p0), U64(mid * TWO_32));
    var hi := Add64(Add64(Add64(p3, High32(p1)), High32(p2)), High32(mid));
    Wide(hi, lo)
  }

  /** Two's complement of a 128-bit value, by complementing and carrying. */
  function Negate(w: Wide): Wide {
    var (hi, lo) := (Not64(w.hi), Add64(Not64(w.lo), 1));
    Wide(if lo == 0 then Add64(hi, 1) else hi, lo)
  }

  function Abs64(a: u64): u64 { if S64(a) < 0 then U64(0 - a) else a }

  function Mulh(a: u64, b: u64): u64 {
    var w := Mulu64_128(Abs64(a), Abs64(b));
    if (S64(a) < 0) != (S64(b) < 0) then Negate(w).hi else w.hi
  }

  function Mulhsu(a: u64, b: u64): u64 {
    if S64(a) < 0 then Negate(Mulu64_128(U64(0 - a), b)).hi
    else Mulu64_128(a, b).hi
  }

  function Mulhu(a: u64, b: u64): u64 { Mulu64_128(a, b).hi }

  // ---- correctness ------------------------------------------------------------------

  lemma ProductBound(x: nat, y: nat, m: nat)
    requires x <= m && y <= m
    ensures 0 <= x * y <= m * m
  {
    assert x * y <= m * y <= m * m;
  }

  lemma SchoolProduct(al: nat, ah: nat, bl: nat, bh: nat)
    ensures (ah * TWO_32 + al) * (bh * TWO_32 + bl)
         == (ah * bh) * TWO_64 + (al * bh + ah * bl) * TWO_32 + al * bl
  {
    var (x, y) := (ah * TWO_32, bh * TWO_32);
    Distribute(x + al, y, bl);
    Distribute2(x, al, y);
    Distribute2(x, al, bl);
    Scale(ah, bh); Scale(bh, al); Scale(ah, bl);
    assert x * y == (ah * bh) * TWO_64;
  }

  lemma Distribute(a: int, b: int, c: int)
    ensures a * (b + c) == a * b + a * c
  {
  }

  lemma Distribute2(a: int, b: int, c: int)
    ensures (a + b) * c == a * c + b * c
  {
  }

  lemma Scale(a: int, b: int)
    ensures (a * TWO_32) * b == (a * b) * TWO_32
    ensures b * (a * TWO_32) == (a * b) * TWO_32
    ensures (a * TWO_32) * (b * TWO_32) == (a * b) * TWO_64
  {
  }

  lemma LowHalvesDisjoint(low: u64, mid: u64)
    requires low < TWO_32
    ensures Or64(low, U64(mid * TWO_32)) == low + U64(mid * TWO_32)
  {
    var high: u64 := U64(mid * TWO_32);
    assert high == (mid % TWO_32) * TWO_32;
    Pow64();
    OrCommutes(low, high);
    OrDisjoint(high, low, 32);
  }

  lemma {:induction false} OrCommutes(a: nat, b: nat)
    ensures Or(a, b) == Or(b, a)
  {
    if a > 0 && b > 0 { OrCommutes(a / 2, b / 2); }
  }

  /** Four partial products, added up in 32-bit columns. */
  lemma ColumnSum(p0: nat, p1: nat, p2: nat, p3: nat, mid: nat)
    requires mid == p0 / TWO_32 + p1 % TWO_32 + p2 % TWO_32
    ensures (p3 + p1 / TWO_32 + p2 / TWO_32 + mid / TWO_32) * TWO_64 + p0 % TWO_32 + mid * TWO_32 % TWO_64
         == p3 * TWO_64 + (p1 + p2) * TWO_32 + p0
  {
    assert mid * TWO_32 % TWO_64 == (mid % TWO_32) * TWO_32;
  }

  lemma HighColumnFits(hi: nat, rest: nat, product: nat)
    requires product == hi * TWO_64 + rest && product < TWO_64 * TWO_64
    ensures hi < TWO_64
  {
  }

  lemma AddFour(w: nat, x: nat, y: nat, z: nat)
    requires w + x + y + z < TWO_64
    ensures Add64(Add64(w, x), y) == w + x + y
    ensures Add64(Add64(Add64(w, x), y), z) == w + x + y + z
  {
  }

  /** The unbounded form of the multiplier, on partial products that fit. */
  lemma NoOverflow(p0: u64, p1: u64, p2: u64, p3: u64, product: nat)
    requires product == p3 * TWO_64 + (p1 + p2) * TWO_32 + p0 && product < TWO_64 * TWO_64
    ensures var mid := Add64(Add64(High32(p0), Low32(p1)), Low32(p2));
            Add64(Add64(Add64(p3, High32(p1)), High32(p2)), High32(mid)) * TWO_64
              + (Low32(p0) + U64(mid * TWO_32)) == product
  {
    var mid := High32(p0) + Low32(p1) + Low32(p2);
    AddFour(High32(p0), Low32(p1), Low32(p2), 0);
    ColumnSum(p0, p1, p2, p3, mid);
    var hi := p3 + High32(p1) + High32(p2) + High32(mid);
    HighColumnFits(hi, Low32(p0) + U64(mid * TWO_32), product);
    AddFour(p3, High32(p1), High32(p2), High32(mid));
  }

  /** The column sums never carry out of 64 bits and the two halves are the product. */
  lemma Mulu64_128Exact(a: u64, b: u64)
    ensures Mulu64_128(a, b).Value() == a * b
  {
    var (al, ah, bl, bh) := (Low32(a), High32(a), Low32(b), High32(b));
    var m := TWO_32 - 1;
    ProductBound(al, bl, m); ProductBound(al, bh, m);
    ProductBound(ah, bl, m); ProductBound(ah, bh, m);
    ProductBound(a, b, TWO_64 - 1);
    var (p0, p1, p2, p3) := (Mul64(al, bl), Mul64(al, bh), Mul64(ah, bl), Mul64(ah, bh));
    assert p0 == al * bl && p1 == al * bh && p2 == ah * bl && p3 == ah * bh;
    SchoolProduct(al, ah, bl, bh);
    NoOverflow(p0, p1, p2, p3, a * b);
    LowHalvesDisjoint(Low32(p0), Add64(Add64(High32(p0), Low32(p1)), Low32(p2)));
  }

  lemma NegateIsComplement(w: Wide)
    ensures Negate(w).Value() == (if w.Value() == 0 then 0 else TWO_64 * TWO_64 - w.Value())
  {
  }

  /** The high half of a two's complement product is the floor of the product over 2^64. */
  lemma HighOfNegative(w: Wide, product: int)
    requires product == 0 - w.Value()
    ensures Negate(w).hi == U64(product / TWO_64)
  {
    NegateIsComplement(w);
    var n := Negate(w);
    if w.Value() == 0 {
    } else {
      assert product == (n.hi - TWO_64) * TWO_64 + n.lo;
      DivModUnique(product, TWO_64, n.hi - TWO_64, n.lo);
    }
  }

  lemma HighOfPositive(w: Wide, product: int)
    requires product == w.Value()
    ensures w.hi == U64(product / TWO_64)
  {
    DivModUnique(product, TWO_64, w.hi, w.lo);
  }

  lemma SignedProduct(x: int, y: int)
    ensures (-x) * (-y) == x * y && (-x) * y == -(x * y) && x * (-y) == -(x * y)
  {
  }

  /** A signed product from the magnitudes and the signs of its factors. */
  lemma ProductOfMagnitudes(a: u64, b: u64)
    ensures S64(a) * S64(b) ==
      if (S64(a) < 0) != (S64(b) < 0) then 0 - Abs64(a) * Abs64(b) else Abs64(a) * Abs64(b)
  {
    SignedProduct(Abs64(a), Abs64(b));
    assert S64(a) == if S64(a) < 0 then 0 - Abs64(a) else Abs64(a);
    assert S64(b) == if S64(b) < 0 then 0 - Abs64(b) else Abs64(b);
  }

  /** MULH: the signed high word, with the sign fixed up after an unsigned product. */
  lemma MulhExact(a: u64, b: u64)
    ensures Mulh(a, b) == U64(S64(a) * S64(b) / TWO_64)
  {
    var (x, y) := (Abs64(a), Abs64(b));
    var w := Mulu64_128(x, y);
    Mulu64_128Exact(x, y);
    ProductOfMagnitudes(a, b);
    if (S64(a) < 0) != (S64(b) < 0) {
      HighOfNegative(w, S64(a) * S64(b));
    } else {
      HighOfPositive(w, S64(a) * S64(b));
    }
  }

  lemma ProductWithUnsigned(a: u64, b: u64)
    ensures S64(a) * b == if S64(a) < 0 then 0 - Abs64(a) * b else Abs64(a) * b
  {
    SignedProduct(Abs64(a), b);
    assert S64(a) == if S64(a) < 0 then 0 - Abs64(a) else Abs64(a);
  }

  lemma MulhsuExact(a: u64, b: u64)
    ensures Mulhsu(a, b) == U64(S64(a) * b / TWO_64)
  {
    var w := Mulu64_128(Abs64(a), b);
    Mulu64_128Exact(Abs64(a), b);
    ProductWithUnsigned(a, b);
    if S64(a) < 0 {
      HighOfNegative(w, S64(a) * b);
    } else {
      HighOfPositive(w, S64(a) * b);
    }
  }

  lemma MulhuExact(a: u64, b: u64)
    ensures Mulhu(a, b) == U64(a * b / TWO_64)
  {
    Mulu64_128Exact(a, b);
    HighOfPositive(Mulu64_128(a, b), a * b);
  }

  lemma ModCongruent(x: int, y: int, k: int, d: int)
    requires d > 0 && x == y + k * d
    ensures x % d == y % d
  {
    DivModUnique(x, d, y / d + k, y % d);
  }

  /** The low word does not depend on how the operands are read. */
  lemma LowWordSigned(a: u64, b: u64)
    ensures U64(a * b) == U64(S64(a) * S64(b))
  {
    var (i, j) := (if a < TWO_63 then 0 else 1, if b < TWO_63 then 0 else 1);
    assert S64(a) == a - i * TWO_64 && S64(b) == b - j * TWO_64;
    var k := i * b + j * a - i * j * TWO_64;
    assert a * b == S64(a) * S64(b) + k * TWO_64;
    ModCongruent(a * b, S64(a) * S64(b), k, TWO_64);
  }

  lemma SignedProductBound(a: u64, b: u64)
    ensures -(TWO_63 * TWO_63) <= S64(a) * S64(b) <= TWO_63 * TWO_63
  {
    ProductOfMagnitudes(a, b);
    ProductBound(Abs64(a), Abs64(b), TWO_63);
  }

  lemma PairIsProduct(p: int, hi: u64, lo: u64)
    requires -(TWO_63 * TWO_63) <= p <= TWO_63 * TWO_63
    requires hi == U64(p / TWO_64) && lo == U64(p)
    ensures S64(hi) * TWO_64 + lo == p
  {
  }

  /** MULH:MUL is the exact 128-bit signed product. */
  lemma SignedPairExact(a: u64, b: u64)
    ensures S64(Mulh(a, b)) * TWO_64 + Mul64(a, b) == S64(a) * S64(b)
  {
    MulhExact(a, b);
    LowWordSigned(a, b);
    SignedProductBound(a, b);
    PairIsProduct(S64(a) * S64(b), Mulh(a, b), Mul64(a, b));
  }
}
