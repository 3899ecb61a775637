/** What the operations of the instruction set compute, stated without the functions that compute
    it: bit by bit for the logical operations and the shifts, and by the division equation. */
module AluLaws {
  import opened Bits
  import opened Rv64

  /** Bit n of a result is decided by the bits of the operands. */
  lemma LogicalBits(a: u64, b: u64, n: nat)
    ensures Bit(Alu(AND, a, b), n) <==> Bit(a, n) && Bit(b, n)
    ensures Bit(Alu(OR, a, b), n) <==> Bit(a, n) || Bit(b, n)
    ensures Bit(Alu(XOR, a, b), n) <==> Bit(a, n) != Bit(b, n)
  {
    hide Bit, And, Or, Xor;
    OperatorBits(a, b, n);
  }

  // ---- shifts -----------------------------------------------------------------------------

  lemma PowMore(m: nat, n: nat)
    requires m <= n
    ensures Pow2(n) == Pow2(m) * Pow2(n - m)
  {
    PowAdd(m, n - m);
  }

  /** Whole multiples do not change the remainder, nor the bits below. */
  lemma AddWhole(k: int, i: int, d: int)
    requires d > 0
    ensures (k * d + i) / d == k + i / d && (k * d + i) % d == i % d
  {
    assert (k + i / d) * d == k * d + i / d * d;
    DivModUnique(k * d + i, d, k + i / d, i % d);
  }

  /** Dividing twice is dividing by the product. */
  lemma DivDiv(x: int, d: int, e: int)
    requires d > 0 && e > 0
    ensures d * e > 0 && x / (d * e) == x / d / e
  {
    var (q, r) := (x / d, x % d);
    var (p, t) := (q / e, q % e);
    MulLeast(d, e);
    assert x == q * d + r && q == p * e + t;
    Regroup(p, e, t, d);
    Under(t, e, r, d);
    DivModUnique(x, d * e, p, t * d + r);
  }

  lemma Regroup(p: int, e: int, t: int, d: int)
    ensures (p * e + t) * d == p * (d * e) + t * d
  {
    assert p * e * d == p * (d * e);
  }

  lemma Under(t: int, e: int, r: int, d: int)
    requires 0 <= t < e && 0 <= r < d
    ensures 0 <= t * d + r < d * e
  {
    assert (e - 1 - t) * d >= 0;
    assert (e - 1 - t) * d == d * e - d - t * d;
  }

  /** Bit n of the word that a number leaves. */
  lemma WrapBit(i: int, n: nat)
    requires n < 64
    ensures Bit(U64(i), n) <==> i / Pow2(n) % 2 == 1
  {
    hide Pow2;
    Pow64();
    PowMore(n, 64);
    PowMore(1, 64 - n);
    assert Pow2(1) == 2 by { Powers(); }
    Wrapped(i, Pow2(n), Pow2(64 - n), Pow2(63 - n), TWO_64);
  }

  lemma Wrapped(i: int, p: int, rest: int, half: int, total: int)
    requires p > 0 && half > 0 && rest == 2 * half && p * rest == total && total > 0
    ensures i % total / p % 2 == i / p % 2
  {
    var (k, r) := (i / total, i % total);
    assert i == k * total + r;
    Scaled(k, p, rest);
    AddWhole(k * rest, r, p);
    Scaled(k, 2, half);
    AddWhole(k * half, r / p, 2);
  }

  lemma Scaled(k: int, p: int, rest: int)
    ensures k * (p * rest) == k * rest * p
  {
  }

  lemma ScaledBit(a: nat, k: nat, n: nat)
    ensures a * Pow2(k) / Pow2(n) % 2 == 1 <==> n >= k && Bit(a, n - k)
  {
    hide Pow2;
    if n >= k {
      PowMore(k, n);
      DivDiv(a * Pow2(k), Pow2(k), Pow2(n - k));
      AddWhole(a, 0, Pow2(k));
    } else {
      PowMore(n, k);
      PowMore(1, k - n);
      assert Pow2(1) == 2 by { Powers(); }
      ShiftedOut(a, Pow2(n), Pow2(k - n), Pow2(k - n - 1));
    }
  }

  /** A left shift moves every bit up and brings in zeros. */
  lemma LeftShiftBits(a: u64, b: u64, n: nat)
    requires n < 64
    ensures Bit(Alu(SLL, a, b), n) <==> n >= b % 64 && Bit(a, n - b % 64)
  {
    hide Pow2;
    WrapBit(a * Pow2(b % 64), n);
    ScaledBit(a, b % 64, n);
  }

  lemma ShiftedOut(a: int, p: int, rest: int, half: int)
    requires p > 0 && half > 0 && rest == 2 * half
    ensures a * (p * rest) / p % 2 == 0
  {
    Scaled(a, p, rest);
    AddWhole(a * rest, 0, p);
    Scaled(a, 2, half);
    AddWhole(a * half, 0, 2);
  }

  /** A logical right shift moves every bit down and brings in zeros. */
  lemma RightShiftBits(a: u64, b: u64, n: nat)
    ensures Bit(Alu(SRL, a, b), n) <==> Bit(a, n + b % 64)
  {
    hide Pow2;
    var k: nat := b % 64;
    PowMore(k, n + k);
    DivDiv(a, Pow2(k), Pow2(n));
    Smaller(a, Pow2(k));
  }

  lemma Smaller(a: nat, d: int)
    requires d > 0
    ensures 0 <= a / d <= a
  {
    var k := a / d;
    assert a == d * k + a % d;
    if k > 0 { MulLeast(d, k); }
  }

  /** An arithmetic right shift moves every bit down and brings in copies of the sign bit. */
  lemma ArithmeticShiftBits(a: u64, b: u64, n: nat)
    requires n < 64
    ensures Bit(Alu(SRA, a, b), n) <==> Bit(a, if n + b % 64 < 64 then n + b % 64 else 63)
  {
    hide Pow2;
    var k: nat := b % 64;
    WrapBit(S64(a) / Pow2(k), n);
    PowMore(k, n + k);
    DivDiv(S64(a), Pow2(k), Pow2(n));
    assert U64(S64(a)) == a;
    if n + k < 64 {
      WrapBit(S64(a), n + k);
    } else {
      PowMore(64, n + k);
      Pow64();
      MulLeast(Pow2(n + k - 64), TWO_64);
      SignOnly(a, Pow2(n + k));
    }
  }

  /** Beyond the word a signed number shows its sign only. */
  lemma SignOnly(a: u64, d: int)
    requires d >= TWO_64
    ensures S64(a) / d % 2 == 1 <==> Bit(a, 63)
  {
    Powers();
    PowMore(31, 63);
    assert Pow2(63) == TWO_63;
    if a < TWO_63 { DivModUnique(S64(a), d, 0, S64(a)); } else { DivModUnique(S64(a), d, -1, S64(a) + d); }
  }

  // ---- division ---------------------------------------------------------------------------

  /** The signed reading is the one number of the signed range that is the word modulo 2^64. */
  lemma SignedReading(a: u64)
    ensures -TWO_63 <= S64(a) < TWO_63 && U64(S64(a)) == a
    ensures forall i | -TWO_63 <= i < TWO_63 && U64(i) == a :: i == S64(a)
  {
  }

  /** DIV and REM are truncating division, total as the standard has it: all ones and the dividend
      for a zero divisor, the dividend and zero for the one quotient that does not fit. */
  lemma SignedDivision(a: u64, b: u64)
    ensures var (q, r) := (S64(Alu(DIV, a, b)), S64(Alu(REM, a, b)));
            if b == 0 then q == -1 && r == S64(a)
            else if S64(a) == -TWO_63 && S64(b) == -1 then q == S64(a) && r == 0
            else Truncates(S64(a), S64(b), q, r)
  {
    hide TruncDiv, TruncRem;
    if b != 0 {
      var (x, y) := (S64(a), S64(b));
      TruncDivides(x, y);
      QuotientFits(x, y, TruncDiv(x, y), TruncRem(x, y), TWO_63);
    }
  }

  /** The quotient and the remainder of two words fit a word, but for one. */
  lemma QuotientFits(x: int, y: int, q: int, r: int, half: int)
    requires half >= 2 && -half <= x < half && -half <= y < half && y != 0 && Truncates(x, y, q, r)
    ensures -half <= r < half
    ensures if x == -half && y == -1 then q == half && r == 0 else -half <= q < half
  {
    Magnitude(x, y, q, r);
    if y == 1 || y == -1 { assert r == 0; } else { QuotientHalves(x, y, q, r); }
  }

  lemma Magnitude(x: int, y: int, q: int, r: int)
    requires y != 0 && Truncates(x, y, q, r)
    ensures y == 1 ==> q == x
    ensures y == -1 ==> q == -x
  {
  }

  function Abs(x: int): int { if x < 0 then -x else x }

  lemma QuotientHalves(x: int, y: int, q: int, r: int)
    requires (y < -1 || y > 1) && Truncates(x, y, q, r)
    ensures 2 * Abs(q) <= Abs(x)
  {
    var z := y * q;
    if q != 0 { ProductMagnitude(y, q, z); }
    assert x == z + r;
  }

  lemma ProductMagnitude(y: int, q: int, z: int)
    requires (y < -1 || y > 1) && q != 0 && z == y * q
    ensures Abs(z) >= Abs(y) && Abs(z) >= 2 * Abs(q)
  {
    SignsOf(y, q);
    AtLeastTwice(Abs(q), Abs(y));
  }

  lemma AtLeastTwice(q: int, y: int)
    requires q > 0 && y >= 2
    ensures y * q >= 2 * q && y * q >= y
  {
    assert (y - 2) * q >= 0 && y * (q - 1) >= 0;
  }

  lemma SignsOf(y: int, q: int)
    ensures -y * q == -(y * q) && y * -q == -(y * q) && -y * -q == y * q
  {
  }

  // ---- words ------------------------------------------------------------------------------

  /** A word result is the signed 32-bit number that is congruent to the exact one. */
  lemma WordReading(i: int)
    ensures -0x8000_0000 <= S64(Word(i)) < 0x8000_0000 && U32(S64(Word(i))) == U32(i)
  {
  }

  lemma WordKept(i: int)
    requires -0x8000_0000 <= i < 0x8000_0000
    ensures S64(Word(i)) == i
  {
  }

  /** The same for DIVW and REMW. */
  lemma SignedWordDivision(a: u64, b: u64)
    ensures var (x, y, q, r) := (S32(U32(a)), S32(U32(b)), S64(Alu32(DIV, a, b)), S64(Alu32(REM, a, b)));
            if y == 0 then q == -1 && r == x
            else if x == -0x8000_0000 && y == -1 then q == x && r == 0
            else Truncates(x, y, q, r)
  {
    hide TruncDiv, TruncRem, Word;
    var (x, y) := (S32(U32(a)), S32(U32(b)));
    if y == 0 {
      WordKept(-1);
      WordKept(x);
      WordSame(a);
    } else {
      TruncDivides(x, y);
      var (q, r) := (TruncDiv(x, y), TruncRem(x, y));
      QuotientFits(x, y, q, r, 0x8000_0000);
      WordKept(r);
      if x == -0x8000_0000 && y == -1 { WordWraps(); } else { WordKept(q); }
    }
  }

  lemma WordSame(a: u64)
    ensures Word(a) == Word(S32(U32(a)))
  {
  }

  lemma WordWraps()
    ensures S64(Word(0x8000_0000)) == -0x8000_0000
  {
  }

  /** The low bits of a word result are those of the exact one; the others are copies of bit 31. */
  lemma WordBit(i: int, n: nat)
    requires n < 32
    ensures Bit(Word(i), n) <==> i / Pow2(n) % 2 == 1
    ensures Bit(U32(i), n) <==> i / Pow2(n) % 2 == 1
  {
    hide Pow2;
    var w := S32(U32(i));
    WrapBit(w, n);
    Pow64();
    PowMore(n, 32);
    PowMore(1, 32 - n);
    assert Pow2(1) == 2 by { Powers(); }
    var (p, rest, half) := (Pow2(n), Pow2(32 - n), Pow2(31 - n));
    Wrapped(i, p, rest, half, TWO_32);
    Wrapped(w, p, rest, half, TWO_32);
    SameWord(i);
  }

  lemma SameWord(i: int)
    ensures U32(S32(U32(i))) == U32(i)
  {
  }

  /** SLLW moves every bit of the low half up and brings in zeros. */
  lemma LeftShiftWordBits(a: u64, b: u64, n: nat)
    requires n < 32
    ensures Bit(Alu32(SLL, a, b), n) <==> n >= b % 32 && Bit(a, n - b % 32)
  {
    hide Pow2, Word;
    WordBit(a * Pow2(b % 32), n);
    ScaledBit(a, b % 32, n);
  }

  /** SRLW moves the bits of the low half down and brings in zeros. */
  lemma RightShiftWordBits(a: u64, b: u64, n: nat)
    requires n < 32
    ensures Bit(Alu32(SRL, a, b), n) <==> Bit(U32(a), n + b % 32)
  {
    hide Pow2, Word;
    var k: nat := b % 32;
    WordBit(U32(a) / Pow2(k), n);
    PowMore(k, n + k);
    DivDiv(U32(a), Pow2(k), Pow2(n));
  }

  /** SRAW moves the bits of the low half down and brings in copies of bit 31. */
  lemma ArithmeticShiftWordBits(a: u64, b: u64, n: nat)
    requires n < 32
    ensures Bit(Alu32(SRA, a, b), n) <==> Bit(U32(a), if n + b % 32 < 32 then n + b % 32 else 31)
  {
    hide Pow2, Word;
    var (k: nat, w) := (b % 32, S32(U32(a)));
    WordBit(w / Pow2(k), n);
    PowMore(k, n + k);
    DivDiv(w, Pow2(k), Pow2(n));
    SameWord(a);
    if n + k < 32 {
      WordBit(w, n + k);
    } else {
      PowMore(32, n + k);
      Pow64();
      MulLeast(Pow2(n + k - 32), TWO_32);
      WordSignOnly(U32(a), Pow2(n + k));
    }
  }

  lemma WordSignOnly(a: u32, d: int)
    requires d >= TWO_32
    ensures S32(a) / d % 2 == 1 <==> Bit(a, 31)
  {
    Powers();
    if a < 0x8000_0000 { DivModUnique(S32(a), d, 0, S32(a)); } else { DivModUnique(S32(a), d, -1, S32(a) + d); }
  }

  // ---- comparison and addition ------------------------------------------------------------

  /** Signed order in terms of the bits: a negative number is below the others, and of two with the
      same sign the unsigned order decides. */
  lemma SignedOrder(a: u64, b: u64)
    ensures Alu(SLT, a, b) == if (if Bit(a, 63) != Bit(b, 63) then Bit(a, 63) else a < b) then 1 else 0
    ensures Alu(SLTU, a, b) == if a != b && Alu(SLTU, b, a) == 0 then 1 else 0
  {
    Powers();
    PowMore(31, 63);
    assert Pow2(63) == TWO_63;
  }

  /** The branches decide by the comparisons, and come in pairs. */
  lemma BranchesCompare(a: u64, b: u64)
    ensures Taken(BEQ, a, b) <==> Alu(SUB, a, b) == 0
    ensures Taken(BLT, a, b) <==> Alu(SLT, a, b) == 1
    ensures Taken(BLTU, a, b) <==> Alu(SLTU, a, b) == 1
    ensures Taken(BNE, a, b) <==> !Taken(BEQ, a, b)
    ensures Taken(BGE, a, b) <==> !Taken(BLT, a, b)
    ensures Taken(BGEU, a, b) <==> !Taken(BLTU, a, b)
  {
  }

  /** Addition and subtraction undo each other, with and without wrap-around, also on words. */
  lemma AddThenSub(a: u64, b: u64)
    ensures Alu(SUB, Alu(ADD, a, b), b) == a && Alu(ADD, Alu(SUB, a, b), b) == a && Alu(ADD, a, 0) == a
    ensures Alu(ADD, a, b) == Alu(ADD, b, a)
    ensures U32(Alu32(SUB, Alu32(ADD, a, b), b)) == U32(a)
  {
    WordCongruent(a + b);
    WordCongruent(Alu32(ADD, a, b) - b);
    Congruent(Alu32(ADD, a, b), a, b);
  }

  lemma WordCongruent(i: int)
    ensures U32(Word(i)) == U32(i)
  {
  }

  lemma Congruent(c: int, a: int, b: int)
    requires U32(c) == U32(a + b)
    ensures U32(c - b) == U32(a)
  {
    var k := (c - (a + b)) / TWO_32;
    assert c == TWO_32 * (c / TWO_32) + U32(c) && a + b == TWO_32 * ((a + b) / TWO_32) + U32(a + b);
    AddWhole(c / TWO_32 - (a + b) / TWO_32, a, TWO_32);
  }

  // ---- jumps ------------------------------------------------------------------------------

  /** JALR goes to the sum without its lowest bit, and leaves the address behind it. */
  lemma JumpIsEven(s: State, rd: Reg, rs1: Reg, imm: int)
    requires s.Ok()
    ensures var t := Exec(Jalr(rd, rs1, imm), s).state;
            && t.pc % 2 == 0 && t.pc / 2 == U64(s.regs[rs1] + imm) / 2
            && (rd != 0 ==> t.regs[rd] == U64(s.pc + 4)) && t.regs[0] == 0
  {
  }

  // ---- loads ------------------------------------------------------------------------------

  /** The number of bits a load reads, as the power of two of them. */
  function Range(op: LoadOp): int {
    match op
    case LB | LBU => 0x100
    case LH | LHU => 0x1_0000
    case LW | LWU => 0x1_0000_0000
    case LD => 0x1_0000_0000_0000_0000
  }

  /** A signed load yields the number of its signed range that is congruent to what was read, an
      unsigned one that number itself. */
  lemma LoadedValue(op: LoadOp, v: nat)
    requires v < Range(op)
    ensures var (r, n) := (Extend(op, v), Range(op));
            if op in {LB, LH, LW, LD} then S64(r) == if 2 * v < n then v else v - n else r == v
  {
  }
}
