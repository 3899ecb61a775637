/** The decoder's mask-and-shift expressions, as the machine computes them, and the
    instruction fields they denote.  A right shift is written as a division. */
module Decoder {
  import opened Bits
  import E = Encoding

  function Opcode(inst: u32): nat { And(inst, 0x7f) }
  function Funct3(inst: u32): nat { And(inst / 0x1000, 0x7) }
  function Funct7(inst: u32): nat { And(inst / 0x200_0000, 0x7f) }
  function Rd(inst: u32): nat { And(inst / 0x80, 0x1f) }
  function Rs1(inst: u32): nat { And(inst / 0x8000, 0x1f) }
  function Rs2(inst: u32): nat { And(inst / 0x10_0000, 0x1f) }

  // Right shifts of signed values are arithmetic: division rounds down.
  function ImmI(inst: u32): int { S32(inst) / 0x10_0000 }

  function ImmS(inst: u32): int {
    S64(U64(Or(And(U64(ImmI(inst)), TWO_64 - 0x20), Rd(inst))))
  }

  function SignBit(inst: u32, scale: nat): u64
    requires scale > 0
  {
    U64(S32(U32(And(inst, 0x8000_0000))) / scale)
  }

  function ImmB(inst: u32): int {
    S64(U64(Or(Or(Or(SignBit(inst, 0x8_0000), And(inst, 0x80) * 16),
                  And(inst / 0x10_0000, 0x7e0)),
               And(inst / 0x80, 0x1e))))
  }

  function ImmJ(inst: u32): int {
    S64(U64(Or(Or(Or(SignBit(inst, 0x800), And(inst, 0xff000)),
                  And(inst / 0x200, 0x800)),
               And(inst / 0x10_0000, 0x7fe))))
  }

  function ImmU(inst: u32): u64 { U64(S32(U32(And(inst, 0xffff_f000)))) }

  // ---- what the expressions mean ----------------------------------------------------

  lemma FieldsAgree(inst: u32)
    ensures var f := E.Split(inst);
            Opcode(inst) == f.opcode && Funct3(inst) == f.funct3 && Funct7(inst) == f.funct7
            && Rd(inst) == f.rd && Rs1(inst) == f.rs1 && Rs2(inst) == f.rs2
  {
    Mask7(inst);
    Mask5(inst / 0x80);
    Mask3(inst / 0x1000);
    Mask5(inst / 0x8000);
    Mask5(inst / 0x10_0000);
    Mask7(inst / 0x200_0000);
  }

  lemma ImmIAgrees(inst: u32)
    ensures ImmI(inst) == E.ImmI(E.Split(inst)) && -0x800 <= ImmI(inst) < 0x800
  {
    var u := inst / 0x10_0000;
    assert u / 32 == inst / 0x200_0000 && u == u % 32 + 32 * (u / 32);
  }

  // The masks, one by one.
  lemma ClearLow5(x: u64) ensures And(x, TWO_64 - 0x20) == x - x % 32 {
    Powers(); AndClearLow(x, 5, 64);
  }
  lemma MaskSign(x: u32) ensures And(x, 0x8000_0000) == 0x8000_0000 * (x / 0x8000_0000) {
    Powers(); AndField(x, 31, 1, 0x8000_0000, 2, 0x8000_0000);
  }
  lemma MaskBit7(x: nat) ensures And(x, 0x80) == 0x80 * (x / 0x80 % 2) {
    Powers(); AndField(x, 7, 1, 0x80, 2, 0x80);
  }
  lemma MaskBit10(x: nat) ensures And(x, 0x400) == 0x400 * (x / 0x400 % 2) {
    Powers(); AndField(x, 10, 1, 0x400, 2, 0x400);
  }
  lemma MaskBit11(x: nat) ensures And(x, 0x800) == 0x800 * (x / 0x800 % 2) {
    Powers(); AndField(x, 11, 1, 0x800, 2, 0x800);
  }
  lemma Mask7e0(x: nat) ensures And(x, 0x7e0) == 32 * (x / 32 % 64) {
    Powers(); AndField(x, 5, 6, 32, 64, 0x7e0);
  }
  lemma Mask1e(x: nat) ensures And(x, 0x1e) == 2 * (x / 2 % 16) {
    Powers(); AndField(x, 1, 4, 2, 16, 0x1e);
  }
  lemma Mask7fe(x: nat) ensures And(x, 0x7fe) == 2 * (x / 2 % 0x400) {
    Powers(); AndField(x, 1, 10, 2, 0x400, 0x7fe);
  }
  lemma Maskff000(x: nat) ensures And(x, 0xff000) == 0x1000 * (x / 0x1000 % 0x100) {
    Powers(); AndField(x, 12, 8, 0x1000, 0x100, 0xff000);
  }
  lemma MaskUpper(x: u32) ensures And(x, 0xffff_f000) == 0x1000 * (x / 0x1000) {
    Powers(); AndField(x, 12, 20, 0x1000, 0x10_0000, 0xffff_f000);
  }

  lemma ImmSAgrees(inst: u32)
    ensures ImmS(inst) == E.ImmS(E.Split(inst))
  {
    hide And, Or, S64, U64, E.ImmI, E.ImmS, E.Split, ImmI, Rd;
    ImmIAgrees(inst);
    FieldsAgree(inst);
    var f := E.Split(inst);
    var u := U64(ImmI(inst));
    ClearLow5(u);
    Or5(u - u % 32, f.rd);
    StoreImm(f, u);
  }

  lemma StoreImm(f: E.Fields, u: u64)
    requires f.Ok() && u == U64(E.ImmI(f))
    ensures S64(U64(u - u % 32 + f.rd)) == E.ImmS(f)
  {
    var v := f.rs2 + 32 * f.funct7;
    ModOfSigned(u, v);
    assert u % 32 == f.rs2;
    SignExtended(u, v, f.rd + 32 * f.funct7);
  }

  /** Replacing the low five bits of a sign-extended twelve-bit value. */
  lemma SignExtended(u: u64, v: nat, w: nat)
    requires v < 0x1000 && w < 0x1000 && v / 32 == w / 32 && u == U64(E.SignExtend(v, 0x800))
    ensures S64(U64(u - v % 32 + w % 32)) == E.SignExtend(w, 0x800)
  {
    assert v < 0x800 <==> w < 0x800;
    assert v - v % 32 + w % 32 == w;
    if v < 0x800 { assert u == v; } else { assert u == v + (TWO_64 - 0x1000); }
  }

  lemma SignBitIs(inst: u32)
    ensures inst / 0x8000_0000 == E.Split(inst).funct7 / 64
    ensures inst / 0x8000_0000 in {0, 1}
    ensures SignBit(inst, 0x8_0000) == U64(-0x1000 * (inst / 0x8000_0000))
    ensures SignBit(inst, 0x800) == U64(-0x10_0000 * (inst / 0x8000_0000))
  {
    MaskSign(inst);
    assert inst / 0x8000_0000 == inst / 0x200_0000 / 64;
  }

  lemma BranchPieces(inst: u32)
    ensures var f := E.Split(inst);
            And(inst, 0x80) == 0x80 * (f.rd % 2)
            && And(inst / 0x10_0000, 0x7e0) == 32 * (f.funct7 % 64)
            && And(inst / 0x80, 0x1e) == 2 * (f.rd / 2)
  {
    MaskBit7(inst);
    Mask7e0(inst / 0x10_0000);
    Mask1e(inst / 0x80);
    BranchDivisions(inst);
  }

  lemma BranchDivisions(inst: u32)
    ensures inst / 0x10_0000 / 32 == inst / 0x200_0000
    ensures inst / 0x200_0000 % 128 % 64 == inst / 0x200_0000 % 64
    ensures var r := inst / 0x80; r % 32 / 2 == r / 2 % 16 && r % 32 % 2 == r % 2
  {
  }

  lemma OrBranch(a: nat, b: nat, c: nat, d: nat)
    requires a % 0x1000 == 0 && b < 2 && c < 64 && d < 16
    ensures Or(Or(Or(a, 0x800 * b), 32 * c), 2 * d) == a + 0x800 * b + 32 * c + 2 * d
  {
    hide And, Or;
    OrBit11(a, b);
    OrBits5To10(a + 0x800 * b, c);
    Or5(a + 0x800 * b + 32 * c, 2 * d);
  }

  lemma OrBit11(a: nat, b: nat)
    requires a % 0x1000 == 0 && b < 2
    ensures Or(a, 0x800 * b) == a + 0x800 * b && (a + 0x800 * b) % 0x800 == 0
  {
    hide And, Or;
    Or12(a, 0x800 * b);
  }

  lemma OrBits5To10(a: nat, c: nat)
    requires a % 0x800 == 0 && c < 64
    ensures Or(a, 32 * c) == a + 32 * c && (a + 32 * c) % 32 == 0
  {
    hide And, Or;
    Or11(a, 32 * c);
  }

  /** A negative power of two, or zero, as a word, with lower bits added. */
  lemma SignAdded(sign: nat, scale: nat, rest: nat)
    requires sign < 2 && rest < scale < TWO_63
    ensures U64(0 - scale * sign) + rest < TWO_64
    ensures S64(U64(U64(0 - scale * sign) + rest)) == rest - scale * sign
  {
    assert scale * sign == if sign == 0 then 0 else scale;
  }

  lemma ImmBSum(f: E.Fields, rest: nat)
    requires f.Ok() && rest == 0x800 * (f.rd % 2) + 32 * (f.funct7 % 64) + 2 * (f.rd / 2)
    ensures E.ImmB(f) == rest - 0x1000 * (f.funct7 / 64) && rest < 0x1000 && f.funct7 / 64 < 2
  {
  }

  lemma ImmBAgrees(inst: u32)
    ensures ImmB(inst) == E.ImmB(E.Split(inst))
  {
    hide And, Or, S64, U64, SignBit, E.ImmB, E.Split;
    var f := E.Split(inst);
    var sign := f.funct7 / 64;
    var rest := 0x800 * (f.rd % 2) + 32 * (f.funct7 % 64) + 2 * (f.rd / 2);
    ImmBSum(f, rest);
    BranchPieces(inst);
    SignBitIs(inst);
    SignWord(sign);
    OrBranch(U64(-0x1000 * sign), f.rd % 2, f.funct7 % 64, f.rd / 2);
    SignAdded(sign, 0x1000, rest);
  }

  lemma SignWord(sign: nat)
    requires sign < 2
    ensures U64(-0x1000 * sign) % 0x1000 == 0 && U64(-0x10_0000 * sign) % 0x10_0000 == 0
  {
  }

  lemma JumpPieces(inst: u32)
    ensures var f := E.Split(inst);
            And(inst, 0xff000) == 0x1000 * (f.funct3 + 8 * f.rs1)
            && And(inst / 0x200, 0x800) == 0x800 * (f.rs2 % 2)
            && And(inst / 0x10_0000, 0x7fe) == 32 * (f.funct7 % 64) + 2 * (f.rs2 / 2)
  {
    Maskff000(inst);
    MaskBit11(inst / 0x200);
    Mask7fe(inst / 0x10_0000);
    JumpDivisions(inst);
  }

  lemma JumpDivisions(inst: u32)
    ensures inst / 0x1000 % 0x100 == inst / 0x1000 % 8 + 8 * (inst / 0x8000 % 32)
    ensures inst / 0x200 / 0x800 == inst / 0x10_0000
    ensures var r := inst / 0x10_0000;
            r % 32 % 2 == r % 2 && r / 2 % 0x400 == 16 * (inst / 0x200_0000 % 128 % 64) + r % 32 / 2
  {
    var m := inst / 0x1000;
    assert inst / 0x8000 == m / 8 && m / 0x100 == m / 8 / 32;
    var r := inst / 0x10_0000;
    assert inst / 0x200_0000 == r / 32;
    var h := r / 2;
    assert r / 32 == h / 16 && h / 0x400 == h / 16 / 64 && r % 32 / 2 == h % 16;
  }

  lemma OrJump(a: nat, b: nat, c: nat, d: nat)
    requires a % 0x10_0000 == 0 && b < 0x100 && c < 2 && d < 0x400
    ensures Or(Or(Or(a, 0x1000 * b), 0x800 * c), 2 * d) == a + 0x1000 * b + 0x800 * c + 2 * d
  {
    hide And, Or;
    OrBits12To19(a, b);
    OrBit11(a + 0x1000 * b, c);
    Or11(a + 0x1000 * b + 0x800 * c, 2 * d);
  }

  lemma OrBits12To19(a: nat, b: nat)
    requires a % 0x10_0000 == 0 && b < 0x100
    ensures Or(a, 0x1000 * b) == a + 0x1000 * b && (a + 0x1000 * b) % 0x1000 == 0
  {
    hide And, Or;
    Or20(a, 0x1000 * b);
  }

  lemma ImmJSum(f: E.Fields, rest: nat)
    requires f.Ok()
    requires rest == 0x1000 * (f.funct3 + 8 * f.rs1) + 0x800 * (f.rs2 % 2) + 2 * (16 * (f.funct7 % 64) + f.rs2 / 2)
    ensures E.ImmJ(f) == rest - 0x10_0000 * (f.funct7 / 64) && rest < 0x10_0000 && f.funct7 / 64 < 2
  {
  }

  lemma ImmJAgrees(inst: u32)
    ensures ImmJ(inst) == E.ImmJ(E.Split(inst))
  {
    hide And, Or, S64, U64, SignBit, E.ImmJ, E.Split;
    var f := E.Split(inst);
    var sign := f.funct7 / 64;
    var (b, c, d) := (f.funct3 + 8 * f.rs1, f.rs2 % 2, 16 * (f.funct7 % 64) + f.rs2 / 2);
    var rest := 0x1000 * b + 0x800 * c + 2 * d;
    ImmJSum(f, rest);
    JumpPieces(inst);
    SignBitIs(inst);
    SignWord(sign);
    OrJump(U64(-0x10_0000 * sign), b, c, d);
    SignAdded(sign, 0x10_0000, rest);
  }

  lemma UpperDigits(inst: u32)
    ensures var f := E.Split(inst);
            inst / 0x1000 == f.funct3 + 8 * f.rs1 + 0x100 * f.rs2 + 0x2000 * f.funct7
  {
    E.Quotients(inst);
    var t2, t3, t4 := inst / 0x1000, inst / 0x8000, inst / 0x10_0000;
    assert t2 == 8 * t3 + t2 % 8 && t3 == 32 * t4 + t3 % 32 && t4 == 32 * (inst / 0x200_0000) + t4 % 32;
  }

  lemma ImmUAgrees(inst: u32)
    ensures ImmU(inst) == U64(E.ImmU(E.Split(inst)))
  {
    hide And, Or;
    MaskUpper(inst);
    UpperDigits(inst);
    SignOfUpper(inst / 0x1000);
  }

  lemma SignOfUpper(u: nat)
    requires u < 0x10_0000
    ensures S32(0x1000 * u) == 0x1000 * E.SignExtend(u, 0x8_0000)
  {
  }

  lemma ModOfSigned(u: u64, v: nat)
    requires v < 0x1000 && u == U64(E.SignExtend(v, 0x800))
    ensures u % 64 == v % 64 && u % 32 == v % 32 && u / 0x400 % 2 == v / 0x400 % 2
    ensures E.SignExtend(v, 0x800) % 64 == v % 64 && E.SignExtend(v, 0x800) % 32 == v % 32
  {
    if v >= 0x800 {
      assert u == v + (TWO_64 - 0x1000);
      assert u / 0x400 == v / 0x400 + (TWO_64 / 0x400 - 4);
    }
  }

  /** The immediate's bit 10 tells a logical right shift from an arithmetic one, and the low
      bits are the amount. */
  lemma ShiftKind(inst: u32)
    ensures And(U64(ImmI(inst)), 0x400) == 0x400 * (E.Split(inst).funct7 / 32 % 2)
    ensures And(U64(ImmI(inst)), 0x3f) == E.ImmI(E.Split(inst)) % 64
    ensures And(U64(ImmI(inst)), 0x1f) == E.ImmI(E.Split(inst)) % 32
  {
    ImmIAgrees(inst);
    var f := E.Split(inst);
    var u := U64(ImmI(inst));
    MaskBit10(u);
    Mask6(u);
    Mask5(u);
    ModOfSigned(u, f.rs2 + 32 * f.funct7);
    assert (f.rs2 + 32 * f.funct7) / 0x400 == f.funct7 / 32;
  }
}
