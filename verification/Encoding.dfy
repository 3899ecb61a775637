/** Instruction words: the standard encoding (sections 2.2, 2.3, 5.2 and 7.1 of the
    RISC-V Unprivileged ISA), the decoding that the virtual machine performs, and the
    proof that the second inverts the first. */
module Encoding {
  import opened Options
  import opened Bits
  import opened Rv64

  /** Every instruction word is cut at the same six places. */
  datatype Fields = Fields(opcode: nat, rd: Reg, funct3: nat, rs1: Reg, rs2: Reg, funct7: nat) {
    predicate Ok() { opcode < 128 && funct3 < 8 && funct7 < 128 }
  }

  function Split(w: u32): (f: Fields)
    ensures f.Ok()
  {
    Fields(w % 128, w / 0x80 % 32, w / 0x1000 % 8, w / 0x8000 % 32, w / 0x10_0000 % 32, w / 0x200_0000 % 128)
  }

  function Pack(f: Fields): u32
    requires f.Ok()
  {
    f.opcode + 0x80 * f.rd + 0x1000 * f.funct3 + 0x8000 * f.rs1 + 0x10_0000 * f.rs2 + 0x200_0000 * f.funct7
  }

  /** The fields as successive quotients, from the low end. */
  lemma Quotients(w: u32)
    ensures w / 0x1000 == w / 0x80 / 32 && w / 0x8000 == w / 0x1000 / 8
    ensures w / 0x10_0000 == w / 0x8000 / 32 && w / 0x200_0000 == w / 0x10_0000 / 32
    ensures w / 0x200_0000 < 128
  {
  }

  lemma SplitPack(f: Fields)
    requires f.Ok()
    ensures Split(Pack(f)) == f
  {
    var t4 := f.rs2 + 32 * f.funct7;
    var t3 := f.rs1 + 32 * t4;
    var t2 := f.funct3 + 8 * t3;
    var t1 := f.rd + 32 * t2;
    var w := Pack(f);
    Quotients(w);
    DivModUnique(w, 128, t1, f.opcode);
    DivModUnique(t1, 32, t2, f.rd);
    DivModUnique(t2, 8, t3, f.funct3);
    DivModUnique(t3, 32, t4, f.rs1);
    DivModUnique(t4, 32, f.funct7, f.rs2);
  }

  lemma PackSplit(w: u32)
    ensures Pack(Split(w)) == w
  {
    Quotients(w);
    var t1, t2, t3, t4 := w / 0x80, w / 0x1000, w / 0x8000, w / 0x10_0000;
    assert w == 128 * t1 + w % 128;
    assert t1 == 32 * t2 + t1 % 32;
    assert t2 == 8 * t3 + t2 % 8;
    assert t3 == 32 * t4 + t3 % 32;
    assert t4 == 32 * (w / 0x200_0000) + t4 % 32;
  }

  // ---- immediates -------------------------------------------------------------------

  function SignExtend(v: nat, half: nat): int { if v < half then v else v - 2 * half }

  function ImmI(f: Fields): int { SignExtend(f.rs2 + 32 * f.funct7, 0x800) }
  function ImmS(f: Fields): int { SignExtend(f.rd + 32 * f.funct7, 0x800) }

  function ImmB(f: Fields): int {
    2 * (f.rd / 2) + 32 * (f.funct7 % 64) + 0x800 * (f.rd % 2) - 0x1000 * (f.funct7 / 64)
  }

  function ImmU(f: Fields): int {
    0x1000 * SignExtend(f.funct3 + 8 * f.rs1 + 0x100 * f.rs2 + 0x2000 * f.funct7, 0x8_0000)
  }

  function ImmJ(f: Fields): int {
    2 * (f.rs2 / 2) + 32 * (f.funct7 % 64) + 0x800 * (f.rs2 % 2)
    + 0x1000 * (f.funct3 + 8 * f.rs1) - 0x10_0000 * (f.funct7 / 64)
  }

  // ---- the standard encoding --------------------------------------------------------

  predicate Imm12(imm: int) { -0x800 <= imm < 0x800 }

  predicate WellFormed(i: Instr) {
    match i
    case Lui(_, imm) => imm % 0x1000 == 0 && -0x8000_0000 <= imm < 0x8000_0000
    case Auipc(_, imm) => imm % 0x1000 == 0 && -0x8000_0000 <= imm < 0x8000_0000
    case Jal(_, imm) => imm % 2 == 0 && -0x10_0000 <= imm < 0x10_0000
    case Jalr(_, _, imm) => Imm12(imm)
    case Branch(_, _, _, imm) => imm % 2 == 0 && -0x1000 <= imm < 0x1000
    case Load(_, _, _, imm) => Imm12(imm)
    case Store(_, _, _, imm) => Imm12(imm)
    case OpImm(op, _, _, imm) =>
      if op in {SLL, SRL, SRA} then 0 <= imm < 64 else op in {ADD, SLT, SLTU, XOR, OR, AND} && Imm12(imm)
    case OpImm32(op, _, _, imm) =>
      if op in {SLL, SRL, SRA} then 0 <= imm < 32 else op == ADD && Imm12(imm)
    case Op(_, _, _, _) => true
    case Op32(op, _, _, _) => Has32(op)
    case Fence(_, _, bits) => 0 <= bits < 0x1000
    case Ecall => true
    case Ebreak => true
  }

  function AluFunct3(op: AluOp): nat {
    match op
    case ADD | SUB | MUL => 0
    case SLL | MULH => 1
    case SLT | MULHSU => 2
    case SLTU | MULHU => 3
    case XOR | DIV => 4
    case SRL | SRA | DIVU => 5
    case OR | REM => 6
    case AND | REMU => 7
  }

  function AluFunct7(op: AluOp): nat {
    match op
    case SUB | SRA => 32
    case MUL | MULH | MULHSU | MULHU | DIV | DIVU | REM | REMU => 1
    case _ => 0
  }

  function BranchFunct3(op: BranchOp): nat {
    match op
    case BEQ => 0 case BNE => 1 case BLT => 4 case BGE => 5 case BLTU => 6 case BGEU => 7
  }

  function LoadFunct3(op: LoadOp): nat {
    match op
    case LB => 0 case LH => 1 case LW => 2 case LD => 3 case LBU => 4 case LHU => 5 case LWU => 6
  }

  function StoreFunct3(op: StoreOp): nat {
    match op
    case SB => 0 case SH => 1 case SW => 2 case SD => 3
  }

  function IType(opcode: nat, rd: Reg, funct3: nat, rs1: Reg, imm: int): Fields {
    var u := imm % 0x1000;
    Fields(opcode, rd, funct3, rs1, u % 32, u / 32)
  }

  function UType(opcode: nat, rd: Reg, imm: int): Fields {
    var u := imm / 0x1000 % 0x10_0000;
    Fields(opcode, rd, u % 8, u / 8 % 32, u / 0x100 % 32, u / 0x2000)
  }

  function Format(i: Instr): (f: Fields)
    requires WellFormed(i)
    ensures f.Ok()
  {
    match i
    case Lui(rd, imm) => UType(0x37, rd, imm)
    case Auipc(rd, imm) => UType(0x17, rd, imm)
    case Jal(rd, imm) =>
      var u := imm % 0x20_0000;
      Fields(0x6f, rd, u / 0x1000 % 8, u / 0x8000 % 32,
             2 * (u / 2 % 16) + u / 0x800 % 2, u / 32 % 64 + 64 * (u / 0x10_0000))
    case Jalr(rd, rs1, imm) => IType(0x67, rd, 0, rs1, imm)
    case Branch(op, rs1, rs2, imm) =>
      var u := imm % 0x2000;
      Fields(0x63, 2 * (u / 2 % 16) + u / 0x800 % 2, BranchFunct3(op), rs1, rs2,
             u / 32 % 64 + 64 * (u / 0x1000))
    case Load(op, rd, rs1, imm) => IType(0x03, rd, LoadFunct3(op), rs1, imm)
    case Store(op, rs1, rs2, imm) =>
      var u := imm % 0x1000;
      Fields(0x23, u % 32, StoreFunct3(op), rs1, rs2, u / 32)
    case OpImm(op, rd, rs1, imm) =>
      IType(0x13, rd, AluFunct3(op), rs1, if op == SRA then imm + 0x400 else imm)
    case OpImm32(op, rd, rs1, imm) =>
      IType(0x1b, rd, AluFunct3(op), rs1, if op == SRA then imm + 0x400 else imm)
    case Op(op, rd, rs1, rs2) => Fields(0x33, rd, AluFunct3(op), rs1, rs2, AluFunct7(op))
    case Op32(op, rd, rs1, rs2) => Fields(0x3b, rd, AluFunct3(op), rs1, rs2, AluFunct7(op))
    case Fence(rd, rs1, bits) => IType(0x0f, rd, 0, rs1, bits)
    case Ecall => Fields(0x73, 0, 0, 0, 0, 0)
    case Ebreak => Fields(0x73, 0, 0, 0, 1, 0)
  }

  function Encode(i: Instr): u32
    requires WellFormed(i)
  {
    Pack(Format(i))
  }

  // ---- the decoding of the virtual machine -------------------------------------------

  function BranchOf(funct3: nat): Option<BranchOp> {
    match funct3
    case 0 => Some(BEQ) case 1 => Some(BNE) case 4 => Some(BLT)
    case 5 => Some(BGE) case 6 => Some(BLTU) case 7 => Some(BGEU)
    case _ => None
  }

  function LoadOf(funct3: nat): Option<LoadOp> {
    match funct3
    case 0 => Some(LB) case 1 => Some(LH) case 2 => Some(LW) case 3 => Some(LD)
    case 4 => Some(LBU) case 5 => Some(LHU) case 6 => Some(LWU)
    case _ => None
  }

  function StoreOf(funct3: nat): Option<StoreOp> {
    match funct3
    case 0 => Some(SB) case 1 => Some(SH) case 2 => Some(SW) case 3 => Some(SD)
    case _ => None
  }

  /** The operation of an ALU-immediate; the shifts look at one immediate bit only. */
  function ImmOpOf(funct3: nat, funct7: nat): Option<AluOp> {
    match funct3
    case 0 => Some(ADD) case 1 => Some(SLL) case 2 => Some(SLT) case 3 => Some(SLTU)
    case 4 => Some(XOR) case 5 => Some(if funct7 / 32 % 2 == 0 then SRL else SRA)
    case 6 => Some(OR) case 7 => Some(AND)
    case _ => None
  }

  function OpOf(funct3: nat, funct7: nat): Option<AluOp> {
    if funct7 == 0 then
      match funct3
      case 0 => Some(ADD) case 1 => Some(SLL) case 2 => Some(SLT) case 3 => Some(SLTU)
      case 4 => Some(XOR) case 5 => Some(SRL) case 6 => Some(OR) case 7 => Some(AND)
      case _ => None
    else if funct7 == 32 then
      match funct3
      case 0 => Some(SUB) case 5 => Some(SRA)
      case _ => None
    else if funct7 == 1 then
      match funct3
      case 0 => Some(MUL) case 1 => Some(MULH) case 2 => Some(MULHSU) case 3 => Some(MULHU)
      case 4 => Some(DIV) case 5 => Some(DIVU) case 6 => Some(REM) case 7 => Some(REMU)
      case _ => None
    else None
  }

  /** What the machine executes for a word.  A CSR access is a stub that clears rd, which
      is what `addi rd, x0, 0` does. */
  function DecodeFields(f: Fields): Option<Instr>
    requires f.Ok()
  {
    match f.opcode
    case 0x37 => Some(Lui(f.rd, ImmU(f)))
    case 0x17 => Some(Auipc(f.rd, ImmU(f)))
    case 0x6f => Some(Jal(f.rd, ImmJ(f)))
    case 0x67 => Some(Jalr(f.rd, f.rs1, ImmI(f)))
    case 0x63 =>
      var op := BranchOf(f.funct3);
      if op.None? then None else Some(Branch(op.value, f.rs1, f.rs2, ImmB(f)))
    case 0x03 =>
      var op := LoadOf(f.funct3);
      if op.None? then None else Some(Load(op.value, f.rd, f.rs1, ImmI(f)))
    case 0x23 =>
      var op := StoreOf(f.funct3);
      if op.None? then None else Some(Store(op.value, f.rs1, f.rs2, ImmS(f)))
    case 0x13 =>
      var op := ImmOpOf(f.funct3, f.funct7);
      if op.None? then None
      else Some(OpImm(op.value, f.rd, f.rs1, if f.funct3 in {1, 5} then ImmI(f) % 64 else ImmI(f)))
    case 0x1b =>
      var op := ImmOpOf(f.funct3, f.funct7);
      if f.funct3 !in {0, 1, 5} || op.None? then None
      else Some(OpImm32(op.value, f.rd, f.rs1, if f.funct3 in {1, 5} then ImmI(f) % 32 else ImmI(f)))
    case 0x33 =>
      var op := OpOf(f.funct3, f.funct7);
      if op.None? then None else Some(Op(op.value, f.rd, f.rs1, f.rs2))
    case 0x3b =>
      var op := OpOf(f.funct3, f.funct7);
      if op.None? || !Has32(op.value) then None else Some(Op32(op.value, f.rd, f.rs1, f.rs2))
    case 0x0f => Some(Fence(f.rd, f.rs1, f.rs2 + 32 * f.funct7))
    case 0x73 =>
      if f.funct3 != 0 then Some(OpImm(ADD, f.rd, 0, 0))
      else if f == Fields(0x73, 0, 0, 0, 0, 0) then Some(Ecall)
      else if f == Fields(0x73, 0, 0, 0, 1, 0) then Some(Ebreak)
      else None
    case _ => None
  }

  function Decode(w: u32): Option<Instr> { DecodeFields(Split(w)) }

  /** The fields without the bits that the machine ignores although the standard fixes them. */
  function Cleared(f: Fields): (c: Fields)
    requires f.Ok()
    ensures c.Ok()
  {
    match f.opcode
    case 0x67 => f.(funct3 := 0)
    case 0x0f => f.(funct3 := 0)
    case 0x13 =>
      if f.funct3 == 1 then f.(funct7 := f.funct7 % 2)
      else if f.funct3 == 5 then f.(funct7 := f.funct7 % 2 + 32 * (f.funct7 / 32 % 2))
      else f
    case 0x1b =>
      if f.funct3 == 1 then f.(funct7 := 0)
      else if f.funct3 == 5 then f.(funct7 := 32 * (f.funct7 / 32 % 2))
      else f
    case _ => f
  }

  /** What the machine takes for a CSR access, without telling one from another. */
  predicate IsCsr(f: Fields) { f.opcode == 0x73 && f.funct3 != 0 }

  /** The ignored bits are as the standard has them. */
  predicate Canonical(f: Fields)
    requires f.Ok()
  {
    !IsCsr(f) && Cleared(f) == f
  }

  // ---- round trips ------------------------------------------------------------------

  lemma ITypeImm(opcode: nat, rd: Reg, funct3: nat, rs1: Reg, imm: int)
    requires -0x800 <= imm < 0x1000
    ensures var f := IType(opcode, rd, funct3, rs1, imm);
            f.funct7 < 128 && f.rs2 + 32 * f.funct7 == imm % 0x1000
            && (Imm12(imm) ==> ImmI(f) == imm)
  {
  }

  lemma UTypeImm(opcode: nat, rd: Reg, imm: int)
    requires imm % 0x1000 == 0 && -0x8000_0000 <= imm < 0x8000_0000
    ensures ImmU(UType(opcode, rd, imm)) == imm
  {
    var u := imm / 0x1000 % 0x10_0000;
    assert u / 0x100 == u / 8 / 32 && u / 0x2000 == u / 0x100 / 32;
    assert u == u % 8 + 8 * (u / 8) && u / 8 == u / 8 % 32 + 32 * (u / 0x100);
    assert u / 0x100 == u / 0x100 % 32 + 32 * (u / 0x2000);
    assert imm == 0x1000 * SignExtend(u, 0x8_0000);
  }

  lemma JalImm(rd: Reg, imm: int)
    requires WellFormed(Jal(rd, imm))
    ensures ImmJ(Format(Jal(rd, imm))) == imm
  {
    var u := imm % 0x20_0000;
    SignedOffset(imm, 0x10_0000, u);
    JalPieces(u);
    LowImm(u);
    var f := Format(Jal(rd, imm));
    HalfAndParity(f.rs2, u / 2 % 16, u / 0x800 % 2);
    SignAndRest(f.funct7, u / 32 % 64, u / 0x10_0000);
    JalSum(f, u, imm);
  }

  lemma JalSum(f: Fields, u: nat, imm: int)
    requires imm == u - 0x20_0000 * (u / 0x10_0000)
    requires u == u % 0x1000 + 0x1000 * (f.funct3 + 8 * f.rs1) + 0x10_0000 * (f.funct7 / 64)
    requires u % 0x1000 == 2 * (f.rs2 / 2) + 32 * (f.funct7 % 64) + 0x800 * (f.rs2 % 2)
    requires f.funct7 / 64 == u / 0x10_0000
    ensures ImmJ(f) == imm
  {
  }

  lemma SignedOffset(imm: int, half: int, u: nat)
    requires half == 0x10_0000 && -half <= imm < half && u == imm % 0x20_0000 && imm % 2 == 0
    ensures imm == u - 0x20_0000 * (u / 0x10_0000) && u % 2 == 0
  {
    if imm >= 0 {
      DivModUnique(imm, 2 * half, 0, imm);
      DivModUnique(u, half, 0, u);
    } else {
      DivModUnique(imm, 2 * half, -1, imm + 2 * half);
      DivModUnique(u, half, 1, u - half);
    }
  }

  lemma JalPieces(u: nat)
    requires u < 0x20_0000
    ensures u == u % 0x1000 + 0x1000 * (u / 0x1000 % 8 + 8 * (u / 0x8000 % 32)) + 0x10_0000 * (u / 0x10_0000)
  {
    var high := u / 0x1000;
    assert u / 0x8000 == high / 8 && u / 0x10_0000 == high / 8 / 32;
    assert high == high % 8 + 8 * (high / 8);
    assert high / 8 == high / 8 % 32 + 32 * (high / 8 / 32);
  }

  lemma HalfAndParity(r: nat, half: nat, bit: nat)
    requires r == 2 * half + bit && bit < 2
    ensures r / 2 == half && r % 2 == bit
  {
  }

  lemma SignAndRest(r: nat, rest: nat, sign: nat)
    requires r == rest + 64 * sign && rest < 64
    ensures r / 64 == sign && r % 64 == rest
  {
  }

  /** The pieces of an offset, from the offset. */
  lemma Digits(a: nat, b: nat, c: nat, m: nat, u: nat)
    requires a < 16 && b < 64 && c < 2 && u == 2 * a + 32 * b + 0x800 * c + 0x1000 * m
    ensures u / 2 % 16 == a && u / 32 % 64 == b && u / 0x800 % 2 == c && u / 0x1000 == m && u % 0x1000 == u - 0x1000 * m
  {
    DivModUnique(u, 0x1000, m, u - 0x1000 * m);
    DivModUnique(u, 0x800, c + 2 * m, u - 0x800 * (c + 2 * m));
    DivModUnique(u, 32, b + 64 * (c + 2 * m), 2 * a);
    DivModUnique(u, 2, a + 16 * (b + 64 * (c + 2 * m)), 0);
    DivModUnique(c + 2 * m, 2, m, c);
    DivModUnique(b + 64 * (c + 2 * m), 64, c + 2 * m, b);
    DivModUnique(a + 16 * (b + 64 * (c + 2 * m)), 16, b + 64 * (c + 2 * m), a);
  }

  /** The low twelve bits of an even offset, in the pieces a branch or a jump stores. */
  lemma LowImm(u: nat)
    requires u % 2 == 0
    ensures u % 0x1000 == 2 * (u / 2 % 16) + 32 * (u / 32 % 64) + 0x800 * (u / 0x800 % 2)
  {
    var h := u / 2;
    assert u / 32 == h / 16 && u / 0x800 == u / 32 / 64 && u / 0x1000 == u / 0x800 / 2;
    assert h == h % 16 + 16 * (u / 32);
    assert u / 32 == u / 32 % 64 + 64 * (u / 0x800);
    assert u / 0x800 == u / 0x800 % 2 + 2 * (u / 0x1000);
  }

  lemma BranchImm(op: BranchOp, rs1: Reg, rs2: Reg, imm: int)
    requires WellFormed(Branch(op, rs1, rs2, imm))
    ensures ImmB(Format(Branch(op, rs1, rs2, imm))) == imm
  {
    var u := imm % 0x2000;
    assert imm == u - 0x2000 * (u / 0x1000);
    assert u == u % 0x1000 + 0x1000 * (u / 0x1000);
    LowImm(u);
    var f := Format(Branch(op, rs1, rs2, imm));
    assert f.rd / 2 == u / 2 % 16 && f.rd % 2 == u / 0x800 % 2;
    assert f.funct7 % 64 == u / 32 % 64 && f.funct7 / 64 == u / 0x1000;
  }

  lemma ShiftBits(rd: Reg, rs1: Reg, opcode: nat, op: AluOp, amount: nat, imm: int)
    requires op in {SLL, SRL, SRA} && amount < 64 && imm == if op == SRA then amount + 0x400 else amount
    ensures var f := IType(opcode, rd, AluFunct3(op), rs1, imm);
            f.funct7 / 32 % 2 == (if op == SRA then 1 else 0) && ImmI(f) == imm
            && ImmOpOf(f.funct3, f.funct7) == Some(op)
  {
    ITypeImm(opcode, rd, AluFunct3(op), rs1, imm);
  }

  lemma ShiftImm(i: Instr)
    requires WellFormed(i) && i.OpImm? && i.op in {SLL, SRL, SRA}
    ensures DecodeFields(Format(i)) == Some(i)
  {
    var imm := if i.op == SRA then i.imm + 0x400 else i.imm;
    assert imm % 64 == i.imm;
    ShiftBits(i.rd, i.rs1, 0x13, i.op, i.imm, imm);
  }

  lemma ShiftImm32(i: Instr)
    requires WellFormed(i) && i.OpImm32? && i.op in {SLL, SRL, SRA}
    ensures DecodeFields(Format(i)) == Some(i)
  {
    var imm := if i.op == SRA then i.imm + 0x400 else i.imm;
    assert imm % 32 == i.imm;
    ShiftBits(i.rd, i.rs1, 0x1b, i.op, i.imm, imm);
  }

  lemma ControlRoundTrip(i: Instr)
    requires WellFormed(i) && (i.Lui? || i.Auipc? || i.Jal? || i.Jalr? || i.Branch?)
    ensures DecodeFields(Format(i)) == Some(i)
  {
    match i
    case Lui(rd, imm) => UTypeImm(0x37, rd, imm);
    case Auipc(rd, imm) => UTypeImm(0x17, rd, imm);
    case Jal(rd, imm) => JalImm(rd, imm);
    case Jalr(rd, rs1, imm) => ITypeImm(0x67, rd, 0, rs1, imm);
    case Branch(op, rs1, rs2, imm) => BranchImm(op, rs1, rs2, imm);
  }

  lemma StoreRoundTrip(i: Instr)
    requires WellFormed(i) && i.Store?
    ensures DecodeFields(Format(i)) == Some(i)
  {
    var u := i.imm % 0x1000;
    assert u == u % 32 + 32 * (u / 32);
  }

  lemma LoadRoundTrip(i: Instr)
    requires WellFormed(i) && (i.Load? || i.Fence?)
    ensures DecodeFields(Format(i)) == Some(i)
  {
    match i
    case Load(op, rd, rs1, imm) => ITypeImm(0x03, rd, LoadFunct3(op), rs1, imm);
    case Fence(rd, rs1, bits) => ITypeImm(0x0f, rd, 0, rs1, bits);
  }

  lemma OpImmRoundTrip(i: Instr)
    requires WellFormed(i) && i.OpImm?
    ensures DecodeFields(Format(i)) == Some(i)
  {
    if i.op in {SLL, SRL, SRA} { ShiftImm(i); } else { ITypeImm(0x13, i.rd, AluFunct3(i.op), i.rs1, i.imm); }
  }

  lemma OpImm32RoundTrip(i: Instr)
    requires WellFormed(i) && i.OpImm32?
    ensures DecodeFields(Format(i)) == Some(i)
  {
    if i.op in {SLL, SRL, SRA} { ShiftImm32(i); } else { ITypeImm(0x1b, i.rd, 0, i.rs1, i.imm); }
  }

  lemma OpRoundTrip(op: AluOp)
    ensures OpOf(AluFunct3(op), AluFunct7(op)) == Some(op)
  {
  }

  /** Decoding inverts the standard encoding, for every RV64IM instruction. */
  lemma DecodeEncode(i: Instr)
    requires WellFormed(i)
    ensures Decode(Encode(i)) == Some(i)
  {
    SplitPack(Format(i));
    if i.Lui? || i.Auipc? || i.Jal? || i.Jalr? || i.Branch? {
      ControlRoundTrip(i);
    } else if i.Store? {
      StoreRoundTrip(i);
    } else if i.Load? || i.Fence? {
      LoadRoundTrip(i);
    } else if i.OpImm? {
      OpImmRoundTrip(i);
    } else if i.OpImm32? {
      OpImm32RoundTrip(i);
    } else if i.Op? || i.Op32? {
      OpRoundTrip(i.op);
    }
  }

  lemma JalDecoded(f: Fields)
    requires f.Ok() && f.opcode == 0x6f
    ensures WellFormed(DecodeFields(f).value) && Format(DecodeFields(f).value) == f
  {
    var mid, sign := f.funct3 + 8 * f.rs1, f.funct7 / 64;
    var m := mid + 0x100 * sign;
    var u := 2 * (f.rs2 / 2) + 32 * (f.funct7 % 64) + 0x800 * (f.rs2 % 2) + 0x1000 * m;
    Digits(f.rs2 / 2, f.funct7 % 64, f.rs2 % 2, m, u);
    JumpDigits(f.funct3, f.rs1, sign, m, u);
    assert ImmJ(f) == u - 0x20_0000 * sign;
    OffsetMod(ImmJ(f), u, sign, 0x20_0000);
  }

  lemma JumpDigits(funct3: nat, rs1: nat, sign: nat, m: nat, u: nat)
    requires funct3 < 8 && rs1 < 32 && sign < 2 && m == funct3 + 8 * rs1 + 0x100 * sign && u / 0x1000 == m
    ensures u / 0x1000 % 8 == funct3 && u / 0x8000 % 32 == rs1 && u / 0x10_0000 == sign
  {
    assert u / 0x8000 == m / 8 && u / 0x10_0000 == m / 8 / 32;
    DivModUnique(m, 8, rs1 + 32 * sign, funct3);
    DivModUnique(rs1 + 32 * sign, 32, sign, rs1);
  }

  lemma OffsetMod(imm: int, u: nat, sign: nat, span: nat)
    requires u < span && sign < 2 && imm == u - span * sign
    ensures imm % span == u
  {
    DivModUnique(imm, span, 0 - sign, u);
  }

  lemma BranchDecoded(f: Fields)
    requires f.Ok() && f.opcode == 0x63 && BranchOf(f.funct3).Some?
    ensures WellFormed(DecodeFields(f).value) && Format(DecodeFields(f).value) == f
  {
    var sign := f.funct7 / 64;
    var u := 2 * (f.rd / 2) + 32 * (f.funct7 % 64) + 0x800 * (f.rd % 2) + 0x1000 * sign;
    Digits(f.rd / 2, f.funct7 % 64, f.rd % 2, sign, u);
    assert ImmB(f) == u - 0x2000 * sign;
    OffsetMod(ImmB(f), u, sign, 0x2000);
  }

  lemma UDecoded(f: Fields)
    requires f.Ok()
    ensures ImmU(f) % 0x1000 == 0 && -0x8000_0000 <= ImmU(f) < 0x8000_0000
    ensures UType(f.opcode, f.rd, ImmU(f)) == f
  {
    var u := f.funct3 + 8 * f.rs1 + 0x100 * f.rs2 + 0x2000 * f.funct7;
    var s := SignExtend(u, 0x8_0000);
    assert ImmU(f) / 0x1000 == s && s % 0x10_0000 == u;
    assert u / 8 == f.rs1 + 32 * f.rs2 + 0x400 * f.funct7;
    assert u / 0x100 == f.rs2 + 32 * f.funct7;
    assert u / 0x2000 == f.funct7;
  }

  lemma IDecoded(f: Fields)
    requires f.Ok()
    ensures Imm12(ImmI(f)) && IType(f.opcode, f.rd, f.funct3, f.rs1, ImmI(f)) == f
    ensures IType(f.opcode, f.rd, f.funct3, f.rs1, f.rs2 + 32 * f.funct7) == f
  {
    var u := f.rs2 + 32 * f.funct7;
    assert ImmI(f) % 0x1000 == u;
  }

  lemma SDecoded(f: Fields)
    requires f.Ok()
    ensures Imm12(ImmS(f))
    ensures ImmS(f) % 0x1000 % 32 == f.rd && ImmS(f) % 0x1000 / 32 == f.funct7
  {
    var u := f.rd + 32 * f.funct7;
    assert ImmS(f) % 0x1000 == u;
  }

  lemma OpDecoded(f: Fields)
    requires f.Ok() && OpOf(f.funct3, f.funct7).Some?
    ensures var op := OpOf(f.funct3, f.funct7).value;
            AluFunct3(op) == f.funct3 && AluFunct7(op) == f.funct7
  {
  }

  /** A decoded shift is re-encoded to the same word without the ignored bits. */
  lemma ShiftDecoded(f: Fields)
    requires f.Ok() && f.opcode == 0x13 && f.funct3 in {1, 5}
    ensures WellFormed(DecodeFields(f).value) && Format(DecodeFields(f).value) == Cleared(f)
  {
    var low := f.funct7 % 2;
    assert ImmI(f) % 64 == f.rs2 + 32 * low;
    var high := if f.funct3 == 5 && f.funct7 / 32 % 2 == 1 then 32 else 0;
    ShiftAmount(f, low + high);
  }

  lemma ShiftDecoded32(f: Fields)
    requires f.Ok() && f.opcode == 0x1b && f.funct3 in {1, 5}
    ensures WellFormed(DecodeFields(f).value) && Format(DecodeFields(f).value) == Cleared(f)
  {
    assert ImmI(f) % 32 == f.rs2;
    var high := if f.funct3 == 5 && f.funct7 / 32 % 2 == 1 then 32 else 0;
    ShiftAmount(f, high);
  }

  lemma ShiftAmount(f: Fields, upper: nat)
    requires f.Ok() && upper < 128
    ensures IType(f.opcode, f.rd, f.funct3, f.rs1, f.rs2 + 32 * upper) == f.(funct7 := upper)
  {
  }

  lemma RegisterDecoded(f: Fields)
    requires f.Ok() && f.opcode in {0x33, 0x3b, 0x73} && DecodeFields(f).Some? && !IsCsr(f)
    ensures WellFormed(DecodeFields(f).value) && Format(DecodeFields(f).value) == Cleared(f)
  {
    if f.opcode != 0x73 { OpDecoded(f); }
  }

  lemma ImmediateDecoded(f: Fields)
    requires f.Ok() && f.opcode in {0x37, 0x17, 0x67, 0x03, 0x23, 0x0f} && DecodeFields(f).Some?
    ensures WellFormed(DecodeFields(f).value) && Format(DecodeFields(f).value) == Cleared(f)
  {
    UDecoded(f);
    IDecoded(f);
    SDecoded(f);
    IDecoded(Cleared(f));
  }

  lemma ArithmeticDecoded(f: Fields)
    requires f.Ok() && f.opcode in {0x13, 0x1b} && f.funct3 !in {1, 5} && DecodeFields(f).Some?
    ensures WellFormed(DecodeFields(f).value) && Format(DecodeFields(f).value) == Cleared(f)
  {
    IDecoded(f);
  }

  lemma FieldsDecoded(f: Fields)
    requires f.Ok() && DecodeFields(f).Some? && !IsCsr(f)
    ensures WellFormed(DecodeFields(f).value) && Format(DecodeFields(f).value) == Cleared(f)
  {
    if f.opcode == 0x6f { JalDecoded(f); }
    else if f.opcode == 0x63 { BranchDecoded(f); }
    else if f.opcode in {0x13, 0x1b} {
      if f.funct3 !in {1, 5} { ArithmeticDecoded(f); }
      else if f.opcode == 0x13 { ShiftDecoded(f); }
      else { ShiftDecoded32(f); }
    }
    else if f.opcode in {0x33, 0x3b, 0x73} { RegisterDecoded(f); }
    else { ImmediateDecoded(f); }
  }

  /** What is accepted is well formed.  A CSR access is taken for `addi rd, x0, 0`; the encoding
      of any other accepted word is the word with the ignored bits cleared. */
  lemma EncodeDecode(w: u32)
    requires Decode(w).Some?
    ensures WellFormed(Decode(w).value)
    ensures if IsCsr(Split(w)) then Decode(w).value == OpImm(ADD, Split(w).rd, 0, 0)
            else Encode(Decode(w).value) == Pack(Cleared(Split(w)))
    ensures Encode(Decode(w).value) == w <==> Canonical(Split(w))
  {
    hide Cleared, Pack, WellFormed;
    var f := Split(w);
    PackSplit(w);
    if IsCsr(f) {
      CsrDecoded(f);
    } else {
      FieldsDecoded(f);
      SplitPack(Cleared(f));
    }
    SplitPack(Format(Decode(w).value));
  }

  lemma CsrDecoded(f: Fields)
    requires f.Ok() && IsCsr(f)
    ensures DecodeFields(f) == Some(OpImm(ADD, f.rd, 0, 0)) && WellFormed(DecodeFields(f).value)
    ensures Format(DecodeFields(f).value) != f
  {
  }

  /** The ignored bits are ignored. */
  lemma ClearedDecodes(f: Fields)
    requires f.Ok()
    ensures DecodeFields(Cleared(f)) == DecodeFields(f)
  {
    if f.opcode == 0x13 && f.funct3 in {1, 5} { ShiftCleared(f); }
    if f.opcode == 0x1b && f.funct3 in {1, 5} { ShiftCleared32(f); }
  }

  lemma ShiftCleared(f: Fields)
    requires f.Ok() && f.opcode == 0x13 && f.funct3 in {1, 5}
    ensures DecodeFields(Cleared(f)) == DecodeFields(f)
  {
    assert ImmI(f) % 64 == f.rs2 + 32 * (f.funct7 % 2);
    assert ImmI(Cleared(f)) % 64 == f.rs2 + 32 * (f.funct7 % 2);
  }

  lemma ShiftCleared32(f: Fields)
    requires f.Ok() && f.opcode == 0x1b && f.funct3 in {1, 5}
    ensures DecodeFields(Cleared(f)) == DecodeFields(f)
  {
    assert ImmI(f) % 32 == f.rs2 && ImmI(Cleared(f)) % 32 == f.rs2;
  }

  /** Exactly what the machine accepts besides the CSR accesses, and as what: a word stands for
      the instruction that it is the encoding of once its ignored bits are cleared. */
  lemma AcceptsExactly(w: u32, i: Instr)
    requires !IsCsr(Split(w))
    ensures Decode(w) == Some(i) <==> WellFormed(i) && Encode(i) == Pack(Cleared(Split(w)))
  {
    hide Cleared, Pack, WellFormed;
    var f := Split(w);
    if Decode(w) == Some(i) { FieldsDecoded(f); }
    if WellFormed(i) && Encode(i) == Pack(Cleared(f)) {
      DecodeEncode(i);
      SplitPack(Cleared(f));
      ClearedDecodes(f);
    }
  }
}
