/** The RV64IM instruction set over a flat byte memory, written from the RISC-V
    Unprivileged ISA, version 20191213 (chapters 2, 5 and 7), independently of the
    virtual machine that implements it. */
module Rv64 {
  import opened Bits

  type Reg = r: int | 0 <= r < 32

  datatype AluOp = ADD | SUB | SLL | SLT | SLTU | XOR | SRL | SRA | OR | AND
                 | MUL | MULH | MULHSU | MULHU | DIV | DIVU | REM | REMU
  datatype BranchOp = BEQ | BNE | BLT | BGE | BLTU | BGEU
  datatype LoadOp = LB | LH | LW | LD | LBU | LHU | LWU
  datatype StoreOp = SB | SH | SW | SD

  /** Immediates are integers, already sign-extended; a shift's immediate is its amount. */
  datatype Instr =
    | Lui(rd: Reg, imm: int)
    | Auipc(rd: Reg, imm: int)
    | Jal(rd: Reg, imm: int)
    | Jalr(rd: Reg, rs1: Reg, imm: int)
    | Branch(cond: BranchOp, rs1: Reg, rs2: Reg, imm: int)
    | Load(load: LoadOp, rd: Reg, rs1: Reg, imm: int)
    | Store(store: StoreOp, rs1: Reg, rs2: Reg, imm: int)
    | OpImm(op: AluOp, rd: Reg, rs1: Reg, imm: int)
    | OpImm32(op: AluOp, rd: Reg, rs1: Reg, imm: int)
    | Op(op: AluOp, rd: Reg, rs1: Reg, rs2: Reg)
    | Op32(op: AluOp, rd: Reg, rs1: Reg, rs2: Reg)
    | Fence(rd: Reg, rs1: Reg, bits: int)
    | Ecall
    | Ebreak

  // ---- arithmetic -------------------------------------------------------------------

  function Bool64(b: bool): u64 { if b then 1 else 0 }

  function Alu(op: AluOp, a: u64, b: u64): u64 {
    match op
    case ADD => U64(a + b)
    case SUB => U64(a - b)
    case SLL => U64(a * Pow2(b % 64))
    case SLT => Bool64(S64(a) < S64(b))
    case SLTU => Bool64(a < b)
    case XOR => Xor64(a, b)
    case SRL => U64(a / Pow2(b % 64))
    case SRA => U64(S64(a) / Pow2(b % 64))
    case OR => Or64(a, b)
    case AND => And64(a, b)
    case MUL => U64(S64(a) * S64(b))
    case MULH => U64(S64(a) * S64(b) / TWO_64)
    case MULHSU => U64(S64(a) * b / TWO_64)
    case MULHU => U64(a * b / TWO_64)
    case DIV => if b == 0 then TWO_64 - 1 else U64(TruncDiv(S64(a), S64(b)))
    case DIVU => if b == 0 then TWO_64 - 1 else U64(a / b)
    case REM => if b == 0 then a else U64(TruncRem(S64(a), S64(b)))
    case REMU => if b == 0 then a else a % b
  }

  /** A 32-bit result, sign-extended to 64 bits. */
  function Word(i: int): u64 { U64(S32(U32(i))) }

  predicate Has32(op: AluOp) {
    op in {ADD, SUB, SLL, SRL, SRA, MUL, DIV, DIVU, REM, REMU}
  }

  function Alu32(op: AluOp, a: u64, b: u64): u64
    requires Has32(op)
  {
    var (a32, b32) := (U32(a), U32(b));
    match op
    case ADD => Word(a + b)
    case SUB => Word(a - b)
    case SLL => Word(a * Pow2(b % 32))
    case SRL => Word(a32 / Pow2(b % 32))
    case SRA => Word(S32(a32) / Pow2(b % 32))
    case MUL => Word(a * b)
    case DIV => Word(if b32 == 0 then -1 else TruncDiv(S32(a32), S32(b32)))
    case DIVU => Word(if b32 == 0 then -1 else a32 / b32)
    case REM => Word(if b32 == 0 then a else TruncRem(S32(a32), S32(b32)))
    case REMU => Word(if b32 == 0 then a else a32 % b32)
  }

  predicate Taken(cond: BranchOp, a: u64, b: u64) {
    match cond
    case BEQ => a == b
    case BNE => a != b
    case BLT => S64(a) < S64(b)
    case BGE => S64(a) >= S64(b)
    case BLTU => a < b
    case BGEU => a >= b
  }

  // ---- memory -----------------------------------------------------------------------

  type Memory = map<int, u8>

  predicate Mapped(mem: Memory, addr: int, n: nat) {
    forall a | addr <= a < addr + n :: a in mem
  }

  function ReadBytes(mem: Memory, addr: int, n: nat): (b: seq<u8>)
    requires Mapped(mem, addr, n)
  {
    seq(n, i requires 0 <= i < n && addr + i in mem => mem[addr + i])
  }

  function WriteBytes(mem: Memory, addr: int, b: seq<u8>): (m: Memory)
    ensures m.Keys == mem.Keys
  {
    map a | a in mem :: if addr <= a < addr + |b| then b[a - addr] else mem[a]
  }

  /** Little-endian value of a byte sequence, and the low n bytes of a value. */
  function LittleEndian(b: seq<u8>): nat {
    if b == [] then 0 else b[0] + 256 * LittleEndian(b[1..])
  }

  function ToBytes(v: nat, n: nat): (b: seq<u8>)
    ensures |b| == n
  {
    if n == 0 then [] else [v % 256] + ToBytes(v / 256, n - 1)
  }

  function Width(op: LoadOp): (n: nat)
  {
    match op
    case LB | LBU => 1
    case LH | LHU => 2
    case LW | LWU => 4
    case LD => 8
  }

  function StoreWidth(op: StoreOp): (n: nat)
  {
    match op
    case SB => 1
    case SH => 2
    case SW => 4
    case SD => 8
  }

  /** Sign or zero extension of the value a load has read. */
  function Extend(op: LoadOp, v: nat): u64 {
    match op
    case LB => U64(S8(U8(v)))
    case LH => U64(S16(v % TWO_16))
    case LW => U64(S32(U32(v)))
    case _ => U64(v)
  }

  // ---- one instruction --------------------------------------------------------------

  datatype State = State(pc: u64, regs: seq<u64>, mem: Memory) {
    /** x0 reads as zero. */
    predicate Ok() { |regs| == 32 && regs[0] == 0 }

    function Write(rd: Reg, v: u64): State
      requires Ok()
    {
      if rd == 0 then this else this.(regs := regs[rd := v])
    }

    function Goto(target: int): State { this.(pc := U64(target)) }
  }

  datatype Trap = Illegal | Access | Environment | OutsideProgram | TooManyInstructions
                | ProgramTooSmall | UndefinedBehaviour

  datatype Outcome = Next(state: State) | Break(state: State) | Trapped(trap: Trap)

  function Exec(i: Instr, s: State): Outcome
    requires s.Ok()
    requires i.OpImm32? || i.Op32? ==> Has32(i.op)
  {
    var next := s.Goto(s.pc + 4);
    match i
    case Lui(rd, imm) => Next(next.Write(rd, U64(imm)))
    case Auipc(rd, imm) => Next(next.Write(rd, U64(s.pc + imm)))
    case Jal(rd, imm) => Next(s.Write(rd, U64(s.pc + 4)).Goto(s.pc + imm))
    case Jalr(rd, rs1, imm) =>
      var target := U64(s.regs[rs1] + imm);
      Next(s.Write(rd, U64(s.pc + 4)).Goto(target - target % 2))
    case Branch(cond, rs1, rs2, imm) =>
      Next(if Taken(cond, s.regs[rs1], s.regs[rs2]) then s.Goto(s.pc + imm) else next)
    case Load(op, rd, rs1, imm) =>
      var addr := U64(s.regs[rs1] + imm);
      if Mapped(s.mem, addr, Width(op))
      then Next(next.Write(rd, Extend(op, LittleEndian(ReadBytes(s.mem, addr, Width(op))))))
      else Trapped(Access)
    case Store(op, rs1, rs2, imm) =>
      var addr := U64(s.regs[rs1] + imm);
      if Mapped(s.mem, addr, StoreWidth(op))
      then Next(next.(mem := WriteBytes(s.mem, addr, ToBytes(s.regs[rs2], StoreWidth(op)))))
      else Trapped(Access)
    case OpImm(op, rd, rs1, imm) => Next(next.Write(rd, Alu(op, s.regs[rs1], U64(imm))))
    case OpImm32(op, rd, rs1, imm) => Next(next.Write(rd, Alu32(op, s.regs[rs1], U64(imm))))
    case Op(op, rd, rs1, rs2) => Next(next.Write(rd, Alu(op, s.regs[rs1], s.regs[rs2])))
    case Op32(op, rd, rs1, rs2) => Next(next.Write(rd, Alu32(op, s.regs[rs1], s.regs[rs2])))
    case Fence(_, _, _) => Next(next)
    case Ecall => Trapped(Environment)
    case Ebreak => Break(next)
  }

  // ---- lemmas about the memory ------------------------------------------------------

  function Pow256(n: nat): (p: nat)
    ensures p > 0
  {
    if n == 0 then 1 else 256 * Pow256(n - 1)
  }

  lemma {:induction false} LittleEndianBound(b: seq<u8>)
    ensures LittleEndian(b) < Pow256(|b|)
  {
    if b != [] { LittleEndianBound(b[1..]); }
  }

  lemma {:induction false} BytesRoundTrip(v: nat, n: nat)
    ensures LittleEndian(ToBytes(v, n)) == v % Pow256(n)
  {
    if n > 0 {
      BytesRoundTrip(v / 256, n - 1);
      assert ToBytes(v, n)[1..] == ToBytes(v / 256, n - 1);
      LowDigit(v, Pow256(n - 1));
    }
  }

  lemma LowDigit(v: nat, p: nat)
    requires p > 0
    ensures v % (256 * p) == v % 256 + 256 * (v / 256 % p)
  {
    var (q, r) := (v / 256 / p, v / 256 % p);
    assert v / 256 == q * p + r;
    assert v == 256 * (q * p + r) + v % 256 == q * (256 * p) + (v % 256 + 256 * r) by {
      assert 256 * (q * p) == q * (256 * p);
    }
    DivModUnique(v, 256 * p, q, v % 256 + 256 * r);
  }

  /** What was stored is what is read back, and every other byte is as it was. */
  lemma StoreThenLoad(mem: Memory, addr: int, b: seq<u8>, other: int, n: nat)
    requires Mapped(mem, addr, |b|) && Mapped(mem, other, n)
    requires other + n <= addr || addr + |b| <= other
    ensures ReadBytes(WriteBytes(mem, addr, b), addr, |b|) == b
    ensures ReadBytes(WriteBytes(mem, addr, b), other, n) == ReadBytes(mem, other, n)
  {
  }

  /** A load of the width of the store before it, from the same address, yields the low bytes of
      the stored register, extended as the load says. */
  lemma StoreThenLoadValue(s: State, store: StoreOp, a: Reg, src: Reg, i: int, t: State, load: LoadOp, rd: Reg, b: Reg,
                           j: int)
    requires s.Ok() && Exec(Store(store, a, src, i), s) == Next(t)
    requires Width(load) == StoreWidth(store) && U64(t.regs[b] + j) == U64(s.regs[a] + i)
    ensures Exec(Load(load, rd, b, j), t)
         == Next(t.Goto(t.pc + 4).Write(rd, Extend(load, s.regs[src] % Pow256(Width(load)))))
  {
    hide U64, Extend, ToBytes, LittleEndian, Pow256, ReadBytes, WriteBytes, Width, StoreWidth, Mapped;
    var (addr, n) := (U64(s.regs[a] + i), Width(load));
    var bytes := ToBytes(s.regs[src], n);
    WriteKeepsMapped(s.mem, addr, bytes);
    StoreThenLoad(s.mem, addr, bytes, addr + n, 0) by { NothingMapped(s.mem, addr + n); }
    BytesRoundTrip(s.regs[src], n);
  }

  lemma WriteKeepsMapped(mem: Memory, addr: int, b: seq<u8>)
    ensures forall other: int, n: nat :: Mapped(WriteBytes(mem, addr, b), other, n) <==> Mapped(mem, other, n)
  {
    assert WriteBytes(mem, addr, b).Keys == mem.Keys;
  }

  lemma NothingMapped(mem: Memory, addr: int)
    ensures Mapped(mem, addr, 0)
  {
  }

  /** A load of other bytes finds what it would have found before the store. */
  lemma StoreKeepsOthers(s: State, store: StoreOp, a: Reg, src: Reg, i: int, t: State, load: LoadOp, rd: Reg, b: Reg,
                         j: int)
    requires s.Ok() && Exec(Store(store, a, src, i), s) == Next(t)
    requires var (to, from) := (U64(s.regs[a] + i), U64(t.regs[b] + j));
             from + Width(load) <= to || to + StoreWidth(store) <= from
    ensures var from := U64(t.regs[b] + j);
            Exec(Load(load, rd, b, j), t) ==
              if Mapped(s.mem, from, Width(load))
              then Next(t.Goto(t.pc + 4).Write(rd, Extend(load, LittleEndian(ReadBytes(s.mem, from, Width(load))))))
              else Trapped(Access)
  {
    hide U64, Extend, ToBytes, LittleEndian, ReadBytes, WriteBytes, Width, StoreWidth, Mapped;
    var (to, from) := (U64(s.regs[a] + i), U64(t.regs[b] + j));
    var bytes := ToBytes(s.regs[src], StoreWidth(store));
    WriteKeepsMapped(s.mem, to, bytes);
    if Mapped(s.mem, from, Width(load)) {
      StoreThenLoad(s.mem, to, bytes, from, Width(load));
    }
  }
}
