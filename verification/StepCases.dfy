/** The machine step, opcode by opcode, in terms of the decoder's own expressions. */
module StepCases {
  import opened Options
  import opened Bits
  import opened Rv64
  import opened Machine
  import D = Decoder
  import E = Encoding

  /** State s is about to execute word w, whose opcode is given. */
  predicate At(s: State, w: u32, opcode: nat) {
    s.Ok() && Mapped(s.mem, s.pc, 4) && WordAt(s.mem, s.pc) == w && D.Opcode(w) == opcode
  }

  // Names for the register fields, with their bound.
  function Rd(w: u32): Reg { Mask5(w / 0x80); D.Rd(w) }
  function Rs1(w: u32): Reg { Mask5(w / 0x8000); D.Rs1(w) }
  function Rs2(w: u32): Reg { Mask5(w / 0x10_0000); D.Rs2(w) }

  /** What the fields of w are, and that the step is the step of the decoded instruction. */
  lemma Decoded(s: State, w: u32, opcode: nat)
    requires At(s, w, opcode)
    ensures E.Split(w) == E.Fields(opcode, Rd(w), D.Funct3(w), Rs1(w), Rs2(w), D.Funct7(w))
    ensures D.Funct3(w) < 8 && D.Funct7(w) < 128
  {
    D.FieldsAgree(w);
  }

  lemma LuiStep(s: State, w: u32)
    requires At(s, w, 0x37)
    ensures Step(s) == Next(s.Goto(s.pc + 4).Write(Rd(w), D.ImmU(w)))
  {
    Decoded(s, w, 0x37);
    D.ImmUAgrees(w);
  }

  /** Addresses relative to the instruction, computed after pc has moved past it. */
  lemma Relative(pc: u64, imm: int)
    ensures U64(U64(pc + 4) + imm - 4) == U64(pc + imm)
    ensures U64(U64(U64(pc + 4) - 4) + U64(imm)) == U64(pc + imm)
  {
    var c := if pc + 4 < TWO_64 then 0 else 1;
    assert U64(pc + 4) == pc + 4 - c * TWO_64;
    Wraps(pc + imm, -c);
    assert U64(U64(pc + 4) - 4) == pc;
    Wraps(pc + imm, -(imm / TWO_64));
  }

  lemma Wraps(x: int, k: int)
    ensures U64(x + k * TWO_64) == U64(x)
  {
  }

  lemma AuipcStep(s: State, w: u32)
    requires At(s, w, 0x17)
    ensures Step(s) == Next(s.Goto(s.pc + 4).Write(Rd(w), U64(U64(U64(s.pc + 4) - 4) + D.ImmU(w))))
  {
    hide D.ImmU, E.ImmU, U64, Rd, Rs1, Rs2, D.Opcode, D.Funct7, Mapped, D.Funct3;
    Decoded(s, w, 0x17);
    Relative(s.pc, E.ImmU(E.Split(w)));
    D.ImmUAgrees(w);
  }

  lemma JalStep(s: State, w: u32)
    requires At(s, w, 0x6f)
    ensures Step(s) == Next(s.Write(Rd(w), U64(s.pc + 4)).Goto(U64(s.pc + 4) + D.ImmJ(w) - 4))
  {
    hide D.ImmJ, E.ImmJ, U64, Rd, Rs1, Rs2, D.Opcode, D.Funct7, Mapped, D.Funct3;
    Decoded(s, w, 0x6f);
    Relative(s.pc, D.ImmJ(w));
    D.ImmJAgrees(w);
  }

  lemma JalrStep(s: State, w: u32)
    requires At(s, w, 0x67)
    ensures var target := U64(s.regs[Rs1(w)] + D.ImmI(w));
            Step(s) == Next(s.Write(Rd(w), U64(s.pc + 4)).Goto(target - target % 2))
  {
    hide D.ImmI, E.ImmI, U64, E.ImmB, E.ImmJ, E.ImmU, E.ImmS, D.Funct7, D.Funct3, D.Opcode, Rd, Rs1, Rs2;
    Decoded(s, w, 0x67);
    D.ImmIAgrees(w);
  }

  lemma Aligned(target: u64)
    ensures U64(target - target % 2) == target - target % 2
  {
  }

  lemma BranchStep(s: State, w: u32)
    requires At(s, w, 0x63)
    ensures var op := E.BranchOf(D.Funct3(w));
            Step(s) == if op.None? then Trapped(Illegal)
                       else if Taken(op.value, s.regs[Rs1(w)], s.regs[Rs2(w)])
                            then Next(s.Goto(U64(s.pc + 4) + D.ImmB(w) - 4)) else Next(s.Goto(s.pc + 4))
  {
    hide D.ImmB, E.ImmB, U64, Rd, Rs1, Rs2, D.Opcode, D.Funct7, Mapped, D.Funct3;
    Decoded(s, w, 0x63);
    Relative(s.pc, D.ImmB(w));
    D.ImmBAgrees(w);
  }

  lemma LoadStep(s: State, w: u32)
    requires At(s, w, 0x03)
    ensures var op := E.LoadOf(D.Funct3(w));
            var addr := U64(s.regs[Rs1(w)] + D.ImmI(w));
            Step(s) == if op.None? then Trapped(Illegal)
                       else if !Mapped(s.mem, addr, Width(op.value)) then Trapped(Access)
                       else Next(s.Goto(s.pc + 4).Write(Rd(w),
                              Extend(op.value, LittleEndian(ReadBytes(s.mem, addr, Width(op.value))))))
  {
    hide D.ImmI, E.ImmI, Extend, LittleEndian, ReadBytes, U64, E.ImmB, E.ImmJ, E.ImmU, Rd, Rs1, Rs2, D.Opcode,
        D.Funct7, Mapped, D.Funct3;
    Decoded(s, w, 0x03);
    D.ImmIAgrees(w);
  }

  lemma StoreStep(s: State, w: u32)
    requires At(s, w, 0x23)
    ensures var op := E.StoreOf(D.Funct3(w));
            var addr := U64(s.regs[Rs1(w)] + D.ImmS(w));
            Step(s) == if op.None? then Trapped(Illegal)
                       else if !Mapped(s.mem, addr, StoreWidth(op.value)) then Trapped(Access)
                       else Next(s.Goto(s.pc + 4).(mem :=
                              WriteBytes(s.mem, addr, ToBytes(s.regs[Rs2(w)], StoreWidth(op.value)))))
  {
    hide D.ImmS, E.ImmS, WriteBytes, ToBytes, U64, E.ImmI, E.ImmB, E.ImmJ, E.ImmU, Rd, Rs1, Rs2, D.Opcode, D.Funct7,
        Mapped, D.Funct3;
    Decoded(s, w, 0x23);
    D.ImmSAgrees(w);
  }

  /** The operation and the operand of an ALU-immediate instruction. */
  function ImmOp(funct3: nat, imm: int): AluOp {
    match funct3
    case 0 => ADD case 1 => SLL case 2 => SLT case 3 => SLTU case 4 => XOR
    case 5 => if And(U64(imm), 0x400) == 0 then SRL else SRA
    case 6 => OR case _ => AND
  }

  function Operand(funct3: nat, imm: int, width: nat): int
    requires width > 0
  {
    if funct3 in {1, 5} then U64(imm) % width else imm
  }

  lemma ImmOperands(w: u32)
    ensures var f := E.Split(w);
            E.ImmOpOf(f.funct3, f.funct7) == Some(ImmOp(f.funct3, D.ImmI(w)))
            && Operand(f.funct3, D.ImmI(w), 64) == (if f.funct3 in {1, 5} then E.ImmI(f) % 64 else E.ImmI(f))
            && Operand(f.funct3, D.ImmI(w), 32) == (if f.funct3 in {1, 5} then E.ImmI(f) % 32 else E.ImmI(f))
            && -0x800 <= D.ImmI(w) < 0x800
  {
    hide And, D.ImmI, E.ImmI, U64;
    D.ImmIAgrees(w);
    D.ShiftKind(w);
    Mask6(U64(D.ImmI(w)));
    Mask5(U64(D.ImmI(w)));
  }

  lemma ImmStep(s: State, w: u32)
    requires At(s, w, 0x13)
    ensures D.Funct3(w) < 8
    ensures -0x800 <= D.ImmI(w) < 0x800
    ensures Step(s) == Next(s.Goto(s.pc + 4).Write(Rd(w),
              Alu(ImmOp(D.Funct3(w), D.ImmI(w)), s.regs[Rs1(w)], U64(Operand(D.Funct3(w), D.ImmI(w), 64)))))
  {
    hide And, D.ImmI, E.ImmI, Alu, ImmOp, Operand;
    Decoded(s, w, 0x13);
    ImmOperands(w);
  }

  lemma Imm32Step(s: State, w: u32)
    requires At(s, w, 0x1b)
    ensures -0x800 <= D.ImmI(w) < 0x800
    ensures D.Funct3(w) in {0, 1, 5} ==> Has32(ImmOp(D.Funct3(w), D.ImmI(w)))
    ensures Step(s) == if D.Funct3(w) !in {0, 1, 5} then Trapped(Illegal)
                       else Next(s.Goto(s.pc + 4).Write(Rd(w), Alu32(ImmOp(D.Funct3(w), D.ImmI(w)),
                              s.regs[Rs1(w)], U64(Operand(D.Funct3(w), D.ImmI(w), 32)))))
  {
    hide And, D.ImmI, E.ImmI, Alu32, Operand;
    Decoded(s, w, 0x1b);
    ImmOperands(w);
  }

  lemma RegStep(s: State, w: u32)
    requires At(s, w, 0x33)
    ensures D.Funct3(w) < 8 && D.Funct7(w) < 128
    ensures var op := E.OpOf(D.Funct3(w), D.Funct7(w));
            Step(s) == if op.None? then Trapped(Illegal)
                       else Next(s.Goto(s.pc + 4).Write(Rd(w), Alu(op.value, s.regs[Rs1(w)], s.regs[Rs2(w)])))
  {
    hide Alu, E.OpOf;
    Decoded(s, w, 0x33);
  }

  lemma Reg32Step(s: State, w: u32)
    requires At(s, w, 0x3b)
    ensures D.Funct3(w) < 8 && D.Funct7(w) < 128
    ensures var op := E.OpOf(D.Funct3(w), D.Funct7(w));
            var (a, b) := (s.regs[Rs1(w)], s.regs[Rs2(w)]);
            Step(s) == if op.None? || !Has32(op.value) then Trapped(Illegal)
                       else if op.value == REM && U32(a) == 0x8000_0000 && U32(b) == TWO_32 - 1
                       then Trapped(UndefinedBehaviour)
                       else Next(s.Goto(s.pc + 4).Write(Rd(w), Alu32(op.value, a, b)))
  {
    hide Alu32, E.OpOf;
    Decoded(s, w, 0x3b);
  }

  lemma FenceStep(s: State, w: u32)
    requires At(s, w, 0x0f)
    ensures Step(s) == Next(s.Goto(s.pc + 4))
  {
    Decoded(s, w, 0x0f);
  }

  lemma CsrStep(s: State, w: u32)
    requires At(s, w, 0x73) && D.Funct3(w) != 0
    ensures Step(s) == Next(s.Goto(s.pc + 4).Write(Rd(w), 0))
  {
    hide E.Split, Alu;
    Decoded(s, w, 0x73);
    AddZero();
  }

  lemma SystemStep(s: State, w: u32)
    requires At(s, w, 0x73) && D.Funct3(w) == 0
    ensures Step(s) == if w == 0x0010_0073 && !SemihostCall(s) then Break(s.Goto(s.pc + 4))
                       else Trapped(if w in {0x73, 0x0010_0073} then Environment else Illegal)
  {
    hide E.Split, E.DecodeFields, SemihostCall, Step;
    Decoded(s, w, 0x73);
    SystemWords(w);
    SystemDecoded(E.Split(w));
    StepOf(s, w, if w == 0x73 then Some(Ecall) else if w == 0x0010_0073 then Some(Ebreak) else None);
  }

  lemma StepOf(s: State, w: u32, d: Option<Instr>)
    requires At(s, w, D.Opcode(w)) && E.Decode(w) == d
    requires d.None? || d.value == Ecall || d.value == Ebreak
    ensures Step(s) == if d.None? then Trapped(Illegal)
                       else if d.value == Ecall || SemihostCall(s) then Trapped(Environment)
                       else Break(s.Goto(s.pc + 4))
  {
    hide E.Decode, SemihostCall;
  }

  lemma SystemDecoded(f: E.Fields)
    requires f.Ok() && f.opcode == 0x73 && f.funct3 == 0
    ensures E.DecodeFields(f) == if f == E.Fields(0x73, 0, 0, 0, 0, 0) then Some(Ecall)
                                 else if f == E.Fields(0x73, 0, 0, 0, 1, 0) then Some(Ebreak) else None
  {
  }

  lemma AddZero()
    ensures Alu(ADD, 0, U64(0)) == 0
  {
  }

  lemma SystemWords(w: u32)
    ensures E.Split(w) == E.Fields(0x73, 0, 0, 0, 0, 0) <==> w == 0x73
    ensures E.Split(w) == E.Fields(0x73, 0, 0, 0, 1, 0) <==> w == 0x0010_0073
  {
    hide E.Split;
    E.PackSplit(w);
    E.SplitPack(E.Fields(0x73, 0, 0, 0, 0, 0));
    E.SplitPack(E.Fields(0x73, 0, 0, 0, 1, 0));
  }

  lemma UnknownStep(s: State, w: u32)
    requires At(s, w, D.Opcode(w))
    requires D.Opcode(w) !in {0x37, 0x17, 0x6f, 0x67, 0x63, 0x03, 0x23, 0x13, 0x1b, 0x33, 0x3b, 0x0f, 0x73}
    ensures Step(s) == Trapped(Illegal)
  {
    Decoded(s, w, D.Opcode(w));
  }
}
