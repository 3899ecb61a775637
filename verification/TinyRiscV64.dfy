/** The virtual machine: registers, three memory regions and the executor, updated in
    place.  Its methods are specified by `Machine.Step` and `Machine.Run`. */
module TinyRiscV64 {
  import opened Options
  import opened Bits
  import opened Rv64
  import opened Regions
  import Machine
  import D = Decoder
  import E = Encoding
  import Multiply
  import opened StepCases

  datatype Pointer = Nowhere | InProg(offset: nat) | InDat(offset: nat) | InStk(offset: nat)

  /** A CSR access or a branch of `switch` that throws is reported as a trap. */
  datatype Fault = NoFault | Throws(trap: Trap)

  class VM {
    var pc: u64
    var inst: u32
    var program: seq<u8>
    const x: array<u64>
    var stack: seq<u8>
    var data: array<u8>
    var dataLen: nat
    var halted: bool
    const maxProgSize: nat
    var pEnd: u64
    var dBeg: u64
    var dEnd: u64
    var sBeg: u64
    var sEnd: u64

    ghost predicate Valid()
      reads this
    {
      && x.Length == 32 && dataLen <= data.Length
      && pEnd == |program| && dBeg == pEnd + GAP && dEnd == dBeg + dataLen
      && sBeg == dEnd + GAP && sEnd == sBeg + |stack| && sEnd <= LAST_GUARDED
    }

    ghost function Data(): seq<u8>
      requires dataLen <= data.Length
      reads this, data
    {
      data[..dataLen]
    }

    ghost function Mem(): Memory
      requires Valid()
      reads this, data
    {
      Flat(program, Data(), stack)
    }

    /** The register file as programs see it: whatever slot 0 holds, x0 is zero. */
    ghost function Regs(): (r: seq<u64>)
      requires x.Length == 32
      reads this, x
      ensures |r| == 32 && r[0] == 0
      ensures forall i | 1 <= i < 32 :: r[i] == x[i]
    {
      [0] + x[1..]
    }

    ghost function State(): (s: State)
      requires Valid()
      reads this, x, data
      ensures s.Ok()
    {
      Rv64.State(pc, Regs(), Mem())
    }

    constructor (stackSize: nat, maxProgramSize: nat)
      requires 2 * GAP + stackSize <= LAST_GUARDED
      ensures Valid() && fresh(x) && fresh(data)
      ensures program == [] && dataLen == 0 && |stack| == stackSize && maxProgSize == maxProgramSize
    {
      x := new u64[32](_ => 0);
      stack := seq(stackSize, _ => 0);
      program := [];
      data := new u8[0];
      dataLen := 0;
      maxProgSize := maxProgramSize;
      pc, inst, halted := 0, 0, false;
      pEnd, dBeg, dEnd, sBeg, sEnd := 0, GAP, GAP, 2 * GAP, 2 * GAP + stackSize;
      new;
      Reset();
    }

    /** Clears the registers, points sp, fp and ra, and recomputes the address map. */
    method Reset()
      requires x.Length == 32 && dataLen <= data.Length
      requires |program| + GAP + dataLen + GAP + |stack| <= LAST_GUARDED
      modifies this`pEnd, this`dBeg, this`dEnd, this`sBeg, this`sEnd, x
      ensures Valid()
      ensures forall i | 0 <= i < 32 ::
        x[i] == if i == 1 then Machine.Sentinel(|program|) else if i == 2 || i == 8 then sEnd else 0
    {
      for i := 0 to 32
        invariant forall j | 0 <= j < i :: x[j] == 0
        modifies x
      {
        x[i] := 0;
      }
      x[1] := (|program| + 3) / 4 * 4;   // & ~3
      x[2] := |program| + 64 + dataLen + 64 + |stack|;
      x[8] := x[2];
      pEnd := |program|;
      dBeg := |program| + 64;
      dEnd := |program| + 64 + dataLen;
      sBeg := |program| + 64 + dataLen + 64;
      sEnd := |program| + 64 + dataLen + 64 + |stack|;
    }

    method ProgramLoad(prog: seq<u8>) returns (ok: bool)
      requires Valid()
      requires |prog| + GAP + dataLen + GAP + |stack| <= LAST_GUARDED
      modifies this`program, this`pEnd, this`dBeg, this`dEnd, this`sBeg, this`sEnd, x
      ensures Valid()
      ensures ok <==> |prog| <= maxProgSize
      ensures program == if ok then prog else old(program)
      ensures ok ==> forall i | 0 <= i < 32 ::
        x[i] == if i == 1 then Machine.Sentinel(|program|) else if i == 2 || i == 8 then sEnd else 0
      ensures !ok ==> x[..] == old(x[..])
    {
      if |prog| > maxProgSize {
        return false;
      }
      program := prog;
      Reset();
      return true;
    }

    method MapDataMem(mem: array<u8>, size: nat) returns (virt: u64)
      requires Valid() && size <= mem.Length
      requires |program| + GAP + size + GAP + |stack| <= LAST_GUARDED
      modifies this`data, this`dataLen, this`pEnd, this`dBeg, this`dEnd, this`sBeg, this`sEnd, x
      ensures Valid() && data == mem && dataLen == size && virt == dBeg
      ensures forall i | 0 <= i < 32 ::
        x[i] == if i == 1 then Machine.Sentinel(|program|) else if i == 2 || i == 8 then sEnd else 0
    {
      data, dataLen := mem, size;
      Reset();
      virt := dBeg;
    }

    // ---- memory ---------------------------------------------------------------------

    method MemPtr(addr: u64, size: nat) returns (p: Pointer)
      requires Valid() && 1 <= size <= 8
      ensures p == Nowhere <==> !Mapped(Mem(), addr, size)
      ensures p.InProg? <==> InProgram(program, addr, size)
      ensures p.InProg? ==> p.offset == addr
      ensures p.InDat? <==> InData(program, Data(), addr, size)
      ensures p.InDat? ==> p.offset == addr - dBeg
      ensures p.InStk? <==> InStack(program, Data(), stack, addr, size)
      ensures p.InStk? ==> p.offset == addr - sBeg
    {
      OneRegion(program, Data(), stack, addr, size);
      if addr > 0xFFFF_FFFF_FFFF_FFF0 {
        return Nowhere;
      }
      var addrMax := addr + size - 1;
      if addrMax < pEnd { return InProg(addr); }
      if addr >= dBeg && addrMax < dEnd { return InDat(addr - dBeg); }
      if addr >= sBeg && addrMax < sEnd { return InStk(addr - sBeg); }
      return Nowhere;
    }

    method MemLoad(addr: u64, size: nat) returns (ok: bool, value: nat)
      requires Valid() && 1 <= size <= 8
      ensures ok <==> Mapped(Mem(), addr, size)
      ensures ok ==> value == LittleEndian(ReadBytes(Mem(), addr, size)) && value < Pow256(size)
    {
      var p := MemPtr(addr, size);
      var bytes: seq<u8>;
      match p {
      case Nowhere =>
        return false, 0;
      case InProg(at) =>
        bytes := program[at..at + size];
        ReadProgram(program, Data(), stack, addr, size);
      case InDat(at) =>
        bytes := data[at..at + size];
        ReadData(program, Data(), stack, addr, size);
        assert bytes == Data()[at..at + size];
      case InStk(at) =>
        bytes := stack[at..at + size];
        ReadStack(program, Data(), stack, addr, size);
      }
      LittleEndianBound(bytes);
      return true, LittleEndian(bytes);
    }

    method MemStore(addr: u64, value: u64, size: nat) returns (ok: bool)
      requires Valid() && 1 <= size <= 8
      modifies this`program, this`stack, data
      ensures Valid() && |program| == old(|program|) && |stack| == old(|stack|)
      ensures ok <==> Mapped(old(Mem()), addr, size)
      ensures Mem() == if ok then WriteBytes(old(Mem()), addr, ToBytes(value, size)) else old(Mem())
      ensures data[dataLen..] == old(data[dataLen..])
    {
      var p := MemPtr(addr, size);
      var bytes := ToBytes(value, size);
      ghost var d := Data();
      match p {
      case Nowhere =>
        return false;
      case InProg(at) =>
        WriteProgram(program, d, stack, addr, bytes);
        program := Splice(program, at, bytes);
      case InDat(at) =>
        WriteData(program, d, stack, addr, bytes);
        forall i | 0 <= i < size {
          data[at + i] := bytes[i];
        }
        assert Data() == Splice(d, at, bytes);
      case InStk(at) =>
        WriteStack(program, d, stack, addr, bytes);
        stack := Splice(stack, at, bytes);
      }
      return true;
    }

    // ---- the executor ---------------------------------------------------------------

    method ExecBranch(funct3: nat, rs1: Reg, rs2: Reg, imm: int) returns (ok: bool)
      requires x.Length == 32
      modifies this`pc
      ensures ok <==> E.BranchOf(funct3).Some?
      ensures pc == if ok && Taken(E.BranchOf(funct3).value, x[rs1], x[rs2])
                    then U64(old(pc) + imm - 4) else old(pc)
    {
      var taken: bool;
      match funct3 {
        case 0 => taken := x[rs1] == x[rs2];
        case 1 => taken := x[rs1] != x[rs2];
        case 4 => taken := S64(x[rs1]) < S64(x[rs2]);
        case 5 => taken := S64(x[rs1]) >= S64(x[rs2]);
        case 6 => taken := x[rs1] < x[rs2];
        case 7 => taken := x[rs1] >= x[rs2];
        case _ => return false;
      }
      if taken { pc := U64(pc + imm - 4); }
      return true;
    }

    /** Writes rd; the register file seen by programs ignores a write to slot 0. */
    method Put(rd: Reg, v: u64)
      requires x.Length == 32
      modifies x
      ensures x[..] == old(x[..])[rd := v]
      ensures Regs() == if rd == 0 then old(Regs()) else old(Regs())[rd := v]
    {
      x[rd] := v;
    }

    method ExecLoad(funct3: nat, rd: Reg, rs1: Reg, imm: int) returns (f: Fault)
      requires Valid() && x[0] == 0
      modifies x
      ensures var op := E.LoadOf(funct3);
              var addr := U64(old(x[rs1]) + imm);
              if op.None? then f == Throws(Illegal) && Regs() == old(Regs())
              else if !Mapped(Mem(), addr, Width(op.value)) then f == Throws(Access) && Regs() == old(Regs())
              else f == NoFault && Regs() == old(State()).Write(rd,
                     Extend(op.value, LittleEndian(ReadBytes(Mem(), addr, Width(op.value))))).regs
    {
      hide LittleEndian, ReadBytes, Mapped, Pow256;
      var addr := U64(x[rs1] + imm);
      var size := match funct3
        case 0 | 4 => 1
        case 1 | 5 => 2
        case 2 | 6 => 4
        case 3 => 8
        case _ => 0;
      if size == 0 { return Throws(Illegal); }
      var ok, v := MemLoad(addr, size);
      if !ok { return Throws(Access); }
      ghost var op := E.LoadOf(funct3).value;
      LoadedBound();
      var result: u64;
      match funct3 {
        case 0 => result := U64(S8(v));
        case 1 => result := U64(S16(v));
        case 2 => result := U64(S32(v));
        case _ => result := v;
      }
      assert result == Extend(op, v);
      Put(rd, result);
      return NoFault;
    }

    method ExecStore(funct3: nat, rs1: Reg, rs2: Reg, imm: int) returns (f: Fault)
      requires Valid()
      modifies this`program, this`stack, data
      ensures Valid() && |program| == old(|program|) && |stack| == old(|stack|)
      ensures data[dataLen..] == old(data[dataLen..])
      ensures var op := E.StoreOf(funct3);
              var addr := U64(x[rs1] + imm);
              if op.None? then f == Throws(Illegal) && Mem() == old(Mem())
              else if !Mapped(old(Mem()), addr, StoreWidth(op.value)) then f == Throws(Access) && Mem() == old(Mem())
              else f == NoFault && Mem() == WriteBytes(old(Mem()), addr, ToBytes(x[rs2], StoreWidth(op.value)))
    {
      hide LittleEndian, Flat, Mapped, ToBytes, WriteBytes, U64;
      var addr := U64(x[rs1] + imm);
      var ok: bool;
      match funct3 {
        case 0 => ok := MemStore(addr, x[rs2], 1);
        case 1 => ok := MemStore(addr, x[rs2], 2);
        case 2 => ok := MemStore(addr, x[rs2], 4);
        case 3 => ok := MemStore(addr, x[rs2], 8);
        case _ => return Throws(Illegal);
      }
      return if ok then NoFault else Throws(Access);
    }

    method ExecAluImm(funct3: nat, rd: Reg, rs1: Reg, imm: int) returns (f: Fault)
      requires x.Length == 32 && Small(imm)
      modifies x
      ensures f == if funct3 < 8 then NoFault else Throws(Illegal)
      ensures f == NoFault ==>
        Regs() == Written(old(Regs()), rd, Alu(ImmOp(funct3, imm), old(x[rs1]), U64(Operand(funct3, imm, 64))))
      ensures f != NoFault ==> Regs() == old(Regs())
    {
      hide And, Or, Xor, Pow2;
      Mask6(U64(imm));
      ImmOperand(imm);
      var a := x[rs1];
      ghost var want := Alu(ImmOp(funct3, imm), a, U64(Operand(funct3, imm, 64)));
      var v: u64;
      match funct3 {
        case 0 => v := U64(a + imm); AddImm(a, imm);
        case 1 => v := U64(a * Pow2(And(U64(imm), 0x3f)));
        case 2 => v := Bool64(S64(a) < imm);
        case 3 => v := Bool64(a < U64(imm));
        case 4 => v := Xor64(a, U64(imm));
        case 5 =>
          if And(U64(imm), 0x400) == 0 { v := U64(a / Pow2(And(U64(imm), 0x3f))); }
          else { v := U64(S64(a) / Pow2(And(U64(imm), 0x3f))); }
        case 6 => v := Or64(a, U64(imm));
        case 7 => v := And64(a, U64(imm));
        case _ => return Throws(Illegal);
      }
      assert v == want;
      Put(rd, v);
      return NoFault;
    }

    method ExecAluImm32(funct3: nat, rd: Reg, rs1: Reg, imm: int) returns (f: Fault)
      requires x.Length == 32 && Small(imm)
      modifies x
      ensures f == if funct3 in {0, 1, 5} then NoFault else Throws(Illegal)
      ensures f == NoFault ==>
        funct3 in {0, 1, 5} && Regs() == Written(old(Regs()), rd,
                                                 Alu32(ImmOp(funct3, imm), old(x[rs1]), U64(Operand(funct3, imm, 32))))
      ensures f != NoFault ==> Regs() == old(Regs())
    {
      hide And, Pow2;
      Mask5(U64(imm));
      ImmOperand(imm);
      var a := U32(x[rs1]);
      ghost var want := if funct3 !in {0, 1, 5} then 0
                        else Alu32(ImmOp(funct3, imm), x[rs1], U64(Operand(funct3, imm, 32)));
      var amount := And(U64(imm), 0x1f);
      var result: u32;
      match funct3 {
        case 0 =>
          result := U32(a + imm);
          AddImm(x[rs1], imm);
        case 1 =>
          result := U32(a * Pow2(amount));
          LowWordProduct(x[rs1], Pow2(amount));
        case 5 =>
          if And(U64(imm), 0x400) == 0 { result := U32(a / Pow2(amount)); }
          else { result := U32(S32(a) / Pow2(amount)); }
        case _ => return Throws(Illegal);
      }
      assert U64(S32(result)) == want;
      Put(rd, U64(S32(result)));
      return NoFault;
    }

    /** The M extension's half of the ALU switch. */
    method MulDiv(op: nat, a: u64, b: u64) returns (ok: bool, v: u64)
      ensures ok <==> 8 <= op < 16
      ensures ok ==> v == Alu(KeyOp(op).value, a, b)
    {
      hide And, Or, Xor, Pow2, TruncDiv, TruncRem;
      ok, v := true, 0;
      match op {
        case 0x008 => v := U64(a * b); Multiply.LowWordSigned(a, b);
        case 0x009 => v := Multiply.Mulh(a, b); Multiply.MulhExact(a, b);
        case 0x00a => v := Multiply.Mulhsu(a, b); Multiply.MulhsuExact(a, b);
        case 0x00b => v := Multiply.Mulhu(a, b); Multiply.MulhuExact(a, b);
        case 0x00c =>
          if b != 0 {
            v := if S64(a) == -TWO_63 && S64(b) == -1 then U64(-TWO_63) else U64(TruncDiv(S64(a), S64(b)));
            DivOverflow(a, b);
          } else { v := 0xFFFF_FFFF_FFFF_FFFF; }
        case 0x00d => v := if b != 0 then U64(a / b) else 0xFFFF_FFFF_FFFF_FFFF;
        case 0x00e =>
          if b != 0 {
            v := if S64(a) == -TWO_63 && S64(b) == -1 then 0 else U64(TruncRem(S64(a), S64(b)));
            DivOverflow(a, b);
          } else { v := a; }
        case 0x00f => v := if b != 0 then a % b else a;
        case _ => return false, 0;
      }
    }

    method MulDiv32(op: nat, a: u32, b: u32) returns (f: Fault, result: int)
      ensures f == if op !in {8, 12, 13, 14, 15} then Throws(Illegal)
                   else if op == 14 && a == 0x8000_0000 && b == TWO_32 - 1 then Throws(UndefinedBehaviour) else NoFault
      ensures f == NoFault ==> U64(result) == Alu32(KeyOp(op).value, a, b)
    {
      hide And, Or, Pow2, TruncDiv, TruncRem, U32, U64, S32;
      f, result := NoFault, 0;
      Narrow(a);
      Narrow(b);
      if b != 0 { DivOverflow32(a, b); }
      match op {
        case 0x008 => result := S32(U32(a * b));
        case 0x00c =>
          if b != 0 {
            result := if S32(a) == -0x8000_0000 && S32(b) == -1 then -0x8000_0000
                else S32(U32(TruncDiv(S32(a), S32(b))));
          } else { result := -1; }
        case 0x00d => result := if b != 0 then S32(U32(a / b)) else -1;
        case 0x00e =>
          if b != 0 {
            if S32(a) == -0x8000_0000 && S32(b) == -1 { return Throws(UndefinedBehaviour), 0; }
            result := S32(U32(TruncRem(S32(a), S32(b))));
          } else { result := S32(a); }
        case 0x00f => result := if b != 0 then S32(U32(a % b)) else S32(a);
        case _ => return Throws(Illegal), 0;
      }
    }

    method ExecAluReg(funct3: nat, funct7: nat, rd: Reg, rs1: Reg, rs2: Reg) returns (f: Fault)
      requires x.Length == 32 && funct3 < 8 && funct7 < 128
      modifies x
      ensures f == if E.OpOf(funct3, funct7).Some? then NoFault else Throws(Illegal)
      ensures f == NoFault ==>
        Regs() == Written(old(Regs()), rd, Alu(E.OpOf(funct3, funct7).value, old(x[rs1]), old(x[rs2])))
      ensures f != NoFault ==> Regs() == old(Regs())
    {
      hide And, Or, Xor, Pow2, TruncDiv, TruncRem, E.OpOf;
      var (a, b) := (x[rs1], x[rs2]);
      var op := Or(8 * funct7, funct3);
      OpKey(funct3, funct7);
      Mask6(b);
      var v: u64;
      match op {
        case 0x000 => v := U64(a + b);
        case 0x100 => v := U64(a - b);
        case 0x001 => v := U64(a * Pow2(And(b, 0x3f)));
        case 0x002 => v := Bool64(S64(a) < S64(b));
        case 0x003 => v := Bool64(a < b);
        case 0x004 => v := Xor64(a, b);
        case 0x005 => v := U64(a / Pow2(And(b, 0x3f)));
        case 0x105 => v := U64(S64(a) / Pow2(And(b, 0x3f)));
        case 0x006 => v := Or64(a, b);
        case 0x007 => v := And64(a, b);
        case _ =>
          var ok, product := MulDiv(op, a, b);
          if !ok { return Throws(Illegal); }
          v := product;
      }
      Put(rd, v);
      return NoFault;
    }

    method Alu32Base(op: nat, a: u32, b: u32) returns (ok: bool, result: int)
      ensures ok <==> op in {0x000, 0x100, 0x001, 0x005, 0x105}
      ensures ok ==> U64(result) == Alu32(KeyOp(op).value, a, b)
    {
      hide And, Pow2, U32, S32, U64;
      Mask5(b);
      Narrow(a);
      Narrow(b);
      ok, result := true, 0;   // result is an i32
      match op {
        case 0x000 => result := S32(U32(a + b));
        case 0x100 => result := S32(U32(a - b));
        case 0x001 => result := S32(U32(a * Pow2(And(b, 0x1f))));
        case 0x005 => result := S32(U32(a / Pow2(And(b, 0x1f))));
        case 0x105 => result := S32(U32(S32(a) / Pow2(And(b, 0x1f))));
        case _ => return false, 0;
      }
    }

    method ExecAluReg32(funct3: nat, funct7: nat, rd: Reg, rs1: Reg, rs2: Reg) returns (f: Fault)
      requires x.Length == 32 && funct3 < 8 && funct7 < 128
      modifies x
      ensures var op := E.OpOf(funct3, funct7);
              f == if op.None? || !Has32(op.value) then Throws(Illegal)
                   else if op.value == REM && U32(old(x[rs1])) == 0x8000_0000 && U32(old(x[rs2])) == TWO_32 - 1
                   then Throws(UndefinedBehaviour) else NoFault
      ensures f == NoFault ==>
        Regs() == Written(old(Regs()), rd, Alu32(E.OpOf(funct3, funct7).value, old(x[rs1]), old(x[rs2])))
      ensures f != NoFault ==> Regs() == old(Regs())
    {
      hide Or, Alu32, E.OpOf;
      var (a, b) := (U32(x[rs1]), U32(x[rs2]));
      var op := Or(8 * funct7, funct3);
      OpKey(funct3, funct7);
      var ok, result := Alu32Base(op, a, b);
      if !ok {
        f, result := MulDiv32(op, a, b);
        if f != NoFault { return; }
      }
      Alu32Low(E.OpOf(funct3, funct7).value, x[rs1], x[rs2]);
      Put(rd, U64(result));
      return NoFault;
    }

    /** `mem_load<u32>(addr) == word`, for a mapped address. */
    method HasWord(addr: u64, word: u32) returns (same: bool)
      requires Valid() && Mapped(Mem(), addr, 4)
      ensures same <==> Machine.WordAt(Mem(), addr) == word
    {
      hide LittleEndian, ReadBytes, Mapped, Pow256;
      var ok, v := MemLoad(addr, 4);
      return v == word;
    }

    /** SYSTEM: EBREAK halts, a CSR access clears rd, everything else throws. */
    method ExecSystem(funct3: nat, rd: Reg) returns (f: Fault)
      requires Valid() && 4 <= pc <= |program|
      modifies this`halted, x
      ensures var s := State().(pc := U64(pc - 4));
              if funct3 != 0 then f == NoFault && Regs() == Written(old(Regs()), rd, 0) && halted == old(halted)
              else
                Regs() == old(Regs())
                && if inst == 0x0010_0073 && !Machine.SemihostCall(s) then f == NoFault && halted
                   else (f == Throws(if inst in {0x73, 0x0010_0073} then Environment else Illegal)
                         && halted == old(halted))
    {
      hide LittleEndian, ReadBytes, Mapped, Pow256;
      if funct3 != 0 {
        if rd != 0 { Put(rd, 0); }
        return NoFault;
      }
      if inst == 0x0000_0073 {
        return Throws(Environment);   // handle_ecall()
      }
      if inst == 0x0010_0073 {
        ghost var s := State().(pc := U64(pc - 4));
        var hasPrev, hasNext := false, false;
        ReadProgram(program, Data(), stack, pc - 4, 4);
        if pc >= 8 {
          ReadProgram(program, Data(), stack, pc - 8, 4);
          hasPrev := HasWord(pc - 8, 0x01f0_1013);
        }
        OneRegion(program, Data(), stack, pc, 4);
        if pc + 3 < pEnd {
          hasNext := HasWord(pc, 0x4070_5013);
        }
        if hasPrev && hasNext { return Throws(Environment); }   // handle_semihost()
        halted := true;
        return NoFault;
      }
      return Throws(Illegal);
    }

    /** The register-only cases of the opcode switch: pc is already past the instruction
        and x0 is cleared. */
    ghost predicate Dispatching(s: State)
      requires x.Length == 32
      reads this, x
    {
      At(s, inst, D.Opcode(inst)) && pc == U64(s.pc + 4) && Regs() == s.regs && x[0] == 0
    }

    method ExecControl(ghost s: State) returns (f: Fault)
      requires x.Length == 32 && Dispatching(s) && D.Opcode(inst) in {0x37, 0x17, 0x6f, 0x67, 0x63}
      modifies this`pc, x
      ensures var o := Machine.Step(s);
              if o.Next? then f == NoFault && pc == o.state.pc && Regs() == o.state.regs && o.state.mem == s.mem
              else o.Trapped? && f == Throws(o.trap) && pc == old(pc) && Regs() == old(Regs())
    {
      hide LittleEndian, ReadBytes, Mapped, And, Machine.Step, Machine.WordAt, U64, Taken,
        StepCases.Rd, StepCases.Rs1, StepCases.Rs2, D.ImmI, D.ImmU, D.ImmB, D.ImmJ, D.Opcode, D.Funct3;
      f := NoFault;
      match D.Opcode(inst) {
        case 0x37 =>
          LuiStep(s, inst);
          Put(Rd(inst), D.ImmU(inst));
        case 0x17 =>
          AuipcStep(s, inst);
          Put(Rd(inst), U64(U64(pc - 4) + D.ImmU(inst)));
        case 0x6f =>
          JalStep(s, inst);
          Put(Rd(inst), pc);
          pc := U64(pc + D.ImmJ(inst) - 4);
        case 0x67 =>
          JalrStep(s, inst);
          var target := U64(x[Rs1(inst)] + D.ImmI(inst));
          Aligned(target);
          target := target - target % 2;   // & ~1
          Put(Rd(inst), pc);
          pc := target;
        case _ =>
          BranchStep(s, inst);
          var ok := ExecBranch(D.Funct3(inst), Rs1(inst), Rs2(inst), D.ImmB(inst));
          f := if ok then NoFault else Throws(Illegal);
      }
    }

    method ExecMemory(ghost s: State) returns (f: Fault)
      requires Valid() && Dispatching(s) && D.Opcode(inst) in {0x03, 0x23} && Mem() == s.mem
      modifies this`program, this`stack, x, data
      ensures Valid() && |program| == old(|program|) && |stack| == old(|stack|)
      ensures data[dataLen..] == old(data[dataLen..])
      ensures var o := Machine.Step(s);
              if o.Next? then f == NoFault && pc == o.state.pc && Regs() == o.state.regs && Mem() == o.state.mem
              else o.Trapped? && f == Throws(o.trap) && Regs() == old(Regs()) && Mem() == s.mem
    {
      hide LittleEndian, ReadBytes, Mapped, And, Machine.Step, Machine.WordAt, U64, Flat, Extend, WriteBytes,
        ToBytes, StepCases.Rd, StepCases.Rs1, StepCases.Rs2, D.ImmI, D.ImmS, D.Opcode, D.Funct3;
      if D.Opcode(inst) == 0x03 {
        LoadStep(s, inst);
        f := ExecLoad(D.Funct3(inst), Rd(inst), Rs1(inst), D.ImmI(inst));
      } else {
        StoreStep(s, inst);
        f := ExecStore(D.Funct3(inst), Rs1(inst), Rs2(inst), D.ImmS(inst));
      }
    }

    method ExecAlu(ghost s: State) returns (f: Fault)
      requires x.Length == 32 && Dispatching(s) && D.Opcode(inst) in {0x13, 0x1b, 0x33, 0x3b}
      modifies x
      ensures var o := Machine.Step(s);
              if o.Next? then f == NoFault && pc == o.state.pc && Regs() == o.state.regs && o.state.mem == s.mem
              else o.Trapped? && f == Throws(o.trap) && Regs() == old(Regs())
    {
      hide LittleEndian, ReadBytes, Mapped, And, Machine.Step, Machine.WordAt, U64, U32, Alu, Alu32, E.OpOf,
        StepCases.Rd, StepCases.Rs1, StepCases.Rs2, StepCases.ImmOp, Operand, D.ImmI, D.Opcode, D.Funct3, D.Funct7;
      match D.Opcode(inst) {
        case 0x13 =>
          ImmStep(s, inst);
          f := ExecAluImm(D.Funct3(inst), Rd(inst), Rs1(inst), D.ImmI(inst));
        case 0x1b =>
          Imm32Step(s, inst);
          f := ExecAluImm32(D.Funct3(inst), Rd(inst), Rs1(inst), D.ImmI(inst));
        case 0x33 =>
          RegStep(s, inst);
          f := ExecAluReg(D.Funct3(inst), D.Funct7(inst), Rd(inst), Rs1(inst), Rs2(inst));
        case _ =>
          Reg32Step(s, inst);
          f := ExecAluReg32(D.Funct3(inst), D.Funct7(inst), Rd(inst), Rs1(inst), Rs2(inst));
      }
    }

    /** Fetches the instruction at pc, moves pc past it and clears the zero register. */
    method Fetch()
      requires Valid() && pc + 4 <= |program|
      modifies this`pc, this`inst, x
      ensures Valid() && Mapped(old(Mem()), old(pc), 4)
      ensures State() == old(State()).Goto(old(pc) + 4) && x[0] == 0
      ensures inst == Machine.WordAt(old(Mem()), old(pc)) && pc == old(pc) + 4 && U64(pc - 4) == old(pc)
    {
      hide LittleEndian, ReadBytes, Mapped, Pow256, Flat, U64, Machine.WordAt;
      ghost var s0 := State();
      ReadProgram(program, Data(), stack, pc, 4);
      FetchWord(s0);
      LittleEndianBound(program[pc..pc + 4]);
      LoadedBound();
      Advance(pc, |program|);
      inst := LittleEndian(program[pc..pc + 4]);
      pc := U64(pc + 4);
      x[0] := 0;
    }

    /** One instruction, against the step on the flat memory.  A thrown exception leaves
        registers and memory as they were and the program counter past the instruction. */
    method ExecuteInstruction() returns (f: Fault)
      requires Valid() && pc + 4 <= |program|
      modifies this`pc, this`inst, this`program, this`stack, this`halted, x, data
      ensures Valid() && |program| == old(|program|) && |stack| == old(|stack|)
      ensures data[dataLen..] == old(data[dataLen..])
      ensures Mapped(old(Mem()), old(pc), 4)
      ensures match Machine.Step(old(State()))
              case Next(s) => f == NoFault && State() == s && halted == old(halted)
              case Break(s) => f == NoFault && State() == s && halted
              case Trapped(t) => f == Throws(t) && State() == old(State()).Goto(old(pc) + 4) && halted == old(halted)
    {
      hide LittleEndian, ReadBytes, Mapped, Pow256, And, Or, Xor, Pow2, Flat, Alu, Alu32, Machine.Step,
        StepCases.Rd, StepCases.Rs1, StepCases.Rs2, U64, D.ImmI, D.ImmU, D.ImmB, D.ImmJ, D.ImmS, D.Opcode,
        D.Funct3, D.Funct7, E.OpOf, Taken, Extend, WriteBytes, ToBytes, Machine.WordAt;
      ghost var s0 := State();
      Fetch();
      assert Regs() == s0.regs && Mem() == s0.mem && inst == Machine.WordAt(s0.mem, s0.pc);
      match D.Opcode(inst) {
        case 0x37 | 0x17 | 0x6f | 0x67 | 0x63 => f := ExecControl(s0);
        case 0x03 | 0x23 => f := ExecMemory(s0);
        case 0x13 | 0x1b | 0x33 | 0x3b => f := ExecAlu(s0);
        case 0x0f =>
          FenceStep(s0, inst);
          f := NoFault;
        case 0x73 =>
          if D.Funct3(inst) != 0 { CsrStep(s0, inst); } else { SystemStep(s0, inst); }
          f := ExecSystem(D.Funct3(inst), Rd(inst));
        case _ =>
          UnknownStep(s0, inst);
          f := Throws(Illegal);
      }
    }

    /** Runs from an entry point until the program returns to the sentinel, breaks or
        throws.  The result is that of `Machine.Run`. */
    method ExecuteProgram(entryPoint: u64, maxInstructions: nat) returns (f: Fault)
      requires Valid()
      modifies this`pc, this`inst, this`program, this`stack, this`halted, x, data
      ensures Valid() && |program| == old(|program|) && |stack| == old(|stack|)
      ensures data[dataLen..] == old(data[dataLen..])
      ensures |program| < 4 ==> f == Throws(ProgramTooSmall) && State() == old(State()).(pc := entryPoint)
      ensures |program| >= 4 ==> Machine.HasProgram(old(State()).(pc := entryPoint), |program|)
      ensures |program| >= 4 ==>
        match Machine.Run(old(State()).(pc := entryPoint), |program|, maxInstructions)
        case Finished(s) => f == NoFault && State() == s
        case Failed(t, s) => f == Throws(t) && State() == s
    {
      hide LittleEndian, ReadBytes, And, Machine.Step, Machine.WordAt, Flat;
      var progSz := |program|;
      var sentinelPc := (progSz + 3) / 4 * 4;   // & ~3
      pc := entryPoint;
      halted := false;
      var count := 0;
      ReadProgram(program, Data(), stack, 0, progSz);
      ghost var s0 := State();
      if progSz < 4 {
        return Throws(ProgramTooSmall);
      }
      while !halted
        invariant Valid() && |program| == progSz && |stack| == old(|stack|)
        invariant data[dataLen..] == old(data[dataLen..])
        invariant count <= maxInstructions
        invariant Machine.HasProgram(State(), progSz)
        invariant Machine.Run(s0, progSz, maxInstructions) ==
          if halted then Machine.Finished(State()) else Machine.Run(State(), progSz, maxInstructions - count)
        decreases maxInstructions - count, !halted
      {
        if pc > progSz - 4 {
          return Throws(OutsideProgram);
        }
        count := count + 1;
        if count > maxInstructions {
          return Throws(TooManyInstructions);
        }
        Machine.StepOk(State());
        ReadProgram(program, Data(), stack, pc, 4);
        var fault := ExecuteInstruction();
        ReadProgram(program, Data(), stack, 0, progSz);
        if fault != NoFault {
          return fault;
        }
        if pc == sentinelPc {
          halted := true;
        }
      }
      return NoFault;
    }

    // ---- registers and stack, as the host uses them ---------------------------------

    method RegisterSet(reg: nat, value: u64) returns (ok: bool)
      requires x.Length == 32
      modifies x
      ensures ok <==> reg < 32
      ensures Regs() == if reg < 32 then Written(old(Regs()), reg, value) else old(Regs())
    {
      if reg >= 32 { return false; }
      if reg != 0 { x[reg] := value; }
      return true;
    }

    /** Pushes a 64-bit value; fails where the store would. */
    method StackPush(value: u64) returns (ok: bool, sp: u64)
      requires Valid()
      modifies this`program, this`stack, x, data
      ensures Valid() && |program| == old(|program|) && |stack| == old(|stack|)
      ensures data[dataLen..] == old(data[dataLen..])
      ensures sp == U64(old(x[2]) as int - 8)
      ensures Regs() == old(Regs())[2 := sp]
      ensures ok <==> Mapped(old(Mem()), sp, 8)
      ensures Mem() == if ok then WriteBytes(old(Mem()), sp, ToBytes(value, 8)) else old(Mem())
    {
      x[2] := U64(x[2] as int - 8);
      ok := MemStore(x[2], value, 8);
      sp := x[2];
    }

    method StackPop() returns (ok: bool, value: u64)
      requires Valid()
      modifies x
      ensures Regs() == old(Regs())[2 := U64(old(x[2]) as int + 8)]
      ensures var sp := U64(U64(old(x[2]) as int + 8) - 8);
              (ok <==> Mapped(Mem(), sp, 8)) && (ok ==> value == LittleEndian(ReadBytes(Mem(), sp, 8)))
    {
      x[2] := U64(x[2] as int + 8);
      var v;
      ok, v := MemLoad(U64(x[2] as int - 8), 8);
      LoadedBound();
      value := if ok then v else 0;
    }
  }

  function Written(regs: seq<u64>, rd: Reg, v: u64): seq<u64>
    requires |regs| == 32
  {
    if rd == 0 then regs else regs[rd := v]
  }

  /** The ALU operation of a key, `funct7 << 3 | funct3`. */
  function KeyOp(op: nat): Option<AluOp> {
    match op
    case 0x000 => Some(ADD) case 0x100 => Some(SUB) case 0x001 => Some(SLL) case 0x002 => Some(SLT)
    case 0x003 => Some(SLTU) case 0x004 => Some(XOR) case 0x005 => Some(SRL) case 0x105 => Some(SRA)
    case 0x006 => Some(OR) case 0x007 => Some(AND)
    case 0x008 => Some(MUL) case 0x009 => Some(MULH) case 0x00a => Some(MULHSU) case 0x00b => Some(MULHU)
    case 0x00c => Some(DIV) case 0x00d => Some(DIVU) case 0x00e => Some(REM) case 0x00f => Some(REMU)
    case _ => None
  }

  /** A twelve-bit signed immediate. */
  predicate Small(imm: int) { -0x800 <= imm < 0x800 }

  lemma ImmOperand(imm: int)
    requires Small(imm)
    ensures S64(U64(imm)) == imm
    ensures U64(U64(imm) % 64) % 64 == U64(imm) % 64 && U64(U64(imm) % 32) % 32 == U64(imm) % 32
  {
  }

  lemma AddImm(a: u64, imm: int)
    ensures U64(a + imm) == U64(a + U64(imm)) && U32(U32(a) + imm) == U32(a + U64(imm))
  {
    var k := imm / TWO_64;
    assert imm == U64(imm) + k * TWO_64;
    Multiply.ModCongruent(a + imm, a + U64(imm), k, TWO_64);
    var q := a / TWO_32;
    assert a == U32(a) + q * TWO_32 && k * TWO_64 == (k * TWO_32) * TWO_32;
    LowSum(U32(a), q, imm, U64(imm), k);
  }

  lemma LowSum(low: u32, q: int, imm: int, unsigned: u64, k: int)
    requires imm == unsigned + (k * TWO_32) * TWO_32
    ensures U32(low + imm) == U32(low + q * TWO_32 + unsigned)
  {
    var m := q - k * TWO_32;
    assert q * TWO_32 - (k * TWO_32) * TWO_32 == m * TWO_32;
    Multiply.ModCongruent(low + q * TWO_32 + unsigned, low + imm, m, TWO_32);
  }

  lemma OpKey(funct3: nat, funct7: nat)
    requires funct3 < 8 && funct7 < 128
    ensures KeyOp(Or(8 * funct7, funct3)) == E.OpOf(funct3, funct7)
  {
    hide Or;
    Powers();
    OrDisjoint(8 * funct7, funct3, 3);
    KeyIsOp(funct3, funct7);
  }

  lemma KeyIsOp(funct3: nat, funct7: nat)
    requires funct3 < 8 && funct7 < 128
    ensures KeyOp(8 * funct7 + funct3) == E.OpOf(funct3, funct7)
  {
    if funct7 == 0 { assert 8 * funct7 == 0; }
    else if funct7 == 1 { assert 8 * funct7 == 8; }
    else if funct7 == 32 { assert 8 * funct7 == 0x100; }
  }

  lemma DivOverflow(a: u64, b: u64)
    requires b != 0
    ensures S64(b) != 0
    ensures S64(a) == -TWO_63 && S64(b) == -1 ==>
            TruncDiv(S64(a), S64(b)) == TWO_63 && TruncRem(S64(a), S64(b)) == 0
  {
  }

  lemma DivOverflow32(a: u32, b: u32)
    requires b != 0
    ensures S32(b) != 0 && S32(U32(0x8000_0000)) == -0x8000_0000
    ensures S32(a) == -0x8000_0000 <==> a == 0x8000_0000
    ensures S32(b) == -1 <==> b == TWO_32 - 1
    ensures S32(a) == -0x8000_0000 && S32(b) == -1 ==> TruncDiv(S32(a), S32(b)) == 0x8000_0000
  {
  }

  /** The low word of a product depends on the low words of its factors only. */
  lemma LowWordProduct(a: u64, p: nat)
    ensures U32(U32(a) * p) == U32(a * p)
  {
    var q := a / TWO_32;
    assert a * p == U32(a) * p + (q * p) * TWO_32 by {
      assert a == U32(a) + q * TWO_32;
      Multiply.Distribute2(U32(a), q * TWO_32, p);
      Multiply.Scale(q, p);
    }
    Multiply.ModCongruent(a * p, U32(a) * p, q * p, TWO_32);
  }

  lemma LowWordProduct2(a: u64, b: u64)
    ensures U32(U32(a) * U32(b)) == U32(a * b)
  {
    LowWordProduct(a, b);
    LowWordProduct(b, U32(a));
    assert U32(a) * U32(b) == U32(b) * U32(a) && U32(a) * b == b * U32(a);
  }

  /** The 32-bit operations look at the low words only. */
  lemma Alu32Low(op: AluOp, a: u64, b: u64)
    requires Has32(op)
    ensures Alu32(op, a, b) == Alu32(op, U32(a), U32(b))
  {
    hide Pow2, TruncDiv, TruncRem;
    LowAmount(b);
    LowWords(a, b);
    if op == SLL {
      LowWordProduct(a, Pow2(b % 32));
    } else if op == MUL {
      LowWordProduct2(a, b);
    }
  }

  lemma Narrow(a: u32)
    ensures U32(a) == a && S32(U32(-1)) == -1
  {
  }

  lemma LowAmount(b: u64)
    ensures U32(b) % 32 == b % 32
  {
    var q := b / TWO_32;
    assert b == U32(b) + (q * 0x800_0000) * 32;
    Multiply.ModCongruent(b, U32(b), q * 0x800_0000, 32);
  }

  lemma LowWords(a: u64, b: u64)
    ensures U32(U32(a)) == U32(a) && U32(U32(b)) == U32(b)
    ensures U32(U32(a) + U32(b)) == U32(a + b) && U32(U32(a) - U32(b)) == U32(a - b)
  {
  }

  lemma Advance(pc: u64, size: nat)
    requires pc + 4 <= size <= LAST_GUARDED
    ensures U64(pc + 4) == pc + 4 && U64(pc + 4 - 4) == pc
  {
  }

  lemma FetchWord(s: State)
    requires Mapped(s.mem, s.pc, 4)
    ensures Machine.WordAt(s.mem, s.pc) == LittleEndian(ReadBytes(s.mem, s.pc, 4))
  {
  }

  lemma LoadedBound()
    ensures Pow256(1) == 0x100 && Pow256(2) == TWO_16 && Pow256(4) == TWO_32 && Pow256(8) == TWO_64
  {
    assert Pow256(4) == TWO_32;
    assert Pow256(8) == TWO_64;
  }
}
