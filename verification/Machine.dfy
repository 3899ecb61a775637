/** What the virtual machine does, stated on the flat memory of `Rv64`: one step, and a
    whole run under the machine's limits. */
module Machine {
  import opened Options
  import opened Bits
  import opened Rv64
  import opened Encoding

  function WordAt(mem: Memory, addr: int): u32
    requires Mapped(mem, addr, 4)
  {
    LittleEndianBound(ReadBytes(mem, addr, 4));
    assert Pow256(4) == TWO_32;
    LittleEndian(ReadBytes(mem, addr, 4))
  }

  /** EBREAK between `slli zero,zero,0x1f` and `srai zero,zero,0x7` is a semihosting call. */
  predicate SemihostCall(s: State) {
    && s.pc >= 4 && Mapped(s.mem, s.pc - 4, 4) && WordAt(s.mem, s.pc - 4) == 0x01f0_1013
    && Mapped(s.mem, s.pc + 4, 4) && WordAt(s.mem, s.pc + 4) == 0x4070_5013
  }

  /** The one 32-bit remainder that overflows in C++. */
  predicate RemwOverflow(i: Instr, s: State)
    requires s.Ok()
  {
    i.Op32? && i.op == REM && U32(s.regs[i.rs1]) == 0x8000_0000 && U32(s.regs[i.rs2]) == TWO_32 - 1
  }

  lemma DecodedOps(w: u32)
    requires Decode(w).Some?
    ensures var i := Decode(w).value; i.OpImm32? || i.Op32? ==> Has32(i.op)
  {
  }

  function Step(s: State): Outcome
    requires s.Ok() && Mapped(s.mem, s.pc, 4)
  {
    var w := WordAt(s.mem, s.pc);
    if Decode(w).None? then Trapped(Illegal)
    else
      DecodedOps(w);
      var i := Decode(w).value;
      if RemwOverflow(i, s) then Trapped(UndefinedBehaviour)
      else if i.Ebreak? && SemihostCall(s) then Trapped(Environment)
      else Exec(i, s)
  }

  lemma StepOk(s: State)
    requires s.Ok() && Mapped(s.mem, s.pc, 4)
    ensures Step(s).Next? || Step(s).Break? ==> Step(s).state.Ok() && Step(s).state.mem.Keys == s.mem.Keys
  {
    var w := WordAt(s.mem, s.pc);
    if Decode(w).Some? {
      DecodedOps(w);
    }
  }

  // ---- runs -------------------------------------------------------------------------

  /** How a run ends.  A failed run leaves the state in which the fetch or the instruction
      failed; an instruction that traps has changed nothing but the program counter, which is
      past it. */
  datatype Result = Finished(state: State) | Failed(trap: Trap, state: State)

  /** The address a program returns to: its size, rounded up to a multiple of four. */
  function Sentinel(size: nat): nat { (size + 3) / 4 * 4 }

  /** It is the first multiple of four behind the program, where no instruction is fetched. */
  lemma SentinelIsOutside(size: nat)
    ensures size <= Sentinel(size) < size + 4 && Sentinel(size) % 4 == 0 && Sentinel(size) > size - 4
  {
  }

  predicate HasProgram(s: State, size: nat) {
    s.Ok() && size >= 4 && Mapped(s.mem, 0, size)
  }

  function Run(s: State, size: nat, budget: nat): Result
    requires HasProgram(s, size)
    decreases budget
  {
    if s.pc > size - 4 then Failed(OutsideProgram, s)
    else if budget == 0 then Failed(TooManyInstructions, s)
    else
      StepOk(s);
      match Step(s)
      case Next(s') => if s'.pc == Sentinel(size) then Finished(s') else Run(s', size, budget - 1)
      case Break(s') => Finished(s')
      case Trapped(t) => Failed(t, s.Goto(s.pc + 4))
  }

  // ---- agreement with the standard --------------------------------------------------

  /** The instruction a word encodes, if it is one of RV64IM. */
  ghost function Standard(w: u32): Option<Instr> {
    if exists i :: WellFormed(i) && Encode(i) == w
    then var i :| WellFormed(i) && Encode(i) == w; Some(i)
    else None
  }

  /** The standard step, for a standard instruction. */
  ghost function StandardStep(s: State): Outcome
    requires s.Ok() && Mapped(s.mem, s.pc, 4) && Standard(WordAt(s.mem, s.pc)).Some?
  {
    Exec(Standard(WordAt(s.mem, s.pc)).value, s)
  }

  /** A word decodes to the instruction it encodes; it encodes one exactly when the machine
      accepts it with its reserved bits clear. */
  lemma StandardIsDecoded(w: u32)
    ensures Standard(w).Some? ==> Decode(w) == Standard(w)
    ensures Standard(w).Some? <==> Decode(w).Some? && Canonical(Split(w))
  {
    if Standard(w).Some? {
      DecodeEncode(Standard(w).value);
      EncodeDecode(w);
    }
    if Decode(w).Some? {
      EncodeDecode(w);
      var i := Decode(w).value;
      assert Canonical(Split(w)) ==> WellFormed(i) && Encode(i) == w;
    }
  }

  /** Where the standard applies, the machine departs from it in two places only: a
      bracketed EBREAK is a semihosting call, and REMW of INT32_MIN by -1 is undefined. */
  lemma StepAgrees(s: State)
    requires s.Ok() && Mapped(s.mem, s.pc, 4) && Standard(WordAt(s.mem, s.pc)).Some?
    ensures var i := Standard(WordAt(s.mem, s.pc)).value;
            Step(s) == StandardStep(s) <==> !RemwOverflow(i, s) && !(i.Ebreak? && SemihostCall(s))
  {
    var w := WordAt(s.mem, s.pc);
    StandardIsDecoded(w);
    DecodedOps(w);
  }

  /** REMW of INT32_MIN by -1: the standard's result is 0, the machine's C++ has none. */
  lemma RemwOverflows(s: State)
    requires s.Ok() && s.regs[1] == 0x8000_0000 && s.regs[2] == TWO_32 - 1
    requires Mapped(s.mem, s.pc, 4) && WordAt(s.mem, s.pc) == Encode(Op32(REM, 3, 1, 2))
    ensures Alu32(REM, s.regs[1], s.regs[2]) == 0
    ensures Step(s) == Trapped(UndefinedBehaviour)
  {
    DecodeEncode(Op32(REM, 3, 1, 2));
  }

  /** A run of the standard step: to its end, or up to the state in which the next word is not
      standard or the machine departs from the standard, with the instructions left. */
  datatype StandardEnd = Ended(result: Result) | Departs(state: State, left: nat)

  /** The standard's next step is not the machine's. */
  ghost predicate Departing(s: State)
    requires s.Ok() && Mapped(s.mem, s.pc, 4)
  {
    var i := Standard(WordAt(s.mem, s.pc));
    i.None? || RemwOverflow(i.value, s) || (i.value.Ebreak? && SemihostCall(s))
  }

  /** The run of the standard step under the same limits. */
  ghost function StandardRun(s: State, size: nat, budget: nat): StandardEnd
    requires HasProgram(s, size)
    decreases budget
  {
    if s.pc > size - 4 then Ended(Failed(OutsideProgram, s))
    else if budget == 0 then Ended(Failed(TooManyInstructions, s))
    else if Departing(s) then Departs(s, budget)
    else
      StepAgrees(s);
      StepOk(s);
      match StandardStep(s)
      case Next(s') => if s'.pc == Sentinel(size) then Ended(Finished(s')) else StandardRun(s', size, budget - 1)
      case Break(s') => Ended(Finished(s'))
      case Trapped(t) => Ended(Failed(t, s.Goto(s.pc + 4)))
  }

  /** Whole runs of the machine are whole runs of the standard, failing ones with the registers,
      the memory and the program counter they leave; and a run that leaves the standard agrees
      with it up to the state in which it does. */
  lemma {:induction false} RunAgrees(s: State, size: nat, budget: nat)
    requires HasProgram(s, size)
    ensures match StandardRun(s, size, budget)
            case Ended(r) => Run(s, size, budget) == r
            case Departs(t, left) =>
              && HasProgram(t, size) && t.pc <= size - 4 && 0 < left <= budget && Departing(t)
              && Run(s, size, budget) == Run(t, size, left)
    decreases budget
  {
    hide Step, StandardStep, Standard, WordAt, RemwOverflow, SemihostCall;
    if s.pc <= size - 4 && budget > 0 && !Departing(s) {
      StepAgrees(s);
      StepOk(s);
      if Step(s).Next? && Step(s).state.pc != Sentinel(size) {
        RunAgrees(Step(s).state, size, budget - 1);
      }
    }
  }
}
