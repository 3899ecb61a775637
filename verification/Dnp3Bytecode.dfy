/** The DNP3 switching bytecode of the documentation, run by the machine on a packet. */
module Dnp3Bytecode {
  import opened Bits
  import opened Rv64
  import opened Encoding
  import opened Machine

  /** The published bytes, four to a line. */
  function Line(k: nat): (b: seq<u8>)
    requires k < 14
    ensures |b| == 4
  {
    match k
    case 0 => [0x93, 0x02, 0xa0, 0x00]
    case 1 => [0x63, 0xe6, 0x55, 0x02]
    case 2 => [0x83, 0x52, 0x05, 0x00]
    case 3 => [0x37, 0x63, 0x00, 0x00]
    case 4 => [0x1b, 0x03, 0x53, 0x40]
    case 5 => [0x63, 0x9e, 0x62, 0x00]
    case 6 => [0x83, 0x52, 0x65, 0x00]
    case 7 => [0x03, 0x53, 0x45, 0x00]
    case 8 => [0x23, 0x30, 0x56, 0x00]
    case 9 => [0x23, 0xb0, 0x66, 0x00]
    case 10 => [0x13, 0x05, 0x00, 0x00]
    case 12 => [0x13, 0x05, 0xf0, 0xff]
    case _ => [0x67, 0x80, 0x00, 0x00]
  }

  function Lines(k: nat): (b: seq<u8>)
    requires k <= 14
    ensures |b| == 4 * k
  {
    if k == 0 then [] else Lines(k - 1) + Line(k - 1)
  }

  function Bytecode(): (b: seq<u8>)
    ensures |b| == SIZE
  {
    Lines(14)
  }

  const SIZE := 56

  /** What the bytes encode. */
  function Code(k: nat): Instr
    requires k < 14
  {
    match k
    case 0 => OpImm(ADD, 5, 0, 10)        // li   t0, 10
    case 1 => Branch(BLTU, 11, 5, 44)     // bltu a1, t0, err
    case 2 => Load(LHU, 5, 10, 0)         // lhu  t0, 0(a0)
    case 3 => Lui(6, 0x6000)              // li   t1, 0x6405
    case 4 => OpImm32(ADD, 6, 6, 0x405)
    case 5 => Branch(BNE, 5, 6, 28)       // bne  t0, t1, err
    case 6 => Load(LHU, 5, 10, 6)         // lhu  t0, 6(a0)
    case 7 => Load(LHU, 6, 10, 4)         // lhu  t1, 4(a0)
    case 8 => Store(SD, 12, 5, 0)         // sd   t0, 0(a2)
    case 9 => Store(SD, 13, 6, 0)         // sd   t1, 0(a3)
    case 10 => OpImm(ADD, 10, 0, 0)       // li   a0, 0
    case 12 => OpImm(ADD, 10, 0, -1)      // err: li a0, -1
    case _ => Jalr(0, 1, 0)               // jr   ra
  }

  function Word(k: nat): u32
    requires k < 14
  {
    match k
    case 0 => 0x00a0_0293 case 1 => 0x0255_e663 case 2 => 0x0005_5283 case 3 => 0x0000_6337
    case 4 => 0x4053_031b case 5 => 0x0062_9e63 case 6 => 0x0065_5283 case 7 => 0x0045_5303
    case 8 => 0x0056_3023 case 9 => 0x0066_b023 case 10 => 0x0000_0513 case 12 => 0xfff0_0513
    case _ => 0x0000_8067
  }

  /** The documentation's assembly is what the words encode. */
  lemma Assembled(k: nat)
    requires k < 14
    ensures WellFormed(Code(k)) && Encode(Code(k)) == Word(k)
  {
    if k == 0 || k >= 10 { AssembledLast(k); }
    else if k == 1 { AssembledCheck(); }
    else if k == 2 || k == 6 || k == 7 { AssembledLoads(k); }
    else if k == 3 { AssembledUpper(); }
    else if k == 4 { AssembledLower(); }
    else if k == 5 { AssembledBranch(); }
    else { AssembledStores(k); }
  }

  lemma AssembledCheck()
    ensures WellFormed(Code(1)) && Encode(Code(1)) == Word(1)
  {
  }

  lemma AssembledLoads(k: nat)
    requires k == 2 || k == 6 || k == 7
    ensures WellFormed(Code(k)) && Encode(Code(k)) == Word(k)
  {
  }

  lemma AssembledUpper()
    ensures WellFormed(Code(3)) && Encode(Code(3)) == Word(3)
  {
  }

  lemma AssembledLower()
    ensures WellFormed(Code(4)) && Encode(Code(4)) == Word(4)
  {
  }

  lemma AssembledBranch()
    ensures WellFormed(Code(5)) && Encode(Code(5)) == Word(5)
  {
  }

  lemma AssembledStores(k: nat)
    requires 8 <= k < 10
    ensures WellFormed(Code(k)) && Encode(Code(k)) == Word(k)
  {
  }

  lemma AssembledLast(k: nat)
    requires k == 0 || 10 <= k < 14
    ensures WellFormed(Code(k)) && Encode(Code(k)) == Word(k)
  {
  }

  lemma FourBytes(b: seq<u8>, b0: int, b1: int, b2: int, b3: int)
    requires b == [b0, b1, b2, b3]
    ensures LittleEndian(b) == b0 + 0x100 * b1 + 0x1_0000 * b2 + 0x100_0000 * b3
  {
    assert b[1..] == [b1, b2, b3] && b[1..][1..] == [b2, b3] && b[1..][1..][1..] == [b3];
    assert LittleEndian([b3]) == b3;
    assert LittleEndian([b2, b3]) == b2 + 256 * LittleEndian([b2, b3][1..]);
    assert LittleEndian([b1, b2, b3]) == b1 + 256 * LittleEndian([b1, b2, b3][1..]);
  }

  lemma LineIsWord(k: nat)
    requires k < 14
    ensures LittleEndian(Line(k)) == Word(k)
  {
    var b := Line(k);
    FourBytes(b, b[0], b[1], b[2], b[3]);
  }

  lemma {:induction false} LineOf(k: nat, n: nat)
    requires k < n <= 14
    ensures Lines(n)[4 * k..4 * k + 4] == Line(k)
  {
    if k < n - 1 {
      LineOf(k, n - 1);
      assert Lines(n)[4 * k..4 * k + 4] == Lines(n - 1)[4 * k..4 * k + 4];
    }
  }

  // ---- running it -------------------------------------------------------------------

  predicate Loaded(s: State) {
    s.Ok() && Mapped(s.mem, 0, SIZE) && ReadBytes(s.mem, 0, SIZE) == Bytecode()
  }

  /** At instruction k, the machine performs it. */
  lemma StepAt(s: State, k: nat)
    requires Loaded(s) && k < 14 && s.pc == 4 * k
    ensures Mapped(s.mem, s.pc, 4)
    ensures var i := Code(k); (i.OpImm32? || i.Op32? ==> Has32(i.op)) && Step(s) == Exec(i, s)
  {
    hide Encode, Decode, Lines;
    LineOf(k, 14);
    LineIsWord(k);
    assert ReadBytes(s.mem, s.pc, 4) == ReadBytes(s.mem, 0, SIZE)[4 * k..4 * k + 4] == Line(k);
    Assembled(k);
    DecodeEncode(Code(k));
  }

  /** One more step of the run. */
  lemma Onward(s: State, k: nat, t: State, budget: nat)
    requires Loaded(s) && k < 14 && s.pc == 4 * k && budget > 0
    requires var i := Code(k); (i.OpImm32? || i.Op32? ==> Has32(i.op)) && Exec(i, s) == Next(t)
    ensures Run(s, SIZE, budget) == if t.pc == SIZE then Finished(t)
                                    else (StepAt(s, k); StepOk(s); Run(t, SIZE, budget - 1))
  {
    StepAt(s, k);
  }

  /** The 16-bit little-endian value at an address. */
  function Half(mem: Memory, addr: int): (v: nat)
    requires Mapped(mem, addr, 2)
    ensures v < TWO_16
  {
    LittleEndianBound(ReadBytes(mem, addr, 2));
    assert Pow256(2) == TWO_16;
    LittleEndian(ReadBytes(mem, addr, 2))
  }

  /** The calling convention: a0 and a1 are the packet and its size, a2 and a3 the outputs. */
  predicate Called(s: State, buf: nat, n: nat, src: nat, dst: nat) {
    && Loaded(s) && s.pc == 0 && s.regs[1] == SIZE
    && s.regs[10] == buf && s.regs[11] == n && s.regs[12] == src && s.regs[13] == dst
    && buf + n < TWO_64 && Mapped(s.mem, buf, n)
    && SIZE <= src && Mapped(s.mem, src, 8) && SIZE <= dst && Mapped(s.mem, dst, 8)
  }

  /** The condition under which the bytecode accepts a packet. */
  predicate Accepts(mem: Memory, buf: nat, n: nat)
    requires Mapped(mem, buf, n)
  {
    n >= 10 && Half(mem, buf) == 0x6405
  }

  // The effect of the constants and the branches.
  lemma Constants(s: State)
    requires s.Ok()
    ensures s.pc == 0 ==> Exec(Code(0), s) == Next(s.(pc := 4, regs := s.regs[5 := 10]))
    ensures s.pc == 12 ==> Exec(Code(3), s) == Next(s.(pc := 16, regs := s.regs[6 := 0x6000]))
    ensures s.pc == 40 ==> Exec(Code(10), s) == Next(s.(pc := 44, regs := s.regs[10 := 0]))
    ensures s.pc == 48 ==> Exec(Code(12), s) == Next(s.(pc := 52, regs := s.regs[10 := TWO_64 - 1]))
  {
  }

  lemma ConstantLow(s: State)
    requires s.Ok() && s.pc == 16 && s.regs[6] == 0x6000
    ensures Has32(ADD) && Exec(Code(4), s) == Next(s.(pc := 20, regs := s.regs[6 := 0x6405]))
  {
  }

  lemma Branches(s: State)
    requires s.Ok()
    ensures s.pc == 4 ==> Exec(Code(1), s) == Next(s.(pc := if s.regs[11] < s.regs[5] then 48 else 8))
    ensures s.pc == 20 ==> Exec(Code(5), s) == Next(s.(pc := if s.regs[5] == s.regs[6] then 24 else 48))
  {
  }

  lemma Returns(s: State, k: nat)
    requires s.Ok() && k in {11, 13} && s.regs[1] == SIZE
    ensures Exec(Code(k), s) == Next(s.(pc := SIZE))
  {
  }

  lemma ErrorExit(s: State, budget: nat)
    requires Loaded(s) && s.pc == 48 && s.regs[1] == SIZE && budget >= 2
    ensures Run(s, SIZE, budget) == Finished(s.(pc := SIZE, regs := s.regs[10 := TWO_64 - 1]))
  {
    hide Exec, Run;
    var t := s.(pc := 52, regs := s.regs[10 := TWO_64 - 1]);
    Constants(s);
    Onward(s, 12, t, budget);
    Returns(t, 13);
    Onward(t, 13, t.(pc := SIZE), budget - 1);
  }

  lemma SizeCheck(s: State, buf: nat, n: nat, src: nat, dst: nat, budget: nat) returns (t: State)
    requires Called(s, buf, n, src, dst) && budget >= 2
    ensures t == s.(pc := if n < 10 then 48 else 8, regs := s.regs[5 := 10])
    ensures Run(s, SIZE, budget) == Run(t, SIZE, budget - 2)
  {
    hide Exec, Run;
    var s1 := s.(pc := 4, regs := s.regs[5 := 10]);
    Constants(s);
    Onward(s, 0, s1, budget);
    t := s1.(pc := if n < 10 then 48 else 8);
    Branches(s1);
    Onward(s1, 1, t, budget - 1);
  }

  lemma HalfLoad(s: State, k: nat, rd: Reg, imm: nat, buf: nat)
    requires Loaded(s) && k < 14 && s.pc == 4 * k && Code(k) == Load(LHU, rd, 10, imm) && rd != 0
    requires s.regs[10] == buf && buf + imm < TWO_64 && Mapped(s.mem, buf + imm, 2)
    ensures Exec(Code(k), s) == Next(s.(pc := 4 * k + 4, regs := s.regs[rd := Half(s.mem, buf + imm)]))
  {
    hide LittleEndian, ReadBytes;
    assert U64(s.regs[10] + imm) == buf + imm;
  }

  lemma StartCheck(s: State, buf: nat, budget: nat) returns (t: State)
    requires Loaded(s) && s.pc == 8 && s.regs[10] == buf && budget >= 4
    requires buf + 2 < TWO_64 && Mapped(s.mem, buf, 2)
    ensures t == s.(pc := if Half(s.mem, buf) == 0x6405 then 24 else 48,
                    regs := s.regs[5 := Half(s.mem, buf)][6 := 0x6405])
    ensures Run(s, SIZE, budget) == Run(t, SIZE, budget - 4)
  {
    hide Half, Exec, Run;
    var h := Half(s.mem, buf);
    HalfLoad(s, 2, 5, 0, buf);
    var s1 := s.(pc := 12, regs := s.regs[5 := h]);
    Onward(s, 2, s1, budget);
    var s2 := s1.(pc := 16, regs := s1.regs[6 := 0x6000]);
    Constants(s1);
    Onward(s1, 3, s2, budget - 1);
    var s3 := s2.(pc := 20, regs := s2.regs[6 := 0x6405]);
    ConstantLow(s2);
    Onward(s2, 4, s3, budget - 2);
    t := s3.(pc := if h == 0x6405 then 24 else 48);
    Branches(s3);
    Onward(s3, 5, t, budget - 3);
    assert t.regs == s.regs[5 := h][6 := 0x6405];
  }

  lemma HalfLoads(s: State, buf: nat, budget: nat) returns (t: State)
    requires Loaded(s) && s.pc == 24 && s.regs[10] == buf && budget >= 2
    requires buf + 8 < TWO_64 && Mapped(s.mem, buf + 4, 4)
    ensures t == s.(pc := 32, regs := s.regs[5 := Half(s.mem, buf + 6)][6 := Half(s.mem, buf + 4)])
    ensures Run(s, SIZE, budget) == Run(t, SIZE, budget - 2)
  {
    hide Half, Exec, Run;
    HalfLoad(s, 6, 5, 6, buf);
    var s1 := s.(pc := 28, regs := s.regs[5 := Half(s.mem, buf + 6)]);
    Onward(s, 6, s1, budget);
    HalfLoad(s1, 7, 6, 4, buf);
    t := s1.(pc := 32, regs := s1.regs[6 := Half(s.mem, buf + 4)]);
    Onward(s1, 7, t, budget - 1);
  }

  /** A store beyond the program leaves the program loaded. */
  lemma StillLoaded(s: State, addr: int, b: seq<u8>)
    requires Loaded(s) && addr >= SIZE
    ensures Loaded(s.(mem := WriteBytes(s.mem, addr, b)))
  {
    var m := WriteBytes(s.mem, addr, b);
    assert ReadBytes(m, 0, SIZE) == ReadBytes(s.mem, 0, SIZE);
  }

  lemma DoubleStore(s: State, k: nat, base: Reg, rs: Reg)
    requires Loaded(s) && k < 14 && s.pc == 4 * k && Code(k) == Store(SD, base, rs, 0)
    requires Mapped(s.mem, s.regs[base], 8)
    ensures Exec(Code(k), s) ==
            Next(s.(pc := 4 * k + 4, mem := WriteBytes(s.mem, s.regs[base], ToBytes(s.regs[rs], 8))))
  {
    hide WriteBytes, ToBytes;
    assert U64(s.regs[base] + 0) == s.regs[base];
  }

  lemma Stores(s: State, src: nat, dst: nat, budget: nat) returns (t: State)
    requires Loaded(s) && s.pc == 32 && s.regs[12] == src && s.regs[13] == dst && budget >= 2
    requires SIZE <= src && Mapped(s.mem, src, 8) && SIZE <= dst && Mapped(s.mem, dst, 8)
    ensures t == s.(pc := 40, mem := Outputs(s.mem, src, s.regs[5], dst, s.regs[6])) && Loaded(t)
    ensures Run(s, SIZE, budget) == Run(t, SIZE, budget - 2)
  {
    hide Exec, Run, WriteBytes, ToBytes, ReadBytes, Lines, LittleEndian;
    DoubleStore(s, 8, 12, 5);
    var s1 := s.(pc := 36, mem := WriteBytes(s.mem, src, ToBytes(s.regs[5], 8)));
    StillLoaded(s, src, ToBytes(s.regs[5], 8));
    Onward(s, 8, s1, budget);
    t := s1.(pc := 40, mem := WriteBytes(s1.mem, dst, ToBytes(s.regs[6], 8)));
    StillLoaded(s1, dst, ToBytes(s.regs[6], 8));
    DoubleStore(s1, 9, 13, 6);
    Onward(s1, 9, t, budget - 1);
  }

  function Outputs(mem: Memory, src: nat, a: u64, dst: nat, b: u64): Memory {
    WriteBytes(WriteBytes(mem, src, ToBytes(a, 8)), dst, ToBytes(b, 8))
  }

  lemma SuccessExit(s: State, budget: nat)
    requires Loaded(s) && s.pc == 40 && s.regs[1] == SIZE && budget >= 2
    ensures Run(s, SIZE, budget) == Finished(s.(pc := SIZE, regs := s.regs[10 := 0]))
  {
    hide Exec, Run;
    var t := s.(pc := 44, regs := s.regs[10 := 0]);
    Constants(s);
    Onward(s, 10, t, budget);
    Returns(t, 11);
    Onward(t, 11, t.(pc := SIZE), budget - 1);
  }

  /** The bytecode on any packet: it accepts exactly the packets of at least ten bytes that
      start with 05 64, and then stores the source and the destination address; otherwise it
      changes no memory and returns -1. */
  lemma RunOnPacket(s: State, buf: nat, n: nat, src: nat, dst: nat, budget: nat) returns (t: State)
    requires Called(s, buf, n, src, dst) && budget >= 14
    ensures Run(s, SIZE, budget) == Finished(t) && t.Ok()
    ensures t.regs[2] == s.regs[2]
    ensures t.regs[10] == if Accepts(s.mem, buf, n) then 0 else TWO_64 - 1
    ensures t.mem == if Accepts(s.mem, buf, n)
                     then Outputs(s.mem, src, Half(s.mem, buf + 6), dst, Half(s.mem, buf + 4))
                     else s.mem
  {
    hide Exec, Run, Half, Outputs;
    var s1 := SizeCheck(s, buf, n, src, dst, budget);
    if n < 10 {
      ErrorExit(s1, budget - 2);
      return s1.(pc := SIZE, regs := s1.regs[10 := TWO_64 - 1]);
    }
    var s2 := StartCheck(s1, buf, budget - 2);
    if Half(s.mem, buf) != 0x6405 {
      ErrorExit(s2, budget - 6);
      return s2.(pc := SIZE, regs := s2.regs[10 := TWO_64 - 1]);
    }
    var s3 := HalfLoads(s2, buf, budget - 6);
    var s4 := Stores(s3, src, dst, budget - 8);
    SuccessExit(s4, budget - 10);
    t := s4.(pc := SIZE, regs := s4.regs[10 := 0]);
  }
}
