/** Extracting a packet's addresses with the virtual machine, as the switch mode does. */
module SwitchAddress {
  import opened Bits
  import opened Rv64
  import opened Regions
  import opened TinyRiscV64
  import Machine
  import B = Dnp3Bytecode

  const MAX_INSTRUCTIONS := 100000

  /** Little-endian 16-bit field of a packet. */
  function Field(packet: seq<u8>, at: nat): u64
    requires at + 2 <= |packet|
  {
    packet[at] as int + 0x100 * (packet[at + 1] as int)
  }

  /** A DNP3 packet, as the published bytecode understands it. */
  predicate IsDnp3(packet: seq<u8>) {
    |packet| >= 10 && packet[0] == 0x05 && packet[1] == 0x64
  }

  lemma TwoBytes(b: seq<u8>)
    requires |b| == 2
    ensures LittleEndian(b) == b[0] as int + 0x100 * (b[1] as int)
  {
    assert LittleEndian(b[1..]) == b[1] as int + 256 * LittleEndian(b[1..][1..]);
  }

  /** Two 64-bit slots on the stack, the second below the first, are read back. */
  lemma SlotsReadBack(mem: Memory, src: nat, a: u64, dst: nat, b: u64)
    requires Mapped(mem, src, 8) && Mapped(mem, dst, 8) && dst + 8 == src
    ensures var m := B.Outputs(mem, src, a, dst, b);
            Mapped(m, src, 8) && Mapped(m, dst, 8)
            && LittleEndian(ReadBytes(m, src, 8)) == a && LittleEndian(ReadBytes(m, dst, 8)) == b
  {
    hide LittleEndian, ToBytes, WriteBytes, ReadBytes, Mapped, Pow256;
    var m1 := WriteBytes(mem, src, ToBytes(a, 8));
    WriteKeepsMapped(mem, src, ToBytes(a, 8));
    WriteKeepsMapped(m1, dst, ToBytes(b, 8));
    StoreThenLoad(mem, src, ToBytes(a, 8), dst, 8);
    StoreThenLoad(m1, dst, ToBytes(b, 8), src, 8);
    LoadedBound();
    BytesRoundTrip(a, 8);
    BytesRoundTrip(b, 8);
  }

  /** The machine set up for a packet: what `GetSrcDst` does before it runs the bytecode. */
  predicate Prepared(vm: State, p: seq<u8>, d: seq<u8>, s: seq<u8>) {
    && vm.Ok() && vm.mem == B.Outputs(Flat(p, d, s), StackEnd(p, d, s) - 8, 0, StackEnd(p, d, s) - 16, 0)
    && vm.regs[1] == Machine.Sentinel(|p|) && vm.regs[2] == StackEnd(p, d, s) - 16
    && vm.regs[10] == DataBegin(p) && vm.regs[11] == |d|
    && vm.regs[12] == StackEnd(p, d, s) - 8 && vm.regs[13] == StackEnd(p, d, s) - 16
  }

  predicate Fits(p: seq<u8>, d: seq<u8>, s: seq<u8>) {
    16 <= |s| && StackEnd(p, d, s) <= LAST_GUARDED
  }

  lemma OutputsBelow(mem: Memory, src: nat, a: u64, dst: nat, b: u64, at: int, n: nat)
    requires Mapped(mem, at, n) && at + n <= src && at + n <= dst
    ensures var m := B.Outputs(mem, src, a, dst, b);
            Mapped(m, at, n) && ReadBytes(m, at, n) == ReadBytes(mem, at, n)
  {
  }

  lemma PreparedMemory(d: seq<u8>, s: seq<u8>)
    requires Fits(B.Bytecode(), d, s)
    ensures var p := B.Bytecode();
            var e := StackEnd(p, d, s);
            var m := B.Outputs(Flat(p, d, s), e - 8, 0, e - 16, 0);
            && Mapped(m, 0, B.SIZE) && ReadBytes(m, 0, B.SIZE) == p
            && Mapped(m, DataBegin(p), |d|) && ReadBytes(m, DataBegin(p), |d|) == d
            && Mapped(m, e - 8, 8) && Mapped(m, e - 16, 8)
  {
    hide ReadBytes, Flat, B.Outputs, B.Lines;
    var p := B.Bytecode();
    var m := Flat(p, d, s);
    var e := StackEnd(p, d, s);
    ReadProgram(p, d, s, 0, B.SIZE);
    ReadData(p, d, s, DataBegin(p), |d|);
    assert p[0..B.SIZE] == p && d[0..|d|] == d;
    OutputsBelow(m, e - 8, 0, e - 16, 0, 0, B.SIZE);
    OutputsBelow(m, e - 8, 0, e - 16, 0, DataBegin(p), |d|);
    ReadStack(p, d, s, e - 8, 8);
    ReadStack(p, d, s, e - 16, 8);
    SlotsReadBack(m, e - 8, 0, e - 16, 0);
  }

  /** A field of a packet that is mapped as a whole. */
  lemma FieldAt(mem: Memory, base: int, d: seq<u8>, at: nat)
    requires Mapped(mem, base, |d|) && ReadBytes(mem, base, |d|) == d && at + 2 <= |d|
    ensures Mapped(mem, base + at, 2) && B.Half(mem, base + at) == Field(d, at)
  {
    var b := ReadBytes(mem, base + at, 2);
    assert b == ReadBytes(mem, base, |d|)[at..at + 2];
    assert b[0] == d[at] && b[1] == d[at + 1];
    TwoBytes(b);
  }

  lemma StartBytes(d: seq<u8>)
    requires |d| >= 2
    ensures Field(d, 0) == 0x6405 <==> d[0] == 0x05 && d[1] == 0x64
  {
  }

  /** The preparation meets the bytecode's calling convention. */
  lemma PreparedIsCalled(vm: State, d: seq<u8>, s: seq<u8>)
    requires Fits(B.Bytecode(), d, s) && Prepared(vm, B.Bytecode(), d, s)
    ensures B.Called(vm.(pc := 0), B.SIZE + GAP, |d|, StackEnd(B.Bytecode(), d, s) - 8,
                     StackEnd(B.Bytecode(), d, s) - 16)
    ensures B.Accepts(vm.mem, B.SIZE + GAP, |d|) <==> IsDnp3(d)
  {
    hide ReadBytes, Flat, B.Outputs, B.Lines, B.Half;
    PreparedMemory(d, s);
    if |d| >= 10 {
      FieldAt(vm.mem, B.SIZE + GAP, d, 0);
      StartBytes(d);
    }
  }

  ghost predicate SameBelow(m: Memory, m': Memory, limit: int) {
    forall a | a in m && a < limit :: a in m' && m[a] == m'[a]
  }

  lemma SameMemory(m: Memory, limit: int)
    ensures SameBelow(m, m, limit)
  {
  }

  lemma OutputsKeepBelow(m: Memory, m': Memory, src: nat, a: u64, dst: nat, b: u64, limit: int)
    requires SameBelow(m, m', limit) && limit <= src && limit <= dst
    ensures SameBelow(m, B.Outputs(m', src, a, dst, b), limit)
  {
  }

  /** What the outputs hold after a run, and that nothing below the stack has changed. */
  ghost predicate Delivered(m: Memory, m0: Memory, p: seq<u8>, d: seq<u8>, s: seq<u8>, src: u64, dst: u64)
    requires Fits(p, d, s)
  {
    var e := StackEnd(p, d, s);
    && Mapped(m, e - 8, 8) && Mapped(m, e - 16, 8)
    && LittleEndian(ReadBytes(m, e - 8, 8)) == src && LittleEndian(ReadBytes(m, e - 16, 8)) == dst
    && SameBelow(m0, m, StackBegin(p, d))
  }

  lemma StoredIsDelivered(p: seq<u8>, d: seq<u8>, s: seq<u8>, m: Memory, src: u64, dst: u64)
    requires Fits(p, d, s) && SameBelow(Flat(p, d, s), m, StackBegin(p, d))
    requires m.Keys == Flat(p, d, s).Keys
    ensures var e := StackEnd(p, d, s);
            Delivered(B.Outputs(m, e - 8, src, e - 16, dst), Flat(p, d, s), p, d, s, src, dst)
  {
    hide Flat, LittleEndian, ReadBytes, ToBytes, SameBelow, B.Outputs;
    var e := StackEnd(p, d, s);
    TopOfStack(p, d, s, m);
    SlotsReadBack(m, e - 8, src, e - 16, dst);
    OutputsKeepBelow(Flat(p, d, s), m, e - 8, src, e - 16, dst, StackBegin(p, d));
  }

  /** The outcome of the published bytecode on any packet, from any prepared machine. */
  lemma PacketRun(vm: State, d: seq<u8>, s: seq<u8>) returns (t: State)
    requires Fits(B.Bytecode(), d, s) && Prepared(vm, B.Bytecode(), d, s)
    ensures Machine.HasProgram(vm.(pc := 0), B.SIZE)
    ensures Machine.Run(vm.(pc := 0), B.SIZE, MAX_INSTRUCTIONS) == Machine.Finished(t) && t.Ok()
    ensures t.regs[2] == StackEnd(B.Bytecode(), d, s) - 16 && (t.regs[10] == 0 <==> IsDnp3(d))
    ensures Delivered(t.mem, Flat(B.Bytecode(), d, s), B.Bytecode(), d, s,
                      if IsDnp3(d) then Field(d, 6) else 0, if IsDnp3(d) then Field(d, 4) else 0)
  {
    hide ReadBytes, Flat, B.Lines, B.Line, B.Half, B.Accepts, Machine.Run, LittleEndian, ToBytes, SameBelow,
      B.Outputs, Field, Delivered, Mapped;
    var p := B.Bytecode();
    var e := StackEnd(p, d, s);
    PreparedIsCalled(vm, d, s);
    t := B.RunOnPacket(vm.(pc := 0), B.SIZE + GAP, |d|, e - 8, e - 16, MAX_INSTRUCTIONS);
    SameMemory(Flat(p, d, s), StackBegin(p, d));
    StoredIsDelivered(p, d, s, Flat(p, d, s), 0, 0);
    if IsDnp3(d) {
      PreparedFields(vm, d, s);
      SameMemory(Flat(p, d, s), StackBegin(p, d));
      OutputsKeepBelow(Flat(p, d, s), Flat(p, d, s), e - 8, 0, e - 16, 0, StackBegin(p, d));
      StoredIsDelivered(p, d, s, vm.mem, Field(d, 6), Field(d, 4));
    }
  }

  lemma PreparedFields(vm: State, d: seq<u8>, s: seq<u8>)
    requires Fits(B.Bytecode(), d, s) && Prepared(vm, B.Bytecode(), d, s) && |d| >= 10
    ensures var base := B.SIZE + GAP;
            Mapped(vm.mem, base + 4, 2) && Mapped(vm.mem, base + 6, 2)
            && B.Half(vm.mem, base + 6) == Field(d, 6) && B.Half(vm.mem, base + 4) == Field(d, 4)
            && vm.mem.Keys == Flat(B.Bytecode(), d, s).Keys
  {
    hide ReadBytes, Flat, B.Outputs, B.Lines, B.Half, Field;
    PreparedMemory(d, s);
    FieldAt(vm.mem, B.SIZE + GAP, d, 6);
    FieldAt(vm.mem, B.SIZE + GAP, d, 4);
    OutputsKeys(Flat(B.Bytecode(), d, s), StackEnd(B.Bytecode(), d, s) - 8, 0, StackEnd(B.Bytecode(), d, s) - 16, 0);
  }

  lemma OutputsKeys(m: Memory, src: nat, a: u64, dst: nat, b: u64)
    ensures B.Outputs(m, src, a, dst, b).Keys == m.Keys
  {
  }

  lemma TopOfStack(p: seq<u8>, d: seq<u8>, s: seq<u8>, m: Memory)
    requires Fits(p, d, s) && m.Keys == Flat(p, d, s).Keys
    ensures var e := StackEnd(p, d, s);
            U64(e - 8) == e - 8 && U64(e - 8 - 8) == e - 16 && Mapped(m, e - 8, 8) && Mapped(m, e - 16, 8)
            && U64(U64(e - 16 + 8) - 8) == e - 16 && U64(e - 16 + 8) == e - 8 && U64(U64(e - 8 + 8) - 8) == e - 8
  {
    var e := StackEnd(p, d, s);
    ReadStack(p, d, s, e - 8, 8);
    ReadStack(p, d, s, e - 16, 8);
  }

  method PassArguments(vm: VM, a0: u64, a1: u64, a2: u64, a3: u64)
    requires vm.Valid()
    modifies vm.x
    ensures vm.Regs() == old(vm.Regs())[10 := a0][11 := a1][12 := a2][13 := a3]
  {
    var done := vm.RegisterSet(10, a0);
    done := vm.RegisterSet(11, a1);
    done := vm.RegisterSet(12, a2);
    done := vm.RegisterSet(13, a3);
  }

  /** Maps the packet and passes the arguments; the outputs are two pushed zeros. */
  method Prepare(vm: VM, buf: array<u8>, n: nat) returns (ok: bool)
    requires vm.Valid() && n <= buf.Length
    requires |vm.program| + GAP + n + GAP + |vm.stack| <= LAST_GUARDED
    modifies vm, vm.x, buf
    ensures vm.Valid() && |vm.program| == old(|vm.program|) && |vm.stack| == old(|vm.stack|)
    ensures vm.data == buf && vm.dataLen == n
    ensures buf[n..] == old(buf[n..])
    ensures |vm.stack| >= 16 ==> ok && Prepared(vm.State(), old(vm.program), old(buf[..n]), old(vm.stack))
  {
    hide ReadBytes, Flat, LittleEndian, ToBytes, WriteBytes, Mapped, U64, B.Bytecode;
    ghost var (p, d, s) := (vm.program, buf[..n], vm.stack);
    var virtBuf := vm.MapDataMem(buf, n);
    assert vm.Data() == d;
    if 16 <= |s| { TopOfStack(p, d, s, vm.Mem()); }
    var srcAddr, dstAddr;
    ok, srcAddr := vm.StackPush(0);
    if !ok { return; }
    if 16 <= |s| { TopOfStack(p, d, s, vm.Mem()); }
    ok, dstAddr := vm.StackPush(0);
    if !ok { return; }
    PassArguments(vm, virtBuf, n, srcAddr, dstAddr);
  }

  /** `GetSrcDst`: maps the packet, passes the outputs on the stack, runs and pops them.
      With the published bytecode loaded it succeeds exactly on DNP3 packets, yields the
      addresses at offsets 6 and 4, and leaves the program and the packet as they were. */
  method GetSrcDst(vm: VM, buf: array<u8>, n: nat) returns (success: bool, src: u64, dst: u64)
    requires vm.Valid() && n <= buf.Length
    requires |vm.program| + GAP + n + GAP + |vm.stack| <= LAST_GUARDED
    modifies vm, vm.x, buf
    ensures vm.Valid() && |vm.program| == old(|vm.program|) && |vm.stack| == old(|vm.stack|)
    ensures buf[n..] == old(buf[n..])
    ensures old(vm.program) == B.Bytecode() && |vm.stack| >= 16 ==>
      && vm.program == old(vm.program) && buf[..n] == old(buf[..n])
      && (success <==> IsDnp3(old(buf[..n])))
      && (success ==> src == Field(old(buf[..n]), 6) && dst == Field(old(buf[..n]), 4))
  {
    hide ReadBytes, Flat, B.Lines, Machine.Run, LittleEndian, ToBytes, WriteBytes, Mapped, U64, SameBelow, Prepared,
      B.Bytecode, Field, IsDnp3;
    ghost var (p, d, s) := (vm.program, buf[..n], vm.stack);
    ghost var known := p == B.Bytecode() && |s| >= 16;
    var ok := Prepare(vm, buf, n);
    if !ok { return false, 0, 0; }
    ghost var t: State;
    if known { t := PacketRun(vm.State(), d, s); }
    var f := vm.ExecuteProgram(0, MAX_INSTRUCTIONS);
    if f != NoFault { return false, 0, 0; }
    var res := vm.x[10];
    if known {
      assert vm.State() == t;
      TopOfStack(p, d, s, Flat(p, d, s));
      FinalRegions(p, d, s, vm.program, vm.Data(), vm.stack);
    }
    ok, dst := vm.StackPop();
    if !ok { return false, 0, 0; }
    ok, src := vm.StackPop();
    if !ok { return false, 0, 0; }
    success := res == 0;
  }

  /** What the program finds in a packet. */
  predicate Finds(packet: seq<u8>, success: bool, src: u64, dst: u64) {
    && (success <==> IsDnp3(packet))
    && (success ==> src == Field(packet, 6) && dst == Field(packet, 4))
  }

  datatype Answer = Answer(success: bool, src: u64, dst: u64)

  /** One packet after the other on the same machine: every answer is right, whatever the
      packets before, and program and packets stay as they were. */
  method GetAll(vm: VM, packets: seq<array<u8>>) returns (answers: seq<Answer>)
    requires vm.Valid() && vm.program == B.Bytecode() && |vm.stack| >= 16
    requires forall i | 0 <= i < |packets| :: |vm.program| + GAP + packets[i].Length + GAP + |vm.stack| <= LAST_GUARDED
    modifies vm, vm.x, set i | 0 <= i < |packets| :: packets[i]
    ensures vm.Valid() && vm.program == B.Bytecode() && |answers| == |packets|
    ensures forall i | 0 <= i < |packets| ::
      packets[i][..] == old(packets[i][..]) && Finds(packets[i][..], answers[i].success, answers[i].src, answers[i].dst)
  {
    hide Field, IsDnp3, VM.Valid, B.Bytecode;
    answers := [];
    for k := 0 to |packets|
      invariant vm.Valid() && vm.program == B.Bytecode() && |vm.stack| == old(|vm.stack|) && |answers| == k
      invariant forall i | 0 <= i < |packets| :: packets[i][..] == old(packets[i][..])
      invariant forall i | 0 <= i < k :: Finds(old(packets[i][..]), answers[i].success, answers[i].src, answers[i].dst)
    {
      var buf := packets[k];
      assert buf[..buf.Length] == buf[..] == old(packets[k][..]);
      var success, src, dst := GetSrcDst(vm, buf, buf.Length);
      assert buf[..buf.Length] == buf[..];
      assert Finds(old(packets[k][..]), success, src, dst);
      answers := answers + [Answer(success, src, dst)];
    }
  }

  lemma FinalRegions(p: seq<u8>, d: seq<u8>, s: seq<u8>, p': seq<u8>, d': seq<u8>, s': seq<u8>)
    requires |p| == |p'| && |d| == |d'| && SameBelow(Flat(p, d, s), Flat(p', d', s'), StackBegin(p, d))
    ensures p == p' && d == d'
  {
    AgreeBelowStack(p, d, s, p', d', s');
  }
}
