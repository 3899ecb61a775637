/** The virtual address space of the machine: program, data and stack, each followed by
    64 unmapped addresses, seen as one flat byte memory. */
module Regions {
  import opened Bits
  import opened Rv64

  const GAP := 64
  const LAST_GUARDED: int := 0xFFFF_FFFF_FFFF_FFF0   // accesses above it are refused

  function DataBegin(p: seq<u8>): int { |p| + GAP }
  function DataEnd(p: seq<u8>, d: seq<u8>): int { DataBegin(p) + |d| }
  function StackBegin(p: seq<u8>, d: seq<u8>): int { DataEnd(p, d) + GAP }
  function StackEnd(p: seq<u8>, d: seq<u8>, s: seq<u8>): int { StackBegin(p, d) + |s| }

  predicate InProgram(p: seq<u8>, addr: int, n: nat) { 0 <= addr && addr + n <= |p| }
  predicate InData(p: seq<u8>, d: seq<u8>, addr: int, n: nat) {
    DataBegin(p) <= addr && addr + n <= DataEnd(p, d)
  }
  predicate InStack(p: seq<u8>, d: seq<u8>, s: seq<u8>, addr: int, n: nat) {
    StackBegin(p, d) <= addr && addr + n <= StackEnd(p, d, s)
  }

  predicate Address(p: seq<u8>, d: seq<u8>, s: seq<u8>, a: int) {
    InProgram(p, a, 1) || InData(p, d, a, 1) || InStack(p, d, s, a, 1)
  }

  function ByteAt(p: seq<u8>, d: seq<u8>, s: seq<u8>, a: int): u8
    requires Address(p, d, s, a)
  {
    if InProgram(p, a, 1) then p[a]
    else if InData(p, d, a, 1) then d[a - DataBegin(p)]
    else s[a - StackBegin(p, d)]
  }

  function Flat(p: seq<u8>, d: seq<u8>, s: seq<u8>): (m: Memory)
    ensures forall a :: a in m <==> Address(p, d, s, a)
    ensures forall a | a in m :: m[a] == ByteAt(p, d, s, a)
  {
    map a: int | 0 <= a < StackEnd(p, d, s) && Address(p, d, s, a) :: ByteAt(p, d, s, a)
  }

  /** Because the gaps are wider than any access, an access whose bytes are all mapped lies
      inside a single region. */
  lemma OneRegion(p: seq<u8>, d: seq<u8>, s: seq<u8>, addr: int, n: nat)
    requires 0 < n <= GAP
    ensures Mapped(Flat(p, d, s), addr, n) <==>
            InProgram(p, addr, n) || InData(p, d, addr, n) || InStack(p, d, s, addr, n)
  {
    if Mapped(Flat(p, d, s), addr, n) {
      assert Address(p, d, s, addr) && Address(p, d, s, addr + n - 1);
      assert !Address(p, d, s, |p|) && !Address(p, d, s, DataEnd(p, d));
    }
  }

  lemma ReadProgram(p: seq<u8>, d: seq<u8>, s: seq<u8>, addr: int, n: nat)
    requires InProgram(p, addr, n)
    ensures Mapped(Flat(p, d, s), addr, n)
    ensures ReadBytes(Flat(p, d, s), addr, n) == p[addr..addr + n]
  {
  }

  lemma ReadData(p: seq<u8>, d: seq<u8>, s: seq<u8>, addr: int, n: nat)
    requires InData(p, d, addr, n)
    ensures Mapped(Flat(p, d, s), addr, n)
    ensures ReadBytes(Flat(p, d, s), addr, n) == d[addr - DataBegin(p)..addr - DataBegin(p) + n]
  {
  }

  lemma ReadStack(p: seq<u8>, d: seq<u8>, s: seq<u8>, addr: int, n: nat)
    requires InStack(p, d, s, addr, n)
    ensures Mapped(Flat(p, d, s), addr, n)
    ensures ReadBytes(Flat(p, d, s), addr, n) == s[addr - StackBegin(p, d)..addr - StackBegin(p, d) + n]
  {
  }

  /** Overwriting part of a buffer. */
  function Splice(buf: seq<u8>, at: nat, b: seq<u8>): (r: seq<u8>)
    requires at + |b| <= |buf|
    ensures |r| == |buf|
    ensures forall i | 0 <= i < |buf| :: r[i] == if at <= i < at + |b| then b[i - at] else buf[i]
  {
    buf[..at] + b + buf[at + |b|..]
  }

  lemma WriteProgram(p: seq<u8>, d: seq<u8>, s: seq<u8>, addr: int, b: seq<u8>)
    requires InProgram(p, addr, |b|)
    ensures Flat(Splice(p, addr, b), d, s) == WriteBytes(Flat(p, d, s), addr, b)
  {
  }

  lemma WriteData(p: seq<u8>, d: seq<u8>, s: seq<u8>, addr: int, b: seq<u8>)
    requires InData(p, d, addr, |b|)
    ensures Flat(p, Splice(d, addr - DataBegin(p), b), s) == WriteBytes(Flat(p, d, s), addr, b)
  {
  }

  lemma WriteStack(p: seq<u8>, d: seq<u8>, s: seq<u8>, addr: int, b: seq<u8>)
    requires InStack(p, d, s, addr, |b|)
    ensures Flat(p, d, Splice(s, addr - StackBegin(p, d), b)) == WriteBytes(Flat(p, d, s), addr, b)
  {
  }

  /** The flat memory determines the regions, once their sizes are known; two memories
      that agree below the stack hold the same program and the same data. */
  lemma AgreeBelowStack(p: seq<u8>, d: seq<u8>, s: seq<u8>, p': seq<u8>, d': seq<u8>, s': seq<u8>)
    requires |p| == |p'| && |d| == |d'|
    requires forall a | a in Flat(p, d, s) && a < StackBegin(p, d) ::
      a in Flat(p', d', s') && Flat(p, d, s)[a] == Flat(p', d', s')[a]
    ensures p == p' && d == d'
  {
    forall i | 0 <= i < |p| ensures p[i] == p'[i] {
      assert ByteAt(p, d, s, i) == p[i] && ByteAt(p', d', s', i) == p'[i];
      assert i in Flat(p, d, s);
    }
    forall i | 0 <= i < |d| ensures d[i] == d'[i] {
      var a := DataBegin(p) + i;
      assert ByteAt(p, d, s, a) == d[i] && ByteAt(p', d', s', a) == d'[i];
      assert a in Flat(p, d, s);
    }
  }
}
