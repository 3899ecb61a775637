/** DNP3 data link framing: the incremental scanner, and the frame format of clause 9 of
    IEEE Std 1815-2012 that it recognises. */
module Dnp3Frame {
  import opened Bytes
  import opened Crc

  const SIZE_T: int := 0x1_0000_0000_0000_0000
  const MAX_BUFFER: int := 0x2000_0000_0000_0000   // no buffer holds 2^61 bytes

  /** What a scanner reports: a length of 0 asks for more bytes, flow 0 is unframed data. */
  datatype Frame = Frame(len: nat, fir: bool, fin: bool, flow: nat, sequence: nat) {
    predicate IsFragment() { !(fir && fin) }
  }

  function Unframed(len: nat): Frame { Frame(len, true, true, 0, 0) }

  // ---- the format ---------------------------------------------------------------------

  /** A block followed by its checksum. */
  function Sealed(data: seq<byte>): (b: seq<byte>)
    ensures |b| == |data| + 2
  {
    data + [Low(Checksum(data)), High(Checksum(data))]
  }

  lemma SealedIsValid(data: seq<byte>)
    ensures Valid(Sealed(data))
  {
    assert Sealed(data)[..|data|] == data;
  }

  lemma ValidIsSealed(block: seq<byte>)
    requires Valid(block)
    ensures block == Sealed(block[..|block| - 2])
  {
  }

  /** User data in blocks of sixteen bytes, the last one possibly shorter. */
  function Blocks(user: seq<byte>): seq<byte> {
    if user == [] then []
    else if |user| <= 16 then Sealed(user)
    else Sealed(user[..16]) + Blocks(user[16..])
  }

  lemma {:induction false} BlocksLength(user: seq<byte>)
    ensures |Blocks(user)| == |user| + 2 * ((|user| + 15) / 16)
  {
    if |user| > 16 { BlocksLength(user[16..]); }
  }

  /** A link frame: start bytes, length, control, destination, source, user data. */
  function Build(control: byte, dst: nat, src: nat, user: seq<byte>): seq<byte>
    requires |user| <= 250
  {
    Sealed([0x05, 0x64, LowByte(5 + |user|), control,
            LowByte(dst), LowByte(dst / 256), LowByte(src), LowByte(src / 256)])
    + Blocks(user)
  }

  // ---- the scanner's pieces -----------------------------------------------------------

  /** The start bytes, or the first of them at the very end of the buffer. */
  predicate Start(buf: seq<byte>, i: nat) {
    i < |buf| && buf[i] == 0x05 && (i + 1 < |buf| ==> buf[i + 1] == 0x64)
  }

  /** The number of bytes before the start of a frame. */
  function Offset(buf: seq<byte>): (k: nat)
    ensures k <= |buf| && (k < |buf| ==> Start(buf, k))
    ensures forall i | 0 <= i < k :: !Start(buf, i)
  {
    if buf == [] || Start(buf, 0) then 0
    else
      var k := 1 + Offset(buf[1..]);
      assert forall i | 1 <= i < |buf| :: Start(buf, i) <==> Start(buf[1..], i - 1);
      k
  }

  lemma OffsetUnique(buf: seq<byte>, k: nat)
    requires k <= |buf| && (k < |buf| ==> Start(buf, k))
    requires forall i | 0 <= i < k :: !Start(buf, i)
    ensures Offset(buf) == k
  {
  }

  method StartBytesOffset(buf: seq<byte>) returns (num: nat)
    ensures num == Offset(buf)
  {
    num := 0;
    var prev: byte := 0;
    var i := 0;
    while i < |buf|
      invariant 0 <= i <= |buf| && num == i
      invariant prev == if i == 0 then 0 else buf[i - 1]
      invariant forall j | 0 <= j < i - 1 :: !Start(buf, j)
    {
      if prev == 0x05 && buf[i] == 0x64 { break; }
      num := num + 1;
      prev := buf[i];
      i := i + 1;
    }
    if prev == 0x05 {
      num := num - 1;
    }
    OffsetUnique(buf, num);
  }

  lemma FoldSnoc(data: seq<byte>, i: nat)
    requires i < |data|
    ensures Fold(0, data[..i + 1]) == Step(Fold(0, data[..i]), data[i])
  {
    hide Step;
    assert data[..i + 1] == data[..i] + [data[i]];
    FoldConcat(0, data[..i], [data[i]]);
    assert [data[i]][1..] == [];
  }

  lemma ValidAt(buf: seq<byte>, start: nat, n: nat)
    requires start + n + 2 <= |buf|
    ensures Valid(buf[start..start + n + 2]) <==>
            buf[start + n] == Low(Checksum(buf[start..start + n]))
            && buf[start + n + 1] == High(Checksum(buf[start..start + n]))
  {
    hide Low, High, Checksum;
    var block := buf[start..start + n + 2];
    assert block[..n] == buf[start..start + n];
  }

  /** The value the scanner holds after i bytes: the state, complemented after the last. */
  function Running(data: seq<byte>, i: nat): bv16
    requires i <= |data|
  {
    if i < |data| then Fold(0, data[..i]) else Checksum(data)
  }

  lemma RunningStep(data: seq<byte>, i: nat)
    requires i < |data|
    ensures Running(data, i + 1) ==
            if i == |data| - 1 then !Step(Running(data, i), data[i]) else Step(Running(data, i), data[i])
  {
    hide Step;
    FoldSnoc(data, i);
    if i == |data| - 1 { assert data[..i + 1] == data; }
  }

  /** Checks the block of n bytes at start and its checksum, and returns the byte at `at`. */
  method CRCCheck(buf: seq<byte>, start: nat, n: nat, at: nat) returns (ok: bool, found: byte)
    ensures ok <==> start + n + 2 <= |buf| && Valid(buf[start..start + n + 2])
    ensures found == if ok && start <= at < start + n then buf[at] else 0
  {
    hide Step, Low, High, Running, Valid, Checksum;
    if |buf| < start + n + 2 {
      return false, 0;
    }
    ghost var data := buf[start..start + n];
    ValidAt(buf, start, n);
    RunningEnds(data);
    found := 0;
    var crc: bv16 := 0;
    var i := 0;
    while start + i < |buf|
      invariant 0 <= i <= n + 2 && start + i <= |buf|
      invariant crc == Running(data, if i < n then i else n)
      invariant found == if start <= at < start + i && at < start + n then buf[at] else 0
      invariant i > n ==> buf[start + n] == Low(crc)
      invariant i > n + 1 ==> buf[start + n + 1] == High(crc)
    {
      if i > n + 1 { break; }
      var b := buf[start + i];
      if i < n {
        RunningStep(data, i);
        crc := Step(crc, b);
        if i + start == at { found := b; }
        if i == n - 1 { crc := !crc; }
      } else if i == n && b != Low(crc) {
        return false, 0;
      } else if i == n + 1 && b != High(crc) {
        return false, 0;
      }
      i := i + 1;
    }
    return true, found;
  }

  lemma RunningEnds(data: seq<byte>)
    ensures Running(data, 0) == 0 && Running(data, |data|) == Checksum(data)
  {
    assert data[..0] == [];
  }

  /** The length of the frame whose header holds `length`, in the arithmetic of size_t:
      below 5 the subtraction wraps around. */
  function FrameLength(length: nat): nat {
    var user := (length - 5) % SIZE_T;
    (length + (5 + 2 * (user / 16) + (if user % 16 != 0 then 2 else 0))) % SIZE_T
  }

  lemma FrameLengthIs(length: nat)
    requires length < 256
    ensures length >= 5 ==>
      FrameLength(length) == 10 + (length - 5) + 2 * ((length - 5 + 15) / 16) && FrameLength(length) <= 292
    ensures length < 5 ==> FrameLength(length) >= 0x2000_0000_0000_0000
  {
  }

  method CRCCheckedLength(buf: seq<byte>) returns (length: nat)
    requires |buf| >= 10
    ensures length == if Valid(buf[..10]) then FrameLength(Num(buf[2])) else 0
    ensures length == 0 <==> !Valid(buf[..10])
    ensures length == 0 || length >= 10
  {
    var ok, len := CRCCheck(buf, 0, 8, 2);
    assert buf[0..10] == buf[..10];
    if !ok { return 0; }
    FrameLengthIs(Num(buf[2]));
    var user := (Num(len) - 5) % SIZE_T;
    length := (Num(len) + (5 + 2 * (user / 16) + (if user % 16 != 0 then 2 else 0))) % SIZE_T;
  }

  // ---- the verdict on a buffer --------------------------------------------------------

  function BlockEnd(start: nat, length: nat): nat {
    if length - start >= 18 then start + 18 else length
  }

  /** The offset of the first corrupt block, or the length of the frame. */
  function FirstBad(buf: seq<byte>, start: nat, length: nat): (bad: nat)
    requires length <= |buf|
    ensures start <= length ==> start <= bad <= length
    decreases length - start
  {
    if start >= length then length
    else if Valid(buf[start..BlockEnd(start, length)]) then FirstBad(buf, BlockEnd(start, length), length)
    else start
  }

  /** Wait: more bytes are needed.  Junk: the first n bytes are no frame.  Good: a frame. */
  datatype Verdict = Wait | Junk(n: nat) | Good(frame: Frame)

  function Flow(buf: seq<byte>): nat
    requires |buf| >= 8
  {
    Num(buf[7]) * 0x100_0000 + Num(buf[6]) * 0x1_0000 + Num(buf[5]) * 0x100 + Num(buf[4])
  }

  function Check(buf: seq<byte>): Verdict {
    if |buf| < 1 then Wait
    else if Offset(buf) > 0 then Junk(Offset(buf))
    else if |buf| < 10 then Wait
    else if !Valid(buf[..10]) then Junk(2)
    else
      var length := FrameLength(Num(buf[2]));
      FrameLengthIs(Num(buf[2]));
      if |buf| < length then Wait
      else if length == 10 then Good(Frame(10, true, true, Flow(buf), 0))
      else if FirstBad(buf, 10, length) < length then Junk(FirstBad(buf, 10, length))
      else
        var control := buf[10];
        Good(Frame(length, control & 0x40 != 0, control & 0x80 != 0, Flow(buf), (control & 0x3F) as nat))
  }

  function Report(v: Verdict): Frame {
    match v
    case Wait => Unframed(0)
    case Junk(n) => Unframed(n)
    case Good(f) => f
  }

  /** Checks the blocks of a frame in turn; stops behind the first corrupt one. */
  method CheckBlocks(buf: seq<byte>, length: nat) returns (good: bool, start: nat)
    requires 13 <= length <= |buf| && (length - 10) % 18 !in {1, 2}
    ensures good <==> FirstBad(buf, 10, length) == length
    ensures !good ==> start >= 18 && FirstBad(buf, 10, length) == start - 18
  {
    hide Valid;
    good := true;
    start := 10;
    while good && start < length
      invariant 10 <= start && (start - 10) % 18 == 0
      invariant good ==> FirstBad(buf, 10, length) == FirstBad(buf, start, length)
      invariant !good ==> start >= 28 && start - 18 < length && FirstBad(buf, 10, length) == start - 18
      decreases good, length - start
    {
      assert length - start >= 3 by { Remainder(start, length); }
      var n := if length - start >= 18 then 16 else length - start - 2;
      var found;
      good, found := CRCCheck(buf, start, n, 0);
      start := start + 18;
    }
  }

  lemma Remainder(start: nat, length: nat)
    requires 10 <= start < length && (start - 10) % 18 == 0 && (length - 10) % 18 !in {1, 2}
    ensures length - start >= 3
  {
  }

  lemma LengthRemainder(length: nat)
    requires 5 <= length < 256 && FrameLength(length) != 10
    ensures FrameLength(length) >= 13 && (FrameLength(length) - 10) % 18 !in {1, 2}
  {
    FrameLengthIs(length);
    var user := length - 5;
    if user % 16 == 0 {
      assert FrameLength(length) - 10 == 18 * (user / 16);
    } else {
      assert FrameLength(length) - 10 == 18 * (user / 16) + user % 16 + 2;
    }
  }

  method CheckFrame(buf: seq<byte>) returns (frame: Frame)
    requires |buf| < MAX_BUFFER
    ensures frame == Report(Check(buf))
  {
    hide Valid, Offset, FirstBad, FrameLength;
    if |buf| < 1 {
      return Unframed(0);
    }
    var unframed := StartBytesOffset(buf);
    if unframed != 0 {
      return Unframed(unframed);
    }
    var length := 0;
    if |buf| >= 10 {
      length := CRCCheckedLength(buf);
      if length == 0 {
        return Unframed(2);
      }
    } else {
      return Unframed(0);
    }
    FrameLengthIs(Num(buf[2]));
    if |buf| < length {
      return Unframed(0);
    }
    var srcDst := Num(buf[7]) * 0x100_0000 + Num(buf[6]) * 0x1_0000 + Num(buf[5]) * 0x100 + Num(buf[4]);
    if length == 10 {
      return Frame(length, true, true, srcDst, 0);
    }
    LengthRemainder(Num(buf[2]));
    var txCtl := buf[10];
    frame := Frame(length, txCtl & 0x40 != 0, txCtl & 0x80 != 0, srcDst, (txCtl & 0x3F) as nat);
    var good, start := CheckBlocks(buf, length);
    if good {
      return frame;
    } else {
      return Unframed(start - 18);
    }
  }

  // ---- the scanner recognises the format ------------------------------------------------

  /** The user data of the blocks from start to length. */
  function Payload(buf: seq<byte>, start: nat, length: nat): seq<byte>
    requires length <= |buf|
    decreases length - start
  {
    if start + 2 >= length then []
    else buf[start..BlockEnd(start, length) - 2] + Payload(buf, BlockEnd(start, length), length)
  }

  lemma {:induction false} PayloadLength(buf: seq<byte>, start: nat, length: nat, user: nat)
    requires start <= length <= |buf| && length - start == user + 2 * ((user + 15) / 16)
    ensures |Payload(buf, start, length)| == user
    decreases length - start
  {
    if user > 16 {
      PayloadLength(buf, start + 18, length, user - 16);
    } else if user > 0 {
      assert (user + 15) / 16 == 1;
      assert Payload(buf, length, length) == [];
    }
  }

  /** Blocks that all check are the format's blocks of their user data. */
  lemma {:induction false} GoodBlocks(buf: seq<byte>, start: nat, length: nat, user: nat)
    requires start <= length <= |buf| && length - start == user + 2 * ((user + 15) / 16)
    requires FirstBad(buf, start, length) == length
    ensures buf[start..length] == Blocks(Payload(buf, start, length))
    decreases length - start
  {
    hide Valid, Checksum;
    if user == 0 {
    } else {
      var (end, p) := (BlockEnd(start, length), Payload(buf, start, length));
      assert Valid(buf[start..end]);
      ValidIsSealed(buf[start..end]);
      assert buf[start..end][..end - start - 2] == buf[start..end - 2];
      PayloadLength(buf, start, length, user);
      if user > 16 {
        GoodBlocks(buf, end, length, user - 16);
        assert p[..16] == buf[start..end - 2] && p[16..] == Payload(buf, end, length);
        assert buf[start..length] == buf[start..end] + buf[end..length];
      } else {
        assert (user + 15) / 16 == 1 && end == length;
        assert Payload(buf, end, length) == [] && p == buf[start..end - 2];
      }
    }
  }

  /** The format's blocks all check. */
  lemma {:induction false} BlocksAreGood(buf: seq<byte>, start: nat, length: nat, user: seq<byte>)
    requires start <= length <= |buf| && buf[start..length] == Blocks(user)
    ensures FirstBad(buf, start, length) == length
    decreases |user|
  {
    hide Valid, Checksum;
    BlocksLength(user);
    if user != [] {
      var end := BlockEnd(start, length);
      if |user| > 16 {
        assert end == start + 18;
        assert buf[start..end] == buf[start..length][..18] == Sealed(user[..16]);
        SealedIsValid(user[..16]);
        assert buf[end..length] == buf[start..length][18..] == Blocks(user[16..]);
        BlocksAreGood(buf, end, length, user[16..]);
      } else {
        assert (|user| + 15) / 16 == 1 && end == length;
        SealedIsValid(user);
      }
    }
  }

  lemma BuildLength(control: byte, dst: nat, src: nat, user: seq<byte>)
    requires |user| <= 250
    ensures |Build(control, dst, src, user)| == FrameLength(5 + |user|) <= 292
  {
    BlocksLength(user);
    FrameLengthIs(5 + |user|);
  }

  ghost predicate IsBuild(frame: seq<byte>, control: byte, dst: nat, src: nat, user: seq<byte>) {
    dst < 0x1_0000 && src < 0x1_0000 && |user| <= 250 && frame == Build(control, dst, src, user)
  }

  /** What the scanner reports for a frame of the format. */
  function Expected(dst: nat, src: nat, user: seq<byte>, length: nat): Frame {
    if user == [] then Frame(length, true, true, src * 0x1_0000 + dst, 0)
    else Frame(length, user[0] & 0x40 != 0, user[0] & 0x80 != 0, src * 0x1_0000 + dst, (user[0] & 0x3F) as nat)
  }

  lemma FlowOf(buf: seq<byte>, dst: nat, src: nat)
    requires |buf| >= 8 && dst < 0x1_0000 && src < 0x1_0000
    requires buf[4] == LowByte(dst) && buf[5] == LowByte(dst / 256)
    requires buf[6] == LowByte(src) && buf[7] == LowByte(src / 256)
    ensures Flow(buf) == src * 0x1_0000 + dst
  {
    hide LowByte, Num;
    Word16(dst);
    Word16(src);
  }

  lemma StartsAtZero(buf: seq<byte>)
    requires |buf| >= 2
    ensures Offset(buf) == 0 <==> buf[0] == 0x05 && buf[1] == 0x64
  {
  }

  /** A buffer that begins with a frame of the format is accepted, whatever follows. */
  lemma BuildIsAccepted(buf: seq<byte>, control: byte, dst: nat, src: nat, user: seq<byte>)
    requires dst < 0x1_0000 && src < 0x1_0000 && |user| <= 250
    requires Build(control, dst, src, user) <= buf
    ensures Check(buf) == Good(Expected(dst, src, user, |Build(control, dst, src, user)|))
  {
    hide Valid, Offset, FirstBad, FrameLength, Flow, Build;
    var f := Build(control, dst, src, user);
    BuildLength(control, dst, src, user);
    FrameLengthIs(5 + |user|);
    BuildHeader(buf, control, dst, src, user);
    Byte(5 + |user|);
    StartsAtZero(buf);
    FlowOf(buf, dst, src);
    if user != [] {
      BuildBody(buf, control, dst, src, user);
    }
  }

  lemma BuildHeader(buf: seq<byte>, control: byte, dst: nat, src: nat, user: seq<byte>)
    requires |user| <= 250 && Build(control, dst, src, user) <= buf
    ensures |buf| >= 10 && Valid(buf[..10])
    ensures buf[0] == 0x05 && buf[1] == 0x64 && buf[2] == LowByte(5 + |user|)
    ensures buf[4] == LowByte(dst) && buf[5] == LowByte(dst / 256)
    ensures buf[6] == LowByte(src) && buf[7] == LowByte(src / 256)
  {
    hide Valid, Checksum, LowByte, Low, High, Blocks;
    var f := Build(control, dst, src, user);
    var head := [0x05, 0x64, LowByte(5 + |user|), control,
                 LowByte(dst), LowByte(dst / 256), LowByte(src), LowByte(src / 256)];
    assert buf[..|f|] == f && f[..10] == Sealed(head) && buf[..10] == Sealed(head);
    SealedIsValid(head);
    HeaderBytes(buf, head);
  }

  lemma BuildBody(buf: seq<byte>, control: byte, dst: nat, src: nat, user: seq<byte>)
    requires 0 < |user| <= 250 && Build(control, dst, src, user) <= buf
    ensures var length := |Build(control, dst, src, user)|;
            length > 10 && buf[10] == user[0] && FirstBad(buf, 10, length) == length
  {
    hide Valid, Checksum, FirstBad;
    var f := Build(control, dst, src, user);
    var length := |f|;
    BlocksLength(user);
    assert (|user| + 15) / 16 >= 1;
    assert buf[..length] == f;
    assert buf[10..length] == f[10..] == Blocks(user);
    BlocksAreGood(buf, 10, length, user);
    FirstUserByte(user);
    assert buf[10] == buf[10..length][0] == user[0];
  }

  lemma HeaderBytes(buf: seq<byte>, head: seq<byte>)
    requires |head| == 8 && |buf| >= 10 && buf[..10] == Sealed(head)
    ensures forall i | 0 <= i < 8 :: buf[i] == head[i]
  {
    forall i | 0 <= i < 8 ensures buf[i] == head[i] {
      assert buf[..10][i] == Sealed(head)[i];
    }
  }

  lemma FirstUserByte(user: seq<byte>)
    requires user != []
    ensures |Blocks(user)| > 0 && Blocks(user)[0] == user[0]
  {
  }

  /** The parts of an accepted buffer. */
  function Control(buf: seq<byte>): byte requires |buf| >= 10 { buf[3] }
  function Dst(buf: seq<byte>): nat requires |buf| >= 10 { WordOf(buf[4], buf[5]) }
  function Src(buf: seq<byte>): nat requires |buf| >= 10 { WordOf(buf[6], buf[7]) }

  function WordOf(low: byte, high: byte): nat { Num(high) * 0x100 + Num(low) }

  lemma BytesOfWord(low: byte, high: byte)
    ensures var v := WordOf(low, high);
            v < 0x1_0000 && LowByte(v) == low && LowByte(v / 256) == high
  {
    hide LowByte, Num;
    Cut(Num(low), Num(high));
    ByteBack(low, WordOf(low, high));
    ByteBack(high, WordOf(low, high) / 256);
  }

  /** Every accepted buffer begins with a frame of the format. */
  lemma AcceptedIsBuild(buf: seq<byte>)
    requires |buf| < MAX_BUFFER && Check(buf).Good?
    ensures var length := Check(buf).frame.len;
            10 <= length <= |buf| && var user := Payload(buf, 10, length);
            IsBuild(buf[..length], Control(buf), Dst(buf), Src(buf), user) && length == |buf[..length]|
            && Check(buf) == Good(Expected(Dst(buf), Src(buf), user, length))
  {
    hide Valid, Offset, FirstBad, Payload, Build, LowByte, Control, WordOf, Sealed, Expected, FrameLength, Flow, Num;
    var length := Check(buf).frame.len;
    FrameLengthIs(Num(buf[2]));
    var size := Num(buf[2]) - 5;
    PayloadLength(buf, 10, length, size);
    var user := Payload(buf, 10, length);
    AcceptedHeader(buf, size);
    AddressBytes(buf);
    if length > 10 {
      GoodBlocks(buf, 10, length, size);
    } else {
      assert buf[10..length] == [] && user == [] && Blocks(user) == [];
    }
    BuildParts(buf, length, user);
    BuildIsAccepted(buf, Control(buf), Dst(buf), Src(buf), user);
  }

  lemma AcceptedHeader(buf: seq<byte>, size: nat)
    requires |buf| >= 10 && Valid(buf[..10]) && Offset(buf) == 0 && Num(buf[2]) == 5 + size && size <= 250
    ensures buf[..10] == Sealed([0x05, 0x64, LowByte(5 + size), Control(buf),
                                 LowByte(Dst(buf)), LowByte(Dst(buf) / 256), LowByte(Src(buf)),
                                 LowByte(Src(buf) / 256)])
  {
    hide Checksum, Low, High, LowByte, Valid, Offset, Dst, Src, Num;
    StartsAtZero(buf);
    ValidIsSealed(buf[..10]);
    AddressBytes(buf);
    ByteBack(buf[2], 5 + size);
    assert buf[..10][..8] == [0x05, 0x64, LowByte(5 + size), Control(buf),
                              LowByte(Dst(buf)), LowByte(Dst(buf) / 256), LowByte(Src(buf)), LowByte(Src(buf) / 256)];
  }

  lemma AddressBytes(buf: seq<byte>)
    requires |buf| >= 10
    ensures Dst(buf) < 0x1_0000 && LowByte(Dst(buf)) == buf[4] && LowByte(Dst(buf) / 256) == buf[5]
    ensures Src(buf) < 0x1_0000 && LowByte(Src(buf)) == buf[6] && LowByte(Src(buf) / 256) == buf[7]
  {
    hide LowByte, WordOf, Num;
    BytesOfWord(buf[4], buf[5]);
    BytesOfWord(buf[6], buf[7]);
  }

  lemma BuildParts(buf: seq<byte>, length: nat, user: seq<byte>)
    requires 10 <= length <= |buf| && |user| <= 250 && buf[10..length] == Blocks(user)
    requires buf[..10] == Sealed([0x05, 0x64, LowByte(5 + |user|), Control(buf),
                                  LowByte(Dst(buf)), LowByte(Dst(buf) / 256), LowByte(Src(buf)),
                                  LowByte(Src(buf) / 256)])
    ensures buf[..length] == Build(Control(buf), Dst(buf), Src(buf), user)
  {
    hide Sealed, Blocks, LowByte;
    assert buf[..length] == buf[..10] + buf[10..length];
  }

  /** The scanner accepts a buffer exactly when it begins with a frame of the format; the
      bytes behind the frame do not matter. */
  lemma AcceptsExactly(buf: seq<byte>)
    requires |buf| < MAX_BUFFER
    ensures Check(buf).Good? <==>
      exists control: byte, dst: nat, src: nat, user: seq<byte> ::
        dst < 0x1_0000 && src < 0x1_0000 && |user| <= 250 && Build(control, dst, src, user) <= buf
  {
    hide Check, Build;
    if Check(buf).Good? {
      AcceptedIsBuild(buf);
      var length := Check(buf).frame.len;
      assert Build(Control(buf), Dst(buf), Src(buf), Payload(buf, 10, length)) <= buf;
    }
    if exists control: byte, dst: nat, src: nat, user: seq<byte> ::
        dst < 0x1_0000 && src < 0x1_0000 && |user| <= 250 && Build(control, dst, src, user) <= buf {
      var control: byte, dst: nat, src: nat, user: seq<byte> :|
        dst < 0x1_0000 && src < 0x1_0000 && |user| <= 250 && Build(control, dst, src, user) <= buf;
      BuildIsAccepted(buf, control, dst, src, user);
    }
  }
}
