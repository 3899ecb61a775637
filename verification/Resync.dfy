/** What the DNP3 scanner finds in any stream: the frames that a plain scan finds which looks for
    a header at every byte. */
module Resync {
  import opened Bytes
  import opened Crc
  import opened Dnp3Frame
  import opened StreamReader
  import opened Chunks

  /** A link header with the right checksum stands at the front. */
  predicate Header(c: seq<byte>) { |c| >= 10 && c[0] == 0x05 && c[1] == 0x64 && Valid(c[..10]) }

  /** The plain scan.  Where no header stands it moves on by one byte; from a corrupt frame it
      resumes at the first corrupt block. */
  function Plain(c: seq<byte>, base: nat): seq<Placed>
    decreases |c|
  {
    if |c| < 10 then []
    else if !Header(c) then Plain(c[1..], base + 1)
    else
      var length := FrameLength(Num(c[2]));
      FrameLengthIs(Num(c[2]));
      if |c| < length then []
      else
        var bad := FirstBad(c, 10, length);
        if bad < length then Plain(c[bad..], base + bad)
        else
          var frame := Expected(Dst(c), Src(c), Payload(c, 10, length), length);
          [Placed(base, frame)] + Plain(c[length..], base + length)
  }

  lemma {:induction false} PlainSkips(c: seq<byte>, base: nat, k: nat)
    requires k <= |c| && forall i | 0 <= i < k :: !Header(c[i..])
    ensures Plain(c, base) == Plain(c[k..], base + k)
    decreases k
  {
    hide Header;
    if k == 0 {
      assert c[0..] == c;
    } else if |c| >= 10 {
      assert c[0..] == c;
      forall i | 0 <= i < k - 1 ensures !Header(c[1..][i..]) { assert c[1..][i..] == c[i + 1..]; }
      PlainSkips(c[1..], base + 1, k - 1);
      assert c[1..][k - 1..] == c[k..];
      PlainMoves(c, base);
    }
  }

  lemma PlainMoves(c: seq<byte>, base: nat)
    requires |c| >= 10 && !Header(c)
    ensures Plain(c, base) == Plain(c[1..], base + 1)
  {
    hide Header;
  }

  // ---- the scanner is the plain scan ------------------------------------------------------

  lemma NoHeaderBefore(c: seq<byte>, i: nat)
    requires i < Offset(c)
    ensures !Header(c[i..])
  {
    hide Valid;
    assert !Start(c, i);
  }

  lemma HeaderStarts(c: seq<byte>)
    requires |c| >= 10
    ensures Header(c) <==> Offset(c) == 0 && Valid(c[..10])
  {
    hide Valid, Offset;
    StartsAtZero(c);
  }

  /** The verdict in terms of headers and blocks. */
  lemma VerdictIs(c: seq<byte>)
    requires |c| >= 10 && Offset(c) == 0
    ensures !Header(c) ==> Check(c) == Junk(2) && !Header(c[1..])
    ensures Header(c) ==>
      var length := FrameLength(Num(c[2]));
      && length >= 10
      && (|c| < length ==> Check(c) == Wait)
      && (|c| >= length ==> var bad := FirstBad(c, 10, length);
           if bad < length then bad >= 10 && Check(c) == Junk(bad) else Check(c).Good? && Check(c).frame.len == length)
  {
    hide Valid, Offset, FirstBad, FrameLength, Flow, Num;
    HeaderStarts(c);
    StartsAtZero(c);
    FrameLengthIs(Num(c[2]));
    assert c[1..][0] == c[1];
  }

  lemma ScanIs(c: seq<byte>)
    ensures Scan(Dnp3, c) == Report(Check(c))
  {
    hide Check;
  }

  /** Junk is taken off without a trace. */
  lemma JunkTaken(c: seq<byte>, base: nat)
    requires Check(c).Junk? && 0 < Check(c).n <= |c|
    ensures var n := Check(c).n;
            ValidFrames(Extract(Dnp3, c).items, base) == ValidFrames(Extract(Dnp3, c[n..]).items, base + n)
  {
    hide Check, Extract, ValidFrames, Scan;
    ScanIs(c);
    Unroll(c, base);
    TakenBytes(c, Scan(Dnp3, c));
  }

  lemma FrameTaken(c: seq<byte>, base: nat)
    requires Check(c).Good? && 0 < Check(c).frame.len <= |c|
    ensures var n := Check(c).frame.len;
            ValidFrames(Extract(Dnp3, c).items, base)
              == [Placed(base, Check(c).frame)] + ValidFrames(Extract(Dnp3, c[n..]).items, base + n)
  {
    hide Check, Extract, ValidFrames, Scan;
    ScanIs(c);
    Unroll(c, base);
    TakenBytes(c, Scan(Dnp3, c));
  }

  lemma NothingTaken(c: seq<byte>, base: nat)
    requires Check(c) == Wait
    ensures ValidFrames(Extract(Dnp3, c).items, base) == []
  {
    hide Check;
  }

  lemma {:induction false} ShortHasNone(c: seq<byte>, base: nat)
    requires |c| < 10
    ensures ValidFrames(Extract(Dnp3, c).items, base) == []
    decreases |c|
  {
    hide Check, Extract, ValidFrames, Offset;
    ShortVerdict(c);
    if Check(c) == Wait {
      NothingTaken(c, base);
    } else {
      JunkTaken(c, base);
      ShortHasNone(c[Check(c).n..], base + Check(c).n);
    }
  }

  lemma ShortVerdict(c: seq<byte>)
    requires |c| < 10
    ensures Check(c) == Wait || (Check(c).Junk? && 0 < Check(c).n <= |c|)
  {
  }

  /** The scanner finds, in every stream, exactly the frames of the plain scan, at their places
      and with their addresses and transport bits. */
  lemma {:induction false} ScannerIsPlain(c: seq<byte>, base: nat)
    requires |c| < MAX_BUFFER
    ensures ValidFrames(Extract(Dnp3, c).items, base) == Plain(c, base)
    decreases |c|
  {
    hide Check, Extract, ValidFrames, Offset, Plain, Header;
    if |c| < 10 {
      ShortHasNone(c, base);
      PlainShort(c, base);
    } else if Offset(c) > 0 {
      SkipOffset(c, base);
      forall i | 0 <= i < Offset(c) ensures !Header(c[i..]) { NoHeaderBefore(c, i); }
      PlainSkips(c, base, Offset(c));
      ScannerIsPlain(c[Offset(c)..], base + Offset(c));
    } else {
      VerdictIs(c);
      if !Header(c) {
        JunkTaken(c, base);
        forall i | 0 <= i < 2 ensures !Header(c[i..]) { assert c[0..] == c; }
        PlainSkips(c, base, 2);
        ScannerIsPlain(c[2..], base + 2);
      } else {
        AtHeader(c, base);
      }
    }
  }

  lemma PlainShort(c: seq<byte>, base: nat)
    requires |c| < 10
    ensures Plain(c, base) == []
  {
  }

  lemma AtHeader(c: seq<byte>, base: nat)
    requires 10 <= |c| < MAX_BUFFER && Header(c) && Offset(c) == 0
    ensures ValidFrames(Extract(Dnp3, c).items, base) == Plain(c, base)
    decreases |c|, 0
  {
    hide Check, Extract, ValidFrames, Offset, Header, FirstBad, FrameLength, Expected, Payload, Dst, Src, Num;
    VerdictIs(c);
    var length := FrameLength(Num(c[2]));
    if |c| < length {
      NothingTaken(c, base);
    } else {
      var bad := FirstBad(c, 10, length);
      if bad < length {
        JunkTaken(c, base);
        ScannerIsPlain(c[bad..], base + bad);
      } else {
        FrameTaken(c, base);
        AcceptedIsBuild(c);
        ScannerIsPlain(c[length..], base + length);
      }
    }
  }

  // ---- frames behind junk and behind corrupt frames ---------------------------------------

  /** From a place where the plain scan stands: no header up to p, and a frame of the format at p. */
  ghost predicate NextAt(c: seq<byte>, p: nat, control: byte, dst: nat, src: nat, user: seq<byte>) {
    && p <= |c| && (forall i | 0 <= i < p :: !Header(c[i..]))
    && dst < 0x1_0000 && src < 0x1_0000 && |user| <= 250 && Build(control, dst, src, user) <= c[p..]
  }

  lemma PlainFinds(c: seq<byte>, base: nat, p: nat, control: byte, dst: nat, src: nat, user: seq<byte>)
    requires |c| < MAX_BUFFER && NextAt(c, p, control, dst, src, user)
    ensures var n := |Build(control, dst, src, user)|;
            p + n <= |c| && Plain(c, base)
              == [Placed(base + p, Expected(dst, src, user, n))] + Plain(c[p + n..], base + p + n)
  {
    hide Header, Plain, Build, Expected;
    PlainSkips(c, base, p);
    PlainFrame(c[p..], base + p, control, dst, src, user);
    var n := |Build(control, dst, src, user)|;
    assert c[p..][n..] == c[p + n..];
  }

  lemma PlainFrame(c: seq<byte>, base: nat, control: byte, dst: nat, src: nat, user: seq<byte>)
    requires |c| < MAX_BUFFER && dst < 0x1_0000 && src < 0x1_0000 && |user| <= 250
    requires Build(control, dst, src, user) <= c
    ensures var n := |Build(control, dst, src, user)|;
            Plain(c, base) == [Placed(base, Expected(dst, src, user, n))] + Plain(c[n..], base + n)
  {
    hide Valid, Build, Expected, Check, Offset, FirstBad, FrameLength, Payload, Dst, Src, Num;
    BuildIsAccepted(c, control, dst, src, user);
    AcceptedIsBuild(c);
    AcceptedHeaderStands(c);
    VerdictIs(c);
    ExpectedLength(dst, src, user, |Build(control, dst, src, user)|);
  }

  lemma ExpectedLength(dst: nat, src: nat, user: seq<byte>, n: nat)
    ensures Expected(dst, src, user, n).len == n
  {
  }

  lemma AcceptedHeaderStands(c: seq<byte>)
    requires Check(c).Good?
    ensures |c| >= 10 && Offset(c) == 0 && Header(c)
  {
    hide Valid, Offset, FirstBad, FrameLength, Flow, Num;
    if |c| >= 10 { StartsAtZero(c); }
  }

  /** Whatever stands before it, a frame is found if no header with a right checksum comes first:
      a stray start pattern costs no frame behind it. */
  lemma FrameFound(c: seq<byte>, base: nat, p: nat, control: byte, dst: nat, src: nat, user: seq<byte>)
    requires |c| < MAX_BUFFER && NextAt(c, p, control, dst, src, user)
    ensures var n := |Build(control, dst, src, user)|;
            p + n <= |c| && ValidFrames(Extract(Dnp3, c).items, base)
              == [Placed(base + p, Expected(dst, src, user, n))]
                 + ValidFrames(Extract(Dnp3, c[p + n..]).items, base + p + n)
  {
    hide Header, Plain, Build, Expected, Extract, ValidFrames;
    var n := |Build(control, dst, src, user)|;
    PlainFinds(c, base, p, control, dst, src, user);
    ScannerIsPlain(c, base);
    ScannerIsPlain(c[p + n..], base + p + n);
  }

  /** The first corrupt block of a frame: the blocks before it check, and it does not. */
  lemma {:induction false} FirstBadIs(c: seq<byte>, start: nat, length: nat)
    requires start <= length <= |c| && FirstBad(c, start, length) < length
    ensures var bad := FirstBad(c, start, length);
            && (bad - start) % 18 == 0 && !Valid(c[bad..BlockEnd(bad, length)])
            && forall k: nat | start + 18 * (k + 1) <= bad :: Valid(c[start + 18 * k..start + 18 * (k + 1)])
    decreases length - start
  {
    hide Valid;
    var (bad, end) := (FirstBad(c, start, length), BlockEnd(start, length));
    if Valid(c[start..end]) {
      FirstBadIs(c, end, length);
      forall k: nat | start + 18 * (k + 1) <= bad ensures Valid(c[start + 18 * k..start + 18 * (k + 1)]) {
        if k > 0 { assert Valid(c[end + 18 * (k - 1)..end + 18 * (k - 1 + 1)]); }
      }
    }
  }

  /** A frame is found, too, behind a corrupt one, from the first corrupt block of that on. */
  lemma FrameFoundBehindCorrupt(c: seq<byte>, base: nat, p: nat, control: byte, dst: nat, src: nat, user: seq<byte>)
    requires |c| < MAX_BUFFER && Header(c)
    requires var length := FrameLength(Num(c[2])); length <= |c| && FirstBad(c, 10, length) < length
    requires var bad := FirstBad(c, 10, FrameLength(Num(c[2])));
             bad <= p && NextAt(c[bad..], p - bad, control, dst, src, user)
    ensures var n := |Build(control, dst, src, user)|;
            p + n <= |c| && ValidFrames(Extract(Dnp3, c).items, base)
              == [Placed(base + p, Expected(dst, src, user, n))]
                 + ValidFrames(Extract(Dnp3, c[p + n..]).items, base + p + n)
  {
    hide Plain, Build, Expected, Extract, ValidFrames, FrameLength, FirstBad, Num, Valid;
    var n := |Build(control, dst, src, user)|;
    var bad := FirstBad(c, 10, FrameLength(Num(c[2])));
    PlainResumes(c, base);
    PlainFinds(c[bad..], base + bad, p - bad, control, dst, src, user);
    assert c[bad..][p - bad + n..] == c[p + n..];
    ScannerIsPlain(c, base);
    ScannerIsPlain(c[p + n..], base + p + n);
  }

  lemma PlainResumes(c: seq<byte>, base: nat)
    requires Header(c)
    requires var length := FrameLength(Num(c[2])); length <= |c| && FirstBad(c, 10, length) < length
    ensures FrameLength(Num(c[2])) >= 10
    ensures var bad := FirstBad(c, 10, FrameLength(Num(c[2])));
            10 <= bad <= |c| && Plain(c, base) == Plain(c[bad..], base + bad)
  {
    hide FrameLength, Num, Valid, Expected, Payload;
    FrameLengthIs(Num(c[2]));
  }

  // ---- known values -----------------------------------------------------------------------

  lemma FoldNext(data: seq<byte>, k: nat, c: bv16, d: bv16)
    requires k < |data| && Shift8(Mix(c, data[k])) == d
    ensures Fold(c, data[k..]) == Fold(d, data[k + 1..])
  {
    hide Step, Shift8, Mix;
    StepIsBitwise(c, data[k]);
    assert data[k..][1..] == data[k + 1..];
  }

  lemma FoldLast(data: seq<byte>, c: bv16)
    ensures Fold(c, data[|data|..]) == c
  {
  }

  /** The published check value of the DNP3 checksum, for the digits 1 to 9. */
  lemma CheckValue()
    ensures Checksum([0x31, 0x32, 0x33, 0x34, 0x35, 0x36, 0x37, 0x38, 0x39]) == 0xEA82
  {
    hide Fold;
    var data: seq<byte> := [0x31, 0x32, 0x33, 0x34, 0x35, 0x36, 0x37, 0x38, 0x39];
    assert data[0..] == data;
    FoldNext(data, 0, 0x0000, 0xAD9A);
    FoldNext(data, 1, 0xAD9A, 0x7037);
    FoldNext(data, 2, 0x7037, 0xD908);
    FoldNext(data, 3, 0xD908, 0xBDEC);
    FoldNext(data, 4, 0xBDEC, 0x8EE3);
    FoldNext(data, 5, 0x8EE3, 0xA821);
    FoldNext(data, 6, 0xA821, 0x0707);
    FoldNext(data, 7, 0x0707, 0xE7D0);
    FoldNext(data, 8, 0xE7D0, 0x157D);
    FoldLast(data, 0x157D);
  }

  /** A header-only frame from 2 to 1, byte for byte. */
  lemma SampleFrame()
    ensures Build(0xC0, 1, 2, []) == [0x05, 0x64, 0x05, 0xC0, 0x01, 0x00, 0x02, 0x00, 0x74, 0xE3]
  {
    hide Fold;
    SampleBytes();
    var data: seq<byte> := [0x05, 0x64, 0x05, 0xC0, 0x01, 0x00, 0x02, 0x00];
    assert data[0..] == data;
    FoldNext(data, 0, 0x0000, 0xEF26);
    FoldNext(data, 1, 0xEF26, 0x3F0D);
    FoldNext(data, 2, 0x3F0D, 0xFFB6);
    FoldNext(data, 3, 0xFFB6, 0x7DA1);
    FoldNext(data, 4, 0x7DA1, 0x8F6E);
    FoldNext(data, 5, 0x8F6E, 0x3033);
    FoldNext(data, 6, 0x3033, 0xADAA);
    FoldNext(data, 7, 0xADAA, 0x1C8B);
    FoldLast(data, 0x1C8B);
  }

  lemma SampleBytes()
    ensures LowByte(5) == 5 && LowByte(1) == 1 && LowByte(2) == 2 && LowByte(0) == 0
  {
    assert Num(5) == 5 && Num(1) == 1 && Num(2) == 2 && Num(0) == 0;
    ByteBack(5, 5);
    ByteBack(1, 1);
    ByteBack(2, 2);
    ByteBack(0, 0);
  }

  /** What the scanner reports for that frame, followed by anything. */
  lemma SampleVerdict(rest: seq<byte>)
    ensures Check([0x05, 0x64, 0x05, 0xC0, 0x01, 0x00, 0x02, 0x00, 0x74, 0xE3] + rest)
         == Good(Frame(10, true, true, 0x2_0001, 0))
  {
    hide Check, Build;
    SampleFrame();
    var f: seq<byte> := [0x05, 0x64, 0x05, 0xC0, 0x01, 0x00, 0x02, 0x00, 0x74, 0xE3];
    BuildIsAccepted(f + rest, 0xC0, 1, 2, []);
  }

  /** The transport octet: FIN in bit 7, FIR in bit 6, the number below. */
  lemma SampleTransport()
    ensures var f := Expected(1, 2, [0x45], 13); f.fir && !f.fin && f.sequence == 5
    ensures var f := Expected(1, 2, [0xBF], 13); !f.fir && f.fin && f.sequence == 63
  {
    assert (0x45 as byte) & 0x3F == 5 && (0xBF as byte) & 0x3F == 63;
    assert Num(5) == 5 && Num(63) == 63;
  }
}
