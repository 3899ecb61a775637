/** The one way in which the DNP3 scanner stops for good: a header with a right checksum whose
    length field is below 5. */
module Stalls {
  import opened Bytes
  import opened Crc
  import opened Dnp3Frame
  import opened StreamReader
  import opened Chunks

  /** Scanning from the front comes to position n: the bytes before it are whole frames and
      unframed stretches. */
  predicate Boundary(buf: seq<byte>, n: nat)
    decreases n
  {
    n == 0 || var k := Scan(Dnp3, buf).len; 0 < k <= n && k <= |buf| && Boundary(buf[k..], n - k)
  }

  predicate ShortHeaderAt(buf: seq<byte>, n: nat) {
    n <= |buf| && Boundary(buf, n) && ShortHeader(buf[n..])
  }

  /** A short header stands at a frame boundary. */
  ghost predicate HoldsShortHeader(buf: seq<byte>) {
    exists n :: ShortHeaderAt(buf, n)
  }

  /** Later bytes bring nothing: they stay in the buffer with what is there. */
  predicate Idles(buf: seq<byte>, more: seq<byte>) {
    Extract(Dnp3, buf + more) == Taken(Extract(Dnp3, buf).items, Extract(Dnp3, buf).rest + more)
  }

  lemma ShortWaits(buf: seq<byte>)
    requires ShortHeader(buf) && |buf| < MAX_BUFFER
    ensures Scan(Dnp3, buf).len == 0 && Extract(Dnp3, buf) == Taken([], buf)
  {
    hide Valid, Offset, FirstBad, FrameLength, Num, Flow;
    FrameLengthIs(Num(buf[2]));
  }

  lemma ShortStays(buf: seq<byte>, more: seq<byte>)
    requires |buf| >= 10
    ensures ShortHeader(buf + more) <==> ShortHeader(buf)
  {
    hide Valid, Offset, Num;
    StartsAtZero(buf);
    StartsAtZero(buf + more);
    assert (buf + more)[..10] == buf[..10];
  }

  /** A scan that ends well before the end of the buffer is not changed by later bytes. */
  lemma ScanStays(buf: seq<byte>, more: seq<byte>)
    requires var k := Scan(Dnp3, buf).len; 0 < k && k + 10 <= |buf|
    ensures Scan(Dnp3, buf + more) == Scan(Dnp3, buf)
  {
    hide Check, Offset;
    CheckNotWait(buf);
    if Offset(buf) == 0 {
      VerdictStable(buf, more);
    } else {
      OffsetIsJunk(buf);
      OffsetStays(buf, more);
      OffsetIsJunk(buf + more);
    }
  }

  lemma OffsetStays(buf: seq<byte>, more: seq<byte>)
    requires Offset(buf) + 10 <= |buf|
    ensures Offset(buf + more) == Offset(buf)
  {
    var k := Offset(buf);
    forall i | 0 <= i < k ensures !Start(buf + more, i) {
      assert !Start(buf, i);
    }
    OffsetUnique(buf + more, k);
  }

  /** From a short header on nothing is ever taken. */
  lemma {:induction false} ShortIdles(buf: seq<byte>, n: nat, more: seq<byte>)
    requires ShortHeaderAt(buf, n) && |buf| + |more| < MAX_BUFFER
    ensures Idles(buf, more)
    decreases n
  {
    hide Scan, ShortHeader;
    if n == 0 {
      assert buf[0..] == buf;
      ShortLong(buf);
      ShortStays(buf, more);
      ShortWaits(buf);
      ShortWaits(buf + more);
    } else {
      var k := Scan(Dnp3, buf).len;
      assert buf[k..][n - k..] == buf[n..];
      ShortLong(buf[n..]);
      ScanStays(buf, more);
      ShortIdles(buf[k..], n - k, more);
      assert (buf + more)[..k] == buf[..k] && (buf + more)[k..] == buf[k..] + more;
    }
  }

  lemma ShortLong(buf: seq<byte>)
    requires ShortHeader(buf)
    ensures |buf| >= 10
  {
  }

  /** What is left over stands at a boundary. */
  lemma {:induction false} RestAtBoundary(buf: seq<byte>)
    ensures var rest := Extract(Dnp3, buf).rest;
            |rest| <= |buf| && Boundary(buf, |buf| - |rest|) && buf[|buf| - |rest|..] == rest
    decreases |buf|
  {
    hide Scan;
    var k := Scan(Dnp3, buf).len;
    ScanFits(Dnp3, buf);
    if k > 0 {
      RestAtBoundary(buf[k..]);
      var rest := Extract(Dnp3, buf[k..]).rest;
      assert buf[k..][|buf| - k - |rest|..] == buf[|buf| - |rest|..];
    }
  }

  /** A residue of 292 bytes or more has a short header in front. */
  lemma LongResidueIsShortHeader(buf: seq<byte>)
    requires |Extract(Dnp3, buf).rest| >= 292
    ensures HoldsShortHeader(buf)
  {
    hide ShortHeader, Extract, Boundary;
    Residue(Dnp3, buf);
    ShortRest(buf);
  }

  function Zeros(n: nat): seq<byte> { seq(n, _ => 0) }

  /** 292 bytes that do not complete what is there to a short header. */
  lemma Filler(rest: seq<byte>) returns (more: seq<byte>)
    ensures |more| == 292 && (ShortHeader(rest + more) ==> ShortHeader(rest))
  {
    hide Valid, Offset, Num;
    more := Zeros(292);
    if |rest| >= 10 {
      ShortStays(rest, more);
    } else if ShortHeader(rest + more) {
      var at := 9 - |rest|;
      var other := more[at := 1];
      assert (rest + other)[..10] == (rest + more)[..9] + [1] && (rest + more)[..10] == (rest + more)[..9] + [0];
      LastDiffers((rest + more)[..9], 0, 1);
      more := other;
    }
  }

  lemma LastDiffers(front: seq<byte>, a: byte, b: byte)
    requires |front| >= 1 && a != b && Valid(front + [a])
    ensures !Valid(front + [b])
  {
    hide Checksum, Low, High;
    var n := |front| - 1;
    assert (front + [a])[..n] == front[..n] == (front + [b])[..n];
  }

  /** The scanner stops for good exactly when a short header stands at a frame boundary: then,
      and only then, no later bytes bring another frame or free a byte. */
  lemma StallsExactly(buf: seq<byte>)
    requires |buf| + 292 < MAX_BUFFER
    ensures HoldsShortHeader(buf) <==> forall more | |buf| + |more| < MAX_BUFFER :: Idles(buf, more)
  {
    hide ShortHeader, Extract, ShortHeaderAt, Idles;
    if HoldsShortHeader(buf) {
      var n :| ShortHeaderAt(buf, n);
      forall more | |buf| + |more| < MAX_BUFFER ensures Idles(buf, more) {
        ShortIdles(buf, n, more);
      }
    } else {
      var more := Filler(Extract(Dnp3, buf).rest);
      NotStuck(buf, more);
      assert !Idles(buf, more);
    }
  }

  lemma NotStuck(buf: seq<byte>, more: seq<byte>)
    requires !HoldsShortHeader(buf) && |more| == 292
    requires var rest := Extract(Dnp3, buf).rest; ShortHeader(rest + more) ==> ShortHeader(rest)
    ensures !Idles(buf, more)
  {
    hide ShortHeader, Extract, Boundary;
    var rest := Extract(Dnp3, buf).rest;
    Residue(Dnp3, buf + more);
    ShortRest(buf);
  }

  lemma ShortRest(buf: seq<byte>)
    ensures ShortHeader(Extract(Dnp3, buf).rest) ==> HoldsShortHeader(buf)
  {
    hide ShortHeader, Extract, Boundary;
    RestAtBoundary(buf);
    if ShortHeader(Extract(Dnp3, buf).rest) {
      assert ShortHeaderAt(buf, |buf| - |Extract(Dnp3, buf).rest|);
    }
  }

  // ---- such a header ----------------------------------------------------------------------

  /** Length 4, from address 2 to address 1. */
  const SHORT: seq<byte> := [0x05, 0x64, 0x04, 0x44, 0x01, 0x00, 0x02, 0x00, 0xFF, 0xBB]

  lemma ShortChecksum()
    ensures Step(0, 0x05) == 0xEF26 && Step(0xEF26, 0x64) == 0x3F0D && Step(0x3F0D, 0x04) == 0xC9E8
    ensures Step(0xC9E8, 0x44) == 0xA92B && Step(0xA92B, 0x01) == 0xBA33 && Step(0xBA33, 0x00) == 0xC19C
    ensures Step(0xC19C, 0x02) == 0x5E5B && Step(0x5E5B, 0x00) == 0x4400
    ensures Low(0xBBFF) == 0xFF && High(0xBBFF) == 0xBB && !(0x4400 as bv16) == 0xBBFF
  {
  }

  lemma FoldSteps(a: seq<byte>)
    requires |a| == 8
    ensures var c := Step(Step(Step(Step(0, a[0]), a[1]), a[2]), a[3]);
            Fold(0, a) == Step(Step(Step(Step(c, a[4]), a[5]), a[6]), a[7])
  {
    hide Step;
    forall i | 0 <= i < 8 ensures Fold(0, a[..i + 1]) == Step(Fold(0, a[..i]), a[i]) { FoldSnoc(a, i); }
    assert a[..0] == [] && a[..8] == a;
    assert Fold(0, a[..1]) == Step(0, a[0]);
    assert Fold(0, a[..4]) == Step(Step(Step(Step(0, a[0]), a[1]), a[2]), a[3]);
  }

  /** With this header first, every stream is swallowed whole. */
  lemma ShortHeaderSwallows(more: seq<byte>)
    requires |SHORT| + |more| < MAX_BUFFER
    ensures ShortHeader(SHORT) && Extract(Dnp3, SHORT + more) == Taken([], SHORT + more)
  {
    ShortIsShort();
    hide ShortHeader, Extract;
    ShortStays(SHORT, more);
    ShortWaits(SHORT + more);
  }

  lemma ShortIsShort()
    ensures ShortHeader(SHORT)
  {
    hide Step, Low, High, Offset, Num, Checksum;
    ShortChecksum();
    FoldSteps(SHORT[..8]);
    assert SHORT[..10] == SHORT;
    assert Checksum(SHORT[..8]) == 0xBBFF by { ChecksumIs(SHORT[..8]); }
    StartsAtZero(SHORT);
    assert Num(SHORT[2]) < 5 by { NumOfFour(); }
  }

  lemma ChecksumIs(data: seq<byte>)
    requires data != []
    ensures Checksum(data) == !Fold(0, data)
  {
  }

  lemma NumOfFour()
    ensures Num(4) == 4
  {
  }
}
