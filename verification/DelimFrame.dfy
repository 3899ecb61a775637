/** Delimiter framing: a payload is followed by a trailer of ten bytes, namely the delimiter,
    a 32-bit sequence number and a CRC-CCITT of both. */
module DelimFrame {
  import opened Bytes
  import opened Crc
  import opened Dnp3Frame

  const TRAILER := 10
  const MAX_FRAME := 0x1_0000   // the scanner gives up at 64K without a trailer
  const TWO_32: int := 0x1_0000_0000

  /** A 32-bit number as it lies in memory. */
  function Bytes4(v: nat): (b: seq<byte>)
    ensures |b| == 4
  {
    [LowByte(v), LowByte(v / 0x100), LowByte(v / 0x1_0000), LowByte(v / 0x100_0000)]
  }

  function Value4(b: seq<byte>): nat
    requires |b| == 4
  {
    Num(b[0]) + 0x100 * Num(b[1]) + 0x1_0000 * Num(b[2]) + 0x100_0000 * Num(b[3])
  }

  lemma DigitsSum(v: nat)
    requires v < TWO_32
    ensures v % 256 + 0x100 * (v / 0x100 % 256) + 0x1_0000 * (v / 0x1_0000 % 256)
          + 0x100_0000 * (v / 0x100_0000 % 256) == v
  {
    var a := v / 0x100;
    var b := a / 0x100;
    assert v / 0x1_0000 == b && v / 0x100_0000 == b / 0x100;
    assert a == a % 256 + 0x100 * b && b == b % 256 + 0x100 * (b / 0x100);
  }

  lemma Value4RoundTrip(v: nat)
    requires v < TWO_32
    ensures Value4(Bytes4(v)) == v
  {
    hide LowByte, Num;
    Byte(v); Byte(v / 0x100); Byte(v / 0x1_0000); Byte(v / 0x100_0000);
    DigitsSum(v);
  }

  /** The trailer for a sequence number. */
  function Trailer(delim: seq<byte>, number: nat): (t: seq<byte>)
    requires |delim| == 4
    ensures |t| == TRAILER
  {
    var head := delim + Bytes4(number);
    head + [Low(Ccitt(head)), High(Ccitt(head))]
  }

  /** What `AddDelim` sends for a payload. */
  function Encode(delim: seq<byte>, payload: seq<byte>, number: nat): (e: seq<byte>)
    requires |delim| == 4
    ensures |e| == |payload| + TRAILER
  {
    payload + Trailer(delim, number)
  }

  /** A valid trailer ends at position n of the buffer. */
  predicate EndsAt(delim: seq<byte>, buf: seq<byte>, n: nat)
    requires |delim| == 4
  {
    && TRAILER <= n <= |buf|
    && buf[n - 10..n - 6] == delim
    && buf[n - 2] == Low(Ccitt(buf[n - 10..n - 2]))
    && buf[n - 1] == High(Ccitt(buf[n - 10..n - 2]))
  }

  /** The length of the first frame that ends at n or later, 0 if it is not there yet. */
  function Search(delim: seq<byte>, buf: seq<byte>, n: nat): (r: nat)
    requires |delim| == 4 && n >= TRAILER
    ensures r == 0 || n <= r <= |buf|
    ensures r <= n || r <= MAX_FRAME
    decreases |buf| - n
  {
    if n > |buf| then 0
    else if EndsAt(delim, buf, n) || n >= MAX_FRAME then n
    else Search(delim, buf, n + 1)
  }

  function Check(delim: seq<byte>, buf: seq<byte>): (f: Frame)
    requires |delim| == 4
    ensures f.len <= |buf|
  {
    if |buf| < TRAILER then Unframed(0)
    else
      var n := Search(delim, buf, TRAILER);
      if n == 0 then Unframed(0)
      else if EndsAt(delim, buf, n) then Frame(n, true, true, 1, Value4(buf[n - 6..n - 2]))
      else Unframed(n)
  }

  function Word(low: byte, high: byte): bv16 { ((high as bv16) << 8) | (low as bv16) }

  lemma WordIs(low: byte, high: byte, c: bv16)
    ensures Word(low, high) == c <==> low == Low(c) && high == High(c)
  {
    hide Word, Low, High;
    WordParts(low, high);
    PartsWord(c);
  }

  lemma WordParts(low: byte, high: byte)
    ensures Low(Word(low, high)) == low && High(Word(low, high)) == high
  {
  }

  lemma PartsWord(c: bv16)
    ensures Word(Low(c), High(c)) == c
  {
  }

  method CheckFrame(delim: seq<byte>, buf: seq<byte>) returns (frame: Frame)
    requires |delim| == 4
    ensures frame == Check(delim, buf)
  {
    hide Word, Low, High, Ccitt, Value4;
    if |buf| < 10 {
      return Unframed(0);
    }
    var len := 10;
    var at := 3;   // the last byte of a possible delimiter
    while at + 6 != |buf|
      invariant len == at + 7 && at + 6 <= |buf|
      invariant Search(delim, buf, TRAILER) == Search(delim, buf, len)
      decreases |buf| - at
    {
      if buf[at - 3..at + 1] == delim {
        var possible := Word(buf[at + 5], buf[at + 6]);
        var shouldBe := CrcCcitt(buf[at - 3..at + 5]);
        WordIs(buf[at + 5], buf[at + 6], shouldBe);
        if possible == shouldBe {
          return Frame(len, true, true, 1, Value4(buf[at + 1..at + 5]));
        }
      }
      if len >= 0x1_0000 {
        return Unframed(len);
      }
      len := len + 1;
      at := at + 1;
    }
    return Unframed(0);
  }

  // ---- what the scanner finds -----------------------------------------------------------

  /** The scanner finds the shortest prefix that ends in a valid trailer, unless there is none
      within 64K. */
  lemma {:induction false} SearchIsFirst(delim: seq<byte>, buf: seq<byte>, n: nat)
    requires |delim| == 4 && n >= TRAILER
    ensures var r := Search(delim, buf, n);
            (forall i | n <= i < (if r == 0 then |buf| + 1 else r) :: !EndsAt(delim, buf, i))
            && (r > 0 ==> EndsAt(delim, buf, r) || r == (if n < MAX_FRAME then MAX_FRAME else n))
    decreases |buf| - n
  {
    if n <= |buf| && !EndsAt(delim, buf, n) && n < MAX_FRAME {
      SearchIsFirst(delim, buf, n + 1);
    }
  }

  lemma EndsAtPrefix(delim: seq<byte>, a: seq<byte>, b: seq<byte>, n: nat)
    requires |delim| == 4 && n <= |a|
    ensures EndsAt(delim, a + b, n) <==> EndsAt(delim, a, n)
  {
    if n >= TRAILER {
      assert (a + b)[n - 10..n - 6] == a[n - 10..n - 6];
      assert (a + b)[n - 10..n - 2] == a[n - 10..n - 2];
    }
  }

  /** An answer is not changed by the bytes that arrive later. */
  lemma {:induction false} SearchStable(delim: seq<byte>, a: seq<byte>, b: seq<byte>, n: nat)
    requires |delim| == 4 && n >= TRAILER && Search(delim, a, n) > 0
    ensures Search(delim, a + b, n) == Search(delim, a, n)
    decreases |a| - n
  {
    EndsAtPrefix(delim, a, b, n);
    if n <= |a| && !EndsAt(delim, a, n) && n < MAX_FRAME {
      SearchStable(delim, a, b, n + 1);
    }
  }

  lemma CheckStable(delim: seq<byte>, a: seq<byte>, b: seq<byte>)
    requires |delim| == 4 && Check(delim, a).len > 0
    ensures Check(delim, a + b) == Check(delim, a)
  {
    hide Value4;
    SearchStable(delim, a, b, TRAILER);
    var n := Search(delim, a, TRAILER);
    EndsAtPrefix(delim, a, b, n);
    assert (a + b)[n - 6..n - 2] == a[n - 6..n - 2];
  }

  /** No trailer by accident: none ends inside the payload or across into the real one. */
  predicate Clean(delim: seq<byte>, payload: seq<byte>, number: nat)
    requires |delim| == 4
  {
    && |payload| + TRAILER <= MAX_FRAME
    && forall n | TRAILER <= n < |payload| + TRAILER :: !EndsAt(delim, Encode(delim, payload, number), n)
  }

  lemma EncodeEnds(delim: seq<byte>, payload: seq<byte>, number: nat)
    requires |delim| == 4 && number < TWO_32
    ensures var e := Encode(delim, payload, number);
            EndsAt(delim, e, |e|) && Value4(e[|e| - 6..|e| - 2]) == number
  {
    hide Ccitt, Low, High, Value4, Bytes4;
    var e := Encode(delim, payload, number);
    var n := |e|;
    var head := delim + Bytes4(number);
    assert e[n - 10..n - 2] == head && e[n - 10..n - 6] == delim && e[n - 6..n - 2] == Bytes4(number);
    Value4RoundTrip(number);
  }

  /** Round trip of one datagram: the scanner recovers the sent frame from the front of any
      stream exactly when the frame is clean. */
  lemma FrameRoundTrip(delim: seq<byte>, payload: seq<byte>, number: nat, rest: seq<byte>)
    requires |delim| == 4 && number < TWO_32
    ensures Check(delim, Encode(delim, payload, number) + rest)
              == Frame(|payload| + TRAILER, true, true, 1, number)
            <==> Clean(delim, payload, number)
  {
    hide Value4, EndsAt;
    var e := Encode(delim, payload, number);
    var n := |e|;
    EncodeEnds(delim, payload, number);
    SearchIsFirst(delim, e, TRAILER);
    assert EndsAt(delim, e, n);
    var r := Search(delim, e, TRAILER);
    assert r > 0;
    CheckStable(delim, e, rest);
    if Clean(delim, payload, number) {
      assert r == n;
    }
  }

  /** A payload in which no trailer ends comes back if and only if it has at most 65526 bytes. */
  lemma LargestPayload(delim: seq<byte>, payload: seq<byte>, number: nat, rest: seq<byte>)
    requires |delim| == 4 && number < TWO_32
    requires forall n | TRAILER <= n < |payload| + TRAILER :: !EndsAt(delim, Encode(delim, payload, number), n)
    ensures Check(delim, Encode(delim, payload, number) + rest) == Frame(|payload| + TRAILER, true, true, 1, number)
      <==> |payload| <= 65526
  {
    hide EndsAt, Check, Encode;
    FrameRoundTrip(delim, payload, number, rest);
  }
}
