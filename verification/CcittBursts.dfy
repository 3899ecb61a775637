/** CRC-CCITT: its published check value, and exactly which damage to a trailer it detects. */
module CcittBursts {
  import opened Bytes
  import opened Crc
  import DelimFrame

  /** One bit of the division, with the polynomial masked by the bit that leaves. */
  function Bit(c: bv16): bv16 { (c << 1) ^ ((0 - (c >> 15)) & 0x1021) }

  lemma BitIs(c: bv16)
    ensures CcittBit(c) == Bit(c)
  {
    if c & 0x8000 != 0 {
      assert c >> 15 == 1;
    } else {
      assert c >> 15 == 0;
    }
  }

  function Eight(c: bv16): bv16 { Bit(Bit(Bit(Bit(Bit(Bit(Bit(Bit(c)))))))) }

  lemma EightBits(c: bv16)
    ensures CcittBits(c, 8) == Eight(c)
  {
    hide CcittBit, Bit;
    var c4 := Bit(Bit(Bit(Bit(c))));
    FourBits(c, 4);
    FourBits(c4, 0);
  }

  lemma FourBits(c: bv16, n: nat)
    ensures CcittBits(c, n + 4) == CcittBits(Bit(Bit(Bit(Bit(c)))), n)
  {
    hide CcittBit, Bit;
    OneBit(c, n + 3);
    OneBit(Bit(c), n + 2);
    OneBit(Bit(Bit(c)), n + 1);
    OneBit(Bit(Bit(Bit(c))), n);
  }

  lemma OneBit(c: bv16, n: nat)
    ensures CcittBits(c, n + 1) == CcittBits(Bit(c), n)
  {
    BitIs(c);
  }

  /** A byte added to the high end of the state. */
  function Add(c: bv16, b: byte): bv16 { c ^ ((b as bv16) << 8) }

  function Plus(a: byte, b: byte): byte { a ^ b }

  /** What a byte that leaves the state at the high end brings in at the low end, and the rest. */
  function Divided(c: bv16, entry: bv16): bv16 { (c << 8) ^ entry }

  /** Eight bits of the division of a byte by x^16 + x^12 + x^5 + 1. */
  function Entry(i: byte): bv16 { Eight((i as bv16) << 8) }

  lemma ByteIsEntry(c: bv16, b: byte)
    ensures CcittByte(c, b) == Divided(c, Entry(Plus(High(c), b)))
  {
    hide Eight, Entry, Divided, Plus, High;
    EightBits(Add(c, b));
    EightIsEntry(Add(c, b));
    Added(c, b, Entry(High(Add(c, b))));
  }

  lemma Added(c: bv16, b: byte, e: bv16)
    ensures High(Add(c, b)) == Plus(High(c), b) && Divided(Add(c, b), e) == Divided(c, e)
  {
  }

  lemma EightIsEntry(c: bv16)
    ensures Eight(c) == Divided(c, Entry(High(c)))
  {
    hide Eight;
    EightWide(c);
    HighPart(c);
  }

  function Sum(a: bv16, b: bv16): bv16 { a ^ b }
  function Up(c: bv16): bv16 { c << 1 }
  predicate BelowTop(c: bv16) { c < 0x8000 }

  /** What stands below the top bit is moved up as it is. */
  lemma BitPasses(h: bv16, l: bv16)
    requires BelowTop(l)
    ensures Bit(Sum(h, l)) == Sum(Bit(h), Up(l))
  {
    TopKept(h, l);
    Moved(h, l);
    Exchanged(h << 1, l << 1, (0 - (h >> 15)) & 0x1021);
  }

  lemma TopKept(h: bv16, l: bv16)
    requires l < 0x8000
    ensures (h ^ l) >> 15 == h >> 15
  {
  }

  lemma Moved(h: bv16, l: bv16)
    ensures (h ^ l) << 1 == (h << 1) ^ (l << 1)
  {
  }

  lemma Exchanged(x: bv16, y: bv16, z: bv16)
    ensures (x ^ y) ^ z == (x ^ z) ^ y
  {
  }

  lemma FourPass(h: bv16, l: bv16)
    requires BelowTop(l) && BelowTop(Up(l)) && BelowTop(Up(Up(l))) && BelowTop(Up(Up(Up(l))))
    ensures Bit(Bit(Bit(Bit(Sum(h, l))))) == Sum(Bit(Bit(Bit(Bit(h)))), Up(Up(Up(Up(l)))))
  {
    hide Bit, Sum, Up, BelowTop;
    BitPasses(h, l);
    BitPasses(Bit(h), Up(l));
    BitPasses(Bit(Bit(h)), Up(Up(l)));
    BitPasses(Bit(Bit(Bit(h))), Up(Up(Up(l))));
  }

  lemma EightWide(c: bv16)
    ensures Eight(c) == Divided(c, Eight(c & 0xff00))
  {
    hide Bit, Sum, Up, BelowTop, Divided;
    var (h, l) := (c & 0xff00, c & 0xff);
    var l4 := Up(Up(Up(Up(l))));
    Halves(c);
    FourPass(h, l);
    FourPass(Bit(Bit(Bit(Bit(h)))), l4);
    SumDivided(c, Eight(h));
  }

  lemma Halves(c: bv16)
    ensures var l := c & 0xff; c == Sum(c & 0xff00, l)
    ensures var l := c & 0xff; BelowTop(l) && BelowTop(Up(l)) && BelowTop(Up(Up(l))) && BelowTop(Up(Up(Up(l))))
    ensures var l := Up(Up(Up(Up(c & 0xff))));
            BelowTop(l) && BelowTop(Up(l)) && BelowTop(Up(Up(l))) && BelowTop(Up(Up(Up(l))))
    ensures Up(Up(Up(Up(Up(Up(Up(Up(c & 0xff)))))))) == c << 8
  {
  }

  lemma SumDivided(c: bv16, e: bv16)
    ensures Sum(e, c << 8) == Divided(c, e)
  {
  }

  lemma HighPart(c: bv16)
    ensures (High(c) as bv16) << 8 == c & 0xff00
  {
  }

  // ---- what determines what ---------------------------------------------------------------

  lemma PartsOf(c: bv16, e: bv16)
    ensures High(Divided(c, e)) == Plus(Low(c), High(e)) && Low(Divided(c, e)) == Low(e)
  {
  }

  lemma LowInjective(i: byte, j: byte)
    requires Low(Entry(i)) == Low(Entry(j))
    ensures i == j
  {
  }

  /** Two entries have the same high byte only when they are those of the same byte, or of bytes
      that differ by 0x89; their low bytes then differ by 0xA1. */
  lemma HighTwins(i: byte, j: byte)
    ensures High(Entry(i)) == High(Entry(j)) <==> i == j || i == Plus(j, 0x89)
    ensures i == Plus(j, 0x89) ==> Low(Entry(i)) == Plus(Low(Entry(j)), 0xA1)
  {
  }

  lemma PlusInjective(h: byte, a: byte, b: byte)
    ensures Plus(h, a) == Plus(h, b) <==> a == b
    ensures Plus(a, h) == Plus(b, h) <==> a == b
    ensures Plus(h, a) == Plus(Plus(h, b), 0x89) <==> a == Plus(b, 0x89)
  {
    hide Plus;
    PlusBack(h, a);
    PlusBack(h, b);
    PlusSides(h, a);
    PlusSides(h, b);
    PlusMoves(h, b, 0x89);
    PlusBack(h, Plus(b, 0x89));
  }

  lemma PlusBack(h: byte, a: byte) ensures Plus(h, Plus(h, a)) == a {}
  lemma PlusSides(h: byte, a: byte) ensures Plus(h, a) == Plus(a, h) {}
  lemma PlusMoves(h: byte, a: byte, d: byte) ensures Plus(Plus(h, a), d) == Plus(h, Plus(a, d)) {}

  lemma ByteInjective(c: bv16, d: bv16, b: byte)
    requires CcittByte(c, b) == CcittByte(d, b)
    ensures c == d
  {
    hide Entry, High, Low, CcittByte, Divided, Plus;
    ByteIsEntry(c, b);
    ByteIsEntry(d, b);
    var (i, j) := (Plus(High(c), b), Plus(High(d), b));
    PartsOf(c, Entry(i));
    PartsOf(d, Entry(j));
    LowInjective(i, j);
    PlusInjective(b, High(c), High(d));
    PlusInjective(High(Entry(i)), Low(c), Low(d));
    LowHigh(c, d);
  }

  lemma {:induction false} RestInjective(c: bv16, d: bv16, data: seq<byte>)
    requires CcittFold(c, data) == CcittFold(d, data)
    ensures c == d
    decreases data
  {
    hide CcittByte;
    if data != [] {
      RestInjective(CcittByte(c, data[0]), CcittByte(d, data[0]), data[1..]);
      ByteInjective(c, d, data[0]);
    }
  }

  lemma LowDecides(c: bv16, a: byte, b: byte)
    requires Low(CcittByte(c, a)) == Low(CcittByte(c, b))
    ensures a == b
  {
    hide Entry, High, Low, CcittByte, Divided, Plus;
    ByteIsEntry(c, a);
    ByteIsEntry(c, b);
    PartsOf(c, Entry(Plus(High(c), a)));
    PartsOf(c, Entry(Plus(High(c), b)));
    LowInjective(Plus(High(c), a), Plus(High(c), b));
    PlusInjective(High(c), a, b);
  }

  /** Two bytes of data determine the state, whatever the state before. */
  lemma TwoInjective(c: bv16, a0: byte, a1: byte, b0: byte, b1: byte)
    requires CcittByte(CcittByte(c, a0), a1) == CcittByte(CcittByte(c, b0), b1)
    ensures a0 == b0 && a1 == b1
  {
    hide Entry, High, Low, CcittByte, Divided, Plus;
    var (x, y) := (CcittByte(c, a0), CcittByte(c, b0));
    ByteIsEntry(x, a1);
    ByteIsEntry(y, b1);
    var (i, j) := (Plus(High(x), a1), Plus(High(y), b1));
    PartsOf(x, Entry(i));
    PartsOf(y, Entry(j));
    LowInjective(i, j);
    PlusInjective(High(Entry(i)), Low(x), Low(y));
    LowDecides(c, a0, b0);
    PlusInjective(High(x), a1, b1);
  }

  /** Two last bytes of data leave the same high byte exactly when they are the same or differ
      by 0x89; the low bytes then differ by 0xA1. */
  lemma LastByteTwins(c: bv16, a: byte, b: byte)
    ensures High(CcittByte(c, a)) == High(CcittByte(c, b)) <==> a == b || a == Plus(b, 0x89)
    ensures a == Plus(b, 0x89) ==> Low(CcittByte(c, a)) == Plus(Low(CcittByte(c, b)), 0xA1)
  {
    hide Entry, High, Low, CcittByte, Divided, Plus;
    ByteIsEntry(c, a);
    ByteIsEntry(c, b);
    var (i, j) := (Plus(High(c), a), Plus(High(c), b));
    PartsOf(c, Entry(i));
    PartsOf(c, Entry(j));
    HighTwins(i, j);
    PlusInjective(High(c), a, b);
    PlusInjective(Low(c), High(Entry(i)), High(Entry(j)));
  }

  // ---- trailers ---------------------------------------------------------------------------

  lemma {:induction false} FoldConcatenates(c: bv16, a: seq<byte>, b: seq<byte>)
    ensures CcittFold(c, a + b) == CcittFold(CcittFold(c, a), b)
    decreases a
  {
    hide CcittByte;
    if a == [] {
      assert a + b == b;
    } else {
      assert (a + b)[0] == a[0] && (a + b)[1..] == a[1..] + b;
      FoldConcatenates(CcittByte(c, a[0]), a[1..], b);
    }
  }

  lemma FoldOne(c: bv16, x: byte)
    ensures CcittFold(c, [x]) == CcittByte(c, x)
  {
    hide CcittByte;
    assert [x][1..] == [];
  }

  lemma FoldTwo(c: bv16, x: byte, y: byte)
    ensures CcittFold(c, [x, y]) == CcittByte(CcittByte(c, x), y)
  {
    hide CcittByte;
    FoldConcatenates(c, [x], [y]);
    FoldOne(c, x);
    FoldOne(CcittByte(c, x), y);
    assert [x] + [y] == [x, y];
  }

  /** Two data bytes in the middle decide the checksum. */
  lemma DataDecides(pre: seq<byte>, x: byte, y: byte, x': byte, y': byte, post: seq<byte>)
    requires Ccitt(pre + [x, y] + post) == Ccitt(pre + [x', y'] + post)
    ensures x == x' && y == y'
  {
    hide CcittByte, CcittFold;
    var c := CcittFold(0xFFFF, pre);
    FoldConcatenates(0xFFFF, pre + [x, y], post);
    FoldConcatenates(0xFFFF, pre, [x, y]);
    FoldConcatenates(0xFFFF, pre + [x', y'], post);
    FoldConcatenates(0xFFFF, pre, [x', y']);
    FoldTwo(c, x, y);
    FoldTwo(c, x', y');
    RestInjective(CcittByte(CcittByte(c, x), y), CcittByte(CcittByte(c, x'), y'), post);
    TwoInjective(c, x, y, x', y');
  }

  /** Ten bytes that end in the checksum of the first eight. */
  predicate Sealed(t: seq<byte>) {
    |t| == 10 && t[8] == Low(Ccitt(t[..8])) && t[9] == High(Ccitt(t[..8]))
  }

  /** The two sequences are the same but for places i and i + 1. */
  predicate BurstAt(t: seq<byte>, u: seq<byte>, i: nat) {
    |u| == |t| && i < |t| - 1 && forall j | 0 <= j < |t| && j != i && j != i + 1 :: u[j] == t[j]
  }

  lemma DataBurst(t: seq<byte>, u: seq<byte>, i: nat)
    requires Sealed(t) && Sealed(u) && BurstAt(t, u, i) && i <= 6
    ensures u == t
  {
    hide Ccitt, Low, High;
    LowHigh(Ccitt(t[..8]), Ccitt(u[..8]));
    var (pre, post) := (t[..i], t[i + 2..8]);
    assert t[..8] == pre + [t[i], t[i + 1]] + post && u[..8] == pre + [u[i], u[i + 1]] + post;
    DataDecides(pre, t[i], t[i + 1], u[i], u[i + 1], post);
  }

  lemma SealBurst(t: seq<byte>, u: seq<byte>)
    requires Sealed(t) && Sealed(u) && BurstAt(t, u, 8)
    ensures u == t
  {
    hide Ccitt, Low, High;
    assert t[..8] == u[..8];
  }

  /** Damage to the last data byte and the first checksum byte. */
  lemma EdgeBurst(t: seq<byte>, u: seq<byte>)
    requires Sealed(t) && BurstAt(t, u, 7)
    ensures Sealed(u) <==> u == t || (u[7] == Plus(t[7], 0x89) && u[8] == Plus(t[8], 0xA1))
  {
    hide Low, High, CcittByte, CcittFold, Plus;
    var c := CcittFold(0xFFFF, t[..7]);
    assert t[..8] == t[..7] + [t[7]] && u[..8] == t[..7] + [u[7]];
    FoldConcatenates(0xFFFF, t[..7], [t[7]]);
    FoldConcatenates(0xFFFF, t[..7], [u[7]]);
    FoldOne(c, t[7]);
    FoldOne(c, u[7]);
    LastByteTwins(c, u[7], t[7]);
  }

  lemma EndsAtSealed(delim: seq<byte>, t: seq<byte>)
    requires |delim| == 4 && |t| == 10
    ensures DelimFrame.EndsAt(delim, t, 10) <==> t[..4] == delim && Sealed(t)
  {
    assert t[10 - 10..10 - 6] == t[..4] && t[10 - 10..10 - 2] == t[..8];
  }

  /** Exactly which damage to a trailer goes unnoticed: of all changes confined to two adjacent
      bytes that leave the delimiter as it is, those that change the last byte of the number by
      0x89 and the first byte of the checksum, which stands low byte first, by 0xA1. */
  lemma TrailerBursts(delim: seq<byte>, t: seq<byte>, u: seq<byte>, i: nat)
    requires |delim| == 4 && |t| == 10 && DelimFrame.EndsAt(delim, t, 10)
    requires BurstAt(t, u, i) && u != t && u[..4] == delim
    ensures DelimFrame.EndsAt(delim, u, 10) <==> i == 7 && u[7] == t[7] ^ 0x89 && u[8] == t[8] ^ 0xA1
  {
    hide Sealed, DelimFrame.EndsAt;
    EndsAtSealed(delim, t);
    EndsAtSealed(delim, u);
    if i == 7 {
      EdgeBurst(t, u);
    } else if Sealed(u) {
      if i <= 6 { DataBurst(t, u, i); } else { SealBurst(t, u); }
    }
  }

  /** A trailer is seen by its ten bytes alone, wherever it stands. */
  lemma EndsAtWindow(delim: seq<byte>, buf: seq<byte>, n: nat)
    requires |delim| == 4 && 10 <= n <= |buf|
    ensures DelimFrame.EndsAt(delim, buf, n) <==> DelimFrame.EndsAt(delim, buf[n - 10..n], 10)
  {
    hide Ccitt, Low, High;
    var w := buf[n - 10..n];
    assert w[0..4] == buf[n - 10..n - 6] && w[0..8] == buf[n - 10..n - 2];
  }

  // ---- known values -----------------------------------------------------------------------

  /** The published check value of this CRC, for the digits 1 to 9. */
  lemma CheckValue()
    ensures Ccitt([0x31, 0x32, 0x33, 0x34, 0x35, 0x36, 0x37, 0x38, 0x39]) == 0x29B1
  {
    hide CcittByte, CcittFold;
    var data: seq<byte> := [0x31, 0x32, 0x33, 0x34, 0x35, 0x36, 0x37, 0x38, 0x39];
    assert data[0..] == data;
    FoldStep(data, 0, 0xFFFF, 0xC782);
    FoldStep(data, 1, 0xC782, 0x3DBA);
    FoldStep(data, 2, 0x3DBA, 0x5BCE);
    FoldStep(data, 3, 0x5BCE, 0x5349);
    FoldStep(data, 4, 0x5349, 0x4560);
    FoldStep(data, 5, 0x4560, 0x2EF4);
    FoldStep(data, 6, 0x2EF4, 0x7718);
    FoldStep(data, 7, 0x7718, 0xA12B);
    FoldStep(data, 8, 0xA12B, 0x29B1);
    FoldEnd(data, 0x29B1);
  }

  lemma FoldStep(data: seq<byte>, k: nat, c: bv16, d: bv16)
    requires k < |data| && Eight(Add(c, data[k])) == d
    ensures CcittFold(c, data[k..]) == CcittFold(d, data[k + 1..])
  {
    hide CcittByte, Eight;
    EightBits(Add(c, data[k]));
    ByteIsEight(c, data[k]);
    assert data[k..][1..] == data[k + 1..];
  }

  lemma ByteIsEight(c: bv16, b: byte)
    ensures CcittByte(c, b) == CcittBits(Add(c, b), 8)
  {
  }

  lemma FoldEnd(data: seq<byte>, c: bv16)
    ensures CcittFold(c, data[|data|..]) == c
  {
  }

  /** A whole trailer: the delimiter, the number and the checksum, low bytes first. */
  lemma SampleTrailer()
    ensures DelimFrame.Trailer([0xAA, 0xBB, 0xCC, 0xDD], 0x0403_0201)
         == [0xAA, 0xBB, 0xCC, 0xDD, 0x01, 0x02, 0x03, 0x04, 0xB8, 0x31]
  {
    hide CcittByte, CcittFold;
    SampleNumber();
    var data: seq<byte> := [0xAA, 0xBB, 0xCC, 0xDD, 0x01, 0x02, 0x03, 0x04];
    assert data[0..] == data == [0xAA, 0xBB, 0xCC, 0xDD] + DelimFrame.Bytes4(0x0403_0201);
    FoldStep(data, 0, 0xFFFF, 0xF550);
    FoldStep(data, 1, 0xF550, 0xF90A);
    FoldStep(data, 2, 0xF90A, 0x6CF6);
    FoldStep(data, 3, 0x6CF6, 0x41FA);
    FoldStep(data, 4, 0x41FA, 0xB2C4);
    FoldStep(data, 5, 0xB2C4, 0x63DB);
    FoldStep(data, 6, 0x63DB, 0xB7A6);
    FoldStep(data, 7, 0xB7A6, 0x31B8);
    FoldEnd(data, 0x31B8);
  }

  lemma SampleNumber()
    ensures DelimFrame.Bytes4(0x0403_0201) == [0x01, 0x02, 0x03, 0x04]
  {
    assert Num(1) == 1 && Num(2) == 2 && Num(3) == 3 && Num(4) == 4;
    ByteBack(1, 0x0403_0201);
    ByteBack(2, 0x0403_0201 / 0x100);
    ByteBack(3, 0x0403_0201 / 0x1_0000);
    ByteBack(4, 0x0403_0201 / 0x100_0000);
  }
}
