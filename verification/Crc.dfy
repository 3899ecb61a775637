/** The two checksums: the DNP3 CRC of IEEE Std 1815-2012, Annex E, in its table and in its
    bit-by-bit form, and CRC-CCITT. */
module Crc {
  import opened Bytes

  // ---- the DNP3 CRC -----------------------------------------------------------------

  /** The 256-entry table, in sixteen rows of sixteen. */
  function Table(x: byte): bv16 { Row(x >> 4, x & 0xf) }

  function Row(r: byte, c: byte): bv16 {
    match r
    case 0 => Pick(c,
        0x0000, 0x365E, 0x6CBC, 0x5AE2, 0xD978, 0xEF26, 0xB5C4, 0x839A,
        0xFF89, 0xC9D7, 0x9335, 0xA56B, 0x26F1, 0x10AF, 0x4A4D, 0x7C13)
    case 1 => Pick(c,
        0xB26B, 0x8435, 0xDED7, 0xE889, 0x6B13, 0x5D4D, 0x07AF, 0x31F1,
        0x4DE2, 0x7BBC, 0x215E, 0x1700, 0x949A, 0xA2C4, 0xF826, 0xCE78)
    case 2 => Pick(c,
        0x29AF, 0x1FF1, 0x4513, 0x734D, 0xF0D7, 0xC689, 0x9C6B, 0xAA35,
        0xD626, 0xE078, 0xBA9A, 0x8CC4, 0x0F5E, 0x3900, 0x63E2, 0x55BC)
    case 3 => Pick(c,
        0x9BC4, 0xAD9A, 0xF778, 0xC126, 0x42BC, 0x74E2, 0x2E00, 0x185E,
        0x644D, 0x5213, 0x08F1, 0x3EAF, 0xBD35, 0x8B6B, 0xD189, 0xE7D7)
    case 4 => Pick(c,
        0x535E, 0x6500, 0x3FE2, 0x09BC, 0x8A26, 0xBC78, 0xE69A, 0xD0C4,
        0xACD7, 0x9A89, 0xC06B, 0xF635, 0x75AF, 0x43F1, 0x1913, 0x2F4D)
    case 5 => Pick(c,
        0xE135, 0xD76B, 0x8D89, 0xBBD7, 0x384D, 0x0E13, 0x54F1, 0x62AF,
        0x1EBC, 0x28E2, 0x7200, 0x445E, 0xC7C4, 0xF19A, 0xAB78, 0x9D26)
    case 6 => Pick(c,
        0x7AF1, 0x4CAF, 0x164D, 0x2013, 0xA389, 0x95D7, 0xCF35, 0xF96B,
        0x8578, 0xB326, 0xE9C4, 0xDF9A, 0x5C00, 0x6A5E, 0x30BC, 0x06E2)
    case 7 => Pick(c,
        0xC89A, 0xFEC4, 0xA426, 0x9278, 0x11E2, 0x27BC, 0x7D5E, 0x4B00,
        0x3713, 0x014D, 0x5BAF, 0x6DF1, 0xEE6B, 0xD835, 0x82D7, 0xB489)
    case 8 => Pick(c,
        0xA6BC, 0x90E2, 0xCA00, 0xFC5E, 0x7FC4, 0x499A, 0x1378, 0x2526,
        0x5935, 0x6F6B, 0x3589, 0x03D7, 0x804D, 0xB613, 0xECF1, 0xDAAF)
    case 9 => Pick(c,
        0x14D7, 0x2289, 0x786B, 0x4E35, 0xCDAF, 0xFBF1, 0xA113, 0x974D,
        0xEB5E, 0xDD00, 0x87E2, 0xB1BC, 0x3226, 0x0478, 0x5E9A, 0x68C4)
    case 10 => Pick(c,
        0x8F13, 0xB94D, 0xE3AF, 0xD5F1, 0x566B, 0x6035, 0x3AD7, 0x0C89,
        0x709A, 0x46C4, 0x1C26, 0x2A78, 0xA9E2, 0x9FBC, 0xC55E, 0xF300)
    case 11 => Pick(c,
        0x3D78, 0x0B26, 0x51C4, 0x679A, 0xE400, 0xD25E, 0x88BC, 0xBEE2,
        0xC2F1, 0xF4AF, 0xAE4D, 0x9813, 0x1B89, 0x2DD7, 0x7735, 0x416B)
    case 12 => Pick(c,
        0xF5E2, 0xC3BC, 0x995E, 0xAF00, 0x2C9A, 0x1AC4, 0x4026, 0x7678,
        0x0A6B, 0x3C35, 0x66D7, 0x5089, 0xD313, 0xE54D, 0xBFAF, 0x89F1)
    case 13 => Pick(c,
        0x4789, 0x71D7, 0x2B35, 0x1D6B, 0x9EF1, 0xA8AF, 0xF24D, 0xC413,
        0xB800, 0x8E5E, 0xD4BC, 0xE2E2, 0x6178, 0x5726, 0x0DC4, 0x3B9A)
    case 14 => Pick(c,
        0xDC4D, 0xEA13, 0xB0F1, 0x86AF, 0x0535, 0x336B, 0x6989, 0x5FD7,
        0x23C4, 0x159A, 0x4F78, 0x7926, 0xFABC, 0xCCE2, 0x9600, 0xA05E)
    case _ => Pick(c,
        0x6E26, 0x5878, 0x029A, 0x34C4, 0xB75E, 0x8100, 0xDBE2, 0xEDBC,
        0x91AF, 0xA7F1, 0xFD13, 0xCB4D, 0x48D7, 0x7E89, 0x246B, 0x1235)
  }

  function Pick(c: byte, v0: bv16, v1: bv16, v2: bv16, v3: bv16, v4: bv16, v5: bv16, v6: bv16, v7: bv16,
                v8: bv16, v9: bv16, va: bv16, vb: bv16, vc: bv16, vd: bv16, ve: bv16, vf: bv16): bv16 {
    if c < 8 then
      (if c < 4 then (if c < 2 then (if c == 0 then v0 else v1) else if c == 2 then v2 else v3)
       else if c < 6 then (if c == 4 then v4 else v5) else if c == 6 then v6 else v7)
    else
      (if c < 12 then (if c < 10 then (if c == 8 then v8 else v9) else if c == 10 then va else vb)
       else if c < 14 then (if c == 12 then vc else vd) else if c == 14 then ve else vf)
  }

  /** A byte added to the low end of the state. */
  function Mix(crc: bv16, b: byte): bv16 { crc ^ (b as bv16) }

  /** A table entry added to the rest of the state. */
  function Combine(entry: bv16, crc: bv16): bv16 { entry ^ (crc >> 8) }

  /** One byte through the table. */
  function Step(crc: bv16, b: byte): bv16 {
    Combine(Table((Mix(crc, b) & 0xff) as byte), crc)
  }

  /** One bit of the reversed polynomial division: the polynomial, masked by the low bit. */
  function Shift(c: bv16): bv16 { (c >> 1) ^ ((0 - (c & 1)) & 0xA6BC) }

  function Shift8(c: bv16): bv16 {
    Shift(Shift(Shift(Shift(Shift(Shift(Shift(Shift(c))))))))
  }

  lemma TableIsBitwise(x: byte)
    ensures Table(x) == Shift8(x as bv16)
  {
    if x < 128 {
      if x < 64 { if x < 32 { Slice0(x); } else { Slice1(x); } }
      else { if x < 96 { Slice2(x); } else { Slice3(x); } }
    } else {
      if x < 192 { if x < 160 { Slice4(x); } else { Slice5(x); } }
      else { if x < 224 { Slice6(x); } else { Slice7(x); } }
    }
  }

  lemma Slice0(x: byte) requires 0 <= x <= 31 ensures Table(x) == Shift8(x as bv16) {}
  lemma Slice1(x: byte) requires 32 <= x <= 63 ensures Table(x) == Shift8(x as bv16) {}
  lemma Slice2(x: byte) requires 64 <= x <= 95 ensures Table(x) == Shift8(x as bv16) {}
  lemma Slice3(x: byte) requires 96 <= x <= 127 ensures Table(x) == Shift8(x as bv16) {}
  lemma Slice4(x: byte) requires 128 <= x <= 159 ensures Table(x) == Shift8(x as bv16) {}
  lemma Slice5(x: byte) requires 160 <= x <= 191 ensures Table(x) == Shift8(x as bv16) {}
  lemma Slice6(x: byte) requires 192 <= x <= 223 ensures Table(x) == Shift8(x as bv16) {}
  lemma Slice7(x: byte) requires 224 <= x <= 255 ensures Table(x) == Shift8(x as bv16) {}

  /** The table form and the bitwise form agree on every state and every byte. */
  lemma StepIsBitwise(crc: bv16, b: byte)
    ensures Step(crc, b) == Shift8(Mix(crc, b))
  {
    hide Mix, Table, Shift8, Combine;
    TableIsBitwise((Mix(crc, b) & 0xff) as byte);
    ShiftSplit(crc, b);
  }

  lemma ShiftSplit(crc: bv16, b: byte)
    ensures Shift8(Mix(crc, b)) == Combine(Shift8(((Mix(crc, b) & 0xff) as byte) as bv16), crc)
  {
    hide Shift8, Mix;
    ShiftWide(Mix(crc, b));
    HighUnchanged(crc, b);
  }

  lemma ShiftWide(x: bv16)
    ensures Shift8(x) == Shift8(x & 0xff) ^ (x >> 8)
  {
  }

  lemma HighUnchanged(crc: bv16, b: byte)
    ensures Mix(crc, b) >> 8 == crc >> 8
    ensures ((Mix(crc, b) & 0xff) as byte) as bv16 == Mix(crc, b) & 0xff
  {
  }

  function ShiftN(c: bv16, n: nat): bv16
    decreases n
  {
    if n == 0 then c else Shift(ShiftN(c, n - 1))
  }

  function Drop(octet: byte, n: nat): byte
    decreases n
  {
    if n == 0 then octet else Drop(octet >> 1, n - 1)
  }

  lemma EightBits(c: bv16, octet: byte)
    ensures ShiftN(c, 8) == Shift8(c) && Drop(octet, 8) == 0
  {
    hide Shift;
    assert ShiftN(c, 4) == Shift(Shift(Shift(Shift(c))));
    assert ShiftN(c, 8) == Shift(Shift(Shift(Shift(ShiftN(c, 4)))));
    var o4 := octet >> 1 >> 1 >> 1 >> 1;
    assert Drop(octet, 8) == Drop(o4, 4) == o4 >> 1 >> 1 >> 1 >> 1;
  }

  /** One turn of the bitwise loop: state and octet, added, are shifted once. */
  lemma FeedOne(crc: bv16, octet: byte)
    requires Mix(crc, octet) & 1 == 1
    ensures Mix((crc >> 1) ^ 0xA6BC, octet >> 1) == Shift(Mix(crc, octet))
  {
  }

  lemma FeedZero(crc: bv16, octet: byte)
    requires Mix(crc, octet) & 1 == 0
    ensures Mix(crc >> 1, octet >> 1) == Shift(Mix(crc, octet))
  {
  }

  lemma LowBit(x: bv16)
    ensures x & 1 == 0 || x & 1 == 1
  {
  }

  /** The sample switch program's loop, which shifts the state and the octet together,
      computes the table step. */
  method ComputeCRC(octet: byte, accum: bv16) returns (crc: bv16)
    ensures crc == Step(accum, octet)
  {
    hide Shift, Shift8, Step, Mix;
    ghost var x := Mix(accum, octet);
    EightBits(x, octet);
    crc := accum;
    var dataOctet := octet;
    var idx := 0;
    while idx < 8
      invariant 0 <= idx <= 8
      invariant Mix(crc, dataOctet) == ShiftN(x, idx)
      invariant Drop(dataOctet, 8 - idx) == 0
    {
      var temp := Mix(crc, dataOctet) & 1;
      LowBit(Mix(crc, dataOctet));
      if temp == 1 { FeedOne(crc, dataOctet); } else { FeedZero(crc, dataOctet); }
      crc := crc >> 1;
      dataOctet := dataOctet >> 1;
      if temp != 0 {
        crc := crc ^ 0xA6BC;
      }
      idx := idx + 1;
    }
    MixZero(crc);
    StepIsBitwise(accum, octet);
  }

  lemma MixZero(crc: bv16)
    ensures Mix(crc, 0) == crc
  {
  }

  /** The division of a byte string, from a given state. */
  function Fold(crc: bv16, data: seq<byte>): bv16
    decreases data
  {
    if data == [] then crc else Fold(Step(crc, data[0]), data[1..])
  }

  /** What the two bytes behind a block must hold: the complement, low byte first.  (The
      scanner complements on the last byte, so an empty block has the plain initial state.) */
  function Checksum(data: seq<byte>): bv16 {
    if data == [] then 0 else !Fold(0, data)
  }

  function Low(c: bv16): byte { (c & 0xff) as byte }
  function High(c: bv16): byte { (c >> 8) as byte }

  predicate Valid(block: seq<byte>) {
    |block| >= 2
    && block[|block| - 2] == Low(Checksum(block[..|block| - 2]))
    && block[|block| - 1] == High(Checksum(block[..|block| - 2]))
  }

  // ---- error detection --------------------------------------------------------------

  lemma MixInjective(c: bv16, d: bv16, b: byte)
    requires Mix(c, b) == Mix(d, b)
    ensures c == d
  {
  }

  lemma StepInjective(c: bv16, d: bv16, b: byte)
    requires Step(c, b) == Step(d, b)
    ensures c == d
  {
    hide Shift8, Step, Mix;
    StepIsBitwise(c, b);
    StepIsBitwise(d, b);
    Shift8Injective(Mix(c, b), Mix(d, b));
    MixInjective(c, d, b);
  }

  lemma ShiftInjective(c: bv16, d: bv16)
    requires Shift(c) == Shift(d)
    ensures c == d
  {
  }

  lemma Shift8Injective(c: bv16, d: bv16)
    requires Shift8(c) == Shift8(d)
    ensures c == d
  {
    hide Shift;
    var (c2, d2) := (Shift(Shift(c)), Shift(Shift(d)));
    var (c4, d4) := (Shift(Shift(c2)), Shift(Shift(d2)));
    var (c6, d6) := (Shift(Shift(c4)), Shift(Shift(d4)));
    ShiftInjective(Shift(c6), Shift(d6)); ShiftInjective(c6, d6);
    ShiftInjective(Shift(c4), Shift(d4)); ShiftInjective(c4, d4);
    ShiftInjective(Shift(c2), Shift(d2)); ShiftInjective(c2, d2);
    ShiftInjective(Shift(c), Shift(d)); ShiftInjective(c, d);
  }

  lemma {:induction false} FoldInjective(c: bv16, d: bv16, data: seq<byte>)
    requires Fold(c, data) == Fold(d, data)
    ensures c == d
    decreases data
  {
    hide Step;
    if data != [] {
      FoldInjective(Step(c, data[0]), Step(d, data[0]), data[1..]);
      StepInjective(c, d, data[0]);
    }
  }

  lemma {:induction false} FoldConcat(c: bv16, a: seq<byte>, b: seq<byte>)
    ensures Fold(c, a + b) == Fold(Fold(c, a), b)
    decreases a
  {
    hide Step;
    if a == [] {
      assert a + b == b;
    } else {
      assert (a + b)[0] == a[0] && (a + b)[1..] == a[1..] + b;
      FoldConcat(Step(c, a[0]), a[1..], b);
    }
  }

  lemma HighByteInjective(a: byte, b: byte)
    requires High(Shift8(a as bv16)) == High(Shift8(b as bv16))
    ensures a == b
  {
  }

  lemma HighOfStep(t: bv16, c: bv16)
    ensures High(Combine(t, c)) == High(t)
  {
  }

  lemma IndexInjective(c: bv16, a: byte, b: byte)
    requires (Mix(c, a) & 0xff) as byte == (Mix(c, b) & 0xff) as byte
    ensures a == b
  {
  }

  /** The high byte of a step determines its byte: no table entry but the first has a zero
      high byte, and no two have the same. */
  lemma HighInjective(c: bv16, a: byte, b: byte)
    requires High(Step(c, a)) == High(Step(c, b))
    ensures a == b
  {
    hide High, Shift8, Table, Mix, Combine;
    var (i, j) := ((Mix(c, a) & 0xff) as byte, (Mix(c, b) & 0xff) as byte);
    HighOfStep(Table(i), c);
    HighOfStep(Table(j), c);
    TableIsBitwise(i);
    TableIsBitwise(j);
    HighByteInjective(i, j);
    IndexInjective(c, a, b);
  }

  lemma SplitHigh(x: bv16, y: bv16, a: byte, b: byte)
    requires Mix(x, a) == Mix(y, b)
    ensures High(x) == High(y) && (x == y ==> a == b)
  {
  }

  /** Two bytes of data determine the state, whatever the state before. */
  lemma PairInjective(c: bv16, a0: byte, a1: byte, b0: byte, b1: byte)
    requires Step(Step(c, a0), a1) == Step(Step(c, b0), b1)
    ensures a0 == b0 && a1 == b1
  {
    hide Shift8, Step, Mix, High;
    var (x, y) := (Step(c, a0), Step(c, b0));
    StepIsBitwise(x, a1);
    StepIsBitwise(y, b1);
    Shift8Injective(Mix(x, a1), Mix(y, b1));
    SplitHigh(x, y, a1, b1);
    HighInjective(c, a0, b0);
  }

  lemma LowHigh(c: bv16, d: bv16)
    requires Low(c) == Low(d) && High(c) == High(d)
    ensures c == d
  {
  }

  lemma Complements(c: bv16, d: bv16)
    ensures !c == !d ==> c == d
    ensures High(!c) == High(!d) ==> High(c) == High(d)
  {
  }

  /** The state after a prefix, two more bytes and a common rest. */
  lemma FoldAround(c: bv16, pre: seq<byte>, x: byte, y: byte, post: seq<byte>)
    ensures Fold(c, pre + [x, y] + post) == Fold(Step(Step(Fold(c, pre), x), y), post)
  {
    FoldConcat(c, pre + [x, y], post);
    FoldConcat(c, pre, [x, y]);
    var d := Fold(c, pre);
    assert [x, y][1..] == [y] && [y][1..] == [];
    assert Fold(d, [x, y]) == Fold(Step(d, x), [y]) == Step(Step(d, x), y);
  }

  /** Every error confined to two adjacent bytes of a block and its checksum is detected,
      whatever the length of the block. */
  lemma BurstDetected(pre: seq<byte>, x: byte, y: byte, x': byte, y': byte, post: seq<byte>)
    requires Valid(pre + [x, y] + post) && (x, y) != (x', y')
    ensures !Valid(pre + [x', y'] + post)
  {
    var (w, w') := (pre + [x, y] + post, pre + [x', y'] + post);
    var n := |w| - 2;
    if Valid(w') {
      if |post| >= 2 {
        BurstInData(pre, x, y, x', y', post);
      } else if |post| == 1 {
        BurstAcross(pre, x, y, x', y', post);
      } else {
        assert post == [] && w == pre + [x, y] && w' == pre + [x', y'];
        BurstInChecksum(pre, x, y, x', y');
      }
    }
  }

  lemma BurstInChecksum(pre: seq<byte>, x: byte, y: byte, x': byte, y': byte)
    requires Valid(pre + [x, y]) && Valid(pre + [x', y'])
    ensures (x, y) == (x', y')
  {
    hide Checksum, Low, High;
    var (w, w') := (pre + [x, y], pre + [x', y']);
    assert w[..|pre|] == pre == w'[..|pre|];
  }

  lemma BurstInData(pre: seq<byte>, x: byte, y: byte, x': byte, y': byte, post: seq<byte>)
    requires |post| >= 2 && Valid(pre + [x, y] + post) && Valid(pre + [x', y'] + post)
    ensures (x, y) == (x', y')
  {
    hide Step, Low, High;
    var (w, w') := (pre + [x, y] + post, pre + [x', y'] + post);
    var (n, rest) := (|w| - 2, post[..|post| - 2]);
    assert w[..n] == pre + [x, y] + rest && w'[..n] == pre + [x', y'] + rest;
    assert w[n..] == w'[n..] == post[|post| - 2..];
    assert w[n] == w[n..][0] && w'[n] == w'[n..][0] && w[n + 1] == w[n..][1] && w'[n + 1] == w'[n..][1];
    LowHigh(Checksum(w[..n]), Checksum(w'[..n]));
    Complements(Fold(0, w[..n]), Fold(0, w'[..n]));
    FoldAround(0, pre, x, y, rest);
    FoldAround(0, pre, x', y', rest);
    FoldInjective(Step(Step(Fold(0, pre), x), y), Step(Step(Fold(0, pre), x'), y'), rest);
    PairInjective(Fold(0, pre), x, y, x', y');
  }

  lemma BurstAcross(pre: seq<byte>, x: byte, y: byte, x': byte, y': byte, post: seq<byte>)
    requires |post| == 1 && Valid(pre + [x, y] + post) && Valid(pre + [x', y'] + post)
    ensures (x, y) == (x', y')
  {
    hide Step, Low, High;
    var (w, w') := (pre + [x, y] + post, pre + [x', y'] + post);
    var n := |w| - 2;
    assert w[..n] == pre + [x] && w'[..n] == pre + [x'];
    assert w[n] == y && w[n + 1] == post[0] && w'[n] == y' && w'[n + 1] == post[0];
    FoldConcat(0, pre, [x]);
    FoldConcat(0, pre, [x']);
    var c := Fold(0, pre);
    assert [x][1..] == [] && [x'][1..] == [];
    assert Fold(c, [x]) == Step(c, x) && Fold(c, [x']) == Step(c, x');
    Complements(Step(c, x), Step(c, x'));
    HighInjective(c, x, x');
  }

  // ---- CRC-CCITT --------------------------------------------------------------------

  function CcittBit(crc: bv16): bv16 {
    if crc & 0x8000 != 0 then (crc << 1) ^ 0x1021 else crc << 1
  }

  function CcittBits(crc: bv16, n: nat): bv16
    decreases n
  {
    if n == 0 then crc else CcittBits(CcittBit(crc), n - 1)
  }

  function CcittByte(crc: bv16, b: byte): bv16 {
    CcittBits(crc ^ ((b as bv16) << 8), 8)
  }

  function CcittFold(crc: bv16, data: seq<byte>): bv16
    decreases data
  {
    if data == [] then crc else CcittFold(CcittByte(crc, data[0]), data[1..])
  }

  function Ccitt(data: seq<byte>): bv16 { CcittFold(0xFFFF, data) }

  method CrcCcitt(data: seq<byte>) returns (crc: bv16)
    ensures crc == Ccitt(data)
  {
    crc := 0xFFFF;
    for i := 0 to |data|
      invariant CcittFold(crc, data[i..]) == Ccitt(data)
    {
      ghost var next := CcittByte(crc, data[i]);
      assert data[i..][0] == data[i] && data[i..][1..] == data[i + 1..];
      crc := crc ^ ((data[i] as bv16) << 8);
      for j := 0 to 8
        invariant CcittBits(crc, 8 - j) == next
      {
        crc := if crc & 0x8000 != 0 then (crc << 1) ^ 0x1021 else crc << 1;
      }
    }
    assert data[|data|..] == [];
  }
}
