/** Bytes, the numbers they stand for, and little-endian 16-bit words. */
module Bytes {
  type byte = bv8

  function Num(b: byte): (v: nat)
    ensures v < 256
  {
    b as nat
  }

  /** The byte of a number, found by counting up to it. */
  function ToByte(v: nat): byte
    requires v < 256
  {
    if v == 0 then 0 else ToByte(v - 1) + 1
  }

  function LowByte(v: nat): byte { ToByte(v % 256) }

  lemma Successor(b: byte)
    requires b < 255
    ensures Num(b + 1) == Num(b) + 1
  {
  }

  lemma NumInjective(a: byte, b: byte)
    requires Num(a) == Num(b)
    ensures a == b
  {
  }

  lemma NumBelow(b: byte)
    requires Num(b) < 255
    ensures b < 255
  {
  }

  lemma {:induction false} NumToByte(v: nat)
    requires v < 256
    ensures Num(ToByte(v)) == v
  {
    hide Num;
    if v == 0 {
      assert Num(0) == 0 by { NumZero(); }
    } else {
      NumToByte(v - 1);
      NumBelow(ToByte(v - 1));
      Successor(ToByte(v - 1));
    }
  }

  lemma NumZero()
    ensures Num(0) == 0
  {
  }

  lemma ToByteNum(b: byte)
    ensures ToByte(Num(b)) == b
  {
    hide Num;
    NumToByte(Num(b));
    NumInjective(ToByte(Num(b)), b);
  }

  lemma Byte(v: nat)
    ensures Num(LowByte(v)) == v % 256
  {
    hide Num, ToByte;
    NumToByte(v % 256);
  }

  lemma Recombine(low: nat, high: nat, v: nat)
    requires v < 0x1_0000 && low == v % 256 && high == v / 256 % 256
    ensures high * 0x100 + low == v
  {
  }

  lemma Word16(v: nat)
    requires v < 0x1_0000
    ensures Num(LowByte(v / 256)) * 0x100 + Num(LowByte(v)) == v
  {
    hide LowByte, Num;
    Byte(v);
    Byte(v / 256);
    Recombine(Num(LowByte(v)), Num(LowByte(v / 256)), v);
  }

  lemma ByteBack(b: byte, v: nat)
    requires v % 256 == Num(b)
    ensures LowByte(v) == b
  {
    hide Num, ToByte;
    ToByteNum(b);
  }

  lemma Cut(low: nat, high: nat)
    requires low < 256 && high < 256
    ensures (high * 0x100 + low) % 256 == low && (high * 0x100 + low) / 256 == high
  {
  }
}
