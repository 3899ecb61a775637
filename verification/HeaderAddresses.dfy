/** The sample address program with a checksum: it reads the addresses of a DNP3 header when the
    header's own checksum is right. */
module HeaderAddresses {
  import opened Bytes
  import opened Crc
  import opened Dnp3Frame

  datatype Found = NotFound | Found(src: nat, dst: nat)

  /** The header is complete, its length field is within the buffer, and its checksum is right. */
  predicate Readable(buf: seq<byte>) {
    |buf| >= 10 && Num(buf[2]) <= |buf| && Valid(buf[..10])
  }

  method GetAddrs(buf: seq<byte>) returns (found: Found)
    ensures found == if Readable(buf) then Found(Src(buf), Dst(buf)) else NotFound
  {
    hide Step, Low, High, Num;
    if |buf| < 10 || Num(buf[2]) > |buf| {
      return NotFound;
    }
    var crc: bv16 := 0;
    var idx := 0;
    while idx < 8
      invariant 0 <= idx <= 8 && crc == Fold(0, buf[..idx])
    {
      FoldSnoc(buf, idx);
      crc := ComputeCRC(buf[idx], crc);
      idx := idx + 1;
    }
    crc := !crc;
    ValidAt(buf, 0, 8);
    assert buf[0..8] == buf[..8] && buf[0..10] == buf[..10] && crc == Checksum(buf[..8]);
    if buf[idx] == Low(crc) && buf[idx + 1] == High(crc) {
      return Found(Num(buf[7]) * 0x100 + Num(buf[6]), Num(buf[5]) * 0x100 + Num(buf[4]));
    }
    return NotFound;
  }

  /** Every link frame, alone or followed by more, yields the addresses it was built with. */
  lemma FramesAreReadable(buf: seq<byte>, control: byte, dst: nat, src: nat, user: seq<byte>)
    requires dst < 0x1_0000 && src < 0x1_0000 && |user| <= 250 && Build(control, dst, src, user) <= buf
    ensures Readable(buf) && Src(buf) == src && Dst(buf) == dst
  {
    hide Valid, Build, FrameLength, LowByte, Num;
    BuildHeader(buf, control, dst, src, user);
    BuildLength(control, dst, src, user);
    FrameLengthIs(5 + |user|);
    Byte(5 + |user|);
    Word16(dst);
    Word16(src);
  }

  /** A header damaged in two adjacent bytes is not read. */
  lemma DamageIsNotRead(good: seq<byte>, bad: seq<byte>, at: nat)
    requires Readable(good) && |bad| == |good| && at < 9 && bad[..10] != good[..10]
    requires forall i | 0 <= i < 10 && i != at && i != at + 1 :: bad[i] == good[i]
    ensures !Readable(bad)
  {
    hide Valid, Num;
    var (pre, post) := (good[..at], good[at + 2..10]);
    assert good[..10] == pre + [good[at], good[at + 1]] + post;
    assert bad[..10] == pre + [bad[at], bad[at + 1]] + post;
    BurstDetected(pre, good[at], good[at + 1], bad[at], bad[at + 1], post);
  }
}
