/** However a stream is cut into reads, the frames are the same. */
module Chunks {
  import opened Bytes
  import opened Crc
  import opened Dnp3Frame
  import opened StreamReader
  import DelimFrame

  function Join(chunks: seq<seq<byte>>): seq<byte> {
    if chunks == [] then [] else chunks[0] + Join(chunks[1..])
  }

  /** Reading the chunks one after the other, starting with what an earlier read left. */
  function Feed(f: Framer, rest: seq<byte>, chunks: seq<seq<byte>>): Taken
    requires f.Ok()
    decreases |chunks|
  {
    if chunks == [] then Taken([], rest)
    else
      var t := Extract(f, rest + chunks[0]);
      var u := Feed(f, t.rest, chunks[1..]);
      Taken(t.items + u.items, u.rest)
  }

  lemma FeedStep(f: Framer, rest: seq<byte>, chunks: seq<seq<byte>>, before: seq<Item>)
    requires f.Ok() && chunks != []
    ensures var t := Extract(f, rest + chunks[0]);
            var u := Feed(f, t.rest, chunks[1..]);
            && before + Feed(f, rest, chunks).items == (before + t.items) + u.items
            && Feed(f, rest, chunks).rest == u.rest
            && |t.rest| + |Join(chunks[1..])| <= |rest| + |Join(chunks)|
  {
    hide Extract, Scan;
    Conserves(f, rest + chunks[0]);
  }

  /** The reader, fed chunk by chunk. */
  method ReceiveAll(r: Reader, chunks: seq<seq<byte>>)
    requires r.framer.Ok() && |r.buf| + |Join(chunks)| < MAX_BUFFER
    modifies r`buf, r`handled
    ensures r.handled == old(r.handled) + Feed(r.framer, old(r.buf), chunks).items
    ensures r.buf == Feed(r.framer, old(r.buf), chunks).rest
  {
    hide Extract, Scan;
    for i := 0 to |chunks|
      invariant |r.buf| + |Join(chunks[i..])| < MAX_BUFFER
      invariant r.handled + Feed(r.framer, r.buf, chunks[i..]).items
             == old(r.handled) + Feed(r.framer, old(r.buf), chunks).items
      invariant Feed(r.framer, r.buf, chunks[i..]).rest == Feed(r.framer, old(r.buf), chunks).rest
    {
      assert chunks[i..][0] == chunks[i] && chunks[i..][1..] == chunks[i + 1..];
      ghost var before := r.handled;
      FeedStep(r.framer, r.buf, chunks[i..], before);
      r.Receive(chunks[i]);
    }
    assert chunks[|chunks|..] == [] && r.handled + [] == r.handled;
  }

  // ---- delimiter framing ------------------------------------------------------------------

  lemma {:induction false} DelimAppend(delim: seq<byte>, a: seq<byte>, b: seq<byte>)
    requires |delim| == 4
    ensures var (f, t) := (Delimited(delim), Extract(Delimited(delim), a));
            var u := Extract(f, t.rest + b);
            Extract(f, a + b) == Taken(t.items + u.items, u.rest)
    decreases |a|
  {
    hide DelimFrame.Check;
    var f := Delimited(delim);
    var frame := Scan(f, a);
    ScanFits(f, a);
    if frame.len == 0 {
      assert [] + Extract(f, a + b).items == Extract(f, a + b).items;
    } else {
      DelimFrame.CheckStable(delim, a, b);
      ScanFits(f, a + b);
      assert (a + b)[..frame.len] == a[..frame.len] && (a + b)[frame.len..] == a[frame.len..] + b;
      DelimAppend(delim, a[frame.len..], b);
      var t := Extract(f, a[frame.len..]);
      var u := Extract(f, t.rest + b);
      var i := Item(frame, a[..frame.len]);
      assert [i] + (t.items + u.items) == ([i] + t.items) + u.items;
    }
  }

  /** With delimiters the frames, cut-off ones included, and the residue do not depend on the
      chunks at all. */
  lemma {:induction false} DelimChunks(delim: seq<byte>, rest: seq<byte>, chunks: seq<seq<byte>>)
    requires |delim| == 4 && Scan(Delimited(delim), rest).len == 0
    ensures Feed(Delimited(delim), rest, chunks) == Extract(Delimited(delim), rest + Join(chunks))
    decreases |chunks|
  {
    hide DelimFrame.Check;
    var f := Delimited(delim);
    if chunks == [] {
      assert rest + [] == rest;
    } else {
      var t := Extract(f, rest + chunks[0]);
      Conserves(f, rest + chunks[0]);
      DelimChunks(delim, t.rest, chunks[1..]);
      DelimAppend(delim, rest + chunks[0], Join(chunks[1..]));
      assert (rest + chunks[0]) + Join(chunks[1..]) == rest + Join(chunks);
    }
  }

  // ---- DNP3 framing -------------------------------------------------------------------------

  datatype Placed = Placed(at: nat, frame: Frame)

  /** The valid frames among the items, with their position in the stream.  An item is valid
      when its bytes are a frame of the format. */
  function ValidFrames(items: seq<Item>, base: nat): seq<Placed> {
    if items == [] then []
    else Mark(items[0], base) + ValidFrames(items[1..], base + |items[0].bytes|)
  }

  function Mark(i: Item, base: nat): seq<Placed> {
    if Check(i.bytes) == Good(i.frame) then [Placed(base, i.frame)] else []
  }

  /** Whether the scanner's verdict is good can be read off the bytes it took. */
  lemma TakenBytes(buf: seq<byte>, f: Frame)
    requires f == Report(Check(buf)) && 0 < f.len <= |buf|
    ensures Check(buf[..f.len]) == Good(f) <==> Check(buf).Good?
  {
    if Check(buf).Good? {
      GoodPrefix(buf);
    } else if Offset(buf) > 0 {
      JunkBefore(buf);
    } else {
      JunkStart(buf);
    }
  }

  lemma {:induction false} FirstBadPrefix(a: seq<byte>, b: seq<byte>, start: nat, length: nat)
    requires length <= |a| && length <= |b| && a[..length] == b[..length]
    ensures FirstBad(a, start, length) == FirstBad(b, start, length)
    decreases length - start
  {
    hide Valid;
    if start < length {
      var end := BlockEnd(start, length);
      assert a[start..end] == a[..length][start..end] == b[start..end];
      FirstBadPrefix(a, b, end, length);
    }
  }

  /** Two buffers that agree on a whole frame, or on the header of what is none. */
  lemma SameVerdict(a: seq<byte>, b: seq<byte>)
    requires |a| >= 10 && |b| >= 10 && a[..10] == b[..10] && Offset(a) == 0 && Check(a) != Wait
    requires Valid(a[..10]) ==> var length := FrameLength(Num(a[2])); |b| >= length && a[..length] == b[..length]
    ensures Check(b) == Check(a)
  {
    hide Valid, Offset, FirstBad, FrameLength, Num;
    StartsAtZero(a);
    StartsAtZero(b);
    assert forall i | 0 <= i < 10 :: a[i] == a[..10][i] == b[..10][i] == b[i];
    FrameLengthIs(Num(a[2]));
    if Valid(a[..10]) {
      var length := FrameLength(Num(a[2]));
      FirstBadPrefix(a, b, 10, length);
      if length > 10 { assert a[10] == a[..length][10] == b[..length][10] == b[10]; }
    }
  }

  lemma GoodPrefix(buf: seq<byte>)
    requires Check(buf).Good? && Check(buf).frame.len <= |buf|
    ensures Check(buf[..Check(buf).frame.len]) == Check(buf)
  {
    hide Valid, Offset, FirstBad, FrameLength, Num, Flow;
    var n := Check(buf).frame.len;
    FrameLengthIs(Num(buf[2]));
    assert buf[..n][..10] == buf[..10] && buf[..n][..n] == buf[..n];
    SameVerdict(buf, buf[..n]);
  }

  lemma JunkBefore(buf: seq<byte>)
    requires Offset(buf) > 0
    ensures !Check(buf[..Offset(buf)]).Good?
  {
    hide Valid, FirstBad, FrameLength, Num, Flow;
    var k := Offset(buf);
    assert !Start(buf, 0);
    if k >= 2 { StartsAtZero(buf[..k]); }
  }

  lemma JunkStart(buf: seq<byte>)
    requires Offset(buf) == 0 && Check(buf).Junk? && Check(buf).n <= |buf|
    ensures !Check(buf[..Check(buf).n]).Good?
  {
    hide Valid, Offset, FirstBad, FrameLength, Num, Flow;
    var n := Check(buf).n;
    FrameLengthIs(Num(buf[2]));
    if n >= 10 {
      assert buf[..n][..10] == buf[..10];
      assert buf[..n][2] == buf[2];
    }
  }

  /** A verdict on a buffer that starts like a frame is not changed by later bytes. */
  lemma VerdictStable(a: seq<byte>, b: seq<byte>)
    requires Offset(a) == 0 && Check(a) != Wait
    ensures Check(a + b) == Check(a)
  {
    hide Valid, Offset, FirstBad, FrameLength, Num, Flow;
    assert (a + b)[..10] == a[..10];
    if Valid(a[..10]) {
      var length := FrameLength(Num(a[2]));
      assert (a + b)[..length] == a[..length];
    }
    SameVerdict(a, a + b);
  }

  /** Bytes before the first start are skipped one way or the other. */
  lemma OffsetSplit(a: seq<byte>, b: seq<byte>, k: nat)
    requires k == Offset(a)
    ensures Offset(a + b) == k + Offset((a + b)[k..])
  {
    var c := a + b;
    var m := Offset(c[k..]);
    forall i | 0 <= i < k + m ensures !Start(c, i) {
      if i < k { assert !Start(a, i); } else { assert !Start(c[k..], i - k); }
    }
    if k + m < |c| { assert Start(c[k..], m); }
    OffsetUnique(c, k + m);
  }

  /** An unframed prefix changes nothing but positions. */
  lemma SkipOffset(c: seq<byte>, base: nat)
    requires Offset(c) > 0
    ensures var (t, u) := (Extract(Dnp3, c), Extract(Dnp3, c[Offset(c)..]));
            t.rest == u.rest && ValidFrames(t.items, base) == ValidFrames(u.items, base + Offset(c))
  {
    hide Check, Offset;
    var k := Offset(c);
    assert Check(c) == Junk(k) by { OffsetIsJunk(c); }
    TakenBytes(c, Unframed(k));
    ScanFits(Dnp3, c);
    var u := Extract(Dnp3, c[k..]);
    assert ([Item(Unframed(k), c[..k])] + u.items)[1..] == u.items;
  }

  lemma OffsetIsJunk(c: seq<byte>)
    requires Offset(c) > 0
    ensures Check(c) == Junk(Offset(c))
  {
  }

  lemma SkipPartial(a: seq<byte>, b: seq<byte>, base: nat)
    requires Offset(a) > 0
    ensures var (c, k) := (a + b, Offset(a));
            var (t, u) := (Extract(Dnp3, c), Extract(Dnp3, c[k..]));
            t.rest == u.rest && ValidFrames(t.items, base) == ValidFrames(u.items, base + k)
  {
    hide Check, Extract, ValidFrames;
    var (c, k) := (a + b, Offset(a));
    OffsetSplit(a, b, k);
    SkipOffset(c, base);
    if Offset(c[k..]) > 0 {
      SkipOffset(c[k..], base + k);
      assert c[k..][Offset(c[k..])..] == c[Offset(c)..];
    }
  }

  lemma Associate<T>(x: seq<T>, y: seq<T>, z: seq<T>)
    ensures x + (y + z) == (x + y) + z
  {
  }

  lemma {:induction false} ValidConcat(x: seq<Item>, y: seq<Item>, base: nat)
    ensures ValidFrames(x + y, base) == ValidFrames(x, base) + ValidFrames(y, base + |Concat(x)|)
    decreases |x|
  {
    hide Mark;
    if x == [] {
      assert x + y == y;
    } else {
      assert (x + y)[0] == x[0] && (x + y)[1..] == x[1..] + y;
      var next := base + |x[0].bytes|;
      ValidConcat(x[1..], y, next);
      Associate(Mark(x[0], base), ValidFrames(x[1..], next), ValidFrames(y, base + |Concat(x)|));
    }
  }

  /** Both sides of the chunk law: frames of a, then of what a leaves followed by b. */
  ghost predicate Splits(a: seq<byte>, b: seq<byte>, base: nat) {
    var t := Extract(Dnp3, a);
    var (u, w) := (Extract(Dnp3, t.rest + b), Extract(Dnp3, a + b));
    && w.rest == u.rest && |t.rest| <= |a|
    && ValidFrames(w.items, base) == ValidFrames(t.items, base) + ValidFrames(u.items, base + (|a| - |t.rest|))
  }

  /** One item off the front. */
  lemma Unroll(a: seq<byte>, base: nat)
    requires Scan(Dnp3, a).len > 0
    ensures var (frame, t) := (Scan(Dnp3, a), Extract(Dnp3, a));
            frame.len <= |a| && var u := Extract(Dnp3, a[frame.len..]);
            t.rest == u.rest && ValidFrames(t.items, base) ==
              Mark(Item(frame, a[..frame.len]), base) + ValidFrames(u.items, base + frame.len)
  {
    hide Scan, Mark;
    ScanFits(Dnp3, a);
    var frame := Scan(Dnp3, a);
    var u := Extract(Dnp3, a[frame.len..]);
    assert ([Item(frame, a[..frame.len])] + u.items)[1..] == u.items;
  }

  lemma SplitsAfterJunk(a: seq<byte>, b: seq<byte>, base: nat)
    requires Offset(a) > 0 && Splits(a[Offset(a)..], b, base + Offset(a))
    ensures Splits(a, b, base)
  {
    hide Check, Offset, Extract, ValidFrames, Scan;
    var k := Offset(a);
    SkipOffset(a, base);
    SkipPartial(a, b, base);
    assert (a + b)[k..] == a[k..] + b;
  }

  lemma SplitsAfterFrame(a: seq<byte>, b: seq<byte>, base: nat)
    requires Scan(Dnp3, a).len > 0 && Offset(a) == 0
    requires var n := Scan(Dnp3, a).len; n <= |a| && Splits(a[n..], b, base + n)
    ensures Splits(a, b, base)
  {
    hide Check, Offset, Extract, ValidFrames, Mark;
    var n := Scan(Dnp3, a).len;
    CheckNotWait(a);
    VerdictStable(a, b);
    assert (a + b)[..n] == a[..n] && (a + b)[n..] == a[n..] + b;
    Unroll(a, base);
    Unroll(a + b, base);
    var first := Mark(Item(Scan(Dnp3, a), a[..n]), base);
    var t := Extract(Dnp3, a[n..]);
    Associate(first, ValidFrames(t.items, base + n),
              ValidFrames(Extract(Dnp3, t.rest + b).items, base + (|a| - |t.rest|)));
  }

  lemma TakenNone(rest: seq<byte>)
    requires Scan(Dnp3, rest).len == 0
    ensures Extract(Dnp3, rest) == Taken([], rest)
  {
  }

  /** Taking frames early and the rest later finds the same valid frames, at the same places,
      and leaves the same residue as taking all at once. */
  lemma {:induction false} Dnp3Append(a: seq<byte>, b: seq<byte>, base: nat)
    ensures Splits(a, b, base)
    decreases |a|
  {
    hide Check, Offset, Scan, Extract, Splits;
    ScanFits(Dnp3, a);
    if Scan(Dnp3, a).len == 0 {
      SplitsAtRest(a, b, base);
    } else if Offset(a) > 0 {
      Dnp3Append(a[Offset(a)..], b, base + Offset(a));
      SplitsAfterJunk(a, b, base);
    } else {
      var n := Scan(Dnp3, a).len;
      Dnp3Append(a[n..], b, base + n);
      SplitsAfterFrame(a, b, base);
    }
  }

  lemma SplitsAtRest(a: seq<byte>, b: seq<byte>, base: nat)
    requires Scan(Dnp3, a).len == 0
    ensures Splits(a, b, base)
  {
    hide Check, Scan, Extract;
    TakenNone(a);
    assert ValidFrames([], base) == [];
  }

  lemma CheckNotWait(a: seq<byte>)
    requires Scan(Dnp3, a).len > 0
    ensures Check(a) != Wait
  {
    hide Check;
  }

  /** DNP3 scanning is chunk-independent: positions, lengths, addresses and transport bits of
      the valid frames and the residue are those of the whole stream; only the split of the
      unframed bytes may differ. */
  lemma {:induction false} Dnp3Chunks(rest: seq<byte>, chunks: seq<seq<byte>>, base: nat)
    requires Scan(Dnp3, rest).len == 0
    ensures var (t, u) := (Feed(Dnp3, rest, chunks), Extract(Dnp3, rest + Join(chunks)));
            t.rest == u.rest && ValidFrames(t.items, base) == ValidFrames(u.items, base)
    decreases |chunks|
  {
    hide Check, Scan, Extract, ValidFrames, Feed, Concat;
    FeedUnrolled(rest, chunks);
    if chunks == [] {
      assert rest + [] == rest;
      TakenNone(rest);
    } else {
      var a := rest + chunks[0];
      var b := Join(chunks[1..]);
      var t := Extract(Dnp3, a);
      var u := Feed(Dnp3, t.rest, chunks[1..]);
      Conserves(Dnp3, a);
      var next := base + |Concat(t.items)|;
      assert next == base + (|a| - |t.rest|);
      Dnp3Append(a, b, base);
      Dnp3Chunks(t.rest, chunks[1..], next);
      ValidConcat(t.items, u.items, base);
      assert a + b == rest + Join(chunks);
    }
  }

  lemma FeedUnrolled(rest: seq<byte>, chunks: seq<seq<byte>>)
    ensures chunks == [] ==> Feed(Dnp3, rest, chunks) == Taken([], rest)
    ensures chunks != [] ==>
      var t := Extract(Dnp3, rest + chunks[0]);
      var u := Feed(Dnp3, t.rest, chunks[1..]);
      Feed(Dnp3, rest, chunks) == Taken(t.items + u.items, u.rest)
  {
    hide Extract;
  }
}
