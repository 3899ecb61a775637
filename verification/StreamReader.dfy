/** The stream side of the converter: bytes arrive in chunks, and frames are taken off the
    front of the buffer as long as the scanner finds one. */
module StreamReader {
  import opened Bytes
  import opened Crc
  import opened Dnp3Frame
  import DelimFrame

  /** The two scanners. */
  datatype Framer = Dnp3 | Delimited(delim: seq<byte>) {
    predicate Ok() { Delimited? ==> |delim| == 4 }
  }

  /** What is handed on: a frame and its bytes. */
  datatype Item = Item(frame: Frame, bytes: seq<byte>)

  function Scan(f: Framer, buf: seq<byte>): Frame
    requires f.Ok()
  {
    match f
    case Dnp3 => Report(Check(buf))
    case Delimited(delim) => DelimFrame.Check(delim, buf)
  }

  /** A scanner never claims more bytes than there are. */
  lemma ScanFits(f: Framer, buf: seq<byte>)
    requires f.Ok()
    ensures Scan(f, buf).len <= |buf|
  {
    hide Valid, Offset, FirstBad, Flow;
    if f.Dnp3? && |buf| >= 10 && Offset(buf) == 0 {
      FrameLengthIs(Num(buf[2]));
    }
  }

  datatype Taken = Taken(items: seq<Item>, rest: seq<byte>)

  /** Everything that can be taken off the front of a buffer. */
  function Extract(f: Framer, buf: seq<byte>): (t: Taken)
    requires f.Ok()
    decreases |buf|
  {
    var frame := Scan(f, buf);
    ScanFits(f, buf);
    if frame.len == 0 then Taken([], buf)
    else
      var t := Extract(f, buf[frame.len..]);
      Taken([Item(frame, buf[..frame.len])] + t.items, t.rest)
  }

  class Reader {
    const framer: Framer
    var buf: seq<byte>
    var handled: seq<Item>   // the frames passed to the fragment handler, in order

    constructor (framer: Framer)
      ensures this.framer == framer && buf == [] && handled == []
    {
      this.framer := framer;
      buf, handled := [], [];
    }

    method CheckFrame() returns (frame: Frame)
      requires framer.Ok() && |buf| < MAX_BUFFER
      ensures frame == Scan(framer, buf)
    {
      match framer {
        case Dnp3 => frame := Dnp3Frame.CheckFrame(buf);
        case Delimited(delim) => frame := DelimFrame.CheckFrame(delim, buf);
      }
    }

    /** The extraction loop.  The guard for an oversized claim is there, and never acts. */
    method RcvStreamHandler()
      requires framer.Ok() && |buf| < MAX_BUFFER
      modifies this`buf, this`handled
      ensures handled == old(handled) + Extract(framer, old(buf)).items
      ensures buf == Extract(framer, old(buf)).rest
    {
      hide Scan;
      var frame := CheckFrame();
      while frame.len != 0
        invariant frame == Scan(framer, buf) && |buf| < MAX_BUFFER
        invariant handled + Extract(framer, buf).items == old(handled) + Extract(framer, old(buf)).items
        invariant Extract(framer, buf).rest == Extract(framer, old(buf)).rest
        decreases |buf|
      {
        ScanFits(framer, buf);
        if frame.len > |buf| { assert false; }
        ghost var t := Extract(framer, buf[frame.len..]);
        assert handled + ([Item(frame, buf[..frame.len])] + t.items)
            == handled + [Item(frame, buf[..frame.len])] + t.items;
        handled := handled + [Item(frame, buf[..frame.len])];
        buf := buf[frame.len..];
        frame := CheckFrame();
      }
      assert handled + [] == handled;
    }

    /** A read completes: the bytes are committed and the frames taken. */
    method Receive(chunk: seq<byte>)
      requires framer.Ok() && |buf| + |chunk| < MAX_BUFFER
      modifies this`buf, this`handled
      ensures handled == old(handled) + Extract(framer, old(buf) + chunk).items
      ensures buf == Extract(framer, old(buf) + chunk).rest
    {
      buf := buf + chunk;
      RcvStreamHandler();
    }
  }

  // ---- conservation -----------------------------------------------------------------------

  function Concat(items: seq<Item>): seq<byte> {
    if items == [] then [] else items[0].bytes + Concat(items[1..])
  }

  lemma ConcatCons(i: Item, items: seq<Item>, rest: seq<byte>)
    ensures Concat([i] + items) + rest == i.bytes + (Concat(items) + rest)
  {
    assert ([i] + items)[1..] == items;
  }

  /** The frames' bytes and the residue are the input, every frame is nonempty and as long as
      it says, and nothing more can be taken off the residue. */
  lemma {:induction false} Conserves(f: Framer, buf: seq<byte>)
    requires f.Ok()
    ensures var t := Extract(f, buf);
            && Concat(t.items) + t.rest == buf && Scan(f, t.rest).len == 0
            && forall i: Item | i in t.items :: 0 < i.frame.len == |i.bytes|
    decreases |buf|
  {
    hide Scan;
    var frame := Scan(f, buf);
    ScanFits(f, buf);
    if frame.len > 0 {
      Conserves(f, buf[frame.len..]);
      var t := Extract(f, buf[frame.len..]);
      var i := Item(frame, buf[..frame.len]);
      ConcatCons(i, t.items, t.rest);
    }
  }

  /** A complete header with a right checksum and a length below 5: the length computed from it
      is beyond any buffer. */
  predicate ShortHeader(buf: seq<byte>) {
    |buf| >= 10 && Offset(buf) == 0 && Valid(buf[..10]) && Num(buf[2]) < 5
  }

  /** What stays in the buffer is short: less than 64K with delimiters; less than the longest
      frame with DNP3, unless the residue starts with a valid header of length below 5. */
  lemma Residue(f: Framer, buf: seq<byte>)
    requires f.Ok()
    ensures var rest := Extract(f, buf).rest;
            match f
            case Delimited(_) => |rest| < 0x1_0000
            case Dnp3 => |rest| < 292 || ShortHeader(rest)
  {
    Conserves(f, buf);
    var rest := Extract(f, buf).rest;
    if f.Dnp3? {
      Dnp3Waits(rest);
    } else {
      DelimWaits(f.delim, rest);
    }
  }

  lemma Dnp3Waits(rest: seq<byte>)
    requires Report(Check(rest)).len == 0
    ensures |rest| < 292 || ShortHeader(rest)
  {
    hide Valid, FirstBad, Flow, Num, FrameLength;
    if |rest| >= 10 {
      FrameLengthIs(Num(rest[2]));
    }
  }

  lemma DelimWaits(delim: seq<byte>, rest: seq<byte>)
    requires |delim| == 4 && DelimFrame.Check(delim, rest).len == 0
    ensures |rest| < 0x1_0000
  {
    hide DelimFrame.EndsAt, DelimFrame.Value4;
    if |rest| >= 0x1_0000 {
      SearchAnswers(delim, rest, DelimFrame.TRAILER);
    }
  }

  lemma {:induction false} SearchAnswers(delim: seq<byte>, rest: seq<byte>, n: nat)
    requires |delim| == 4 && DelimFrame.TRAILER <= n <= 0x1_0000 <= |rest|
    ensures DelimFrame.Search(delim, rest, n) > 0
    decreases 0x1_0000 - n
  {
    hide DelimFrame.EndsAt;
    if n < 0x1_0000 && !DelimFrame.EndsAt(delim, rest, n) {
      SearchAnswers(delim, rest, n + 1);
    }
  }
}
