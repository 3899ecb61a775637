/** The sending side of the converter: a datagram gets a numbered trailer and goes to the
    serial ports. */
module ProtoConv {
  import opened Bytes
  import opened Crc
  import opened DelimFrame
  import opened SerialPorts

  /** What is sent for a datagram; delimiter 0 means no trailer. */
  function WithDelim(delim: nat, data: seq<byte>, number: nat): seq<byte> {
    if delim == 0 then data else Encode(Bytes4(delim), data, number)
  }

  class ProtoConv {
    const delim: nat
    const pStream: SerialPortsManager<seq<byte>>
    var delimSeq: nat

    constructor (delim: nat, numPorts: nat, maxWriteQSz: nat)
      ensures this.delim == delim && delimSeq == 0
      ensures fresh(pStream) && pStream.Valid() && Fresh(pStream.View()) && |pStream.lines| == numPorts
    {
      this.delim := delim;
      delimSeq := 0;
      pStream := new SerialPortsManager(numPorts, maxWriteQSz);
    }

    method AddDelim(data: seq<byte>) returns (out: seq<byte>)
      requires delimSeq < TWO_32
      modifies this`delimSeq
      ensures out == WithDelim(delim, data, old(delimSeq))
      ensures delimSeq == if delim == 0 then old(delimSeq) else (old(delimSeq) + 1) % TWO_32
    {
      hide Low, High, Ccitt;
      out := data;
      if delim == 0 { return; }
      var at := |out|;
      out := out + Bytes4(delim);
      var number := delimSeq;
      delimSeq := (delimSeq + 1) % TWO_32;
      out := out + Bytes4(number);
      assert out[at..at + 8] == Bytes4(delim) + Bytes4(number);
      var crc := CrcCcitt(out[at..at + 8]);
      out := out + [Low(crc), High(crc)];
    }

    /** A datagram arrives. */
    method RcvUDPHandler(data: seq<byte>)
      requires delimSeq < TWO_32 && pStream.Valid()
      modifies this`delimSeq, pStream
      ensures pStream.Valid()
      ensures pStream.View() == Sent(old(pStream.View()), pStream.maxWriteQSz, WithDelim(delim, data, old(delimSeq)))
      ensures delimSeq == if delim == 0 then old(delimSeq) else (old(delimSeq) + 1) % TWO_32
    {
      var framed := AddDelim(data);
      pStream.Write(framed);
    }
  }
}
