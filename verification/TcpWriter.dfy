/** The write side of a TCP connection: a buffer is written directly when nothing is pending,
    else queued; queued buffers are dispatched together, and what a failed write left over is
    dispatched again. */
module TcpWriter {
  type Buffer<T> = seq<T>

  /** An outstanding write on a socket: of one buffer, or of all dispatched ones. */
  datatype Flight<T> = NoWrite | Direct(buf: Buffer<T>, sock: nat) | Buffered(sock: nat)

  /** The writer, with what it accepted, what the sockets took, and the buffers it dropped. */
  datatype Writer<T> = Writer(connected: bool, closed: bool, sock: nat, flight: Flight<T>,
                              queue: seq<Buffer<T>>, dispatch: seq<Buffer<T>>,
                              accepted: seq<Buffer<T>>, sent: seq<T>, dropped: seq<Buffer<T>>) {
    predicate Pending() { flight != NoWrite }

    predicate Writing() { connected && !closed && !Pending() }
  }

  function Flat<T>(bufs: seq<Buffer<T>>): seq<T> {
    if bufs == [] then [] else bufs[0] + Flat(bufs[1..])
  }

  /** A buffer joins the queue; the oldest is dropped when there are too many. */
  function Queued<T>(w: Writer<T>, limit: nat, buf: Buffer<T>): Writer<T> {
    var q := w.queue + [buf];
    if |q| > limit then w.(queue := q[1..], dropped := w.dropped + [q[0]]) else w.(queue := q)
  }

  function Written<T>(w: Writer<T>, limit: nat, buf: Buffer<T>): Writer<T> {
    var a := w.(accepted := w.accepted + [buf]);
    if w.Writing() then a.(flight := Direct(buf, w.sock)) else Queued(a, limit, buf)
  }

  /** Dispatches what is buffered, leftovers first. */
  function Dispatched<T>(w: Writer<T>): Writer<T> {
    if (w.queue == [] && w.dispatch == []) || w.Pending() then w
    else if w.dispatch == [] then w.(queue := w.dispatch, dispatch := w.queue, flight := Buffered(w.sock))
    else w.(flight := Buffered(w.sock))
  }

  /** The buffers without their first n bytes. */
  function Consume<T>(bufs: seq<Buffer<T>>, n: nat): seq<Buffer<T>>
    requires n <= |Flat(bufs)|
  {
    if n == 0 then bufs
    else if |bufs[0]| > n then [bufs[0][n..]] + bufs[1..]
    else Consume(bufs[1..], n - |bufs[0]|)
  }

  function FlightSize<T>(w: Writer<T>): nat {
    match w.flight
    case NoWrite => 0
    case Direct(buf, _) => |buf|
    case Buffered(_) => |Flat(w.dispatch)|
  }

  function AfterWrite<T>(w: Writer<T>, sock: nat): Writer<T> {
    var d := w.(flight := NoWrite);
    if sock == w.sock && w.connected && !w.closed then Dispatched(d) else d
  }

  /** A write completes after n bytes. */
  function Taken<T>(w: Writer<T>, limit: nat, err: bool, n: nat): Writer<T>
    requires w.Pending() && n <= FlightSize(w)
  {
    match w.flight
    case Direct(buf, _) =>
      var t := w.(sent := w.sent + buf[..n]);
      if n < |buf| then Queued(t, limit, buf[n..]) else t
    case Buffered(_) =>
      var t := w.(sent := w.sent + Flat(w.dispatch)[..n]);
      t.(dispatch := if err || n < |Flat(w.dispatch)| then Consume(w.dispatch, n) else [])
  }

  function Completed<T>(w: Writer<T>, limit: nat, err: bool, n: nat): Writer<T>
    requires w.Pending() && n <= FlightSize(w)
  {
    AfterWrite(Taken(w, limit, err, n), w.flight.sock)
  }

  /** A connection is made; a second one is ignored. */
  function Connected<T>(w: Writer<T>, sock: nat): Writer<T> {
    if w.connected then w
    else
      var c := w.(connected := true, sock := sock);
      if w.closed then c else Dispatched(c)
  }

  datatype Event<T> =
    | Write(buf: Buffer<T>)
    | Complete(err: bool, n: nat)
    | Connect(sock: nat)
    | Open
    | Close
    | AutoClose

  /** A write without an error transfers everything; every connection has a socket of its own. */
  predicate Enabled<T(==)>(w: Writer<T>, e: Event<T>) {
    match e
    case Complete(err, n) => w.Pending() && n <= FlightSize(w) && (!err ==> n == FlightSize(w))
    case Connect(sock) => sock > w.sock
    case _ => true
  }

  function Step<T>(w: Writer<T>, limit: nat, e: Event<T>): Writer<T>
    requires Enabled(w, e)
  {
    match e
    case Write(buf) => Written(w, limit, buf)
    case Complete(err, n) => Completed(w, limit, err, n)
    case Connect(sock) => Connected(w, sock)
    case Open => w.(closed := false)
    case Close => w.(closed := true)
    case AutoClose => w.(connected := false)
  }

  function Initial<T>(): Writer<T> { Writer(false, true, 0, NoWrite, [], [], [], [], []) }

  // ---- the manager, updated in place ------------------------------------------------------

  class TCPSocketManager<T(!new, ==)> {
    const bufferLimit: nat
    var isConnected: bool
    var manuallyClosed: bool
    var pSock: nat
    var pending: Flight<T>
    var queueWritebufs: seq<Buffer<T>>
    var dispatchWritebufs: seq<Buffer<T>>
    var accepted: seq<Buffer<T>>
    var sent: seq<T>
    var overflowed: seq<Buffer<T>>

    ghost function View(): Writer<T>
      reads this
    {
      Writer(isConnected, manuallyClosed, pSock, pending, queueWritebufs, dispatchWritebufs, accepted, sent, overflowed)
    }

    constructor (bufferLimit: nat)
      ensures this.bufferLimit == bufferLimit && View() == Initial()
    {
      this.bufferLimit := bufferLimit;
      isConnected, manuallyClosed, pSock, pending := false, true, 0, NoWrite;
      queueWritebufs, dispatchWritebufs, accepted, sent, overflowed := [], [], [], [], [];
    }

    method PushBack(buf: Buffer<T>)
      modifies this`queueWritebufs, this`overflowed
      ensures View() == Queued(old(View()), bufferLimit, buf)
    {
      queueWritebufs := queueWritebufs + [buf];
      if |queueWritebufs| > bufferLimit {
        overflowed := overflowed + [queueWritebufs[0]];
        queueWritebufs := queueWritebufs[1..];
      }
    }

    method Write(buf: Buffer<T>)
      modifies this
      ensures View() == Written(old(View()), bufferLimit, buf)
    {
      accepted := accepted + [buf];
      if !isConnected || manuallyClosed || pending != NoWrite {
        PushBack(buf);
        return;
      }
      pending := Direct(buf, pSock);
    }

    method WriteBuffer()
      modifies this`queueWritebufs, this`dispatchWritebufs, this`pending
      ensures View() == Dispatched(old(View()))
    {
      if (queueWritebufs != [] || dispatchWritebufs != []) && pending == NoWrite {
        if dispatchWritebufs == [] {
          queueWritebufs, dispatchWritebufs := dispatchWritebufs, queueWritebufs;
        }
        pending := Buffered(pSock);
      }
    }

    /** The drain loop: takes n written bytes off the dispatched buffers. */
    method Drain(n: nat)
      requires n <= |Flat(dispatchWritebufs)|
      modifies this`dispatchWritebufs
      ensures dispatchWritebufs == Consume(old(dispatchWritebufs), n)
    {
      var consumed := 0;
      while consumed < n
        invariant consumed <= n && n - consumed <= |Flat(dispatchWritebufs)|
        invariant Consume(dispatchWritebufs, n - consumed) == Consume(old(dispatchWritebufs), n)
        decreases |dispatchWritebufs|
      {
        if |dispatchWritebufs[0]| > n - consumed {
          dispatchWritebufs := [dispatchWritebufs[0][n - consumed..]] + dispatchWritebufs[1..];
          consumed := n;
          break;
        }
        consumed := consumed + |dispatchWritebufs[0]|;
        dispatchWritebufs := dispatchWritebufs[1..];
      }
    }

    method CheckLastWrite(sock: nat)
      modifies this
      ensures View() == AfterWrite(old(View()), sock)
    {
      pending := NoWrite;
      if sock == pSock && isConnected && !manuallyClosed {
        WriteBuffer();
      }
    }

    /** The completion handlers of both kinds of write. */
    method WriteCompleted(err: bool, n: nat)
      requires pending != NoWrite && n <= FlightSize(View())
      modifies this
      ensures View() == Completed(old(View()), bufferLimit, err, n)
    {
      var sock := pending.sock;
      match pending {
        case Direct(buf, _) =>
          sent := sent + buf[..n];
          if |buf| > n { PushBack(buf[n..]); }
        case Buffered(_) =>
          sent := sent + Flat(dispatchWritebufs)[..n];
          if err || |Flat(dispatchWritebufs)| > n {
            Drain(n);
          } else {
            dispatchWritebufs := [];
          }
      }
      CheckLastWrite(sock);
    }

    method ConnectCompletionHandler(sock: nat)
      modifies this
      ensures View() == Connected(old(View()), sock)
    {
      if isConnected { return; }
      pSock := sock;
      isConnected := true;
      if manuallyClosed { return; }
      WriteBuffer();
    }

    method Open()
      modifies this`manuallyClosed
      ensures View() == old(View()).(closed := false)
    {
      manuallyClosed := false;
    }

    method Close()
      modifies this`manuallyClosed
      ensures View() == old(View()).(closed := true)
    {
      manuallyClosed := true;
    }

    /** The posted closing of a connection runs. */
    method AutoClose()
      modifies this`isConnected
      ensures View() == old(View()).(connected := false)
    {
      isConnected := false;
    }
  }
}
