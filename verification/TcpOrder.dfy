/** When the TCP writer sends the buffers in the order in which it accepted them, and when not. */
module TcpOrder {
  import opened TcpWriter
  import opened TcpRuns
  import opened SerialPorts

  type TcpEvent<T> = TcpWriter.Event<T>

  /** The connection as a line for whole buffers: those that left the queue, in order. */
  function Line<T>(w: Writer<T>, through: seq<Buffer<T>>): Ports<Buffer<T>> {
    Ports([], w.queue, [through], w.dropped)
  }

  /** The accepted buffers are, in their order, those with numbers `at` on the line, those with
      numbers `gone` dropped as a whole, and the queue; the bytes of the line are the bytes sent,
      being written and dispatched. */
  ghost predicate Ordered<T(!new)>(w: Writer<T>, through: seq<Buffer<T>>, at: seq<nat>, gone: seq<nat>) {
    && Placed(Line(w, through), w.accepted, [at], gone)
    && Flat(through) == w.sent + DirectBytes(w) + Flat(w.dispatch)
  }

  /** No direct write passes what is buffered, and a direct write leaves nothing behind. */
  predicate Tidy<T(==)>(w: Writer<T>, e: TcpEvent<T>) {
    && (e.Write? && w.Writing() ==> w.queue == [] && w.dispatch == [])
    && (e.Complete? && w.flight.Direct? ==> e.n == |w.flight.buf|)
  }

  lemma QueuedOrdered<T(!new)>(w: Writer<T>, limit: nat, buf: Buffer<T>, through: seq<Buffer<T>>, at: seq<nat>,
                               gone: seq<nat>)
    returns (gone': seq<nat>)
    requires Ordered(w, through, at, gone)
    ensures Ordered(Queued(w.(accepted := w.accepted + [buf]), limit, buf), through, at, gone')
  {
    hide Placed, Flat;
    var line := Line(w, through);
    Joins(line, w.accepted, [at], gone, buf);
    gone' := gone;
    if |w.queue| + 1 > limit {
      var joined := line.(queue := w.queue + [buf]);
      Dropped(joined, w.accepted + [buf], [at], gone);
      PlacedShape(line, w.accepted, [at], gone);
      gone' := gone + [|w.accepted| - |w.queue|];
    }
  }

  lemma DirectOrdered<T(!new)>(w: Writer<T>, buf: Buffer<T>, through: seq<Buffer<T>>, at: seq<nat>, gone: seq<nat>)
    requires Ordered(w, through, at, gone) && w.queue == [] && w.dispatch == [] && !w.Pending()
    ensures Ordered(w.(accepted := w.accepted + [buf], flight := Direct(buf, w.sock)), through + [buf],
                    at + [|w.accepted|], gone)
  {
    hide Placed, Flat;
    var (line, d: nat) := (Line(w, through), |w.accepted|);
    Joins(line, w.accepted, [at], gone, buf);
    assert line.queue + [buf] == [buf];
    Leaves(line.(queue := [buf]), w.accepted + [buf], [at], gone, 0);
    assert [at][0 := at + [d]] == [at + [d]] && [through][0 := through + [buf]] == [through + [buf]];
    assert [buf][1..] == w.queue;
    FlatConcat(through, [buf]);
    FlatOne(buf);
    FlatNone<T>();
    assert Flat(through + [buf]) == w.sent + buf + [];
  }

  /** The whole queue goes on the line. */
  lemma {:induction false} AllLeave<T(!new)>(w: Writer<T>, through: seq<Buffer<T>>, at: seq<nat>, gone: seq<nat>)
      returns (at': seq<nat>)
    requires Placed(Line(w, through), w.accepted, [at], gone)
    ensures Placed(Line(w.(queue := []), through + w.queue), w.accepted, [at'], gone)
    decreases |w.queue|
  {
    hide Placed;
    if w.queue == [] {
      at' := at;
      assert through + [] == through;
    } else {
      var line := Line(w, through);
      PlacedShape(line, w.accepted, [at], gone);
      var (d, first) := (|w.accepted| - |w.queue|, w.queue[0]);
      Leaves(line, w.accepted, [at], gone, 0);
      assert [at][0 := at + [d]] == [at + [d]] && [through][0 := through + [first]] == [through + [first]];
      at' := AllLeave(w.(queue := w.queue[1..]), through + [first], at + [d], gone);
      assert through + [first] + w.queue[1..] == through + w.queue;
    }
  }

  lemma DispatchedOrdered<T(!new)>(w: Writer<T>, through: seq<Buffer<T>>, at: seq<nat>, gone: seq<nat>)
    returns (through': seq<Buffer<T>>, at': seq<nat>)
    requires Ordered(w, through, at, gone) && !w.flight.Direct?
    ensures Ordered(Dispatched(w), through', at', gone)
  {
    hide Placed, Flat;
    if w.queue == [] || w.dispatch != [] || w.Pending() {
      through', at' := through, at;
    } else {
      at' := AllLeave(w, through, at, gone);
      through' := through + w.queue;
      FlatConcat(through, w.queue);
      FlatNone<T>();
    }
  }

  lemma TakenOrdered<T(!new)>(w: Writer<T>, limit: nat, err: bool, n: nat, through: seq<Buffer<T>>, at: seq<nat>,
                              gone: seq<nat>)
    requires Ordered(w, through, at, gone) && Enabled(w, Complete(err, n)) && Tidy(w, Complete(err, n))
    ensures Ordered(Taken(w, limit, err, n).(flight := NoWrite), through, at, gone)
  {
    hide Placed, Flat;
    match w.flight {
      case Direct(buf, _) => assert buf[..n] == buf;
      case Buffered(_) =>
        var all := Flat(w.dispatch);
        ConsumeFlat(w.dispatch, n);
        FlatNone<T>();
        assert w.sent + [] + all == w.sent + all[..n] + [] + all[n..];
        if n == |all| { assert all[n..] == []; }
    }
  }

  lemma StepOrdered<T(!new)>(w: Writer<T>, limit: nat, e: TcpEvent<T>, through: seq<Buffer<T>>, at: seq<nat>,
                             gone: seq<nat>)
    returns (through': seq<Buffer<T>>, at': seq<nat>, gone': seq<nat>)
    requires Ordered(w, through, at, gone) && Enabled(w, e) && Tidy(w, e)
    ensures Ordered(TcpWriter.Step(w, limit, e), through', at', gone')
  {
    hide Placed, Flat, Queued, Taken, Dispatched;
    through', at', gone' := through, at, gone;
    match e {
      case Write(buf) =>
        if w.Writing() {
          DirectOrdered(w, buf, through, at, gone);
          through', at' := through + [buf], at + [|w.accepted|];
        } else {
          gone' := QueuedOrdered(w, limit, buf, through, at, gone);
        }
      case Complete(err, n) =>
        TakenOrdered(w, limit, err, n, through, at, gone);
        TakenKeeps(w, limit, err, n);
        if w.flight.sock == w.sock && w.connected && !w.closed {
          through', at' := DispatchedOrdered(Taken(w, limit, err, n).(flight := NoWrite), through, at, gone);
        }
      case Connect(sock) =>
        if !w.connected && !w.closed && !w.Pending() {
          through', at' := DispatchedOrdered(w.(connected := true, sock := sock), through, at, gone);
        } else {
          PendingStays(w.(connected := true, sock := sock));
        }
      case Open =>
      case Close =>
      case AutoClose =>
    }
  }

  lemma TakenKeeps<T>(w: Writer<T>, limit: nat, err: bool, n: nat)
    requires w.Pending() && n <= FlightSize(w)
    ensures var t := Taken(w, limit, err, n); t.sock == w.sock && t.connected == w.connected && t.closed == w.closed
  {
  }

  lemma PendingStays<T>(w: Writer<T>)
    ensures w.Pending() ==> Dispatched(w) == w
  {
  }

  /** Over every tidy run, with partial dispatched writes, errors and reconnections: what was
      sent is a prefix of the accepted buffers in their order, without whole buffers that were
      dropped from the full queue. */
  lemma {:induction false} RunOrdered<T(!new)>(states: seq<Writer<T>>, limit: nat, events: seq<TcpEvent<T>>, k: nat)
    returns (through: seq<Buffer<T>>, at: seq<nat>, gone: seq<nat>)
    requires TcpRuns.Run(states, limit, events) && k <= |events|
    requires forall j | 0 <= j < k :: Tidy(states[j], events[j])
    ensures Ordered(states[k], through, at, gone) && states[k].sent <= Flat(through)
  {
    hide TcpWriter.Step, Enabled, Tidy, Placed;
    if k == 0 {
      through, at, gone := [], [], [];
      InitialOrdered<T>();
    } else {
      through, at, gone := RunOrdered(states, limit, events, k - 1);
      assert Tidy(states[k - 1], events[k - 1]);
      through, at, gone := StepOrdered(states[k - 1], limit, events[k - 1], through, at, gone);
    }
  }

  lemma InitialOrdered<T(!new)>()
    ensures Ordered<T>(TcpWriter.Initial(), [], [], [])
  {
    var at: seq<seq<nat>> := [[]];
    UnionNone(at);
    LaneNone<Buffer<T>>();
  }

  // ---- when runs are tidy -----------------------------------------------------------------

  predicate Idle<T(==)>(w: Writer<T>) { w.queue == [] && w.dispatch == [] }

  /** Nothing is buffered when the next buffer would be written directly. */
  predicate Calm<T(==)>(w: Writer<T>) { w.Writing() ==> Idle(w) }

  /** Opening again before the connection was closed, with data buffered; or completing a write
      on an older connection while data is buffered for the present one. */
  predicate Breaks<T(==)>(w: Writer<T>, limit: nat, e: TcpEvent<T>)
    requires Enabled(w, e)
  {
    match e
    case Open => w.connected && !w.Pending() && !Idle(w)
    case Complete(err, n) =>
      w.flight.sock != w.sock && w.connected && !w.closed && !Idle(Taken(w, limit, err, n))
    case _ => false
  }

  lemma StepCalm<T>(w: Writer<T>, limit: nat, e: TcpEvent<T>)
    requires Calm(w) && Enabled(w, e)
    ensures Calm(TcpWriter.Step(w, limit, e)) <==> !Breaks(w, limit, e)
  {
    hide Flat, Consume, Taken;
    if e.Complete? { TakenKeeps(w, limit, e.err, e.n); }
  }

  /** Through a run direct writes never pass buffered data if and only if no event breaks it. */
  lemma {:induction false} CalmUnlessBroken<T(!new)>(states: seq<Writer<T>>, limit: nat, events: seq<TcpEvent<T>>,
                                                     n: nat)
    requires TcpRuns.Run(states, limit, events) && n <= |events|
    ensures (forall k | 0 <= k <= n :: Calm(states[k]))
      <==> (forall k | 0 <= k < n :: !Breaks(states[k], limit, events[k]))
  {
    hide Calm, Breaks, TcpWriter.Step, Enabled;
    if n == 0 {
      assert Calm(states[0]) by { InitialCalm<T>(); }
    } else {
      CalmUnlessBroken(states, limit, events, n - 1);
      assert Enabled(states[n - 1], events[n - 1]) && states[n] == TcpWriter.Step(states[n - 1], limit, events[n - 1]);
      if Calm(states[n - 1]) {
        StepCalm(states[n - 1], limit, events[n - 1]);
        assert Calm(states[n]) <==> !Breaks(states[n - 1], limit, events[n - 1]);
      }
    }
  }

  lemma InitialCalm<T>()
    ensures Calm<T>(TcpWriter.Initial())
  {
  }

  /** An outstanding write is on the present connection, while there is one. */
  predicate OnePath<T>(w: Writer<T>) { w.Pending() && w.connected ==> w.flight.sock == w.sock }

  /** A connection is made while a write on an earlier one is outstanding. */
  predicate Overlaps<T(==)>(w: Writer<T>, e: TcpEvent<T>) { e.Connect? && !w.connected && w.Pending() }

  predicate Reopens<T(==)>(w: Writer<T>, e: TcpEvent<T>) { e.Open? && w.connected && !w.Pending() && !Idle(w) }

  lemma StepOnePath<T>(w: Writer<T>, limit: nat, e: TcpEvent<T>)
    requires OnePath(w) && Calm(w) && Enabled(w, e) && !Overlaps(w, e) && !Reopens(w, e)
    ensures OnePath(TcpWriter.Step(w, limit, e)) && Calm(TcpWriter.Step(w, limit, e))
  {
    hide Flat, Consume, Taken;
    StepCalm(w, limit, e);
    if e.Complete? { TakenKeeps(w, limit, e.err, e.n); }
  }

  /** Without a connection made during an outstanding write and without opening a connection
      that is not closed yet, direct writes never pass buffered data. */
  lemma {:induction false} CalmWithout<T(!new)>(states: seq<Writer<T>>, limit: nat, events: seq<TcpEvent<T>>, k: nat)
    requires TcpRuns.Run(states, limit, events) && k <= |events|
    requires forall j | 0 <= j < k :: !Overlaps(states[j], events[j]) && !Reopens(states[j], events[j])
    ensures OnePath(states[k]) && Calm(states[k])
  {
    hide TcpWriter.Step, Enabled, OnePath;
    if k == 0 {
      InitialCalm<T>();
      InitialOnePath<T>();
    } else {
      var e := events[k - 1];
      CalmWithout(states, limit, events, k - 1);
      assert !Overlaps(states[k - 1], e) && !Reopens(states[k - 1], e);
      StepOnePath(states[k - 1], limit, e);
    }
  }

  lemma InitialOnePath<T>()
    ensures OnePath<T>(TcpWriter.Initial())
  {
  }

  /** In terms of the connection: without a connection made during an outstanding write, without
      opening a connection that is not closed yet and without a write error, what was sent is a
      prefix of the accepted buffers in their order, without whole buffers dropped from the full
      queue. */
  lemma WholeBuffersInOrder<T(!new)>(states: seq<Writer<T>>, limit: nat, events: seq<TcpEvent<T>>, k: nat)
    returns (through: seq<Buffer<T>>, at: seq<nat>, gone: seq<nat>)
    requires TcpRuns.Run(states, limit, events) && k <= |events|
    requires forall j | 0 <= j < k :: !Overlaps(states[j], events[j]) && !Reopens(states[j], events[j])
    requires forall j | 0 <= j < k :: events[j].Complete? ==> !events[j].err
    ensures Ordered(states[k], through, at, gone) && states[k].sent <= Flat(through)
  {
    hide TcpWriter.Step, Overlaps, Reopens, Ordered, Flat;
    forall j | 0 <= j < k ensures Tidy(states[j], events[j]) {
      CalmWithout(states, limit, events, j);
    }
    through, at, gone := RunOrdered(states, limit, events, k);
  }

  // ---- and when not -----------------------------------------------------------------------

  /** One event leads from w to v. */
  predicate Leads<T(==)>(w: Writer<T>, limit: nat, e: TcpEvent<T>, v: Writer<T>) {
    Enabled(w, e) && v == TcpWriter.Step(w, limit, e)
  }

  /** A connection made during an outstanding write: the second buffer waits on, and the third
      is sent before it. */
  lemma OverlapReorders<T(!new)>(limit: nat, a: Buffer<T>, b: Buffer<T>, c: Buffer<T>) returns (states: seq<Writer<T>>)
    requires limit >= 1
    ensures TcpRuns.Run(states, limit, [Open, Connect(1), Write(a), AutoClose, Connect(2), Write(b),
                                        Complete(false, |a|), Write(c), Complete(false, |c|)])
    ensures states[9].accepted == [a, b, c] && states[9].sent == a + c
  {
    var w0: Writer<T> := Initial();
    var w1: Writer<T> := Writer(true, false, 1, NoWrite, [], [], [], [], []);
    var w2 := w1.(accepted := [a], flight := Direct(a, 1));
    var w4 := w2.(sock := 2);
    var w5 := w4.(accepted := [a, b], queue := [b]);
    var w6 := w5.(sent := a, flight := NoWrite);
    var w7 := w6.(accepted := [a, b, c], flight := Direct(c, 2));
    var w8 := w7.(sent := a + c, flight := Buffered(2), queue := [], dispatch := [b]);
    states := [w0, w0.(closed := false), w1, w2, w2.(connected := false), w4, w5, w6, w7, w8];
    ConnectedFirst(limit, a, w0, w1, w2);
    SecondConnection(limit, a, b, w2, w4, w5);
    ThirdPasses(limit, a, b, c, w5, w6, w7, w8);
    hide TcpWriter.Step, Enabled;
  }

  lemma ConnectedFirst<T(!new)>(limit: nat, a: Buffer<T>, w0: Writer<T>, w1: Writer<T>, w2: Writer<T>)
    requires w0 == Initial() && w1 == Writer(true, false, 1, NoWrite, [], [], [], [], [])
    requires w2 == w1.(accepted := [a], flight := Direct(a, 1))
    ensures Leads(w0, limit, Open, w0.(closed := false))
    ensures Leads(w0.(closed := false), limit, Connect(1), w1) && Leads(w1, limit, Write(a), w2)
  {
    var none: seq<Buffer<T>> := [];
    assert none + [a] == [a];
  }

  lemma SecondConnection<T(!new)>(limit: nat, a: Buffer<T>, b: Buffer<T>, w2: Writer<T>, w4: Writer<T>, w5: Writer<T>)
    requires limit >= 1 && w2 == Writer(true, false, 1, Direct(a, 1), [], [], [a], [], [])
    requires w4 == w2.(sock := 2) && w5 == w4.(accepted := [a, b], queue := [b])
    ensures Leads(w2, limit, AutoClose, w2.(connected := false))
    ensures Leads(w2.(connected := false), limit, Connect(2), w4) && Leads(w4, limit, Write(b), w5)
  {
    assert [a] + [b] == [a, b] && w4.queue + [b] == [b];
  }

  lemma ThirdPasses<T(!new)>(limit: nat, a: Buffer<T>, b: Buffer<T>, c: Buffer<T>,
                             w5: Writer<T>, w6: Writer<T>, w7: Writer<T>, w8: Writer<T>)
    requires w5 == Writer(true, false, 2, Direct(a, 1), [b], [], [a, b], [], [])
    requires w6 == w5.(sent := a, flight := NoWrite) && w7 == w6.(accepted := [a, b, c], flight := Direct(c, 2))
    requires w8 == w7.(sent := a + c, flight := Buffered(2), queue := [], dispatch := [b])
    ensures Leads(w5, limit, Complete(false, |a|), w6) && Leads(w6, limit, Write(c), w7)
    ensures Leads(w7, limit, Complete(false, |c|), w8)
  {
    assert a[..|a|] == a && c[..|c|] == c && w5.sent + a == a && [a, b] + [c] == [a, b, c];
  }

  /** Opening before the posted close has run: what was queued meanwhile is passed. */
  lemma ReopenReorders<T(!new)>(limit: nat, a: Buffer<T>, b: Buffer<T>) returns (states: seq<Writer<T>>)
    requires limit >= 1
    ensures TcpRuns.Run(states, limit, [Open, Connect(1), Close, Write(a), Open, Write(b), AutoClose,
                                        Complete(false, |b|)])
    ensures states[8].accepted == [a, b] && states[8].sent == b
  {
    var w1: Writer<T> := Writer(true, false, 1, NoWrite, [], [], [], [], []);
    var w3 := w1.(closed := true, accepted := [a], queue := [a]);
    var w5 := w3.(closed := false, accepted := [a, b], flight := Direct(b, 1));
    var w6 := w5.(connected := false);
    var w7 := w6.(sent := b, flight := NoWrite);
    states := [Initial(), Initial().(closed := false), w1, w1.(closed := true), w3, w3.(closed := false), w5, w6, w7];
    assert b[..|b|] == b && [] + b == b && [a] + [b] == [a, b];
  }

  /** A direct write cut short with a buffer queued behind it: what is left of the first goes
      after the second. */
  lemma ShortReorders<T(!new)>(limit: nat, a: Buffer<T>, b: Buffer<T>, n: nat) returns (states: seq<Writer<T>>)
    requires limit >= 2 && n < |a|
    ensures TcpRuns.Run(states, limit, [Open, Connect(1), Write(a), Write(b), Complete(true, n),
                                        Complete(false, |b + a[n..]|)])
    ensures states[6].accepted == [a, b] && states[6].sent == a[..n] + (b + a[n..])
  {
    var w0: Writer<T> := Initial();
    var w1: Writer<T> := Writer(true, false, 1, NoWrite, [], [], [], [], []);
    var w2 := w1.(accepted := [a], flight := Direct(a, 1));
    var w3 := w2.(accepted := [a, b], queue := [b]);
    var w4 := w3.(sent := a[..n], flight := Buffered(1), queue := [], dispatch := [b, a[n..]]);
    var w5 := w4.(sent := a[..n] + (b + a[n..]), flight := NoWrite, dispatch := []);
    states := [w0, w0.(closed := false), w1, w2, w3, w4, w5];
    ConnectedFirst(limit, a, w0, w1, w2);
    CutShort(limit, a, b, n, w2, w3, w4);
    RestSent(limit, a, b, n, w4, w5);
    hide TcpWriter.Step, Enabled;
  }

  lemma CutShort<T(!new)>(limit: nat, a: Buffer<T>, b: Buffer<T>, n: nat, w2: Writer<T>, w3: Writer<T>, w4: Writer<T>)
    requires limit >= 2 && n < |a| && w2 == Writer(true, false, 1, Direct(a, 1), [], [], [a], [], [])
    requires w3 == w2.(accepted := [a, b], queue := [b])
    requires w4 == w3.(sent := a[..n], flight := Buffered(1), queue := [], dispatch := [b, a[n..]])
    ensures Leads(w2, limit, Write(b), w3) && Leads(w3, limit, Complete(true, n), w4)
  {
    assert w3.sent + a[..n] == a[..n] && w2.accepted + [b] == [a, b] && w2.queue + [b] == [b];
    assert w3.queue + [a[n..]] == [b, a[n..]];
  }

  lemma RestSent<T(!new)>(limit: nat, a: Buffer<T>, b: Buffer<T>, n: nat, w4: Writer<T>, w5: Writer<T>)
    requires n < |a| && w4 == Writer(true, false, 1, Buffered(1), [], [b, a[n..]], [a, b], a[..n], [])
    requires w5 == w4.(sent := a[..n] + (b + a[n..]), flight := NoWrite, dispatch := [])
    ensures Leads(w4, limit, Complete(false, |b + a[n..]|), w5)
  {
    FlatTwo(b, a[n..]);
    assert (b + a[n..])[..|b + a[n..]|] == b + a[n..];
  }

  lemma FlatTwo<T>(a: Buffer<T>, b: Buffer<T>)
    ensures Flat([a, b]) == a + b
  {
    FlatConcat([a], [b]);
    FlatOne(a);
    FlatOne(b);
    assert [a] + [b] == [a, b];
  }
}
