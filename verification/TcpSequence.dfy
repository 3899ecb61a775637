/** Exactly when the TCP writer keeps the order of the bytes.  The writer does not look at the
    bytes, so each byte may be taken to be its own position in the stream that was accepted. */
module TcpSequence {
  import opened TcpWriter
  import opened TcpRuns
  import opened TcpOrder

  type Stream = seq<nat>

  predicate Rising(s: Stream) { forall i, j | 0 <= i < j < |s| :: s[i] < s[j] }

  predicate NonEmpty(bufs: seq<Stream>) { forall i | 0 <= i < |bufs| :: bufs[i] != [] }

  /** The bytes in the order in which they go out: sent, being written, dispatched, queued. */
  function Lined<T>(w: Writer<T>): seq<T> { w.sent + DirectBytes(w) + Flat(w.dispatch) + Flat(w.queue) }

  /** Every byte is the number of bytes accepted before it. */
  predicate Positions(s: Stream) { forall i | 0 <= i < |s| :: s[i] == i }

  /** A written buffer is not empty and continues the positions. */
  predicate Continues(w: Writer<nat>, e: TcpEvent<nat>) {
    e.Write? ==> e.buf != [] && forall i | 0 <= i < |e.buf| :: e.buf[i] == |Flat(w.accepted)| + i
  }

  /** No empty buffer, bounded queues, and every byte accounted for. */
  ghost predicate Sound(w: Writer<nat>, limit: nat) {
    && Positions(Flat(w.accepted)) && Balanced(w) && Bounded(w, limit)
    && NonEmpty(w.queue) && NonEmpty(w.dispatch) && (w.flight.Direct? ==> w.flight.buf != [])
  }

  /** How many buffers would go before what is left of a direct write that is cut short. */
  function Before<T>(w: Writer<T>, limit: nat): nat {
    |w.dispatch| + if |w.queue| < limit then |w.queue| else if w.queue == [] then 0 else |w.queue| - 1
  }

  /** A direct write starts while data is buffered, or is cut short with data behind it. */
  predicate Passes<T(==)>(w: Writer<T>, limit: nat, e: TcpEvent<T>) {
    match e
    case Write(_) => w.Writing() && !Idle(w)
    case Complete(_, n) => w.flight.Direct? && n < |w.flight.buf| && Before(w, limit) > 0
    case _ => false
  }

  // ---- rising sequences -------------------------------------------------------------------

  lemma RisingPart(a: Stream, b: Stream, c: Stream)
    requires Rising(a + b + c)
    ensures Rising(a + c)
  {
    var (s, t) := (a + b + c, a + c);
    forall i, j | 0 <= i < j < |t| ensures t[i] < t[j] {
      var (p, q) := (if i < |a| then i else i + |b|, if j < |a| then j else j + |b|);
      assert s[p] == t[i] && s[q] == t[j];
    }
  }

  lemma RisingMore(a: Stream, b: Stream, n: nat)
    requires Rising(a) && forall i | 0 <= i < |a| :: a[i] < n
    requires forall i | 0 <= i < |b| :: b[i] == n + i
    ensures Rising(a + b)
  {
  }

  /** A byte of x stands before a smaller one of y. */
  lemma NotRising(a: Stream, x: Stream, b: Stream, y: Stream, c: Stream)
    requires x != [] && y != [] && y[0] < x[0]
    ensures !Rising(a + x + b + y + c)
  {
    var s := a + x + b + y + c;
    assert s[|a|] == x[0] && s[|a| + |x| + |b|] == y[0];
  }

  lemma RisingAcross(a: Stream, x: Stream, b: Stream, y: Stream, c: Stream)
    requires x != [] && y != [] && Rising(a + x + b + y + c)
    ensures x[0] < y[0]
  {
    var s := a + x + b + y + c;
    assert s[|a|] == x[0] && s[|a| + |x| + |b|] == y[0];
  }

  /** Swapping rest and y keeps the sequence rising only when there is nothing to swap. */
  lemma SwapIff(a: Stream, rest: Stream, y: Stream)
    requires rest != [] && Rising(a + rest + y)
    ensures Rising(a + y + rest) <==> y == []
  {
    if y == [] {
      assert a + y + rest == a + rest + y;
    } else {
      assert a + rest + [] + y + [] == a + rest + y && a + y + [] + rest + [] == a + y + rest;
      RisingAcross(a, rest, [], y, []);
      NotRising(a, y, [], rest, []);
    }
  }

  // ---- soundness --------------------------------------------------------------------------

  /** A byte on its way was accepted. */
  lemma LinedBelow(w: Writer<nat>, limit: nat)
    requires Sound(w, limit)
    ensures forall i | 0 <= i < |Lined(w)| :: Lined(w)[i] < |Flat(w.accepted)|
  {
    hide Flat, Bounded, NonEmpty;
    var (f, line) := (Flat(w.accepted), Lined(w));
    forall i | 0 <= i < |line| ensures line[i] < |f| {
      assert line[i] in multiset(line);
      assert multiset(line) == multiset(w.sent) + multiset(DirectBytes(w)) + multiset(Flat(w.dispatch))
                            + multiset(Flat(w.queue));
      assert line[i] in multiset(f);
    }
  }

  lemma FlatEmptyIff(bufs: seq<Stream>)
    requires NonEmpty(bufs)
    ensures Flat(bufs) == [] <==> bufs == []
  {
    if bufs != [] { assert Flat(bufs) == bufs[0] + Flat(bufs[1..]); }
  }

  lemma QueuedNonEmpty(w: Writer<nat>, limit: nat, buf: Stream)
    requires NonEmpty(w.queue) && buf != []
    ensures NonEmpty(Queued(w, limit, buf).queue)
  {
  }

  lemma {:induction false} ConsumeNonEmpty(bufs: seq<Stream>, n: nat)
    requires NonEmpty(bufs) && n <= |Flat(bufs)|
    ensures NonEmpty(Consume(bufs, n))
  {
    if n > 0 && |bufs[0]| <= n { ConsumeNonEmpty(bufs[1..], n - |bufs[0]|); }
  }

  lemma TakenNonEmpty(w: Writer<nat>, limit: nat, err: bool, n: nat)
    requires w.Pending() && n <= FlightSize(w) && NonEmpty(w.queue) && NonEmpty(w.dispatch)
    ensures var t := Taken(w, limit, err, n); NonEmpty(t.queue) && NonEmpty(t.dispatch)
  {
    hide Flat, NonEmpty;
    match w.flight {
      case Direct(buf, _) =>
        if n < |buf| { QueuedNonEmpty(w.(sent := w.sent + buf[..n]), limit, buf[n..]); }
      case Buffered(_) =>
        ConsumeNonEmpty(w.dispatch, n);
        NothingNonEmpty();
    }
  }

  lemma NothingNonEmpty()
    ensures NonEmpty([])
  {
  }

  lemma StepSound(w: Writer<nat>, limit: nat, e: TcpEvent<nat>)
    requires Sound(w, limit) && Enabled(w, e) && Continues(w, e)
    ensures Sound(TcpWriter.Step(w, limit, e), limit)
  {
    hide Flat, NonEmpty, Balanced, Bounded, Queued, Taken;
    StepBalanced(w, limit, e);
    StepBounded(w, limit, e);
    NothingNonEmpty();
    match e {
      case Write(buf) =>
        FlatConcat(w.accepted, [buf]);
        FlatOne(buf);
        QueuedNonEmpty(w.(accepted := w.accepted + [buf]), limit, buf);
        QueuedKeeps(w.(accepted := w.accepted + [buf]), limit, buf);
      case Complete(err, n) =>
        TakenNonEmpty(w, limit, err, n);
        AcceptedKept(w, limit, err, n);
        AcceptedDispatched(Taken(w, limit, err, n).(flight := NoWrite));
      case Connect(sock) => AcceptedDispatched(w.(connected := true, sock := sock));
      case Open =>
      case Close =>
      case AutoClose =>
    }
  }

  lemma QueuedKeeps(w: Writer<nat>, limit: nat, buf: Stream)
    ensures var q := Queued(w, limit, buf); q.accepted == w.accepted && q.dispatch == w.dispatch && q.flight == w.flight
  {
  }

  // ---- one step ---------------------------------------------------------------------------

  lemma QueuedRising(w: Writer<nat>, limit: nat, buf: Stream, n: nat)
    requires Rising(Lined(w)) && forall i | 0 <= i < |Lined(w)| :: Lined(w)[i] < n
    requires forall i | 0 <= i < |buf| :: buf[i] == n + i
    ensures Rising(Lined(Queued(w, limit, buf)))
  {
    hide Flat, Rising;
    var (front, q) := (w.sent + DirectBytes(w) + Flat(w.dispatch), w.queue + [buf]);
    RisingMore(Lined(w), buf, n);
    FlatConcat(w.queue, [buf]);
    FlatOne(buf);
    assert front + Flat(w.queue) + buf == front + Flat(q);
    if |q| > limit {
      FlatConcat([q[0]], q[1..]);
      FlatOne(q[0]);
      assert [q[0]] + q[1..] == q;
      assert front + Flat(q) == front + q[0] + Flat(q[1..]);
      RisingPart(front, q[0], Flat(q[1..]));
    }
  }

  lemma DirectRisingIff(w: Writer<nat>, buf: Stream, n: nat)
    requires !w.Pending() && Rising(Lined(w)) && NonEmpty(w.queue) && NonEmpty(w.dispatch) && buf != []
    requires forall i | 0 <= i < |Lined(w)| :: Lined(w)[i] < n
    requires forall i | 0 <= i < |buf| :: buf[i] == n + i
    ensures Rising(Lined(w.(accepted := w.accepted + [buf], flight := Direct(buf, w.sock)))) <==> Idle(w)
  {
    hide Flat, NonEmpty, Rising;
    var y := Flat(w.dispatch) + Flat(w.queue);
    FlatEmptyIff(w.dispatch);
    FlatEmptyIff(w.queue);
    assert Lined(w) == w.sent + y;
    RisingMore(w.sent + y, buf, n);
    assert w.sent + buf + Flat(w.dispatch) + Flat(w.queue) == w.sent + buf + y;
    SwapBack(w.sent, buf, y);
  }

  /** The same the other way round. */
  lemma SwapBack(a: Stream, buf: Stream, y: Stream)
    requires buf != [] && Rising(a + y + buf)
    ensures Rising(a + buf + y) <==> y == []
  {
    if y == [] {
      assert a + buf + y == a + y + buf;
    } else {
      SwapIff(a, y, buf);
    }
  }

  lemma RestRisingIff(a: Stream, rest: Stream, d: seq<Stream>, q: seq<Stream>)
    requires rest != [] && NonEmpty(d) && NonEmpty(q) && Rising(a + rest + Flat(d) + Flat(q))
    ensures Rising(a + Flat(d) + Flat(q + [rest])) <==> d == [] && q == []
  {
    hide Flat, NonEmpty, Rising;
    FlatEmptyIff(d);
    FlatEmptyIff(q);
    FlatConcat(q, [rest]);
    FlatOne(rest);
    var y := Flat(d) + Flat(q);
    assert a + rest + Flat(d) + Flat(q) == a + rest + y && a + Flat(d) + Flat(q + [rest]) == a + y + rest;
    SwapIff(a, rest, y);
  }

  /** What is left of a direct write cut short. */
  lemma ShortRisingIff(w: Writer<nat>, limit: nat, err: bool, n: nat)
    requires Sound(w, limit) && w.flight.Direct? && n < |w.flight.buf| && Rising(Lined(w))
    ensures Rising(Lined(Taken(w, limit, err, n).(flight := NoWrite))) <==> Before(w, limit) == 0
  {
    hide Flat, NonEmpty, Rising, Balanced, Positions;
    var buf := w.flight.buf;
    var (a, rest, q) := (w.sent + buf[..n], buf[n..], w.queue);
    assert w.sent + buf + Flat(w.dispatch) + Flat(q) == a + rest + Flat(w.dispatch) + Flat(q);
    assert a + [] == a;
    if |q| < limit {
      RestRisingIff(a, rest, w.dispatch, q);
    } else if q == [] {
      assert (q + [rest])[1..] == q;
      FlatNone<nat>();
      assert w.dispatch == [] && a + rest + [] + [] == a + rest + [];
      RisingPart(a, rest, []);
    } else {
      FlatConcat([q[0]], q[1..]);
      FlatOne(q[0]);
      assert [q[0]] + q[1..] == q && (q + [rest])[1..] == q[1..] + [rest];
      var front := a + rest + Flat(w.dispatch);
      assert front + Flat(q) == front + q[0] + Flat(q[1..]);
      RisingPart(front, q[0], Flat(q[1..]));
      TailNonEmpty(q);
      RestRisingIff(a, rest, w.dispatch, q[1..]);
    }
  }

  lemma TailNonEmpty(bufs: seq<Stream>)
    requires NonEmpty(bufs) && bufs != []
    ensures NonEmpty(bufs[1..])
  {
  }

  lemma TakenLined<T>(w: Writer<T>, limit: nat, err: bool, n: nat)
    requires Enabled(w, Complete(err, n)) && !(w.flight.Direct? && n < |w.flight.buf|)
    ensures Lined(Taken(w, limit, err, n).(flight := NoWrite)) == Lined(w)
  {
    hide Flat;
    match w.flight {
      case Direct(buf, _) => assert buf[..n] == buf;
      case Buffered(_) =>
        var all := Flat(w.dispatch);
        ConsumeFlat(w.dispatch, n);
        FlatNone<T>();
        assert w.sent + [] + all == w.sent + all[..n] + [] + all[n..];
        if n == |all| { assert all[n..] == []; }
    }
  }

  lemma DispatchedLined<T>(w: Writer<T>)
    ensures Lined(Dispatched(w)) == Lined(w)
  {
    hide Flat;
    FlatNone<T>();
    if w.dispatch == [] && !w.Pending() {
      assert w.sent + [] + [] + Flat(w.queue) == w.sent + [] + Flat(w.queue) + [];
    }
  }

  /** One step keeps the bytes in order exactly when it does not pass any. */
  lemma StepKeepsOrder(w: Writer<nat>, limit: nat, e: TcpEvent<nat>)
    requires Sound(w, limit) && Enabled(w, e) && Continues(w, e) && Rising(Lined(w))
    ensures Rising(Lined(TcpWriter.Step(w, limit, e))) <==> !Passes(w, limit, e)
  {
    hide Flat, NonEmpty, Rising, Balanced, Positions, Queued, Taken, Lined, Dispatched, Before;
    match e {
      case Write(buf) =>
        LinedBelow(w, limit);
        LinedSame(w, w.(accepted := w.accepted + [buf]));
        if w.Writing() {
          DirectRisingIff(w, buf, |Flat(w.accepted)|);
        } else {
          QueuedRising(w.(accepted := w.accepted + [buf]), limit, buf, |Flat(w.accepted)|);
        }
      case Complete(err, n) =>
        DispatchedLined(Taken(w, limit, err, n).(flight := NoWrite));
        if w.flight.Direct? && n < |w.flight.buf| {
          ShortRisingIff(w, limit, err, n);
        } else {
          TakenLined(w, limit, err, n);
        }
      case Connect(sock) =>
        DispatchedLined(w.(connected := true, sock := sock));
        LinedSame(w, w.(connected := true, sock := sock));
      case Open => LinedSame(w, w.(closed := false));
      case Close => LinedSame(w, w.(closed := true));
      case AutoClose => LinedSame(w, w.(connected := false));
    }
  }

  lemma LinedSame<T>(w: Writer<T>, v: Writer<T>)
    requires v.sent == w.sent && v.flight == w.flight && v.dispatch == w.dispatch && v.queue == w.queue
    ensures Lined(v) == Lined(w)
  {
  }

  // ---- every run --------------------------------------------------------------------------

  lemma {:induction false} RunSound(states: seq<Writer<nat>>, limit: nat, events: seq<TcpEvent<nat>>, k: nat)
    requires TcpRuns.Run(states, limit, events) && k <= |events|
    requires forall j | 0 <= j < k :: Continues(states[j], events[j])
    ensures Sound(states[k], limit)
  {
    hide TcpWriter.Step, Enabled, Sound, Continues;
    if k == 0 {
      InitialSound(limit);
    } else {
      RunSound(states, limit, events, k - 1);
      StepSound(states[k - 1], limit, events[k - 1]);
    }
  }

  lemma InitialSound(limit: nat)
    ensures Sound(TcpWriter.Initial(), limit) && Lined<nat>(TcpWriter.Initial()) == []
  {
    InitialBalanced<nat>(limit);
  }

  /** Over every run, with errors, partial writes, drops and reconnections: the bytes stay in the
      order in which they were accepted if and only if no direct write starts while data is
      buffered and none is cut short with data behind it. */
  lemma {:induction false} InOrderExactly(states: seq<Writer<nat>>, limit: nat, events: seq<TcpEvent<nat>>, n: nat)
    requires TcpRuns.Run(states, limit, events) && n <= |events|
    requires forall j | 0 <= j < n :: Continues(states[j], events[j])
    ensures (forall k | 0 <= k <= n :: Rising(Lined(states[k])))
      <==> (forall k | 0 <= k < n :: !Passes(states[k], limit, events[k]))
  {
    hide TcpWriter.Step, Enabled, Sound, Continues, Passes, Rising, Lined;
    if n == 0 {
      InitialSound(limit);
      assert Rising(Lined(states[0])) by { NothingRising(); }
    } else {
      InOrderExactly(states, limit, events, n - 1);
      assert Enabled(states[n - 1], events[n - 1]) && states[n] == TcpWriter.Step(states[n - 1], limit, events[n - 1]);
      assert Continues(states[n - 1], events[n - 1]);
      RunSound(states, limit, events, n - 1);
      if Rising(Lined(states[n - 1])) {
        StepKeepsOrder(states[n - 1], limit, events[n - 1]);
        assert Rising(Lined(states[n])) <==> !Passes(states[n - 1], limit, events[n - 1]);
      }
    }
  }

  lemma NothingRising()
    ensures Rising([])
  {
  }

  /** What was sent is in order when all that is on its way is. */
  lemma SentRising(w: Writer<nat>)
    requires Rising(Lined(w))
    ensures Rising(w.sent)
  {
    hide Flat;
    var (line, s) := (Lined(w), w.sent);
    assert forall i | 0 <= i < |s| :: s[i] == line[i];
  }

  /** Of what was accepted exactly the dropped bytes are missing from the line. */
  lemma OnlyDroppedMissing(w: Writer<nat>, limit: nat, p: nat)
    requires Sound(w, limit) && p < |Flat(w.accepted)|
    ensures p in Lined(w) <==> p !in Flat(w.dropped)
  {
    hide Flat, NonEmpty, Bounded;
    var (f, line, d) := (Flat(w.accepted), Lined(w), Flat(w.dropped));
    OccursOnce(f, p);
    assert multiset(line) == multiset(w.sent) + multiset(DirectBytes(w)) + multiset(Flat(w.dispatch))
                            + multiset(Flat(w.queue));
    assert multiset(f) == multiset(line) + multiset(d);
    assert multiset(line)[p] + multiset(d)[p] == 1;
    assert p in line <==> p in multiset(line);
    assert p in d <==> p in multiset(d);
  }

  lemma OccursOnce(f: Stream, p: nat)
    requires Positions(f) && p < |f|
    ensures multiset(f)[p] == 1
  {
    var (a, b) := (f[..p], f[p + 1..]);
    assert f == a + [f[p]] + b;
    assert p !in a && p !in b;
    assert multiset(f) == multiset(a) + multiset{p} + multiset(b);
  }

  /** In terms of the connection: order is kept by every run without a connection made during an
      outstanding write, without opening a connection that is not closed yet, and without a
      direct write cut short with data behind it. */
  lemma SentInOrder(states: seq<Writer<nat>>, limit: nat, events: seq<TcpEvent<nat>>, n: nat)
    requires TcpRuns.Run(states, limit, events) && n <= |events|
    requires forall j | 0 <= j < n :: Continues(states[j], events[j])
    requires forall j | 0 <= j < n :: !Overlaps(states[j], events[j]) && !Reopens(states[j], events[j])
    requires forall j | 0 <= j < n :: events[j].Complete? ==> !Passes(states[j], limit, events[j])
    ensures Rising(states[n].sent) && Rising(Lined(states[n]))
  {
    hide TcpWriter.Step, Enabled, Continues, Overlaps, Reopens, Rising, Lined;
    forall k | 0 <= k < n ensures !Passes(states[k], limit, events[k]) {
      CalmWithout(states, limit, events, k);
      CalmWrites(states[k], limit, events[k]);
    }
    InOrderExactly(states, limit, events, n);
    SentRising(states[n]);
  }

  lemma CalmWrites<T>(w: Writer<T>, limit: nat, e: TcpEvent<T>)
    requires Calm(w) && (e.Complete? ==> !Passes(w, limit, e))
    ensures !Passes(w, limit, e)
  {
  }

  // ---- what is lined up is sent -----------------------------------------------------------

  /** A write that completes on the present connection without an error. */
  function Succeeds<T>(w: Writer<T>, limit: nat): Writer<T>
    requires w.Pending()
  {
    Completed(w, limit, false, FlightSize(w))
  }

  predicate Live<T(==)>(w: Writer<T>) { w.connected && !w.closed && w.Pending() && w.flight.sock == w.sock }

  /** How many writes there are to complete. */
  function WritesLeft<T>(w: Writer<T>): nat {
    if !w.Pending() then 0
    else 1 + (if w.queue != [] then 1 else 0) + (if w.flight.Direct? && w.dispatch != [] then 1 else 0)
  }

  /** The events lead from w through the states. */
  ghost predicate Path<T(!new)>(w: Writer<T>, limit: nat, states: seq<Writer<T>>, events: seq<TcpEvent<T>>) {
    && |states| == |events| + 1 && states[0] == w
    && forall k | 0 <= k < |events| ::
         Enabled(states[k], events[k]) && states[k + 1] == TcpWriter.Step(states[k], limit, events[k])
  }

  /** Nothing new is written and no write fails; the connection may come and go. */
  predicate Quiet<T>(e: TcpEvent<T>) { !e.Write? && (e.Complete? ==> !e.err) }

  ghost predicate QuietPath<T(!new)>(w: Writer<T>, limit: nat, states: seq<Writer<T>>, events: seq<TcpEvent<T>>) {
    Path(w, limit, states, events) && forall k | 0 <= k < |events| :: Quiet(events[k])
  }

  lemma QuietFirst<T(!new)>(w: Writer<T>, limit: nat, e: TcpEvent<T>, states: seq<Writer<T>>, events: seq<TcpEvent<T>>)
    requires Enabled(w, e) && Quiet(e) && QuietPath(TcpWriter.Step(w, limit, e), limit, states, events)
    ensures QuietPath(w, limit, [w] + states, [e] + events)
    ensures ([w] + states)[|[e] + events|] == states[|events|]
  {
    hide TcpWriter.Step, Enabled, Quiet;
    var (s, v) := ([w] + states, [e] + events);
    forall k | 0 <= k < |v|
      ensures Enabled(s[k], v[k]) && s[k + 1] == TcpWriter.Step(s[k], limit, v[k]) && Quiet(v[k])
    {
      if k > 0 { assert v[k] == events[k - 1] && s[k] == states[k - 1]; }
    }
  }

  /** On a live connection whose writes succeed everything goes out in the order of the line. */
  lemma {:induction false} LineIsSent<T(!new)>(w: Writer<T>, limit: nat)
    returns (states: seq<Writer<T>>, events: seq<TcpEvent<T>>)
    requires Live(w)
    ensures QuietPath(w, limit, states, events) && states[|events|].sent == Lined(w)
    decreases WritesLeft(w)
  {
    hide Flat, Completed, Lined, WritesLeft, QuietPath;
    var (v, e) := (Succeeds(w, limit), Complete(false, FlightSize(w)));
    SucceedsLined(w, limit);
    if v.Pending() {
      states, events := LineIsSent(v, limit);
    } else {
      states, events := [v], [];
      NowhereQuiet(v, limit);
    }
    QuietFirst(w, limit, e, states, events);
    states, events := [w] + states, [e] + events;
  }

  lemma NowhereQuiet<T(!new)>(w: Writer<T>, limit: nat)
    ensures QuietPath(w, limit, [w], [])
  {
  }

  /** With nothing outstanding: a new connection, and everything goes out. */
  lemma ConnectsAgain<T(!new)>(w: Writer<T>, limit: nat) returns (states: seq<Writer<T>>, events: seq<TcpEvent<T>>)
    requires !w.Pending()
    ensures QuietPath(w, limit, states, events) && states[|events|].sent == Lined(w)
  {
    hide Flat, Lined, QuietPath;
    var c := w.(connected := false);
    var o := c.(closed := false);
    var v := Connected(o, w.sock + 1);
    LinedSame(w, o.(connected := true, sock := w.sock + 1));
    DispatchedLined(o.(connected := true, sock := w.sock + 1));
    if v.Pending() {
      states, events := LineIsSent(v, limit);
    } else {
      states, events := [v], [];
      NowhereQuiet(v, limit);
      IdleLined(v);
    }
    QuietFirst(o, limit, Connect(w.sock + 1), states, events);
    states, events := [o] + states, [Connect(w.sock + 1)] + events;
    QuietFirst(c, limit, Open, states, events);
    states, events := [c] + states, [Open] + events;
    QuietFirst(w, limit, AutoClose, states, events);
    states, events := [w] + states, [AutoClose] + events;
  }

  lemma IdleLined<T>(w: Writer<T>)
    requires Idle(w) && !w.Pending()
    ensures Lined(w) == w.sent
  {
  }

  /** From every state there is a way on which exactly the line goes out. */
  lemma GoesOut<T(!new)>(w: Writer<T>, limit: nat) returns (states: seq<Writer<T>>, events: seq<TcpEvent<T>>)
    ensures QuietPath(w, limit, states, events) && states[|events|].sent == Lined(w)
  {
    hide Flat, Lined, QuietPath, Taken;
    if Live(w) {
      states, events := LineIsSent(w, limit);
    } else if w.Pending() {
      var e := Complete(false, FlightSize(w));
      var v := TcpWriter.Step(w, limit, e);
      QuietLined(w, limit, e);
      TakenKeeps(w, limit, false, FlightSize(w));
      states, events := ConnectsAgain(v, limit);
      QuietFirst(w, limit, e, states, events);
      states, events := [w] + states, [e] + events;
    } else {
      states, events := ConnectsAgain(w, limit);
    }
  }

  lemma QuietLined<T>(w: Writer<T>, limit: nat, e: TcpEvent<T>)
    requires Enabled(w, e) && Quiet(e)
    ensures Lined(TcpWriter.Step(w, limit, e)) == Lined(w)
  {
    hide Flat, Lined, Taken, Dispatched;
    match e {
      case Complete(err, n) =>
        TakenLined(w, limit, err, n);
        DispatchedLined(Taken(w, limit, err, n).(flight := NoWrite));
      case Connect(sock) =>
        DispatchedLined(w.(connected := true, sock := sock));
        LinedSame(w, w.(connected := true, sock := sock));
      case Open => LinedSame(w, w.(closed := false));
      case Close => LinedSame(w, w.(closed := true));
      case AutoClose => LinedSame(w, w.(connected := false));
    }
  }

  lemma {:induction false} QuietKeepsLine<T(!new)>(w: Writer<T>, limit: nat, states: seq<Writer<T>>,
                                                   events: seq<TcpEvent<T>>, k: nat)
    requires QuietPath(w, limit, states, events) && k <= |events|
    ensures Lined(states[k]) == Lined(w)
  {
    hide Lined, TcpWriter.Step, Enabled, Quiet;
    if k > 0 {
      QuietKeepsLine(w, limit, states, events, k - 1);
      assert Enabled(states[k - 1], events[k - 1]) && Quiet(events[k - 1]);
      QuietLined(states[k - 1], limit, events[k - 1]);
    }
  }

  /** Whatever the connection does from here on, the bytes that are sent rise. */
  ghost predicate AlwaysRising(w: Writer<nat>, limit: nat) {
    forall states: seq<Writer<nat>>, events: seq<TcpEvent<nat>> | QuietPath(w, limit, states, events) ::
      Rising(states[|events|].sent)
  }

  lemma AlwaysRisingIff(w: Writer<nat>, limit: nat)
    ensures AlwaysRising(w, limit) <==> Rising(Lined(w))
  {
    hide Rising, Lined, QuietPath;
    var goes, way := GoesOut(w, limit);
    if Rising(Lined(w)) {
      forall states, events | QuietPath(w, limit, states, events) {
        QuietRises(w, limit, states, events);
      }
    }
  }

  lemma QuietRises(w: Writer<nat>, limit: nat, states: seq<Writer<nat>>, events: seq<TcpEvent<nat>>)
    requires QuietPath(w, limit, states, events) && Rising(Lined(w))
    ensures |states| == |events| + 1 && Rising(states[|events|].sent)
  {
    hide Rising, Lined;
    QuietKeepsLine(w, limit, states, events, |events|);
    SentRising(states[|events|]);
  }

  /** Over every run, of the bytes that are sent: from some state on bytes can go out in another
      order than they were accepted in if and only if a direct write started while data was
      buffered or was cut short with data behind it. */
  lemma SentInOrderExactly(states: seq<Writer<nat>>, limit: nat, events: seq<TcpEvent<nat>>, n: nat)
    requires TcpRuns.Run(states, limit, events) && n <= |events|
    requires forall j | 0 <= j < n :: Continues(states[j], events[j])
    ensures (forall k | 0 <= k <= n :: AlwaysRising(states[k], limit))
      <==> (forall k | 0 <= k < n :: !Passes(states[k], limit, events[k]))
  {
    hide TcpWriter.Step, Enabled, Continues, Passes, Rising, Lined, AlwaysRising;
    forall k | 0 <= k <= n ensures AlwaysRising(states[k], limit) <==> Rising(Lined(states[k])) {
      AlwaysRisingIff(states[k], limit);
    }
    InOrderExactly(states, limit, events, n);
    if forall k | 0 <= k <= n :: AlwaysRising(states[k], limit) {
      assert forall k | 0 <= k <= n :: Rising(Lined(states[k]));
    }
    if forall k | 0 <= k <= n :: Rising(Lined(states[k])) {
      assert forall k | 0 <= k <= n :: AlwaysRising(states[k], limit);
    }
  }

  lemma SucceedsLined<T(!new)>(w: Writer<T>, limit: nat)
    requires Live(w)
    ensures var v := Succeeds(w, limit);
            && Lined(v) == Lined(w) && v.dropped == w.dropped
            && if v.Pending() then Live(v) && WritesLeft(v) < WritesLeft(w) else Idle(v) && v.sent == Lined(v)
  {
    hide Flat;
    FlatNone<T>();
    var all := Flat(w.dispatch);
    assert w.flight.Direct? ==> w.flight.buf[..|w.flight.buf|] == w.flight.buf;
    assert all[..|all|] == all;
    var d := Taken(w, limit, false, FlightSize(w)).(flight := NoWrite);
    assert Lined(d) == Lined(w);
    DispatchedLined(d);
  }
}
