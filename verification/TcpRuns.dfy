/** What holds over whole runs of the TCP writer: no byte is lost or made up, and when the order
    of the buffers is kept. */
module TcpRuns {
  import opened TcpWriter

  ghost predicate Run<T(!new)>(states: seq<Writer<T>>, limit: nat, events: seq<Event<T>>) {
    && |states| == |events| + 1 && states[0] == Initial()
    && forall k | 0 <= k < |events| ::
         Enabled(states[k], events[k]) && states[k + 1] == Step(states[k], limit, events[k])
  }

  // ---- flat buffers -----------------------------------------------------------------------

  lemma {:induction false} FlatConcat<T>(a: seq<Buffer<T>>, b: seq<Buffer<T>>)
    ensures Flat(a + b) == Flat(a) + Flat(b)
  {
    if a == [] {
      assert a + b == b;
    } else {
      FlatConcat(a[1..], b);
      assert (a + b)[0] == a[0] && (a + b)[1..] == a[1..] + b;
    }
  }

  lemma FlatOne<T>(b: Buffer<T>)
    ensures Flat([b]) == b
  {
    assert [b][1..] == [];
    assert Flat<T>([]) == [];
  }

  /** The drain loop takes off exactly the written bytes, inside a buffer too. */
  lemma {:induction false} ConsumeFlat<T>(bufs: seq<Buffer<T>>, n: nat)
    requires n <= |Flat(bufs)|
    ensures Flat(Consume(bufs, n)) == Flat(bufs)[n..] && |Consume(bufs, n)| <= |bufs|
  {
    if n > 0 && |bufs[0]| <= n {
      ConsumeFlat(bufs[1..], n - |bufs[0]|);
    }
  }

  // ---- every byte -------------------------------------------------------------------------

  function DirectBytes<T>(w: Writer<T>): seq<T> { if w.flight.Direct? then w.flight.buf else [] }

  ghost function Sum<T>(sent: seq<T>, direct: seq<T>, dispatch: seq<T>, queue: seq<T>, dropped: seq<T>): multiset<T> {
    multiset(sent) + multiset(direct) + multiset(dispatch) + multiset(queue) + multiset(dropped)
  }

  /** Everything that is sent, being written, dispatched, queued or dropped. */
  ghost function Everywhere<T>(w: Writer<T>): multiset<T> {
    Sum(w.sent, DirectBytes(w), Flat(w.dispatch), Flat(w.queue), Flat(w.dropped))
  }

  ghost predicate Balanced<T>(w: Writer<T>) { multiset(Flat(w.accepted)) == Everywhere(w) }

  lemma SumQueued<T>(s: seq<T>, d: seq<T>, p: seq<T>, q: seq<T>, x: seq<T>, more: seq<T>)
    ensures Sum(s, d, p, q + more, x) == Sum(s, d, p, q, x) + multiset(more)
  {
    assert multiset(q + more) == multiset(q) + multiset(more);
  }

  lemma SumDropped<T>(s: seq<T>, d: seq<T>, p: seq<T>, q: seq<T>, x: seq<T>, first: seq<T>)
    ensures Sum(s, d, p, q, x + first) == Sum(s, d, p, first + q, x)
  {
    assert multiset(x + first) == multiset(x) + multiset(first) && multiset(first + q) == multiset(first) + multiset(q);
  }

  lemma SumSwapped<T>(s: seq<T>, d: seq<T>, q: seq<T>, x: seq<T>)
    ensures Sum(s, d, [], q, x) == Sum(s, d, q, [], x)
  {
  }

  lemma SumDirect<T>(s: seq<T>, d: seq<T>, p: seq<T>, q: seq<T>, x: seq<T>, n: nat)
    requires n <= |d|
    ensures Sum(s, d, p, q, x) == Sum(s + d[..n], [], p, q, x) + multiset(d[n..])
  {
    assert d == d[..n] + d[n..];
    assert multiset(d) == multiset(d[..n]) + multiset(d[n..]);
    assert multiset(s + d[..n]) == multiset(s) + multiset(d[..n]);
  }

  lemma SumDispatched<T>(s: seq<T>, d: seq<T>, p: seq<T>, q: seq<T>, x: seq<T>, n: nat)
    requires n <= |p|
    ensures Sum(s, d, p, q, x) == Sum(s + p[..n], d, p[n..], q, x)
  {
    assert p == p[..n] + p[n..];
    assert multiset(p) == multiset(p[..n]) + multiset(p[n..]);
    assert multiset(s + p[..n]) == multiset(s) + multiset(p[..n]);
  }

  lemma QueuedEverywhere<T>(w: Writer<T>, limit: nat, buf: Buffer<T>)
    ensures Everywhere(Queued(w, limit, buf)) == Everywhere(w) + multiset(buf)
  {
    hide Flat, Sum;
    var q := w.queue + [buf];
    FlatConcat(w.queue, [buf]);
    FlatOne(buf);
    SumQueued(w.sent, DirectBytes(w), Flat(w.dispatch), Flat(w.queue), Flat(w.dropped), buf);
    if |q| > limit {
      FlatConcat([q[0]], q[1..]);
      FlatOne(q[0]);
      FlatConcat(w.dropped, [q[0]]);
      assert [q[0]] + q[1..] == q;
      SumDropped(w.sent, DirectBytes(w), Flat(w.dispatch), Flat(q[1..]), Flat(w.dropped), q[0]);
    }
  }

  lemma DispatchedEverywhere<T>(w: Writer<T>)
    requires !w.flight.Direct?
    ensures Everywhere(Dispatched(w)) == Everywhere(w)
  {
    hide Flat, Sum;
    FlatNone<T>();
    SumSwapped(w.sent, [], Flat(w.queue), Flat(w.dropped));
  }

  lemma FlatNone<T>()
    ensures Flat<T>([]) == []
  {
  }

  lemma TakenEverywhere<T>(w: Writer<T>, limit: nat, err: bool, n: nat)
    requires Enabled(w, Complete(err, n))
    ensures Everywhere(Taken(w, limit, err, n).(flight := NoWrite)) == Everywhere(w)
  {
    hide Flat, Sum, Queued;
    match w.flight {
      case Direct(buf, _) => DirectTaken(w, limit, buf, n);
      case Buffered(_) =>
        var all := Flat(w.dispatch);
        ConsumeFlat(w.dispatch, n);
        FlatNone<T>();
        SumDispatched(w.sent, [], all, Flat(w.queue), Flat(w.dropped), n);
        if n == |all| { assert all[n..] == []; }
    }
  }

  lemma DirectTaken<T>(w: Writer<T>, limit: nat, buf: Buffer<T>, n: nat)
    requires w.flight.Direct? && w.flight.buf == buf && n <= |buf|
    ensures Everywhere(Taken(w, limit, false, n).(flight := NoWrite)) == Everywhere(w)
    ensures Taken(w, limit, true, n) == Taken(w, limit, false, n)
  {
    hide Flat, Sum;
    var t := w.(sent := w.sent + buf[..n], flight := NoWrite);
    SumDirect(w.sent, buf, Flat(w.dispatch), Flat(w.queue), Flat(w.dropped), n);
    if n < |buf| {
      QueuedEverywhere(t, limit, buf[n..]);
      FlightKept(w.(sent := w.sent + buf[..n]), limit, buf[n..]);
    } else {
      assert multiset(buf[n..]) == multiset{};
      assert Everywhere(t) + multiset{} == Everywhere(t);
    }
  }

  lemma FlightKept<T>(w: Writer<T>, limit: nat, buf: Buffer<T>)
    ensures Queued(w, limit, buf).(flight := NoWrite) == Queued(w.(flight := NoWrite), limit, buf)
  {
  }

  lemma WrittenBalanced<T>(w: Writer<T>, limit: nat, buf: Buffer<T>)
    requires Balanced(w)
    ensures Balanced(Written(w, limit, buf))
  {
    hide Flat, Sum;
    FlatConcat(w.accepted, [buf]);
    FlatOne(buf);
    var a := w.(accepted := w.accepted + [buf]);
    assert multiset(Flat(a.accepted)) == multiset(Flat(w.accepted)) + multiset(buf);
    assert Everywhere(a) == Everywhere(w);
    if w.Writing() {
      SumDirectNew(w.sent, buf, Flat(w.dispatch), Flat(w.queue), Flat(w.dropped));
    } else {
      QueuedEverywhere(a, limit, buf);
    }
  }

  lemma SumDirectNew<T>(s: seq<T>, d: seq<T>, p: seq<T>, q: seq<T>, x: seq<T>)
    ensures Sum(s, d, p, q, x) == Sum(s, [], p, q, x) + multiset(d)
  {
  }

  lemma StepBalanced<T>(w: Writer<T>, limit: nat, e: Event<T>)
    requires Balanced(w) && Enabled(w, e)
    ensures Balanced(Step(w, limit, e))
  {
    hide Flat, Queued, Taken, Sum, Written, Dispatched;
    match e {
      case Write(buf) => WrittenBalanced(w, limit, buf);
      case Complete(err, n) =>
        TakenEverywhere(w, limit, err, n);
        var t := Taken(w, limit, err, n).(flight := NoWrite);
        DispatchedEverywhere(t);
        AcceptedKept(w, limit, err, n);
        AcceptedDispatched(t);
      case Connect(sock) =>
        var c := w.(connected := true, sock := sock);
        ConnectEverywhere(c);
        AcceptedDispatched(c);
      case Open =>
      case Close =>
      case AutoClose =>
    }
  }

  lemma ConnectEverywhere<T>(w: Writer<T>)
    ensures Everywhere(Dispatched(w)) == Everywhere(w)
  {
    if !w.flight.Direct? { DispatchedEverywhere(w); }
  }

  lemma AcceptedKept<T>(w: Writer<T>, limit: nat, err: bool, n: nat)
    requires w.Pending() && n <= FlightSize(w)
    ensures Taken(w, limit, err, n).accepted == w.accepted
  {
  }

  lemma AcceptedDispatched<T>(w: Writer<T>)
    ensures Dispatched(w).accepted == w.accepted
  {
  }

  predicate Bounded<T>(w: Writer<T>, limit: nat) { |w.queue| <= limit && |w.dispatch| <= limit }

  lemma StepBounded<T>(w: Writer<T>, limit: nat, e: Event<T>)
    requires Bounded(w, limit) && Enabled(w, e)
    ensures Bounded(Step(w, limit, e), limit)
  {
    hide Flat, Consume;
    if e.Complete? && w.flight.Buffered? { ConsumeFlat(w.dispatch, e.n); }
  }

  /** Over every run, with partial writes, errors and reconnections: each accepted byte is sent,
      being written, dispatched, queued or dropped, exactly once; and the buffers are bounded. */
  lemma {:induction false} RunBalanced<T(!new)>(states: seq<Writer<T>>, limit: nat, events: seq<Event<T>>, k: nat)
    requires Run(states, limit, events) && k <= |events|
    ensures Balanced(states[k]) && Bounded(states[k], limit)
  {
    hide Step, Enabled, Balanced, Bounded;
    if k == 0 {
      assert Balanced(states[0]) && Bounded(states[0], limit) by { InitialBalanced<T>(limit); }
    } else {
      RunBalanced(states, limit, events, k - 1);
      StepBalanced(states[k - 1], limit, events[k - 1]);
      StepBounded(states[k - 1], limit, events[k - 1]);
    }
  }

  lemma InitialBalanced<T>(limit: nat)
    ensures Balanced<T>(Initial()) && Bounded<T>(Initial(), limit)
  {
  }

  /** What an event puts at the end of the queue: a buffer that cannot be written directly, or
      what is left of a direct write that was cut short. */
  function JoinsQueue<T>(w: Writer<T>, e: Event<T>): seq<Buffer<T>>
    requires Enabled(w, e)
  {
    match e
    case Write(buf) => if w.Writing() then [] else [buf]
    case Complete(_, n) => if w.flight.Direct? && n < |w.flight.buf| then [w.flight.buf[n..]] else []
    case _ => []
  }

  /** Over every run: a buffer is dropped if and only if one joins a queue that already holds the
      maximum, and then it is the oldest. */
  lemma DropsExactly<T(!new)>(states: seq<Writer<T>>, limit: nat, events: seq<Event<T>>, k: nat)
    requires Run(states, limit, events) && k < |events|
    ensures Enabled(states[k], events[k])
    ensures var (w, joins) := (states[k], JoinsQueue(states[k], events[k]));
            states[k + 1].dropped == if joins != [] && |w.queue| == limit
              then w.dropped + [(w.queue + joins)[0]] else w.dropped
  {
    hide Flat, Consume, Balanced;
    RunBalanced(states, limit, events, k);
    assert Enabled(states[k], events[k]) && states[k + 1] == Step(states[k], limit, events[k]);
  }
}
