/** Writing messages over several serial ports: an idle port takes a message at once, others
    wait in a bounded queue and a port that completes takes the oldest. */
module SerialPorts {
  /** The ports with nothing to write, the waiting messages, what was given to each port in
      order, and the messages dropped from a full queue. */
  datatype Ports<T> = Ports(idle: seq<nat>, queue: seq<T>, lanes: seq<seq<T>>, dropped: seq<T>) {
    /** A port with a write outstanding. */
    predicate Busy(p: nat) { p < |lanes| && p !in idle }

    function Put(p: nat, m: T): Ports<T>
      requires p < |lanes|
    {
      this.(lanes := lanes[p := lanes[p] + [m]])
    }

    /** No port is idle twice, no message waits while a port is idle, and the queue is bounded. */
    predicate Ok(max: nat) {
      && (forall i | 0 <= i < |idle| :: idle[i] < |lanes|)
      && (forall i, j | 0 <= i < j < |idle| :: idle[i] != idle[j])
      && (queue != [] ==> idle == [])
      && |queue| <= max
    }
  }

  function Sent<T>(s: Ports<T>, max: nat, m: T): Ports<T>
    requires s.Ok(max)
  {
    if s.idle != [] then s.(idle := s.idle[1..]).Put(s.idle[0], m)
    else
      var q := s.queue + [m];
      if |q| > max then s.(queue := q[1..], dropped := s.dropped + [q[0]]) else s.(queue := q)
  }

  function Completed<T>(s: Ports<T>, max: nat, p: nat): Ports<T>
    requires s.Ok(max) && s.Busy(p)
  {
    if s.queue != [] then s.(queue := s.queue[1..]).Put(p, s.queue[0]) else s.(idle := s.idle + [p])
  }

  lemma SentOk<T>(s: Ports<T>, max: nat, m: T)
    requires s.Ok(max)
    ensures Sent(s, max, m).Ok(max) && |Sent(s, max, m).lanes| == |s.lanes|
  {
  }

  lemma CompletedOk<T>(s: Ports<T>, max: nat, p: nat)
    requires s.Ok(max) && s.Busy(p)
    ensures Completed(s, max, p).Ok(max) && |Completed(s, max, p).lanes| == |s.lanes|
  {
  }

  /** At the start every port is idle. */
  predicate Fresh<T>(s: Ports<T>) {
    s.idle == Upto(|s.lanes|) && s.queue == [] && s.dropped == [] && forall p | 0 <= p < |s.lanes| :: s.lanes[p] == []
  }

  function Upto(n: nat): (r: seq<nat>)
    ensures |r| == n && forall i | 0 <= i < n :: r[i] == i
  {
    if n == 0 then [] else Upto(n - 1) + [n - 1]
  }

  class SerialPortsManager<T> {
    const maxWriteQSz: nat
    var idlePortIdxQ: seq<nat>
    var writeQ: seq<T>
    var lines: seq<seq<T>>       // what each port was told to write
    var overflowed: seq<T>       // what was dropped

    ghost function View(): Ports<T>
      reads this
    {
      Ports(idlePortIdxQ, writeQ, lines, overflowed)
    }

    ghost predicate Valid()
      reads this
    {
      View().Ok(maxWriteQSz)
    }

    constructor (numPorts: nat, maxWriteQSz: nat)
      ensures this.maxWriteQSz == maxWriteQSz && Valid() && Fresh(View()) && |lines| == numPorts
    {
      this.maxWriteQSz := maxWriteQSz;
      idlePortIdxQ := Upto(numPorts);
      writeQ, overflowed := [], [];
      lines := seq(numPorts, _ => []);
    }

    /** The write on a port: its bytes follow what the port was given before. */
    method WriteTo(data: T, idx: nat)
      requires idx < |lines|
      modifies this`lines
      ensures View() == old(View()).Put(idx, data)
    {
      lines := lines[idx := lines[idx] + [data]];
    }

    method Write(data: T)
      requires Valid()
      modifies this
      ensures Valid() && View() == Sent(old(View()), maxWriteQSz, data)
    {
      SentOk(View(), maxWriteQSz, data);
      if idlePortIdxQ != [] {
        var idx := idlePortIdxQ[0];
        idlePortIdxQ := idlePortIdxQ[1..];
        WriteTo(data, idx);
      } else {
        writeQ := writeQ + [data];
        if |writeQ| > maxWriteQSz {
          overflowed := overflowed + [writeQ[0]];
          writeQ := writeQ[1..];
        }
      }
    }

    /** A port's write has completed. */
    method Complete(idx: nat)
      requires Valid() && View().Busy(idx)
      modifies this
      ensures Valid() && View() == Completed(old(View()), maxWriteQSz, idx)
    {
      CompletedOk(View(), maxWriteQSz, idx);
      if writeQ != [] {
        var data := writeQ[0];
        writeQ := writeQ[1..];
        WriteTo(data, idx);
      } else {
        idlePortIdxQ := idlePortIdxQ + [idx];
      }
    }
  }

  // ---- every run --------------------------------------------------------------------------

  datatype Event<T> = Send(m: T) | Done(port: nat)

  predicate Step<T(==)>(s: Ports<T>, max: nat, e: Event<T>, s': Ports<T>)
    requires s.Ok(max)
  {
    match e
    case Send(m) => s' == Sent(s, max, m)
    case Done(p) => s.Busy(p) && s' == Completed(s, max, p)
  }

  ghost predicate Run<T(!new)>(states: seq<Ports<T>>, max: nat, events: seq<Event<T>>) {
    && |states| == |events| + 1 && Fresh(states[0])
    && forall k | 0 <= k < |events| :: states[k].Ok(max) && Step(states[k], max, events[k], states[k + 1])
  }

  /** The messages handed over, in order. */
  function Messages<T>(events: seq<Event<T>>): seq<T> {
    if events == [] then []
    else
      var last := events[|events| - 1];
      Messages(events[..|events| - 1]) + if last.Send? then [last.m] else []
  }

  // ---- where every message is -------------------------------------------------------------

  function Pick<T>(list: seq<T>, at: seq<nat>): (r: seq<T>)
    requires forall i | 0 <= i < |at| :: at[i] < |list|
    ensures |r| == |at|
  {
    seq(|at|, i requires 0 <= i < |at| => list[at[i]])
  }

  /** All entries of all lanes. */
  ghost function Union<T>(lanes: seq<seq<T>>): multiset<T> {
    if lanes == [] then multiset{} else multiset(lanes[0]) + Union(lanes[1..])
  }

  predicate Rising(at: seq<nat>) { forall i, j | 0 <= i < j < |at| :: at[i] < at[j] }

  predicate Below(at: seq<nat>, n: nat) { forall i | 0 <= i < |at| :: at[i] < n }

  predicate LaneAt<T(==)>(lane: seq<T>, all: seq<T>, at: seq<nat>, d: nat)
    requires d <= |all|
  {
    Rising(at) && Below(at, d) && lane == Pick(all, at)
  }

  /** Each port was given the messages with the numbers at[p], in rising order; the dropped
      ones have the numbers `gone`; the newest wait; and every other number occurs once. */
  ghost predicate Placed<T(!new)>(s: Ports<T>, all: seq<T>, at: seq<seq<nat>>, gone: seq<nat>) {
    && |s.queue| <= |all| && var d := |all| - |s.queue|;
    && s.queue == all[d..]
    && |at| == |s.lanes| && (forall p | 0 <= p < |at| :: LaneAt(s.lanes[p], all, at[p], d))
    && LaneAt(s.dropped, all, gone, d)
    && Union(at) + multiset(gone) == multiset(Upto(d))
  }

  lemma LaneLonger<T>(lane: seq<T>, all: seq<T>, m: T, at: seq<nat>, d: nat)
    requires d <= |all| && LaneAt(lane, all, at, d)
    ensures LaneAt(lane, all + [m], at, d)
  {
  }

  lemma UnionStep<T>(lanes: seq<seq<T>>)
    requires lanes != []
    ensures Union(lanes) == multiset(lanes[0]) + Union(lanes[1..])
  {
  }

  lemma {:induction false} UnionPut<T>(lanes: seq<seq<T>>, p: nat, m: T)
    requires p < |lanes|
    ensures Union(lanes[p := lanes[p] + [m]]) == Union(lanes) + multiset{m}
  {
    hide Union;
    var more := lanes[p := lanes[p] + [m]];
    UnionStep(lanes);
    UnionStep(more);
    if p == 0 {
      assert more[1..] == lanes[1..];
      assert multiset(lanes[0] + [m]) == multiset(lanes[0]) + multiset{m};
    } else {
      UnionPut(lanes[1..], p - 1, m);
      assert more[1..] == lanes[1..][p - 1 := lanes[1..][p - 1] + [m]];
    }
  }

  lemma UptoNext(d: nat)
    ensures multiset(Upto(d + 1)) == multiset(Upto(d)) + multiset{d}
  {
    assert Upto(d + 1) == Upto(d) + [d];
  }

  /** A message joins the queue. */
  lemma Joins<T(!new)>(s: Ports<T>, all: seq<T>, at: seq<seq<nat>>, gone: seq<nat>, m: T)
    requires Placed(s, all, at, gone)
    ensures Placed(s.(queue := s.queue + [m]), all + [m], at, gone)
  {
    var d := |all| - |s.queue|;
    assert (all + [m])[d..] == all[d..] + [m];
    forall p | 0 <= p < |at| ensures LaneAt(s.lanes[p], all + [m], at[p], d) {
      LaneLonger(s.lanes[p], all, m, at[p], d);
    }
    LaneLonger(s.dropped, all, m, gone, d);
  }

  lemma LaneNext<T>(lane: seq<T>, all: seq<T>, at: seq<nat>, d: nat)
    requires d < |all| && LaneAt(lane, all, at, d)
    ensures LaneAt(lane + [all[d]], all, at + [d], d + 1)
  {
  }

  lemma LaneStays<T>(lane: seq<T>, all: seq<T>, at: seq<nat>, d: nat)
    requires d < |all| && LaneAt(lane, all, at, d)
    ensures LaneAt(lane, all, at, d + 1)
  {
  }

  /** The oldest waiting message goes to a port. */
  lemma Leaves<T(!new)>(s: Ports<T>, all: seq<T>, at: seq<seq<nat>>, gone: seq<nat>, p: nat)
    requires Placed(s, all, at, gone) && s.queue != [] && p < |s.lanes|
    ensures var d := |all| - |s.queue|;
            Placed(s.(queue := s.queue[1..]).Put(p, s.queue[0]), all, at[p := at[p] + [d]], gone)
  {
    hide Upto, LaneAt, Union;
    var d: nat := |all| - |s.queue|;
    var lanes, at' := s.lanes[p := s.lanes[p] + [s.queue[0]]], at[p := at[p] + [d]];
    assert s.queue[0] == all[d];
    forall q | 0 <= q < |at| ensures LaneAt(lanes[q], all, at'[q], d + 1) {
      LaneStays(s.lanes[q], all, at[q], d);
      LaneNext(s.lanes[p], all, at[p], d);
    }
    LaneStays(s.dropped, all, gone, d);
    UnionPut(at, p, d);
    UptoNext(d);
    assert all[d..][0] == all[d] && all[d..][1..] == all[d + 1..];
    Swap(Union(at), multiset(gone), multiset{d}, multiset(Upto(d)));
    assert Union(at') + multiset(gone) == multiset(Upto(d + 1));
  }

  lemma Swap<T>(u: multiset<T>, g: multiset<T>, d: multiset<T>, all: multiset<T>)
    requires u + g == all
    ensures (u + d) + g == all + d && u + (g + d) == all + d
  {
  }

  /** The oldest waiting message is dropped. */
  lemma Dropped<T(!new)>(s: Ports<T>, all: seq<T>, at: seq<seq<nat>>, gone: seq<nat>)
    requires Placed(s, all, at, gone) && s.queue != []
    ensures var d := |all| - |s.queue|;
            Placed(s.(queue := s.queue[1..], dropped := s.dropped + [s.queue[0]]), all, at, gone + [d])
  {
    hide Upto, LaneAt, Union;
    var d := |all| - |s.queue|;
    forall q | 0 <= q < |at| ensures LaneAt(s.lanes[q], all, at[q], d + 1) {
      LaneStays(s.lanes[q], all, at[q], d);
    }
    LaneNext(s.dropped, all, gone, d);
    UptoNext(d);
    assert all[d..][0] == all[d] && all[d..][1..] == all[d + 1..];
    assert multiset(gone + [d]) == multiset(gone) + multiset{d};
    Swap(Union(at), multiset(gone), multiset{d}, multiset(Upto(d)));
  }

  lemma SentPlaced<T(!new)>(s: Ports<T>, max: nat, all: seq<T>, at: seq<seq<nat>>, gone: seq<nat>, m: T)
    returns (at': seq<seq<nat>>, gone': seq<nat>)
    requires s.Ok(max) && Placed(s, all, at, gone)
    ensures Placed(Sent(s, max, m), all + [m], at', gone')
  {
    hide Placed;
    Joins(s, all, at, gone, m);
    PlacedShape(s, all, at, gone);
    var (j, d) := (s.(queue := s.queue + [m]), |all| - |s.queue|);
    at', gone' := at, gone;
    if s.idle != [] {
      Leaves(j, all + [m], at, gone, s.idle[0]);
      at' := at[s.idle[0] := at[s.idle[0]] + [d]];
      IdleIrrelevant(j.(queue := j.queue[1..]).Put(s.idle[0], m), s.idle[1..], all + [m], at', gone);
      assert j.(queue := j.queue[1..]).Put(s.idle[0], m).(idle := s.idle[1..]) == Sent(s, max, m);
    } else if |s.queue| + 1 > max {
      Dropped(j, all + [m], at, gone);
      gone' := gone + [d];
    }
  }

  lemma PlacedShape<T(!new)>(s: Ports<T>, all: seq<T>, at: seq<seq<nat>>, gone: seq<nat>)
    requires Placed(s, all, at, gone)
    ensures |at| == |s.lanes| && |s.queue| <= |all|
  {
  }

  lemma IdleIrrelevant<T(!new)>(s: Ports<T>, idle: seq<nat>, all: seq<T>, at: seq<seq<nat>>, gone: seq<nat>)
    requires Placed(s, all, at, gone)
    ensures Placed(s.(idle := idle), all, at, gone)
  {
    hide LaneAt, Union, Upto;
  }

  /** Over every run: each message was given to exactly one port, or waits, or was dropped from
      a full queue; each port and the drops saw them in the order they were handed over. */
  lemma {:induction false} RunPlaces<T(!new)>(states: seq<Ports<T>>, max: nat, events: seq<Event<T>>, k: nat)
    returns (at: seq<seq<nat>>, gone: seq<nat>)
    requires Run(states, max, events) && k <= |events|
    ensures Placed(states[k], Messages(events[..k]), at, gone)
    ensures states[k].Ok(max) && |states[k].lanes| == |states[0].lanes|
  {
    hide Placed, Sent, Completed, Ports.Ok;
    if k == 0 {
      at, gone := FreshPlaced(states[0]);
      FreshOk(states[0], max);
      assert events[..0] == [];
    } else {
      at, gone := RunPlaces(states, max, events, k - 1);
      assert events[..k][..k - 1] == events[..k - 1];
      var s := states[k - 1];
      assert Step(s, max, events[k - 1], states[k]);
      match events[k - 1] {
        case Send(m) =>
          SentOk(s, max, m);
          at, gone := SentPlaced(s, max, Messages(events[..k - 1]), at, gone, m);
        case Done(p) =>
          CompletedOk(s, max, p);
          at := CompletedPlaced(s, max, Messages(events[..k - 1]), at, gone, p);
          var before := Messages(events[..k - 1]);
          assert before + [] == before;
      }
    }
  }

  lemma CompletedPlaced<T(!new)>(s: Ports<T>, max: nat, all: seq<T>, at: seq<seq<nat>>, gone: seq<nat>, p: nat)
    returns (at': seq<seq<nat>>)
    requires s.Ok(max) && s.Busy(p) && Placed(s, all, at, gone)
    ensures Placed(Completed(s, max, p), all, at', gone)
  {
    hide Placed;
    PlacedShape(s, all, at, gone);
    if s.queue != [] {
      Leaves(s, all, at, gone, p);
      at' := at[p := at[p] + [|all| - |s.queue|]];
    } else {
      IdleIrrelevant(s, s.idle + [p], all, at, gone);
      at' := at;
    }
  }

  lemma FreshOk<T>(s: Ports<T>, max: nat)
    requires Fresh(s)
    ensures s.Ok(max)
  {
  }

  lemma FreshPlaced<T(!new)>(s: Ports<T>) returns (at: seq<seq<nat>>, gone: seq<nat>)
    requires Fresh(s)
    ensures Placed(s, [], at, gone)
  {
    at, gone := seq(|s.lanes|, _ => []), [];
    forall p | 0 <= p < |at| ensures LaneAt(s.lanes[p], [], at[p], 0) { LaneNone<T>(); }
    LaneNone<T>();
    UnionNone(at);
  }

  lemma LaneNone<T(!new)>()
    ensures LaneAt<T>([], [], [], 0)
  {
  }

  lemma {:induction false} UnionNone<T>(lanes: seq<seq<T>>)
    requires forall p | 0 <= p < |lanes| :: lanes[p] == []
    ensures Union(lanes) == multiset{}
  {
    if lanes != [] { UnionNone(lanes[1..]); }
  }

  // ---- drops ------------------------------------------------------------------------------

  /** Over every run: a message is dropped if and only if one is handed over while every port is
      busy and the queue already holds the maximum, and then it is the oldest. */
  lemma DropsExactly<T(!new)>(states: seq<Ports<T>>, max: nat, events: seq<Event<T>>, k: nat)
    requires Run(states, max, events) && k < |events|
    ensures var (s, e) := (states[k], events[k]);
            states[k + 1].dropped == if e.Send? && s.idle == [] && |s.queue| == max
              then s.dropped + [if s.queue == [] then e.m else s.queue[0]] else s.dropped
  {
    assert states[k].Ok(max) && Step(states[k], max, events[k], states[k + 1]);
  }
}
