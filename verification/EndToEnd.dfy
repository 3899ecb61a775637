/** From datagram to datagram: numbered, striped over the serial ports, read in chunks, scanned
    port by port, merged and put back into order. */
module EndToEnd {
  import opened Bytes
  import opened Dnp3Frame
  import opened StreamReader
  import opened Chunks
  import opened IndexedQueue
  import DelimFrame
  import DelimReorder
  import InTime
  import SerialPorts
  import PriorityQueue
  import ProtoConv

  // ---- merging lanes ----------------------------------------------------------------------

  /** The lanes in one sequence: the k-th entry is the next one of lane order[k]. */
  function Merge<T>(order: seq<nat>, lanes: seq<seq<T>>): seq<T> {
    if order == [] || order[0] >= |lanes| || lanes[order[0]] == [] then []
    else [lanes[order[0]][0]] + Merge(order[1..], lanes[order[0] := lanes[order[0]][1..]])
  }

  /** The order takes every entry of every lane. */
  predicate Follows<T>(order: seq<nat>, lanes: seq<seq<T>>) {
    if order == [] then forall p | 0 <= p < |lanes| :: |lanes[p]| == 0
    else
      && order[0] < |lanes| && |lanes[order[0]]| > 0
      && Follows(order[1..], lanes[order[0] := lanes[order[0]][1..]])
  }

  lemma {:induction false} MergeUnion<T>(order: seq<nat>, lanes: seq<seq<T>>)
    requires Follows(order, lanes)
    ensures multiset(Merge(order, lanes)) == SerialPorts.Union(lanes)
    decreases |order|
  {
    hide SerialPorts.Union;
    if order == [] {
      SerialPorts.UnionNone(lanes);
    } else {
      var p := order[0];
      var (first, rest) := (lanes[p][0], lanes[p := lanes[p][1..]]);
      MergeUnion(order[1..], rest);
      UnionTake(lanes, p);
      assert multiset([first] + Merge(order[1..], rest)) == multiset{first} + multiset(Merge(order[1..], rest));
    }
  }

  lemma {:induction false} UnionTake<T>(lanes: seq<seq<T>>, p: nat)
    requires p < |lanes| && |lanes[p]| > 0
    ensures SerialPorts.Union(lanes) == multiset{lanes[p][0]} + SerialPorts.Union(lanes[p := lanes[p][1..]])
  {
    hide SerialPorts.Union;
    var rest := lanes[p := lanes[p][1..]];
    SerialPorts.UnionStep(lanes);
    SerialPorts.UnionStep(rest);
    if p == 0 {
      assert rest[1..] == lanes[1..];
      assert lanes[0] == [lanes[0][0]] + lanes[0][1..];
    } else {
      UnionTake(lanes[1..], p - 1);
      assert rest[1..] == lanes[1..][p - 1 := lanes[1..][p - 1][1..]];
    }
  }

  predicate Picked<T(==)>(list: seq<T>, lanes: seq<seq<T>>, at: seq<seq<nat>>) {
    |at| == |lanes| && forall p | 0 <= p < |at| :: PickedLane(list, lanes[p], at[p])
  }

  predicate PickedLane<T(==)>(list: seq<T>, lane: seq<T>, at: seq<nat>) {
    |lane| == |at| && forall i | 0 <= i < |at| :: at[i] < |list| && lane[i] == list[at[i]]
  }

  /** Merging lanes of a list is merging their positions. */
  lemma {:induction false} MergePicks<T>(order: seq<nat>, list: seq<T>, lanes: seq<seq<T>>, at: seq<seq<nat>>)
    requires Picked(list, lanes, at) && Follows(order, lanes)
    ensures Follows(order, at) && PickedLane(list, Merge(order, lanes), Merge(order, at))
    decreases |order|
  {
    if order != [] {
      var p := order[0];
      assert PickedLane(list, lanes[p], at[p]);
      var (restLanes, restAt) := (lanes[p := lanes[p][1..]], at[p := at[p][1..]]);
      assert Picked(list, restLanes, restAt);
      MergePicks(order[1..], list, restLanes, restAt);
    } else {
      assert forall p | 0 <= p < |at| :: PickedLane(list, lanes[p], at[p]);
    }
  }

  lemma {:induction false} UptoHolds(n: nat, m: nat)
    ensures multiset(SerialPorts.Upto(n))[m] == if m < n then 1 else 0
  {
    hide SerialPorts.Upto;
    if n == 0 {
      UptoNone();
    } else {
      UptoHolds(n - 1, m);
      SerialPorts.UptoNext(n - 1);
    }
  }

  lemma UptoNone()
    ensures SerialPorts.Upto(0) == []
  {
  }

  /** Positions that are 0 .. n - 1 in some order are an arrival order. */
  lemma IsArrival<T>(sent: seq<T>, arr: seq<nat>)
    requires multiset(arr) == multiset(SerialPorts.Upto(|sent|))
    ensures Arrival(sent, arr)
  {
    var n := |sent|;
    assert |multiset(arr)| == |arr| && |multiset(SerialPorts.Upto(n))| == n;
    forall k | 0 <= k < |arr| ensures arr[k] < n {
      assert arr[k] in multiset(arr);
      UptoHolds(n, arr[k]);
    }
    forall j, k | 0 <= j < k < |arr| ensures arr[j] != arr[k] {
      if arr[j] == arr[k] {
        PriorityQueue.OccursTwice(arr, j, k);
        UptoHolds(n, arr[j]);
      }
    }
    forall m: nat | m < n ensures m in arr {
      UptoHolds(n, m);
      assert m in multiset(arr);
    }
  }

  // ---- framing ----------------------------------------------------------------------------

  function Number(start: nat, i: nat): nat { (start + i) % DelimReorder.MODULUS }

  /** What is sent for the datagrams. */
  function Wire(delim: seq<byte>, payloads: seq<seq<byte>>, start: nat): (w: seq<seq<byte>>)
    requires |delim| == 4
    ensures |w| == |payloads|
  {
    seq(|payloads|, i requires 0 <= i < |payloads| => DelimFrame.Encode(delim, payloads[i], Number(start, i)))
  }

  function FrameOf(delim: seq<byte>, payload: seq<byte>, number: nat): Item
    requires |delim| == 4
  {
    Item(Frame(|payload| + DelimFrame.TRAILER, true, true, 1, number), DelimFrame.Encode(delim, payload, number))
  }

  function Frames(delim: seq<byte>, payloads: seq<seq<byte>>, start: nat): (f: seq<Item>)
    requires |delim| == 4
    ensures |f| == |payloads|
  {
    seq(|payloads|, i requires 0 <= i < |payloads| => FrameOf(delim, payloads[i], Number(start, i)))
  }

  /** The next datagram is framed with the next number. */
  lemma WireNext(delim: nat, payloads: seq<seq<byte>>, start: nat, data: seq<byte>)
    requires delim > 0
    ensures var d := DelimFrame.Bytes4(delim);
            Wire(d, payloads + [data], start)
              == Wire(d, payloads, start) + [ProtoConv.WithDelim(delim, data, Number(start, |payloads|))]
    ensures Number(start, |payloads| + 1) == (Number(start, |payloads|) + 1) % DelimFrame.TWO_32
  {
    hide DelimFrame.Encode;
    DelimReorder.NextNumber(start, |payloads|);
  }

  predicate AllClean(delim: seq<byte>, payloads: seq<seq<byte>>, start: nat)
    requires |delim| == 4
  {
    forall i | 0 <= i < |payloads| :: DelimFrame.Clean(delim, payloads[i], Number(start, i))
  }

  /** One frame off the front of a stream. */
  lemma TakesOne(delim: seq<byte>, payload: seq<byte>, number: nat, rest: seq<byte>)
    requires |delim| == 4 && number < DelimFrame.TWO_32 && DelimFrame.Clean(delim, payload, number)
    ensures var t := Extract(Delimited(delim), rest);
            Extract(Delimited(delim), DelimFrame.Encode(delim, payload, number) + rest)
              == Taken([FrameOf(delim, payload, number)] + t.items, t.rest)
  {
    hide DelimFrame.Check, DelimFrame.Clean, DelimFrame.Encode;
    DelimFrame.FrameRoundTrip(delim, payload, number, rest);
    var e := DelimFrame.Encode(delim, payload, number);
    assert (e + rest)[..|e|] == e && (e + rest)[|e|..] == rest;
  }

  /** A datagram that is not clean: one that was framed already, as when converters are chained
      with the same delimiter.  It comes out as two: the inner payload under the inner number,
      and an empty one under the outer number. */
  lemma ChainedIsNotClean(delim: seq<byte>, payload: seq<byte>, inner: nat, outer: nat)
    requires |delim| == 4 && inner < DelimFrame.TWO_32 && outer < DelimFrame.TWO_32
    requires DelimFrame.Clean(delim, payload, inner)
    ensures var framed := DelimFrame.Encode(delim, payload, inner);
            && !DelimFrame.Clean(delim, framed, outer)
            && Extract(Delimited(delim), DelimFrame.Encode(delim, framed, outer))
                 == Taken([FrameOf(delim, payload, inner), FrameOf(delim, [], outer)], [])
  {
    hide DelimFrame.Check, DelimFrame.Clean, DelimFrame.EndsAt, DelimFrame.Trailer, Extract;
    var framed := DelimFrame.Encode(delim, payload, inner);
    var last := DelimFrame.Encode(delim, [], outer);
    assert framed + last == DelimFrame.Encode(delim, framed, outer);
    assert last + [] == last && framed + last + [] == framed + last;
    EmptyIsClean(delim, outer);
    NothingTaken(delim);
    TakesOne(delim, [], outer, []);
    TakesOne(delim, payload, inner, last);
    assert [FrameOf(delim, payload, inner)] + [FrameOf(delim, [], outer)]
        == [FrameOf(delim, payload, inner), FrameOf(delim, [], outer)];
    FramedIsNotClean(delim, payload, inner, outer);
  }

  lemma FramedIsNotClean(delim: seq<byte>, payload: seq<byte>, inner: nat, outer: nat)
    requires |delim| == 4 && inner < DelimFrame.TWO_32
    ensures !DelimFrame.Clean(delim, DelimFrame.Encode(delim, payload, inner), outer)
  {
    hide DelimFrame.EndsAt, DelimFrame.Trailer;
    var framed := DelimFrame.Encode(delim, payload, inner);
    DelimFrame.EncodeEnds(delim, payload, inner);
    DelimFrame.EndsAtPrefix(delim, framed, DelimFrame.Trailer(delim, outer), |framed|);
    assert framed + DelimFrame.Trailer(delim, outer) == DelimFrame.Encode(delim, framed, outer);
    assert DelimFrame.TRAILER <= |framed| < |framed| + DelimFrame.TRAILER;
    assert DelimFrame.EndsAt(delim, DelimFrame.Encode(delim, framed, outer), |framed|);
  }

  lemma EmptyIsClean(delim: seq<byte>, number: nat)
    requires |delim| == 4
    ensures DelimFrame.Clean(delim, [], number)
  {
  }

  /** A port's stream is scanned into its frames, with nothing left over. */
  lemma {:induction false} LaneItems(delim: seq<byte>, payloads: seq<seq<byte>>, start: nat, at: seq<nat>,
                                     lane: seq<seq<byte>>)
    requires |delim| == 4 && AllClean(delim, payloads, start)
    requires PickedLane(Wire(delim, payloads, start), lane, at)
    ensures var t := Extract(Delimited(delim), Join(lane));
            PickedLane(Frames(delim, payloads, start), t.items, at) && t.rest == []
    decreases |at|
  {
    hide DelimFrame.Encode, DelimFrame.Clean, Extract;
    if at == [] {
      NothingTaken(delim);
    } else {
      LaneItems(delim, payloads, start, at[1..], lane[1..]);
      TakesOne(delim, payloads[at[0]], Number(start, at[0]), Join(lane[1..]));
    }
  }

  lemma NothingTaken(delim: seq<byte>)
    requires |delim| == 4
    ensures Extract(Delimited(delim), []) == Taken([], []) && Scan(Delimited(delim), []).len == 0
  {
  }

  /** Over a single connection: the stream of numbered frames, read in any chunks, yields the
      payloads with their consecutive numbers and nothing else. */
  lemma StreamRoundTrip(delim: seq<byte>, payloads: seq<seq<byte>>, start: nat, chunks: seq<seq<byte>>)
    requires |delim| == 4 && AllClean(delim, payloads, start)
    requires Join(chunks) == Join(Wire(delim, payloads, start))
    ensures var t := Feed(Delimited(delim), [], chunks);
            t.items == Frames(delim, payloads, start) && t.rest == []
  {
    hide Extract, Feed, Scan, AllClean, DelimFrame.Encode;
    var w := Wire(delim, payloads, start);
    var at := SerialPorts.Upto(|w|);
    NothingTaken(delim);
    DelimChunks(delim, [], chunks);
    LaneItems(delim, payloads, start, at, w);
    assert [] + Join(chunks) == Join(w);
  }

  /** Everything the readers of the ports hand on, port by port. */
  function Heard(delim: seq<byte>, chunks: seq<seq<seq<byte>>>): (h: seq<seq<Item>>)
    requires |delim| == 4
    ensures |h| == |chunks|
  {
    seq(|chunks|, p requires 0 <= p < |chunks| => Feed(Delimited(delim), [], chunks[p]).items)
  }

  /** The bytes read from every port, in whatever chunks, are the bytes written to it. */
  predicate Carried(lanes: seq<seq<seq<byte>>>, chunks: seq<seq<seq<byte>>>) {
    |chunks| == |lanes| && forall p | 0 <= p < |lanes| :: Join(chunks[p]) == Join(lanes[p])
  }

  lemma HeardPicked(delim: seq<byte>, payloads: seq<seq<byte>>, start: nat, lanes: seq<seq<seq<byte>>>,
                    chunks: seq<seq<seq<byte>>>, at: seq<seq<nat>>)
    requires |delim| == 4 && AllClean(delim, payloads, start) && Carried(lanes, chunks)
    requires Picked(Wire(delim, payloads, start), lanes, at)
    ensures Picked(Frames(delim, payloads, start), Heard(delim, chunks), at)
  {
    hide Extract, Feed, Scan, AllClean, PickedLane, Frames, Wire;
    forall p | 0 <= p < |at| ensures PickedLane(Frames(delim, payloads, start), Heard(delim, chunks)[p], at[p]) {
      NothingTaken(delim);
      DelimChunks(delim, [], chunks[p]);
      LaneItems(delim, payloads, start, at[p], lanes[p]);
      assert [] + Join(chunks[p]) == Join(lanes[p]);
    }
  }

  /** The ports' run placed every message on exactly one port. */
  lemma WherePlaced(states: seq<SerialPorts.Ports<seq<byte>>>, max: nat, events: seq<SerialPorts.Event<seq<byte>>>,
                    wire: seq<seq<byte>>)
    returns (at: seq<seq<nat>>)
    requires SerialPorts.Run(states, max, events) && SerialPorts.Messages(events) == wire
    requires states[|events|].queue == [] && states[|events|].dropped == []
    ensures Picked(wire, states[|events|].lanes, at)
    ensures SerialPorts.Union(at) == multiset(SerialPorts.Upto(|wire|))
  {
    hide SerialPorts.Run, SerialPorts.Union, SerialPorts.Upto, SerialPorts.Messages;
    RunShape(states, max, events);
    var gone;
    at, gone := SerialPorts.RunPlaces(states, max, events, |events|);
    assert events[..|events|] == events;
    var s := states[|events|];
    assert SerialPorts.LaneAt(s.dropped, wire, gone, |wire|) && gone == [];
    forall p | 0 <= p < |at| ensures PickedLane(wire, s.lanes[p], at[p]) {
      assert SerialPorts.LaneAt(s.lanes[p], wire, at[p], |wire|);
    }
  }

  lemma RunShape(states: seq<SerialPorts.Ports<seq<byte>>>, max: nat, events: seq<SerialPorts.Event<seq<byte>>>)
    requires SerialPorts.Run(states, max, events)
    ensures |states| == |events| + 1
  {
  }

  /** The frames reach the handler in some order of all of them. */
  lemma ArriveAll(delim: seq<byte>, payloads: seq<seq<byte>>, start: nat, lanes: seq<seq<seq<byte>>>,
                  chunks: seq<seq<seq<byte>>>, at: seq<seq<nat>>, order: seq<nat>) returns (arr: seq<nat>)
    requires |delim| == 4 && AllClean(delim, payloads, start) && Carried(lanes, chunks)
    requires Picked(Wire(delim, payloads, start), lanes, at)
    requires SerialPorts.Union(at) == multiset(SerialPorts.Upto(|payloads|))
    requires Follows(order, Heard(delim, chunks))
    ensures var sent := Frames(delim, payloads, start);
            Arrival(sent, arr) && Merge(order, Heard(delim, chunks)) == Arrivals(sent, arr)
  {
    hide Heard, Picked, Follows, AllClean, Merge, Frames, Wire, SerialPorts.Union, SerialPorts.Upto, Arrival;
    var sent := Frames(delim, payloads, start);
    HeardPicked(delim, payloads, start, lanes, chunks, at);
    MergePicks(order, sent, Heard(delim, chunks), at);
    arr := Merge(order, at);
    MergeUnion(order, at);
    IsArrival(sent, arr);
  }

  lemma FramesNumbered(delim: seq<byte>, payloads: seq<seq<byte>>, start: nat)
    requires |delim| == 4
    ensures DelimReorder.Numbered(Frames(delim, payloads, start), start)
  {
    hide DelimFrame.Encode;
  }

  function Datagrams(items: seq<Item>): seq<seq<byte>> {
    seq(|items|, i requires 0 <= i < |items| => DelimReorder.Datagram(items[i]))
  }

  lemma FramesDatagrams(delim: seq<byte>, payloads: seq<seq<byte>>, start: nat)
    requires |delim| == 4
    ensures Datagrams(Frames(delim, payloads, start)) == payloads
  {
    hide DelimFrame.Trailer, DelimFrame.Encode;
    forall i | 0 <= i < |payloads| ensures DelimReorder.Datagram(Frames(delim, payloads, start)[i]) == payloads[i] {
      PayloadBack(delim, payloads[i], Number(start, i));
    }
  }

  lemma PayloadBack(delim: seq<byte>, payload: seq<byte>, number: nat)
    requires |delim| == 4
    ensures DelimReorder.Datagram(FrameOf(delim, payload, number)) == payload
  {
    hide DelimFrame.Trailer;
  }

  /** The clock does not go back, and the handler starts with no top noted. */
  predicate Timed(start: nat, nows: seq<int>, first: DelimReorder.State) {
    InTime.Clocked(nows) && first.lastTop == (start + DelimReorder.MODULUS - 1) % DelimReorder.MODULUS
  }

  /** No timeout, as seen from the run; or from the arrivals, when every overtaken frame follows
      in time. */
  ghost predicate Unhurried(start: nat, arr: seq<nat>, nows: seq<int>, maxWait: nat, first: DelimReorder.State,
                            jumps: seq<DelimReorder.Jump>)
    requires |nows| == |arr|
  {
    || (forall j | 0 <= j < |jumps| :: jumps[j] != DelimReorder.Timeout)
    || (Timed(start, nows, first) && InTime.Prompt(arr, nows, maxWait))
  }

  /** The whole way.  Datagrams are numbered from `start` modulo 2^32, given to any number of
      ports that complete in any order, with none dropped; the bytes of every port are read in
      any chunks; the frames of the ports reach the handler in any interleaving; no trailer
      occurs by accident.  Then the frames arrive in an order arr of all of them, and if that
      stays within the window, they are written in the order in which the datagrams were sent if
      and only if no frame is overtaken by more than the queue holds and no head waits too long;
      and then the datagrams written are the datagrams sent. */
  lemma Delivers(delim: seq<byte>, payloads: seq<seq<byte>>, start: nat,
                 ports: seq<SerialPorts.Ports<seq<byte>>>, maxWrite: nat, events: seq<SerialPorts.Event<seq<byte>>>,
                 chunks: seq<seq<seq<byte>>>, order: seq<nat>,
                 l: DelimReorder.Limits, states: seq<DelimReorder.State>, nows: seq<int>, jumps: seq<DelimReorder.Jump>)
    returns (arr: seq<nat>)
    requires |delim| == 4 && AllClean(delim, payloads, start)
    requires SerialPorts.Run(ports, maxWrite, events) && SerialPorts.Messages(events) == Wire(delim, payloads, start)
    requires ports[|events|].queue == [] && ports[|events|].dropped == []
    requires Carried(ports[|events|].lanes, chunks)
    requires Follows(order, Heard(delim, chunks))
    requires DelimReorder.Run(l, states, Merge(order, Heard(delim, chunks)), nows, jumps)
    requires states[0].queue == multiset{} && states[0].expected == start % DelimReorder.MODULUS
      && states[0].written == []
    ensures Arrival(payloads, arr) && |nows| == |arr|
    ensures Merge(order, Heard(delim, chunks)) == Arrivals(Frames(delim, payloads, start), arr)
    ensures DelimReorder.Windowed(arr) && Timed(start, nows, states[0]) ==>
      (states[|states| - 1].written == Frames(delim, payloads, start) <==>
       DelimReorder.FewOvertakers(arr, l.maxQueue) && InTime.NeverStale(arr, nows, l.maxWait))
    ensures DelimReorder.Windowed(arr) && Unhurried(start, arr, nows, l.maxWait, states[0], jumps) ==>
      (states[|states| - 1].written == Frames(delim, payloads, start) <==> DelimReorder.FewOvertakers(arr, l.maxQueue))
    ensures DelimReorder.Windowed(arr) ==>
      (states[|states| - 1].written == Frames(delim, payloads, start) <==> DelimReorder.NoJumps(jumps))
    ensures Datagrams(Frames(delim, payloads, start)) == payloads
  {
    hide Merge, Follows, Heard, Frames, Wire, AllClean, Carried, SerialPorts.Run, SerialPorts.Messages,
        SerialPorts.Union;
    hide DelimReorder.Step, DelimReorder.Windowed, DelimReorder.Numbered, Picked, SerialPorts.Upto,
        DelimReorder.FewOvertakers, InTime.NeverStale, Timed, Unhurried;
    RunShape(ports, maxWrite, events);
    var at := WherePlaced(ports, maxWrite, events, Wire(delim, payloads, start));
    arr := ArriveAll(delim, payloads, start, ports[|events|].lanes, chunks, at, order);
    var sent := Frames(delim, payloads, start);
    FramesNumbered(delim, payloads, start);
    if DelimReorder.Windowed(arr) { Ordered(l, sent, start, arr, states, nows, jumps); }
    FramesDatagrams(delim, payloads, start);
  }

  lemma Ordered(l: DelimReorder.Limits, sent: seq<Item>, start: nat, arr: seq<nat>, states: seq<DelimReorder.State>,
                nows: seq<int>, jumps: seq<DelimReorder.Jump>)
    requires DelimReorder.Numbered(sent, start) && Arrival(sent, arr) && DelimReorder.Windowed(arr)
    requires DelimReorder.Run(l, states, Arrivals(sent, arr), nows, jumps)
    requires states[0].queue == multiset{} && states[0].expected == start % DelimReorder.MODULUS
      && states[0].written == []
    ensures |nows| == |arr|
    ensures states[|states| - 1].written == sent <==> DelimReorder.NoJumps(jumps)
    ensures Timed(start, nows, states[0]) ==>
      (states[|states| - 1].written == sent <==>
       DelimReorder.FewOvertakers(arr, l.maxQueue) && InTime.NeverStale(arr, nows, l.maxWait))
    ensures Unhurried(start, arr, nows, l.maxWait, states[0], jumps) ==>
      (states[|states| - 1].written == sent <==> DelimReorder.FewOvertakers(arr, l.maxQueue))
  {
    hide DelimReorder.Step, DelimReorder.Windowed, DelimReorder.Numbered, DelimReorder.FewOvertakers;
    hide InTime.Prompt, InTime.Clocked, InTime.NeverStale;
    assert [] + sent == sent;
    DelimReorder.InOrderUnlessJump(l, sent, start, arr, states, nows, jumps);
    if Timed(start, nows, states[0]) { InTime.InOrderExactly(l, sent, start, arr, states, nows, jumps); }
    if forall j | 0 <= j < |jumps| :: jumps[j] != DelimReorder.Timeout {
      DelimReorder.InOrder(l, sent, start, arr, states, nows, jumps);
    } else if Unhurried(start, arr, nows, l.maxWait, states[0], jumps) {
      InTime.InOrderInTime(l, sent, start, arr, states, nows, jumps);
    }
  }
}
