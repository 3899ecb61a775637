/** The DNP3 fragment handler: one transport flow for each pair of addresses, made at its
    first frame; unframed data passes through. */
module Dnp3Flows {
  import opened Dnp3Frame
  import opened StreamReader
  import IndexedQueue
  import opened Dnp3Reorder

  datatype State = State(flows: map<nat, Flow>, passed: seq<Item>)

  /** A flow as the handler finds it, whether it was made already or not. */
  function At(s: State, id: nat): Flow { if id in s.flows then s.flows[id] else EMPTY_FLOW }

  /** One frame. */
  ghost predicate Handles(s: State, i: Item, s': State) {
    if i.frame.flow == 0 then s' == s.(passed := s.passed + [i])
    else exists f: Flow :: Step(At(s, i.frame.flow), i, f) && s' == s.(flows := s.flows[i.frame.flow := f])
  }

  class DNP3FragHandler {
    var transportFlows: map<nat, TransportFlow>
    var passed: seq<Item>
    ghost var repr: set<object>

    /** Every flow is stored under its own id and shares nothing with another. */
    ghost predicate Valid()
      reads `transportFlows, `repr, repr
    {
      && this !in repr
      && (forall id | id in transportFlows ::
            var t := transportFlows[id];
            t in repr && t.fragQ in repr && t.id == id && t.fragQ.less == Less)
      && (forall a, b | a in transportFlows && b in transportFlows && a != b ::
            transportFlows[a] != transportFlows[b] && transportFlows[a].fragQ != transportFlows[b].fragQ)
    }

    ghost function Views(): map<nat, Flow>
      requires Valid()
      reads `transportFlows, `repr, repr
    {
      map id | id in transportFlows :: transportFlows[id].View()
    }

    ghost function View(): State
      requires Valid()
      reads this, repr
    {
      State(Views(), passed)
    }

    constructor ()
      ensures Valid() && repr == {} && View() == State(map[], [])
    {
      transportFlows, passed, repr := map[], [], {};
    }

    /** The flow of an id, made when there is none. */
    method FlowOf(id: nat) returns (t: TransportFlow)
      requires Valid()
      modifies this
      ensures Valid() && fresh(repr - old(repr)) && passed == old(passed)
      ensures id in transportFlows && t == transportFlows[id]
      ensures t.View() == At(old(View()), id)
      ensures Views() == old(Views())[id := t.View()]
    {
      hide Step, Less, TransportFlow.View, Handles;
      if id !in transportFlows {
        t := new TransportFlow(id);
        transportFlows := transportFlows[id := t];
        repr := repr + {t, t.fragQ};
      } else {
        t := transportFlows[id];
      }
    }

    /** The flow's own step, on its own strand: the other flows stay as they are. */
    method Dispatch(t: TransportFlow, frame: Item)
      requires Valid() && frame.frame.flow in transportFlows && t == transportFlows[frame.frame.flow]
      modifies t, t.fragQ
      ensures Valid()
      ensures Step(old(t.View()), frame, t.View()) && Views() == old(Views())[frame.frame.flow := t.View()]
    {
      hide Step, Less, TransportFlow.View, At, Handles;
      ghost var views := Views();
      t.HandleFrame(frame);
      forall a | a in transportFlows && a != frame.frame.flow ensures transportFlows[a].View() == views[a] {
        assert transportFlows[a] != t && transportFlows[a].fragQ != t.fragQ;
      }
    }

    method HandleFrame(frame: Item)
      requires Valid()
      modifies this, repr
      ensures Valid() && fresh(repr - old(repr))
      ensures Handles(old(View()), frame, View())
    {
      hide Step, Less, TransportFlow.View, Views;
      if frame.frame.flow == 0 {
        passed := passed + [frame];
        return;
      }
      ghost var s := View();
      var t := FlowOf(frame.frame.flow);
      Dispatch(t, frame);
      assert Views() == s.flows[frame.frame.flow := t.View()];
    }
  }

  // ---- flows do not disturb each other ----------------------------------------------------

  ghost predicate HandlerRun(states: seq<State>, items: seq<Item>) {
    && |states| == |items| + 1 && states[0] == State(map[], [])
    && forall k | 0 <= k < |items| :: Handles(states[k], items[k], states[k + 1])
  }

  /** The frames of one flow, in their order. */
  function OfFlow(items: seq<Item>, id: nat): seq<Item> {
    if items == [] then []
    else
      var last := items[|items| - 1];
      OfFlow(items[..|items| - 1], id) + if last.frame.flow == id then [last] else []
  }

  /** A flow sees its own frames alone: whatever else arrives in between, its state is one
      that its own frames lead to by themselves.  Unframed data is written in its order. */
  lemma {:induction false} FlowsApart(states: seq<State>, items: seq<Item>, id: nat, k: nat) returns (own: seq<Flow>)
    requires HandlerRun(states, items) && k <= |items| && id > 0
    ensures Run(own, OfFlow(items[..k], id)) && own[0] == EMPTY_FLOW
    ensures own[|own| - 1] == At(states[k], id)
    ensures states[k].passed == OfFlow(items[..k], 0)
  {
    hide Step;
    if k == 0 {
      own := [EMPTY_FLOW];
    } else {
      own := FlowsApart(states, items, id, k - 1);
      var i := items[k - 1];
      assert items[..k][..k - 1] == items[..k - 1];
      assert Handles(states[k - 1], i, states[k]);
      if i.frame.flow == id {
        own := RunNext(own, OfFlow(items[..k - 1], id), i, At(states[k], id));
      }
    }
  }

  lemma RunNext(run: seq<Flow>, items: seq<Item>, i: Item, s: Flow) returns (longer: seq<Flow>)
    requires Run(run, items) && Step(run[|run| - 1], i, s)
    ensures Run(longer, items + [i]) && longer[0] == run[0] && longer[|longer| - 1] == s
  {
    hide Step;
    longer := run + [s];
    forall k | 0 <= k < |items + [i]| ensures Step(longer[k], (items + [i])[k], longer[k + 1]) {
      if k < |items| {
        assert Step(run[k], items[k], run[k + 1]);
      }
    }
  }

  /** A message and the order in which its fragments arrive. */
  datatype Sending = Sending(msg: seq<Item>, start: nat, arr: seq<nat>) {
    ghost predicate Ok() { Message(msg, start) && |msg| <= 34 && IndexedQueue.Arrival(msg, arr) }
  }

  ghost predicate AllOk(sendings: seq<Sending>) { forall i | 0 <= i < |sendings| :: sendings[i].Ok() }

  /** The fragments of one message after the other, as they arrive. */
  ghost function Arriving(sendings: seq<Sending>): seq<Item>
    requires AllOk(sendings)
  {
    if sendings == [] then []
    else IndexedQueue.Arrivals(sendings[0].msg, sendings[0].arr) + Arriving(sendings[1..])
  }

  function Messages(sendings: seq<Sending>): seq<Item> {
    if sendings == [] then [] else sendings[0].msg + Messages(sendings[1..])
  }

  /** Any number of messages on a flow, one after the other, each with its fragments in any
      order, are written whole and in order. */
  lemma {:induction false} MessagesInOrder(run: seq<Flow>, sendings: seq<Sending>)
    requires AllOk(sendings) && Run(run, Arriving(sendings)) && Idle(run[0])
    ensures run[|run| - 1].written == run[0].written + Messages(sendings) && Idle(run[|run| - 1])
    decreases |sendings|
  {
    hide Step, Message, Idle;
    if sendings == [] {
      assert run[0].written + [] == run[0].written;
    } else {
      var (first, rest) := (sendings[0], sendings[1..]);
      var items := IndexedQueue.Arrivals(first.msg, first.arr);
      assert first.Ok();
      ArrivalLength(first.msg, first.arr);
      RunParts(run, items, Arriving(rest));
      AnyOrder(first.msg, first.start, first.arr, run[..|items| + 1]);
      MessagesInOrder(run[|items|..], rest);
      assert run[0].written + first.msg + Messages(rest) == run[0].written + (first.msg + Messages(rest));
    }
  }

  lemma RunParts(run: seq<Flow>, a: seq<Item>, b: seq<Item>)
    requires Run(run, a + b)
    ensures |run| == |a| + |b| + 1 && Run(run[..|a| + 1], a) && Run(run[|a|..], b)
  {
    hide Step;
    forall k | 0 <= k < |a| ensures Step(run[k], a[k], run[k + 1]) {
      assert (a + b)[k] == a[k];
    }
    forall k | 0 <= k < |b| ensures Step(run[|a|..][k], b[k], run[|a|..][k + 1]) {
      assert (a + b)[|a| + k] == b[k];
    }
  }

  /** The messages of a flow come out whole and in order whatever other flows do in between. */
  lemma InterleavedMessages(states: seq<State>, items: seq<Item>, id: nat, sendings: seq<Sending>)
    requires HandlerRun(states, items) && id > 0
    requires AllOk(sendings) && OfFlow(items, id) == Arriving(sendings)
    ensures At(states[|items|], id).written == Messages(sendings) && Idle(At(states[|items|], id))
  {
    hide Message, Run, IndexedQueue.Arrival, HandlerRun, Idle;
    var own := FlowsApart(states, items, id, |items|);
    assert items[..|items|] == items;
    RunLength(own, OfFlow(items, id));
    EmptyIdle();
    MessagesInOrder(own, sendings);
    assert [] + Messages(sendings) == Messages(sendings);
  }

  lemma EmptyIdle()
    ensures Idle(EMPTY_FLOW) && EMPTY_FLOW.written == []
  {
  }

  lemma RunLength(states: seq<Flow>, items: seq<Item>)
    requires Run(states, items)
    ensures |states| == |items| + 1
  {
  }

  lemma ArrivalLength(msg: seq<Item>, arr: seq<nat>)
    requires IndexedQueue.Arrival(msg, arr)
    ensures |arr| == |msg|
  {
  }

}
