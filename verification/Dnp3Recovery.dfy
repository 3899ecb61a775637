/** Messages of which fragments were lost: what is left of one is written when a duplicate shows
    that the next has begun, and the next comes out whole. */
module Dnp3Recovery {
  import opened Options
  import opened Dnp3Frame
  import opened StreamReader
  import opened PriorityQueue
  import opened IndexedQueue
  import opened Dnp3Reorder
  import Dnp3Flows

  // ---- the fragment that shows it ---------------------------------------------------------

  /** A duplicate writes what is held, then the saved frame, and begins anew: the flow goes on as
      an idle one to which the fragment comes first. */
  lemma DuplicateRestarts(states: seq<Flow>, items: seq<Item>) returns (s1: Flow, out: seq<Item>)
    requires Run(states, items) && items != []
    requires items[0].frame.IsFragment() && Duplicate(states[0], items[0].frame)
    ensures Run([s1] + states[1..], items) && Idle(s1)
    ensures exists t :: TopOf(Less, states[0].queue, t) && Emptied(states[0].queue, t, out)
    ensures multiset(out) == states[0].queue && s1.written == states[0].written + out + AsSeq(states[0].next)
  {
    hide TopOf, Emptied, Duplicate, Queued, Complete;
    var (s, i) := (states[0], items[0]);
    assert Step(s, i, states[1]);
    s1 :| FragmentStep(s, i, states[1], s1);
    var t: Option<Item>, o: seq<Item> :|
      TopOf(Less, s.queue, t) && Emptied(s.queue, t, o) && s1 == Dnp3Reorder.Cleared(s, o);
    out := o;
    EmptiedAll(s.queue, t, out);
    NotDuplicateAnew(s1, i.frame);
    assert FragmentStep(s1, i, states[1], s1);
    FirstReplaced(states, items, s1);
  }

  lemma NotDuplicateAnew(s: Flow, f: Frame)
    requires Idle(s)
    ensures !Duplicate(s, f)
  {
  }

  lemma FirstReplaced(states: seq<Flow>, items: seq<Item>, s1: Flow)
    requires Run(states, items) && items != [] && Step(s1, items[0], states[1])
    ensures Run([s1] + states[1..], items)
  {
    hide Step;
    var r := [s1] + states[1..];
    forall k | 0 <= k < |items| ensures Step(r[k], items[k], r[k + 1]) {
      if k > 0 { assert r[k] == states[k]; }
    }
  }

  /** From whatever a flow holds: a message of 2 to 34 fragments whose first arrival is a
      duplicate comes out whole at its last arrival, behind what was held and the saved frame,
      which are written at the first. */
  lemma RecoversFrom(msg: seq<Item>, start: nat, arr: seq<nat>, states: seq<Flow>) returns (out: seq<Item>)
    requires Message(msg, start) && |msg| <= 34 && Arrival(msg, arr) && Run(states, Arrivals(msg, arr))
    requires |msg| > 0 && |arr| > 0 && Duplicate(states[0], msg[arr[0]].frame)
    ensures multiset(out) == states[0].queue
    ensures var before := states[0].written + out + AsSeq(states[0].next);
            && (forall k | 1 <= k < |msg| :: states[k].written == before)
            && states[|msg|].written == before + msg && Idle(states[|msg|])
  {
    hide Message, Duplicate, Run, Idle, Emptied, TopOf;
    PartIsFragment(msg, start, arr[0]);
    var s1: Flow;
    s1, out := DuplicateRestarts(states, Arrivals(msg, arr));
    RunShape(states, Arrivals(msg, arr));
    var anew := [s1] + states[1..];
    AnyOrder(msg, start, arr, anew);
    forall k | 1 <= k <= |msg| ensures anew[k] == states[k] {}
  }

  lemma RunShape(states: seq<Flow>, items: seq<Item>)
    requires Run(states, items)
    ensures |states| == |items| + 1
  {
  }

  /** A second unfragmented frame flushes too, and goes behind the saved one. */
  lemma SecondUnfragmented(s: Flow, u: Item, s': Flow) returns (out: seq<Item>)
    requires s.next.Some? && !u.frame.IsFragment() && Step(s, u, s')
    ensures multiset(out) == s.queue && s'.written == s.written + out + [s.next.value] + [u] && Idle(s')
  {
    hide TopOf, Emptied;
    var s1: Flow :| Flushed(s, s1) && s' == s1.(written := s1.written + [u]);
    var t: Option<Item>, o: seq<Item> :|
      TopOf(Less, s.queue, t) && Emptied(s.queue, t, o) && s1 == Dnp3Reorder.Cleared(s, o);
    out := o;
    EmptiedAll(s.queue, t, out);
  }

  // ---- what is left of a message ----------------------------------------------------------

  /** The held ones among the first n fragments, in their order. */
  function Kept(msg: seq<Item>, held: set<nat>, n: nat): seq<Item>
    requires n <= |msg|
  {
    if n == 0 then [] else Kept(msg, held, n - 1) + if n - 1 in held then [msg[n - 1]] else []
  }

  lemma {:induction false} KeptNone(msg: seq<Item>, held: set<nat>, n: nat)
    requires n <= |msg| && forall j | j in held :: j >= n
    ensures Kept(msg, held, n) == []
  {
    if n > 0 { KeptNone(msg, held, n - 1); }
  }

  lemma {:induction false} KeptLeast(msg: seq<Item>, held: set<nat>, i: nat, n: nat)
    requires i < n <= |msg| && i in held && forall j | j in held :: i <= j
    ensures Kept(msg, held, n) == [msg[i]] + Kept(msg, held - {i}, n)
  {
    if n == i + 1 {
      KeptNone(msg, held, i);
      KeptNone(msg, held - {i}, n);
    } else {
      KeptLeast(msg, held, i, n - 1);
      assert n - 1 in held <==> n - 1 in held - {i};
    }
  }

  lemma {:induction false} KeptAll(msg: seq<Item>, held: set<nat>, n: nat)
    requires n <= |msg| && forall m: nat | m < n :: m in held
    ensures Kept(msg, held, n) == msg[..n]
  {
    if n > 0 {
      KeptAll(msg, held, n - 1);
      assert msg[..n] == msg[..n - 1] + [msg[n - 1]];
    }
  }

  /** The flush writes the held fragments in their order, whichever they are. */
  lemma {:induction false} EmptiedKept(q: multiset<Item>, t: Option<Item>, out: seq<Item>, msg: seq<Item>,
                                       held: set<nat>)
    requires Holds(q, msg, held) && Agrees(Less, msg, held) && TopOf(Less, q, t) && Emptied(q, t, out)
    ensures out == Kept(msg, held, |msg|)
    decreases |out|
  {
    hide Less, TopOf, Holds, Agrees, Kept;
    match t {
      case None =>
        NothingHeld(Less, q, msg, held);
        KeptNone(msg, held, |msg|);
      case Some(x) =>
        var i := TopIsLeast(Less, q, msg, held, x);
        var u: Option<Item> :| TopOf(Less, q - multiset{x}, u) && Emptied(q - multiset{x}, u, out[1..]);
        HoldsRemove(Less, q, msg, held, i);
        EmptiedKept(q - multiset{x}, u, out[1..], msg, held - {i});
        HeldBelow(msg, held, i);
        KeptLeast(msg, held, i, |msg|);
        assert out == [x] + out[1..];
    }
  }

  lemma HeldBelow(msg: seq<Item>, held: set<nat>, i: nat)
    requires Agrees(Less, msg, held) && i in held
    ensures i < |msg|
  {
  }

  // ---- runs of messages -------------------------------------------------------------------

  /** A message and those of its fragments that arrive, in the order in which they do. */
  datatype Part = Part(msg: seq<Item>, start: nat, arr: seq<nat>) {
    ghost predicate Ok() {
      && Message(msg, start) && |msg| <= 34 && 0 < |arr| <= |msg|
      && (forall i | 0 <= i < |arr| :: arr[i] < |msg|) && forall i, j | 0 <= i < j < |arr| :: arr[i] != arr[j]
    }

    predicate Whole() { |arr| == |msg| }

    function Came(): set<nat> { Seen(arr, |arr|) }
  }

  /** The first arrival of the second message repeats the FIR, the FIN or a number of what came
      of the first. */
  ghost predicate Restarts(p: Part, q: Part)
    requires p.Ok() && q.Ok()
  {
    var f := q.msg[q.arr[0]].frame;
    || (f.fir && 0 in p.Came()) || (f.fin && |p.msg| - 1 in p.Came())
    || exists i :: i in p.Came() && i < |p.msg| && p.msg[i].frame.sequence == f.sequence
  }

  /** What came of a message that is not whole is held. */
  ghost predicate LeftBy(s: Flow, p: Part)
    requires p.Ok()
  {
    FlowOk(s) && Partial(s, s.written, None, p.msg, p.start, p.Came())
  }

  /** The next fragment counts as a duplicate of what is left if and only if it repeats it. */
  lemma DuplicateIff(s: Flow, p: Part, q: Part)
    requires p.Ok() && q.Ok() && LeftBy(s, p)
    ensures Duplicate(s, q.msg[q.arr[0]].frame) <==> Restarts(p, q)
  {
    hide Message, Agrees, FlagsOk, Distinct, Backed, Seen;
    var f := q.msg[q.arr[0]].frame;
    forall i | i in p.Came() && i < |p.msg| ensures p.msg[i].frame.sequence in s.hasSeq {
      assert p.msg[i] in s.queue;
    }
  }

  /** A message all of whose fragments are said to come, those that do first. */
  lemma Extended(p: Part) returns (all: seq<nat>)
    requires p.Ok()
    ensures Arrival(p.msg, all) && all[..|p.arr|] == p.arr
    ensures p.Whole() ==> all == p.arr
  {
    hide Message;
    all := ExtendedBy(p.msg, p.arr);
  }

  lemma {:induction false} ExtendedBy(msg: seq<Item>, arr: seq<nat>) returns (all: seq<nat>)
    requires |arr| <= |msg| && (forall i | 0 <= i < |arr| :: arr[i] < |msg|)
    requires forall i, j | 0 <= i < j < |arr| :: arr[i] != arr[j]
    ensures Arrival(msg, all) && arr <= all
    decreases |msg| - |arr|
  {
    var came := Seen(arr, |arr|);
    assert arr[..|arr|] == arr;
    SeenCount(arr, |arr|);
    FullSet(came, |msg|);
    if |arr| == |msg| {
      all := arr;
      forall m: nat | m < |msg| ensures m in arr { assert m in came; }
    } else {
      var m: nat :| m < |msg| && m !in came;
      all := ExtendedBy(msg, arr + [m]);
    }
  }

  lemma {:induction false} SeenCount(arr: seq<nat>, k: nat)
    requires k <= |arr| && forall i, j | 0 <= i < j < |arr| :: arr[i] != arr[j]
    ensures |Seen(arr, k)| == k
  {
    if k == 0 {
      assert Seen(arr, 0) == {};
    } else {
      SeenCount(arr, k - 1);
      SeenNext(arr, k - 1);
      SeenAt(arr, k - 1, k - 1);
    }
  }

  // ---- one message ------------------------------------------------------------------------

  ghost function Items(p: Part): seq<Item>
    requires p.Ok()
  {
    Arrivals(p.msg, p.arr)
  }

  lemma {:induction false} StaysOk(run: seq<Flow>, items: seq<Item>, k: nat)
    requires Run(run, items) && k <= |items| && FlowOk(run[0]) && forall i | 0 <= i < |items| :: Numbered64(items[i])
    ensures FlowOk(run[k])
  {
    hide Step, FlowOk;
    if k > 0 {
      StaysOk(run, items, k - 1);
      StepKeeps(run[k - 1], items[k - 1], run[k]);
    }
  }

  lemma IdleOk(s: Flow)
    requires Idle(s)
    ensures FlowOk(s)
  {
  }

  lemma PartNumbered(p: Part)
    requires p.Ok()
    ensures forall i | 0 <= i < |Items(p)| :: Numbered64(Items(p)[i])
  {
    forall i | 0 <= i < |Items(p)| ensures Numbered64(Items(p)[i]) {
      assert IsPart(p.msg[p.arr[i]], p.start, |p.msg|, p.arr[i]);
    }
  }

  /** On an idle flow: a whole message is written, anything less is held. */
  lemma FromIdleFlow(run: seq<Flow>, p: Part)
    requires p.Ok() && Run(run, Items(p)) && Idle(run[0])
    ensures var s := run[|run| - 1];
            if p.Whole() then s.written == run[0].written + p.msg && Idle(s)
            else s.written == run[0].written && LeftBy(s, p)
  {
    hide Step, Message, FlowOk, Partial, Idle, Arrival;
    var n := |p.arr|;
    var all := Extended(p);
    if p.Whole() {
      AnyOrder(p.msg, p.start, p.arr, run);
      WholeIs(p);
    } else {
      AllShape(p.msg, all);
      forall i | 0 <= i < n ensures all[i] == p.arr[i] && Step(run[i], p.msg[all[i]], run[i + 1]) {
        assert all[..n][i] == p.arr[i];
        assert Step(run[i], Items(p)[i], run[i + 1]);
      }
      FromIdle(p.msg, p.start, all, run, n);
      PartialWrites(run[n], run[0].written, None, p.msg, p.start, Seen(all, n));
      assert Seen(all, n) == p.Came() by { assert p.arr[..n] == p.arr; }
      IdleOk(run[0]);
      PartNumbered(p);
      StaysOk(run, Items(p), n);
    }
  }

  lemma WholeIs(p: Part)
    requires p.Ok() && p.Whole()
    ensures |p.msg| == |p.arr|
  {
  }

  lemma AllShape(msg: seq<Item>, all: seq<nat>)
    requires Arrival(msg, all)
    ensures |all| == |msg| && forall i | 0 <= i < |all| :: all[i] < |msg|
  {
  }

  /** On a flow that holds what is left of a message that the first fragment repeats: that is
      written first, in its order, and then it is the same. */
  lemma FromLeftFlow(run: seq<Flow>, p: Part, q: Part)
    requires p.Ok() && q.Ok() && Run(run, Items(q)) && LeftBy(run[0], p) && Restarts(p, q)
    ensures var (s, before) := (run[|run| - 1], run[0].written + Kept(p.msg, p.Came(), |p.msg|));
            if q.Whole() then s.written == before + q.msg && Idle(s) else s.written == before && LeftBy(s, q)
  {
    hide Step, Message, FlowOk, Idle, Arrival, Restarts, Duplicate, Emptied, TopOf, Kept, Holds, LeftBy;
    DuplicateIff(run[0], p, q);
    PartIsFragment(q.msg, q.start, q.arr[0]);
    var s1, out := DuplicateRestarts(run, Items(q));
    var t :| TopOf(Less, run[0].queue, t) && Emptied(run[0].queue, t, out);
    LeftHolds(run[0], p);
    MessageAgrees(p.msg, p.start, p.Came());
    EmptiedKept(run[0].queue, t, out, p.msg, p.Came());
    var anew := [s1] + run[1..];
    FromIdleFlow(anew, q);
    assert anew[|anew| - 1] == run[|run| - 1];
    assert run[0].written + out + [] == run[0].written + out;
  }

  lemma LeftHolds(s: Flow, p: Part)
    requires p.Ok() && LeftBy(s, p)
    ensures Holds(s.queue, p.msg, p.Came()) && s.next == None && forall j | j in p.Came() :: j < |p.msg|
  {
    hide FlowOk, Message;
  }

  // ---- any number of messages -------------------------------------------------------------

  ghost predicate AllOk(parts: seq<Part>) { forall i | 0 <= i < |parts| :: parts[i].Ok() }

  ghost function Arriving(parts: seq<Part>): seq<Item>
    requires AllOk(parts)
  {
    if parts == [] then [] else Items(parts[0]) + Arriving(parts[1..])
  }

  /** Each message comes in behind a whole one, or its first fragment repeats what was left. */
  ghost predicate Recognised(parts: seq<Part>)
    requires AllOk(parts)
  {
    forall i | 0 < i < |parts| :: parts[i - 1].Whole() || Restarts(parts[i - 1], parts[i])
  }

  function Came(p: Part): seq<Item> { Kept(p.msg, p.Came(), |p.msg|) }

  /** What came of each message, in the order of its fragments; of the last one only if that is
      all. */
  function Outputs(parts: seq<Part>): seq<Item> {
    if parts == [] then []
    else (if |parts| > 1 || parts[0].Whole() then Came(parts[0]) else []) + Outputs(parts[1..])
  }

  /** Nothing is held, or what is left of the last message. */
  ghost predicate EndsWith(s: Flow, parts: seq<Part>)
    requires AllOk(parts) && parts != []
  {
    var last := parts[|parts| - 1];
    if last.Whole() then Idle(s) else LeftBy(s, last)
  }

  lemma WholeCame(p: Part)
    requires p.Ok() && p.Whole()
    ensures Came(p) == p.msg
  {
    hide Message;
    SeenCount(p.arr, |p.arr|);
    PartBelow(p);
    FullSet(p.Came(), |p.msg|);
    KeptAll(p.msg, p.Came(), |p.msg|);
    assert p.msg[..|p.msg|] == p.msg;
  }

  lemma PartBelow(p: Part)
    requires p.Ok()
    ensures forall j | j in p.Came() :: j < |p.msg|
  {
    hide Message;
    assert p.arr[..|p.arr|] == p.arr;
  }

  /** Messages one after the other on a flow that was idle, each with some or all of its
      fragments in any order: each whole one is written whole, at its last arrival, and what came
      of the others is written in its order before the next message, if that is recognised. */
  lemma {:induction false} LossyMessages(run: seq<Flow>, parts: seq<Part>)
    requires AllOk(parts) && parts != [] && Recognised(parts) && Run(run, Arriving(parts)) && Idle(run[0])
    ensures run[|run| - 1].written == run[0].written + Outputs(parts) && EndsWith(run[|run| - 1], parts)
  {
    hide Step, Message, Idle, LeftBy, Restarts, Run, Kept;
    var items := Items(parts[0]);
    PartsOfRun(run, items, Arriving(parts[1..]));
    FromIdleFlow(run[..|items| + 1], parts[0]);
    assert run[..|items| + 1][0] == run[0];
    if parts[0].Whole() { WholeCame(parts[0]); }
    LossyRest(run[|items|..], parts, run[0].written);
  }

  lemma PartsOfRun(run: seq<Flow>, a: seq<Item>, b: seq<Item>)
    requires Run(run, a + b)
    ensures |run| == |a| + |b| + 1 && Run(run[..|a| + 1], a) && Run(run[|a|..], b)
  {
    Dnp3Flows.RunParts(run, a, b);
  }

  /** The run behind the first message, by what that left. */
  lemma {:induction false} LossyRest(run: seq<Flow>, parts: seq<Part>, before: seq<Item>)
    requires AllOk(parts) && parts != [] && Recognised(parts) && Run(run, Arriving(parts[1..]))
    requires var s := run[0];
             if parts[0].Whole() then Idle(s) && s.written == before + Came(parts[0])
             else LeftBy(s, parts[0]) && s.written == before
    ensures run[|run| - 1].written == before + Outputs(parts) && EndsWith(run[|run| - 1], parts)
    decreases |parts|
  {
    hide Step, Message, Idle, LeftBy, Restarts, Run, Kept;
    if |parts| == 1 {
      LengthOfRun(run);
      assert parts[1..] == [] && Outputs([]) == [];
      assert before + [] == before;
    } else {
      var (p, q, rest) := (parts[0], parts[1], parts[1..]);
      assert rest[0] == q && Recognised(rest) by { RecognisedRest(parts); }
      var items := Items(q);
      PartsOfRun(run, items, Arriving(rest[1..]));
      var next := run[..|items| + 1];
      assert next[0] == run[0] && next[|items|] == run[|items|..][0];
      assert p.Whole() || Restarts(p, q);
      if p.Whole() { FromIdleFlow(next, q); } else { FromLeftFlow(next, p, q); }
      if q.Whole() { WholeCame(q); }
      LossyRest(run[|items|..], rest, before + Came(p));
      assert before + Came(p) + Outputs(rest) == before + (Came(p) + Outputs(rest));
      assert rest[|rest| - 1] == parts[|parts| - 1];
    }
  }

  lemma LengthOfRun(run: seq<Flow>)
    requires Run(run, [])
    ensures |run| == 1
  {
  }

  lemma RecognisedRest(parts: seq<Part>)
    requires AllOk(parts) && parts != [] && Recognised(parts)
    ensures AllOk(parts[1..]) && Recognised(parts[1..])
  {
    hide Restarts;
    forall i | 0 < i < |parts[1..]| ensures parts[1..][i - 1].Whole() || Restarts(parts[1..][i - 1], parts[1..][i]) {
      assert parts[i + 1 - 1].Whole() || Restarts(parts[i + 1 - 1], parts[i + 1]);
    }
  }

  /** The same on one flow of many, whatever the other flows do in between. */
  lemma LossyInterleaved(states: seq<Dnp3Flows.State>, items: seq<Item>, id: nat, parts: seq<Part>)
    requires Dnp3Flows.HandlerRun(states, items) && id > 0
    requires AllOk(parts) && parts != [] && Recognised(parts) && Dnp3Flows.OfFlow(items, id) == Arriving(parts)
    ensures var s := Dnp3Flows.At(states[|items|], id); s.written == Outputs(parts) && EndsWith(s, parts)
  {
    hide Message, Run, Dnp3Flows.HandlerRun, Idle, Recognised, LeftBy, Kept;
    var own := Dnp3Flows.FlowsApart(states, items, id, |items|);
    assert items[..|items|] == items;
    RunShape(own, Dnp3Flows.OfFlow(items, id));
    Dnp3Flows.EmptyIdle();
    LossyMessages(own, parts);
    assert [] + Outputs(parts) == Outputs(parts);
  }

  // ---- when nothing is repeated -----------------------------------------------------------

  /** A fragment that repeats nothing joins what is left of the other message. */
  lemma JoinsLeft(s: Flow, p: Part, q: Part, s': Flow)
    requires p.Ok() && q.Ok() && LeftBy(s, p) && !Restarts(p, q) && Step(s, q.msg[q.arr[0]], s')
    ensures var t := Queued(s, q.msg[q.arr[0]]); if Complete(t) then Flushed(t, s') else s' == t
  {
    hide Message, LeftBy, Restarts, Duplicate, Flushed, Queued, Complete;
    DuplicateIff(s, p, q);
    PartIsFragment(q.msg, q.start, q.arr[0]);
    var s1: Flow :| FragmentStep(s, q.msg[q.arr[0]], s', s1);
  }

  const MIDDLE := Item(Frame(12, false, false, 1, 7), [])
  const FIR := Item(Frame(12, true, false, 1, 20), [])
  const FIN := Item(Frame(12, false, true, 1, 21), [])

  /** Such a run: of one message only a middle fragment came, and the next, which is whole and in
      order, is held with it and not written. */
  lemma MixedHolds() returns (states: seq<Flow>)
    ensures Run(states, [MIDDLE, FIR, FIN]) && states[0] == EMPTY_FLOW
    ensures states[3].written == [] && states[3].queue == multiset{MIDDLE, FIR, FIN}
  {
    hide Flushed;
    var (s0, s1) := (EMPTY_FLOW, Queued(EMPTY_FLOW, MIDDLE));
    var s2 := Queued(s1, FIR);
    var s3 := Queued(s2, FIN);
    states := [s0, s1, s2, s3];
    assert FragmentStep(s0, MIDDLE, s1, s0);
    assert FragmentStep(s1, FIR, s2, s1);
    assert |s3.queue| == 3;
    assert FragmentStep(s2, FIN, s3, s2);
  }
}
