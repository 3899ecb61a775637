/** Collecting the transport fragments of a DNP3 flow (clause 8 of IEEE Std 1815-2012): they
    are held until the message is complete and then written from FIR to FIN. */
module Dnp3Reorder {
  import opened Options
  import opened Dnp3Frame
  import opened StreamReader
  import opened PriorityQueue
  import opened IndexedQueue

  /** The comparator: true when the first comes out later than the second. */
  function FragCmp(l: Frame, r: Frame): bool {
    if r.fir then true
    else if l.fir then false
    else if r.fin then false
    else if l.fin then true
    else if l.sequence > r.sequence then l.sequence - r.sequence < r.sequence + 64 - l.sequence
    else !(r.sequence - l.sequence < l.sequence + 64 - r.sequence)
  }

  function Less(l: Item, r: Item): bool { FragCmp(l.frame, r.frame) }

  /** The state of one flow, with what it has written. */
  datatype Flow = Flow(queue: multiset<Item>, next: Option<Item>, hasSeq: set<nat>, hasFin: bool, hasFir: bool,
                       finSeq: nat, firSeq: nat, written: seq<Item>)

  /** All of the queue, popped one top after the other. */
  ghost predicate Emptied(q: multiset<Item>, t: Option<Item>, out: seq<Item>)
    decreases |out|
  {
    match t
    case None => out == []
    case Some(x) =>
      && out != [] && out[0] == x
      && exists u: Option<Item> :: TopOf(Less, q - multiset{x}, u) && Emptied(q - multiset{x}, u, out[1..])
  }

  function AsSeq(o: Option<Item>): seq<Item> { if o.None? then [] else [o.value] }

  function Cleared(s: Flow, out: seq<Item>): Flow {
    s.(queue := multiset{}, next := None, hasSeq := {}, hasFin := false, hasFir := false,
       written := s.written + out + AsSeq(s.next))
  }

  ghost predicate Flushed(s: Flow, s': Flow) {
    exists t: Option<Item>, out: seq<Item> ::
      TopOf(Less, s.queue, t) && Emptied(s.queue, t, out) && s' == Cleared(s, out)
  }

  predicate Duplicate(s: Flow, f: Frame) {
    (s.hasFir && f.fir) || (s.hasFin && f.fin) || f.sequence in s.hasSeq
  }

  function Queued(s: Flow, i: Item): Flow {
    var f := i.frame;
    s.(queue := s.queue + multiset{i}, hasSeq := s.hasSeq + {f.sequence},
       hasFin := s.hasFin || f.fin, finSeq := if f.fin then f.sequence else s.finSeq,
       hasFir := s.hasFir || f.fir, firSeq := if f.fir then f.sequence else s.firSeq)
  }

  /** The number of held fragments spans from FIR to FIN. */
  predicate Complete(s: Flow) {
    s.hasFir && s.hasFin && (s.firSeq + |s.queue| - 1) % 64 == s.finSeq
  }

  /** A fragment: a duplicate flushes what is held; a full set is flushed. */
  ghost predicate FragmentStep(s: Flow, i: Item, s': Flow, s1: Flow) {
    && (if Duplicate(s, i.frame) then Flushed(s, s1) else s1 == s)
    && (if Complete(Queued(s1, i)) then Flushed(Queued(s1, i), s') else s' == Queued(s1, i))
  }

  /** One frame of the flow.  An unfragmented frame waits behind held fragments, and flushes
      them when another one waits already. */
  ghost predicate Step(s: Flow, i: Item, s': Flow) {
    if i.frame.IsFragment() then exists s1: Flow :: FragmentStep(s, i, s', s1)
    else if s.next.Some? then exists s1: Flow :: Flushed(s, s1) && s' == s1.(written := s1.written + [i])
    else if s.queue != multiset{} then s' == s.(next := Some(i))
    else s' == s.(written := s.written + [i])
  }

  // ---- the flow, updated in place ---------------------------------------------------------

  class TransportFlow {
    const id: nat
    const fragQ: Queue<Item>
    var pNextFrame: Option<Item>
    var hasSeq: set<nat>
    var hasFin: bool
    var hasFir: bool
    var finSeq: nat
    var firSeq: nat
    var written: seq<Item>   // the frames of this flow given to the write handler

    ghost function View(): Flow
      reads this, fragQ
    {
      Flow(fragQ.Elements(), pNextFrame, hasSeq, hasFin, hasFir, finSeq, firSeq, written)
    }

    constructor (id: nat)
      ensures this.id == id && fresh(fragQ) && fragQ.less == Less
      ensures View() == Flow(multiset{}, None, {}, false, false, 0, 0, [])
    {
      this.id := id;
      fragQ := new Queue(Less);
      pNextFrame, hasSeq, hasFin, hasFir, finSeq, firSeq, written := None, {}, false, false, 0, 0, [];
    }

    /** Writes the whole queue, top by top. */
    method PopAll() returns (ghost first: Option<Item>, ghost out: seq<Item>)
      requires fragQ.less == Less
      modifies this`written, fragQ
      ensures TopOf(Less, old(fragQ.Elements()), first) && Emptied(old(fragQ.Elements()), first, out)
      ensures fragQ.Elements() == multiset{} && written == old(written) + out
    {
      hide Less, TopOf, Emptied, Reached;
      out := [];
      var top := fragQ.Top();
      first := top;
      ghost var q0 := fragQ.Elements();
      ReachedStart(q0, first);
      while top.Some?
        invariant TopOf(Less, fragQ.Elements(), top) && Reached(q0, first, out, fragQ.Elements(), top)
        invariant written == old(written) + out
        decreases |fragQ.heap|
      {
        var t := top.value;
        ghost var q := fragQ.Elements();
        TopIsIn(Less, q, t);
        written := written + [t];
        fragQ.Pop(t);
        top := fragQ.Top();
        ReachedNext(q0, first, out, q, t, top);
        assert |multiset(fragQ.heap)| == |q| - 1;
        out := out + [t];
      }
      ReachedEnd(q0, first, out, fragQ.Elements());
    }

    method Flush()
      requires fragQ.less == Less
      modifies this, fragQ
      ensures Flushed(old(View()), View())
    {
      hide Less, TopOf, Emptied;
      ghost var s := View();
      ghost var first, out := PopAll();
      hasFin := false;
      hasFir := false;
      hasSeq := {};
      if pNextFrame.Some? {
        written := written + [pNextFrame.value];
        pNextFrame := None;
      }
      assert View() == Cleared(s, out);
    }

    method QueueFragment(frame: Item)
      modifies this, fragQ
      ensures View() == Queued(old(View()), frame)
    {
      if frame.frame.fin {
        hasFin := true;
        finSeq := frame.frame.sequence;
      }
      if frame.frame.fir {
        hasFir := true;
        firSeq := frame.frame.sequence;
      }
      hasSeq := hasSeq + {frame.frame.sequence};
      fragQ.Push(frame);
    }

    method HandleFragment(frame: Item)
      requires fragQ.less == Less && frame.frame.IsFragment()
      modifies this, fragQ
      ensures Step(old(View()), frame, View())
    {
      hide Less, Flushed, Queued;
      ghost var s := View();
      if (hasFir && frame.frame.fir) || (hasFin && frame.frame.fin) || frame.frame.sequence in hasSeq {
        Flush();
      }
      ghost var s1 := View();
      QueueFragment(frame);
      ghost var s2 := View();
      assert |fragQ.heap| == |fragQ.Elements()|;
      if hasFir && hasFin && (firSeq + |fragQ.heap| - 1) % 64 == finSeq {
        Flush();
      }
      assert FragmentStep(s, frame, View(), s1);
    }

    method HandleFrame(frame: Item)
      requires fragQ.less == Less
      modifies this, fragQ
      ensures Step(old(View()), frame, View())
    {
      hide Less, Flushed, FragmentStep;
      if frame.frame.IsFragment() {
        HandleFragment(frame);
      } else {
        assert fragQ.heap != [] <==> fragQ.Elements() != multiset{} by { QueueEmpty(fragQ.heap); }
        if pNextFrame.Some? {
          Flush();
          written := written + [frame];
        } else if fragQ.heap != [] {
          pNextFrame := Some(frame);
        } else {
          written := written + [frame];
        }
      }
    }
  }

  lemma QueueEmpty(h: seq<Item>)
    ensures h != [] <==> multiset(h) != multiset{}
  {
    if h != [] { assert h[0] in multiset(h); }
  }

  ghost predicate Reached(q0: multiset<Item>, t0: Option<Item>, out: seq<Item>, q: multiset<Item>, t: Option<Item>) {
    forall rest: seq<Item> :: Emptied(q, t, rest) ==> Emptied(q0, t0, out + rest)
  }

  lemma ReachedStart(q: multiset<Item>, t: Option<Item>)
    ensures Reached(q, t, [], q, t)
  {
    hide Emptied;
    assert forall rest: seq<Item> :: [] + rest == rest;
  }

  lemma ReachedNext(q0: multiset<Item>, t0: Option<Item>, out: seq<Item>, q: multiset<Item>, t: Item, u: Option<Item>)
    requires Reached(q0, t0, out, q, Some(t)) && TopOf(Less, q - multiset{t}, u)
    ensures Reached(q0, t0, out + [t], q - multiset{t}, u)
  {
    hide TopOf, Less;
    forall rest: seq<Item> | Emptied(q - multiset{t}, u, rest) ensures Emptied(q0, t0, out + [t] + rest) {
      assert ([t] + rest)[1..] == rest;
      assert Emptied(q, Some(t), [t] + rest);
      assert out + [t] + rest == out + ([t] + rest);
    }
  }

  lemma ReachedEnd(q0: multiset<Item>, t0: Option<Item>, out: seq<Item>, q: multiset<Item>)
    requires Reached(q0, t0, out, q, None) && TopOf(Less, q, None)
    ensures Emptied(q0, t0, out) && q == multiset{}
  {
    assert Emptied(q, None, []);
    assert out + [] == out;
  }

  // ---- what every flow keeps --------------------------------------------------------------

  predicate Numbered64(i: Item) { i.frame.sequence < 64 }

  ghost predicate Recorded(q: multiset<Item>, hasSeq: set<nat>) {
    forall x | x in q :: x.frame.IsFragment() && Numbered64(x) && x.frame.sequence in hasSeq
  }

  ghost predicate Backed(q: multiset<Item>, hasSeq: set<nat>) {
    forall n | n in hasSeq :: n < 64 && exists x :: x in q && x.frame.sequence == n
  }

  ghost predicate Distinct(q: multiset<Item>) {
    forall x, y | x in q && y in q && x != y :: x.frame.sequence != y.frame.sequence
  }

  /** Held fragments are told apart by their numbers, which are the recorded ones. */
  ghost predicate NumbersOk(q: multiset<Item>, hasSeq: set<nat>) {
    Recorded(q, hasSeq) && Backed(q, hasSeq) && Distinct(q) && |q| == |hasSeq|
  }

  /** The flags tell whether FIR and FIN are held, and with which numbers. */
  ghost predicate FlagsOk(s: Flow) {
    && (s.hasFir <==> exists x :: x in s.queue && x.frame.fir)
    && (s.hasFin <==> exists x :: x in s.queue && x.frame.fin)
    && (forall x | x in s.queue && x.frame.fir :: x.frame.sequence == s.firSeq)
    && (forall x | x in s.queue && x.frame.fin :: x.frame.sequence == s.finSeq)
  }

  /** The book-keeping agrees with the queue, and a saved frame waits behind held fragments. */
  ghost predicate FlowOk(s: Flow) {
    NumbersOk(s.queue, s.hasSeq) && FlagsOk(s) && (s.next.Some? ==> s.queue != multiset{})
  }

  lemma {:induction false} AtMost(s: set<nat>, bound: nat)
    requires forall n | n in s :: n < bound
    ensures |s| <= bound
  {
    if bound == 0 {
      assert s == {};
    } else {
      AtMost(s - {bound - 1}, bound - 1);
    }
  }

  lemma NumbersAdd(q: multiset<Item>, hasSeq: set<nat>, i: Item)
    requires NumbersOk(q, hasSeq) && i.frame.IsFragment() && Numbered64(i) && i.frame.sequence !in hasSeq
    ensures NumbersOk(q + multiset{i}, hasSeq + {i.frame.sequence})
  {
    hide Recorded, Backed, Distinct;
    RecordedAdd(q, hasSeq, i);
    BackedAdd(q, hasSeq, i);
    DistinctAdd(q, hasSeq, i);
  }

  lemma RecordedAdd(q: multiset<Item>, hasSeq: set<nat>, i: Item)
    requires Recorded(q, hasSeq) && i.frame.IsFragment() && Numbered64(i)
    ensures Recorded(q + multiset{i}, hasSeq + {i.frame.sequence})
  {
  }

  lemma BackedAdd(q: multiset<Item>, hasSeq: set<nat>, i: Item)
    requires Backed(q, hasSeq) && Numbered64(i)
    ensures Backed(q + multiset{i}, hasSeq + {i.frame.sequence})
  {
    var (r, more) := (q + multiset{i}, hasSeq + {i.frame.sequence});
    assert i in r;
    forall n | n in more ensures n < 64 && exists x :: x in r && x.frame.sequence == n {
      if n in hasSeq {
        var x :| x in q && x.frame.sequence == n;
        assert x in r;
      }
    }
  }

  lemma DistinctAdd(q: multiset<Item>, hasSeq: set<nat>, i: Item)
    requires Distinct(q) && Recorded(q, hasSeq) && i.frame.sequence !in hasSeq
    ensures Distinct(q + multiset{i})
  {
  }

  lemma FlagsAdd(s: Flow, i: Item)
    requires FlagsOk(s) && !Duplicate(s, i.frame)
    ensures FlagsOk(Queued(s, i))
  {
    var r := Queued(s, i).queue;
    assert i in r && forall x | x in s.queue :: x in r;
  }

  lemma QueuedOk(s: Flow, i: Item)
    requires FlowOk(s) && !Duplicate(s, i.frame) && i.frame.IsFragment() && Numbered64(i)
    ensures FlowOk(Queued(s, i))
  {
    NumbersAdd(s.queue, s.hasSeq, i);
    FlagsAdd(s, i);
    assert i in Queued(s, i).queue;
  }

  lemma FlushedOk(s: Flow, s': Flow)
    requires Flushed(s, s')
    ensures FlowOk(s') && forall f :: !Duplicate(s', f)
  {
    hide TopOf, Emptied, Less;
    var t: Option<Item>, out: seq<Item> :| TopOf(Less, s.queue, t) && Emptied(s.queue, t, out) && s' == Cleared(s, out);
  }

  /** Every step keeps the book-keeping, and no flow ever holds more than 64 fragments. */
  lemma StepKeeps(s: Flow, i: Item, s': Flow)
    requires FlowOk(s) && Numbered64(i) && Step(s, i, s')
    ensures FlowOk(s') && |s'.queue| <= 64
  {
    hide Flushed, Duplicate, Complete, Queued, FlagsOk;
    if i.frame.IsFragment() {
      var s1: Flow :| FragmentStep(s, i, s', s1);
      if Duplicate(s, i.frame) { FlushedOk(s, s1); }
      QueuedOk(s1, i);
      if Complete(Queued(s1, i)) { FlushedOk(Queued(s1, i), s'); }
    } else if s.next.Some? {
      var s1: Flow :| Flushed(s, s1) && s' == s1.(written := s1.written + [i]);
      FlushedOk(s, s1);
      FlagsOfQueue(s1, s');
    } else {
      FlagsOfQueue(s, s');
    }
    AtMost(s'.hasSeq, 64);
  }

  lemma FlagsOfQueue(s: Flow, s': Flow)
    requires FlagsOk(s) && s'.queue == s.queue && s'.hasFir == s.hasFir && s'.hasFin == s.hasFin
    requires s'.firSeq == s.firSeq && s'.finSeq == s.finSeq
    ensures FlagsOk(s')
  {
  }

  // ---- nothing is lost --------------------------------------------------------------------

  /** All the frames a flow has written or keeps. */
  ghost function Total(s: Flow): multiset<Item> {
    multiset(s.written) + s.queue + multiset(AsSeq(s.next))
  }

  lemma {:induction false} EmptiedAll(q: multiset<Item>, t: Option<Item>, out: seq<Item>)
    requires TopOf(Less, q, t) && Emptied(q, t, out)
    ensures multiset(out) == q
    decreases |out|
  {
    hide Less, TopOf;
    match t {
      case None => TopNone(q);
      case Some(x) =>
        TopIsIn(Less, q, x);
        var u: Option<Item> :| TopOf(Less, q - multiset{x}, u) && Emptied(q - multiset{x}, u, out[1..]);
        EmptiedAll(q - multiset{x}, u, out[1..]);
        ConsAll(q, x, out);
    }
  }

  lemma ConsAll(q: multiset<Item>, x: Item, out: seq<Item>)
    requires x in q && out != [] && out[0] == x && multiset(out[1..]) == q - multiset{x}
    ensures multiset(out) == q
  {
    assert out == [x] + out[1..];
  }

  lemma TopNone(q: multiset<Item>)
    requires TopOf(Less, q, None)
    ensures q == multiset{}
  {
  }

  lemma FlushedTotal(s: Flow, s': Flow)
    requires Flushed(s, s')
    ensures Total(s') == Total(s) && s'.queue == multiset{} && s'.next == None
  {
    hide TopOf, Emptied, Less;
    var t: Option<Item>, out: seq<Item> :| TopOf(Less, s.queue, t) && Emptied(s.queue, t, out) && s' == Cleared(s, out);
    EmptiedAll(s.queue, t, out);
    assert multiset(s.written + out + AsSeq(s.next)) == multiset(s.written) + multiset(out) + multiset(AsSeq(s.next));
  }

  /** One step loses and invents nothing, whatever the numbers. */
  lemma StepConserves(s: Flow, i: Item, s': Flow)
    requires Step(s, i, s')
    ensures Total(s') == Total(s) + multiset{i}
  {
    hide Flushed, Duplicate, Complete, Queued, Total;
    if i.frame.IsFragment() {
      var s1: Flow :| FragmentStep(s, i, s', s1);
      if Duplicate(s, i.frame) { FlushedTotal(s, s1); }
      QueuedTotal(s1, i);
      if Complete(Queued(s1, i)) { FlushedTotal(Queued(s1, i), s'); }
    } else if s.next.Some? {
      var s1: Flow :| Flushed(s, s1) && s' == s1.(written := s1.written + [i]);
      FlushedTotal(s, s1);
      WrittenTotal(s1, i);
    } else if s.queue == multiset{} {
      WrittenTotal(s, i);
    } else {
      SavedTotal(s, i);
    }
  }

  lemma SavedTotal(s: Flow, i: Item)
    requires s.next == None
    ensures Total(s.(next := Some(i))) == Total(s) + multiset{i}
  {
  }

  lemma QueuedTotal(s: Flow, i: Item)
    ensures Total(Queued(s, i)) == Total(s) + multiset{i}
  {
  }

  lemma WrittenTotal(s: Flow, i: Item)
    ensures Total(s.(written := s.written + [i])) == Total(s) + multiset{i}
  {
    assert multiset(s.written + [i]) == multiset(s.written) + multiset{i};
  }

  ghost predicate Run(states: seq<Flow>, items: seq<Item>) {
    |states| == |items| + 1 && forall k | 0 <= k < |items| :: Step(states[k], items[k], states[k + 1])
  }

  const EMPTY_FLOW := Flow(multiset{}, None, {}, false, false, 0, 0, [])

  lemma EmptyOk()
    ensures FlowOk(EMPTY_FLOW) && Total(EMPTY_FLOW) == multiset{}
  {
  }

  /** Over every run of a flow: what was received is what was written or is still held, and
      the book-keeping holds throughout. */
  lemma {:induction false} RunConserves(states: seq<Flow>, items: seq<Item>, k: nat)
    requires Run(states, items) && k <= |items| && states[0] == EMPTY_FLOW
    requires forall i | i in items :: Numbered64(i)
    ensures Total(states[k]) == multiset(items[..k])
    ensures FlowOk(states[k]) && |states[k].queue| <= 64
  {
    hide Step, FlowOk, Total;
    if k == 0 {
      EmptyOk();
      assert items[..0] == [];
    } else {
      RunConserves(states, items, k - 1);
      assert items[k - 1] in items;
      StepConserves(states[k - 1], items[k - 1], states[k]);
      StepKeeps(states[k - 1], items[k - 1], states[k]);
      assert items[..k] == items[..k - 1] + [items[k - 1]];
    }
  }

  // ---- a message in any order -------------------------------------------------------------

  /** The fragments of one message: FIR first, FIN last, numbered consecutively modulo 64. */
  ghost predicate Message(msg: seq<Item>, start: nat) {
    |msg| >= 2 && forall i | 0 <= i < |msg| :: IsPart(msg[i], start, |msg|, i)
  }

  predicate IsPart(x: Item, start: nat, n: nat, i: nat) {
    && (x.frame.fir <==> i == 0) && (x.frame.fin <==> i == n - 1)
    && x.frame.sequence == (start + i) % 64
  }

  lemma ModShift64(x: nat, d: nat)
    requires d < 64
    ensures (x + d) % 64 == if x % 64 + d < 64 then x % 64 + d else x % 64 + d - 64
  {
  }

  /** The comparator is the order of the fragments while the middle ones span less than 32. */
  lemma CmpIsOrder(l: Item, r: Item, start: nat, n: nat, i: nat, j: nat)
    requires IsPart(l, start, n, i) && IsPart(r, start, n, j) && 2 <= n <= 34 && i < n && j < n && i != j
    ensures FragCmp(l.frame, r.frame) <==> i > j
  {
    if 0 < i < n - 1 && 0 < j < n - 1 {
      if i > j { ModShift64(start + j, i - j); } else { ModShift64(start + i, j - i); }
    }
  }

  ghost predicate CmpOrders(n: nat) {
    forall l, r, start: nat, i: nat, j: nat | IsPart(l, start, n, i) && IsPart(r, start, n, j) && i < n && j < n
        && i != j ::
      FragCmp(l.frame, r.frame) <==> i > j
  }

  /** 34 fragments is the limit: of 35, the 34th is not put after the second. */
  lemma LimitIs34(n: nat)
    requires n >= 2
    ensures CmpOrders(n) <==> n <= 34
  {
    if n <= 34 {
      forall l, r, start: nat, i: nat, j: nat | IsPart(l, start, n, i) && IsPart(r, start, n, j) && i < n && j < n
          && i != j
        ensures FragCmp(l.frame, r.frame) <==> i > j
      {
        CmpIsOrder(l, r, start, n, i, j);
      }
    } else {
      var f := Frame(0, false, false, 0, 0);
      var (l, r) := (Item(f.(sequence := 33), []), Item(f.(sequence := 1), []));
      assert IsPart(l, 0, n, 33) && IsPart(r, 0, n, 1);
    }
  }

  lemma MessageAgrees(msg: seq<Item>, start: nat, held: set<nat>)
    requires Message(msg, start) && |msg| <= 34 && forall i | i in held :: i < |msg|
    ensures Agrees(Less, msg, held)
  {
    forall i, j | i in held && j in held && i != j
      ensures msg[i] != msg[j] && (Less(msg[i], msg[j]) <==> i > j)
    {
      CmpIsOrder(msg[i], msg[j], start, |msg|, i, j);
      NumbersDiffer(msg, start, i, j);
    }
  }

  lemma NumbersDiffer(msg: seq<Item>, start: nat, i: nat, j: nat)
    requires Message(msg, start) && |msg| <= 64 && i < |msg| && j < |msg| && i != j
    ensures msg[i].frame.sequence != msg[j].frame.sequence
  {
    if i > j { ModShift64(start + j, i - j); } else { ModShift64(start + i, j - i); }
  }

  /** What the flush writes: the held fragments in order. */
  lemma {:induction false} EmptiedInOrder(q: multiset<Item>, t: Option<Item>, out: seq<Item>,
                                          msg: seq<Item>, held: set<nat>, m: nat)
    requires Holds(q, msg, held) && Agrees(Less, msg, held) && m <= |msg|
    requires forall j: nat :: j in held <==> m <= j < |msg|
    requires TopOf(Less, q, t) && Emptied(q, t, out)
    ensures out == msg[m..]
    decreases |out|
  {
    hide Less, TopOf, Holds, Agrees;
    match t {
      case None =>
        NothingHeld(Less, q, msg, held);
        assert m < |msg| ==> m in held;
      case Some(x) =>
        var i := TopIsLeast(Less, q, msg, held, x);
        assert m in held;
        var u: Option<Item> :| TopOf(Less, q - multiset{x}, u) && Emptied(q - multiset{x}, u, out[1..]);
        HoldsRemove(Less, q, msg, held, i);
        EmptiedInOrder(q - multiset{x}, u, out[1..], msg, held - {i}, m + 1);
        assert out == [x] + out[1..];
    }
  }

  /** Some fragments of the message are held, and perhaps an unfragmented frame; nothing was written. */
  ghost predicate Partial(s: Flow, before: seq<Item>, next: Option<Item>, msg: seq<Item>, start: nat, seen: set<nat>)
    requires |msg| >= 2
  {
    && Holds(s.queue, msg, seen) && s.next == next && s.written == before
    && (forall n | n in s.hasSeq :: exists i :: i in seen && i < |msg| && msg[i].frame.sequence == n)
    && (s.hasFir <==> 0 in seen) && (s.hasFir ==> s.firSeq == start % 64)
    && (s.hasFin <==> |msg| - 1 in seen) && (s.hasFin ==> s.finSeq == (start + |msg| - 1) % 64)
  }

  lemma NotDuplicate(s: Flow, before: seq<Item>, next: Option<Item>, msg: seq<Item>, start: nat, seen: set<nat>, i: nat)
    requires Message(msg, start) && |msg| <= 64 && Partial(s, before, next, msg, start, seen) && i < |msg| && i !in seen
    ensures !Duplicate(s, msg[i].frame)
  {
    hide Holds;
    if msg[i].frame.sequence in s.hasSeq {
      var j :| j in seen && j < |msg| && msg[j].frame.sequence == msg[i].frame.sequence;
      NumbersDiffer(msg, start, i, j);
    }
  }

  lemma QueuedPartial(s: Flow, before: seq<Item>, next: Option<Item>, msg: seq<Item>, start: nat, seen: set<nat>,
                      i: nat)
    requires Message(msg, start) && |msg| <= 34 && Partial(s, before, next, msg, start, seen) && i < |msg| && i !in seen
    requires forall j | j in seen :: j < |msg|
    ensures Partial(Queued(s, msg[i]), before, next, msg, start, seen + {i})
  {
    hide Holds, Agrees;
    MessageAgrees(msg, start, seen + {i});
    HoldsAdd(Less, s.queue, msg, seen, i);
    var more := seen + {i};
    assert i in more;
    var s' := Queued(s, msg[i]);
    forall n | n in s'.hasSeq ensures exists j :: j in more && j < |msg| && msg[j].frame.sequence == n {
      if n in s.hasSeq {
        var j :| j in seen && j < |msg| && msg[j].frame.sequence == n;
        assert j in more;
      }
    }
  }

  lemma FullSet(s: set<nat>, n: nat)
    requires forall i | i in s :: i < n
    ensures |s| <= n
    ensures |s| == n <==> forall m: nat | m < n :: m in s
  {
    AtMost(s, n);
    forall m: nat | m < n && m !in s ensures |s| < n {
      AtMost(s + {m}, n);
    }
    if forall m: nat | m < n :: m in s { AtLeast(s, n); }
  }

  lemma {:induction false} AtLeast(s: set<nat>, n: nat)
    requires forall m: nat | m < n :: m in s
    ensures |s| >= n
  {
    if n > 0 {
      AtLeast(s - {n - 1}, n - 1);
    }
  }

  /** The count of held fragments tells exactly when all of them are there. */
  lemma CompleteIff(s: Flow, before: seq<Item>, next: Option<Item>, msg: seq<Item>, start: nat, seen: set<nat>)
    requires Message(msg, start) && |msg| <= 34 && Partial(s, before, next, msg, start, seen)
    requires seen != {} && forall j | j in seen :: j < |msg|
    ensures Complete(s) <==> |seen| == |msg|
  {
    hide Holds, Agrees, Message;
    MessageAgrees(msg, start, seen);
    HoldsCount(Less, s.queue, msg, seen);
    FullSet(seen, |msg|);
    MessageLong(msg, start);
    CountModulo(start, |seen| - 1, |msg| - 1);
  }

  lemma MessageLong(msg: seq<Item>, start: nat)
    requires Message(msg, start)
    ensures |msg| >= 2
  {
  }

  lemma CountModulo(start: nat, a: nat, b: nat)
    requires a < 64 && b < 64
    ensures (start % 64 + a) % 64 == (start + b) % 64 <==> a == b
  {
    ModShift64(start, a);
    ModShift64(start, b);
  }

  /** Before the last fragment the flow only collects. */
  lemma StepPartial(s: Flow, before: seq<Item>, next: Option<Item>, msg: seq<Item>, start: nat, seen: set<nat>, i: nat,
                    s': Flow)
    requires Message(msg, start) && |msg| <= 34 && Partial(s, before, next, msg, start, seen) && i < |msg| && i !in seen
    requires (forall j | j in seen :: j < |msg|) && |seen + {i}| < |msg|
    requires Step(s, msg[i], s')
    ensures Partial(s', before, next, msg, start, seen + {i})
  {
    StepQueues(s, before, next, msg, start, seen, i, s');
    CompleteIff(Queued(s, msg[i]), before, next, msg, start, seen + {i});
  }

  lemma StepQueues(s: Flow, before: seq<Item>, next: Option<Item>, msg: seq<Item>, start: nat, seen: set<nat>, i: nat,
                   s': Flow)
    requires Message(msg, start) && |msg| <= 34 && Partial(s, before, next, msg, start, seen) && i < |msg| && i !in seen
    requires (forall j | j in seen :: j < |msg|) && Step(s, msg[i], s')
    ensures Partial(Queued(s, msg[i]), before, next, msg, start, seen + {i})
    ensures if Complete(Queued(s, msg[i])) then Flushed(Queued(s, msg[i]), s') else s' == Queued(s, msg[i])
  {
    hide Flushed, Duplicate, Complete, Queued, Partial;
    PartIsFragment(msg, start, i);
    NotDuplicate(s, before, next, msg, start, seen, i);
    QueuedPartial(s, before, next, msg, start, seen, i);
    var s1: Flow :| FragmentStep(s, msg[i], s', s1);
  }

  lemma PartIsFragment(msg: seq<Item>, start: nat, i: nat)
    requires Message(msg, start) && i < |msg|
    ensures msg[i].frame.IsFragment()
  {
    assert IsPart(msg[i], start, |msg|, i);
  }

  /** Nothing is held: how a flow starts, and how it is after every flush. */
  predicate Idle(s: Flow) {
    s.queue == multiset{} && s.next == None && s.hasSeq == {} && !s.hasFir && !s.hasFin
  }

  /** The last fragment, whichever it is, lets the whole message out. */
  lemma StepLast(s: Flow, before: seq<Item>, next: Option<Item>, msg: seq<Item>, start: nat, seen: set<nat>, i: nat,
                 s': Flow)
    requires Message(msg, start) && |msg| <= 34 && Partial(s, before, next, msg, start, seen) && i < |msg| && i !in seen
    requires (forall j | j in seen :: j < |msg|) && |seen + {i}| == |msg|
    requires Step(s, msg[i], s')
    ensures s'.written == before + msg + AsSeq(next) && Idle(s')
  {
    hide Message, Agrees, Holds, Less, Flushed, Complete, Queued, Idle;
    StepQueues(s, before, next, msg, start, seen, i, s');
    var s2 := Queued(s, msg[i]);
    CompleteIff(s2, before, next, msg, start, seen + {i});
    FullSet(seen + {i}, |msg|);
    MessageAgrees(msg, start, seen + {i});
    MessageLong(msg, start);
    FlushedInOrder(s2, before, next, msg, start, seen + {i}, s');
  }

  lemma FlushedInOrder(s: Flow, before: seq<Item>, next: Option<Item>, msg: seq<Item>, start: nat, seen: set<nat>,
                       s': Flow)
    requires |msg| >= 2 && Partial(s, before, next, msg, start, seen) && Agrees(Less, msg, seen)
    requires (forall j: nat :: j in seen <==> j < |msg|) && Flushed(s, s')
    ensures s'.written == before + msg + AsSeq(next) && Idle(s')
  {
    hide Agrees, Holds, Less, TopOf, Emptied;
    var t: Option<Item>, out: seq<Item> :| TopOf(Less, s.queue, t) && Emptied(s.queue, t, out) && s' == Cleared(s, out);
    EmptiedInOrder(s.queue, t, out, msg, seen, 0);
    assert msg[0..] == msg;
  }

  /** The arrivals lo to hi are steps of the flow, `off` states later than their number. */
  ghost predicate Takes(states: seq<Flow>, msg: seq<Item>, arr: seq<nat>, off: nat, lo: nat, hi: nat) {
    && hi <= |arr| && hi + off < |states|
    && forall i | lo <= i < hi :: arr[i] < |msg| && Step(states[i + off], msg[arr[i]], states[i + off + 1])
  }

  lemma {:induction false} Collects(msg: seq<Item>, start: nat, arr: seq<nat>, states: seq<Flow>, off: nat,
                                    before: seq<Item>, next: Option<Item>, lo: nat, k: nat)
    requires Message(msg, start) && |msg| <= 34 && Arrival(msg, arr)
    requires lo <= k < |msg| && Takes(states, msg, arr, off, lo, k) && |Seen(arr, lo)| == lo
    requires |msg| >= 2 && Partial(states[lo + off], before, next, msg, start, Seen(arr, lo))
    ensures Partial(states[k + off], before, next, msg, start, Seen(arr, k)) && |Seen(arr, k)| == k
  {
    hide Step, Partial, Message, Holds, Agrees, Seen;
    if k > lo {
      Collects(msg, start, arr, states, off, before, next, lo, k - 1);
      SeenAt(arr, k - 1, k - 1);
      SeenNext(arr, k - 1);
      SeenBelow(msg, arr, k - 1);
      StepPartial(states[k - 1 + off], before, next, msg, start, Seen(arr, k - 1), arr[k - 1], states[k + off]);
    }
  }

  lemma NothingSeen(arr: seq<nat>)
    ensures Seen(arr, 0) == {} && |Seen(arr, 0)| == 0
  {
  }

  lemma SeenBelow(msg: seq<Item>, arr: seq<nat>, k: nat)
    requires Arrival(msg, arr) && k <= |arr|
    ensures forall j | j in Seen(arr, k) :: j < |msg|
  {
    forall j | j in Seen(arr, k) ensures j < |msg| {
      var p := PositionOf(arr[..k], j);
      assert arr[p] == j;
    }
  }

  lemma IdleIsPartial(s: Flow, msg: seq<Item>, start: nat, seen: set<nat>)
    requires Idle(s) && |msg| >= 2 && seen == {}
    ensures Partial(s, s.written, None, msg, start, seen)
  {
  }

  lemma FromIdle(msg: seq<Item>, start: nat, arr: seq<nat>, states: seq<Flow>, k: nat)
    requires Message(msg, start) && |msg| <= 34 && Arrival(msg, arr) && k < |msg|
    requires Takes(states, msg, arr, 0, 0, k) && Idle(states[0])
    ensures |msg| >= 2 && Partial(states[k], states[0].written, None, msg, start, Seen(arr, k)) && |Seen(arr, k)| == k
  {
    hide Step, Partial, Message, Holds, Agrees, Seen;
    MessageLong(msg, start);
    NothingSeen(arr);
    IdleIsPartial(states[0], msg, start, Seen(arr, 0));
    Collects(msg, start, arr, states, 0, states[0].written, None, 0, k);
  }

  lemma LastWrites(msg: seq<Item>, start: nat, arr: seq<nat>, s: Flow, before: seq<Item>, next: Option<Item>, s': Flow)
    requires Message(msg, start) && |msg| <= 34 && Arrival(msg, arr) && |msg| >= 2
    requires var k := |msg| - 1; Partial(s, before, next, msg, start, Seen(arr, k)) && |Seen(arr, k)| == k
                                 && Step(s, msg[arr[k]], s')
    ensures s'.written == before + msg + AsSeq(next) && Idle(s')
  {
    hide Step, Message, Holds, Agrees, Idle, Partial, Seen;
    var k := |msg| - 1;
    SeenAt(arr, k, k);
    SeenBelow(msg, arr, k);
    StepLast(s, before, next, msg, start, Seen(arr, k), arr[k], s');
  }

  /** A message of 2 to 34 fragments, starting with any number and arriving in any order on an
      idle flow, is written as a whole at the last arrival and not before; the flow is then
      idle again. */
  lemma AnyOrder(msg: seq<Item>, start: nat, arr: seq<nat>, states: seq<Flow>)
    requires Message(msg, start) && |msg| <= 34 && Arrival(msg, arr)
    requires Run(states, Arrivals(msg, arr)) && Idle(states[0])
    ensures forall k | 0 <= k < |msg| :: states[k].written == states[0].written
    ensures states[|msg|].written == states[0].written + msg && Idle(states[|msg|])
  {
    hide Step, Message, Holds, Agrees, Idle, Seen;
    assert forall i | 0 <= i < |arr| :: Arrivals(msg, arr)[i] == msg[arr[i]];
    MessageLong(msg, start);
    forall k | 0 <= k < |msg| ensures states[k].written == states[0].written {
      FromIdle(msg, start, arr, states, k);
    }
    var k := |msg| - 1;
    FromIdle(msg, start, arr, states, k);
    LastWrites(msg, start, arr, states[k], states[0].written, None, states[k + 1]);
    assert states[0].written + msg + [] == states[0].written + msg;
  }

  lemma SavesNext(s: Flow, before: seq<Item>, msg: seq<Item>, start: nat, seen: set<nat>, u: Item, s': Flow)
    requires |msg| >= 2 && Partial(s, before, None, msg, start, seen) && seen != {}
    requires !u.frame.IsFragment() && Step(s, u, s')
    ensures Partial(s', before, Some(u), msg, start, seen)
  {
    hide Flushed, FragmentStep;
    var i :| i in seen;
    assert s.queue[msg[i]] == 1;
  }

  /** An unfragmented frame that arrives among the fragments of such a message waits, and is
      written right after the message. */
  lemma SavedFollows(msg: seq<Item>, start: nat, arr: seq<nat>, p: nat, u: Item, states: seq<Flow>)
    requires Message(msg, start) && |msg| <= 34 && Arrival(msg, arr) && 0 < p < |msg| && !u.frame.IsFragment()
    requires Run(states, Arrivals(msg, arr)[..p] + [u] + Arrivals(msg, arr)[p..]) && Idle(states[0])
    ensures forall k | 0 <= k <= |msg| :: states[k].written == states[0].written
    ensures states[|msg| + 1].written == states[0].written + msg + [u] && Idle(states[|msg| + 1])
  {
    hide Step, Message, Holds, Agrees, Idle, Seen, Partial;
    MessageLong(msg, start);
    var (n, before) := (|msg|, states[0].written);
    var items := Arrivals(msg, arr)[..p] + [u] + Arrivals(msg, arr)[p..];
    SplitRun(msg, arr, p, u, states, items);
    FromIdle(msg, start, arr, states, p);
    assert Seen(arr, p) != {};
    SavesNext(states[p], before, msg, start, Seen(arr, p), u, states[p + 1]);
    forall k | 0 <= k <= n ensures states[k].written == before {
      if k <= p {
        FromIdle(msg, start, arr, states, k);
        PartialWrites(states[k], before, None, msg, start, Seen(arr, k));
      } else {
        Collects(msg, start, arr, states, 1, before, Some(u), p, k - 1);
        PartialWrites(states[k], before, Some(u), msg, start, Seen(arr, k - 1));
      }
    }
    Collects(msg, start, arr, states, 1, before, Some(u), p, n - 1);
    assert Step(states[n], msg[arr[n - 1]], states[n + 1]);
    LastWrites(msg, start, arr, states[n], before, Some(u), states[n + 1]);
  }

  lemma PartialWrites(s: Flow, before: seq<Item>, next: Option<Item>, msg: seq<Item>, start: nat, seen: set<nat>)
    requires |msg| >= 2 && Partial(s, before, next, msg, start, seen)
    ensures s.written == before
  {
  }

  lemma SplitRun(msg: seq<Item>, arr: seq<nat>, p: nat, u: Item, states: seq<Flow>, items: seq<Item>)
    requires Arrival(msg, arr) && p < |msg| && items == Arrivals(msg, arr)[..p] + [u] + Arrivals(msg, arr)[p..]
    requires Run(states, items)
    ensures |states| == |msg| + 2 && Step(states[p], u, states[p + 1])
    ensures forall k | 0 <= k <= p :: Takes(states, msg, arr, 0, 0, k)
    ensures Takes(states, msg, arr, 1, p, |msg|)
    ensures forall k | p <= k < |msg| :: Takes(states, msg, arr, 1, p, k)
  {
    hide Step;
    assert items[p] == u;
    forall i | 0 <= i < p ensures Step(states[i], msg[arr[i]], states[i + 1]) {
      assert items[i] == msg[arr[i]];
    }
    forall i | p <= i < |msg| ensures Step(states[i + 1], msg[arr[i]], states[i + 1 + 1]) {
      assert items[i + 1] == msg[arr[i]];
    }
  }
}
