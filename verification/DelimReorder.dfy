/** Putting delimited frames back into sequence: a bounded queue ordered by 32-bit serial
    numbers, with jumps when the queue or the wait grows too long. */
module DelimReorder {
  import opened Options
  import opened Bytes
  import opened Dnp3Frame
  import opened StreamReader
  import opened PriorityQueue
  import opened IndexedQueue

  const MODULUS: int := 0x1_0000_0000
  const HALF: int := 0x7FFF_FFFF   // uint32 max / 2

  /** The comparator: true when the first comes out later than the second. */
  function FrameCmp(l: nat, r: nat): bool {
    if l > r then l - r < HALF else !(r - l < HALF)
  }

  function Less(l: Item, r: Item): bool { FrameCmp(l.frame.sequence, r.frame.sequence) }

  datatype Limits = Limits(maxQueue: nat, maxWait: nat)

  datatype State = State(queue: multiset<Item>, expected: nat, lastTop: nat, topChange: int, written: seq<Item>)

  datatype Jump = NoJump | Overflow | Timeout

  predicate Framed(i: Item) { i.frame.flow == 1 && i.frame.len >= 10 }

  /** The datagram written for a frame: the bytes without the trailer, or, for unframed data,
      the bytes as they are. */
  function Datagram(i: Item): seq<byte> {
    if Framed(i) && i.frame.len <= |i.bytes| then i.bytes[..i.frame.len - 10] else i.bytes
  }

  function Next(n: nat): nat { (n + 1) % MODULUS }

  /** The pop loop: from queue q with top t and expected number e, the frames `out` are
      written and q', e' remain. */
  ghost predicate Drained(q: multiset<Item>, e: nat, t: Option<Item>, q': multiset<Item>, e': nat, out: seq<Item>)
    decreases |out|
  {
    if t.None? || t.value.frame.sequence != e then out == [] && q' == q && e' == e
    else
      && out != [] && out[0] == t.value
      && exists u: Option<Item> ::
           TopOf(Less, q - multiset{t.value}, u) && Drained(q - multiset{t.value}, Next(e), u, q', e', out[1..])
  }

  /** Which jump the top t forces, once the frame is queued and the top noted. */
  function JumpFor(l: Limits, s: State, t: Item, now: int): Jump {
    if t.frame.sequence == s.expected then NoJump
    else if |s.queue| > l.maxQueue then Overflow
    else if now - s.topChange > l.maxWait then Timeout
    else NoJump
  }

  /** A frame joins the queue and the top t is noted. */
  function Noted(s: State, i: Item, t: Item, now: int): State {
    var q := s.(queue := s.queue + multiset{i});
    if t.frame.sequence != s.lastTop then q.(lastTop := t.frame.sequence, topChange := now) else q
  }

  /** One call of the handler. */
  ghost predicate Step(l: Limits, s: State, i: Item, now: int, s': State, jump: Jump) {
    if !Framed(i) then s' == s.(written := s.written + [i]) && jump == NoJump
    else exists t: Item, out: seq<Item> :: StepVia(l, s, i, now, s', jump, t, out)
  }

  ghost predicate StepVia(l: Limits, s: State, i: Item, now: int, s': State, jump: Jump, t: Item, out: seq<Item>) {
    var n := Noted(s, i, t, now);
    && TopOf(Less, n.queue, Some(t))
    && jump == JumpFor(l, n, t, now)
    && Drained(n.queue, if jump == NoJump then n.expected else t.frame.sequence, Some(t), s'.queue, s'.expected, out)
    && s'.lastTop == n.lastTop && s'.topChange == n.topChange && s'.written == n.written + out
  }

  class DelimFragHandler {
    const limits: Limits
    var expectedSeq: nat
    const frameQ: Queue<Item>
    var latestTopChange: int
    var lastTopSeq: nat
    var written: seq<Item>   // the frames given to the write handler

    ghost function View(): State
      reads this, frameQ
    {
      State(frameQ.Elements(), expectedSeq, lastTopSeq, latestTopChange, written)
    }

    constructor (maxQueue: nat, maxWait: nat, now: int)
      ensures limits == Limits(maxQueue, maxWait) && fresh(frameQ) && frameQ.less == Less
      ensures View() == State(multiset{}, 0, MODULUS - 1, now, [])
    {
      limits := Limits(maxQueue, maxWait);
      frameQ := new Queue(Less);
      expectedSeq := 0;
      latestTopChange := now;
      lastTopSeq := MODULUS - 1;
      written := [];
    }

    /** The pop loop: writes frames as long as the top is the expected one. */
    method PopInSequence(first: Option<Item>) returns (ghost out: seq<Item>)
      requires frameQ.less == Less && TopOf(Less, frameQ.Elements(), first)
      modifies this`expectedSeq, this`written, frameQ
      ensures Drained(old(frameQ.Elements()), old(expectedSeq), first, frameQ.Elements(), expectedSeq, out)
      ensures written == old(written) + out
    {
      hide Less, TopOf, Reached, Drained;
      out := [];
      var top := first;
      ghost var (q0, e0) := (frameQ.Elements(), expectedSeq);
      ReachedStart(q0, e0, first);
      while top.Some? && top.value.frame.sequence == expectedSeq
        invariant TopOf(Less, frameQ.Elements(), top)
        invariant Reached(q0, e0, first, out, frameQ.Elements(), expectedSeq, top)
        invariant written == old(written) + out
        decreases |frameQ.heap|
      {
        var t := top.value;
        ghost var (q, e) := (frameQ.Elements(), expectedSeq);
        TopIsIn(Less, q, t);
        written := written + [t];
        frameQ.Pop(t);
        expectedSeq := Next(expectedSeq);
        top := frameQ.Top();
        ReachedNext(q0, e0, first, out, q, e, t, top);
        assert |multiset(frameQ.heap)| == |q| - 1;
        out := out + [t];
      }
      ReachedEnd(q0, e0, first, out, frameQ.Elements(), expectedSeq, top);
    }

    /** Queues a frame and notes a change of the top. */
    method Enqueue(frame: Item, now: int) returns (t: Item)
      requires frameQ.less == Less
      modifies this`lastTopSeq, this`latestTopChange, frameQ
      ensures View() == Noted(old(View()), frame, t, now) && TopOf(Less, frameQ.Elements(), Some(t))
    {
      hide Less;
      frameQ.Push(frame);
      var top := frameQ.Top();
      t := top.value;
      if t.frame.sequence != lastTopSeq {
        latestTopChange := now;
        lastTopSeq := t.frame.sequence;
      }
    }

    /** Handles one frame at time `now`. */
    method HandleFrame(frame: Item, now: int) returns (ghost jump: Jump)
      requires frameQ.less == Less
      modifies this, frameQ
      ensures Step(limits, old(View()), frame, now, View(), jump)
    {
      hide Drained, Less, TopOf;
      jump := NoJump;
      if frame.frame.flow != 1 || frame.frame.len < 10 {
        written := written + [frame];
        return;
      }
      ghost var s := View();
      var t := Enqueue(frame, now);
      ghost var n := View();
      jump := JumpFor(limits, n, t, now);
      if t.frame.sequence != expectedSeq {
        assert |frameQ.heap| == |n.queue|;
        if |frameQ.heap| > limits.maxQueue {
          expectedSeq := t.frame.sequence;
        } else if now - latestTopChange > limits.maxWait {
          expectedSeq := t.frame.sequence;
        }
      }
      ghost var out := PopInSequence(Some(t));
      assert StepVia(limits, s, frame, now, View(), jump, t, out);
    }
  }

  /** The frames `out` lead from queue q0 to queue q: whatever completes the rest completes
      the whole. */
  ghost predicate Reached(q0: multiset<Item>, e0: nat, t0: Option<Item>, out: seq<Item>,
                          q: multiset<Item>, e: nat, t: Option<Item>) {
    forall q', e', rest: seq<Item> :: Drained(q, e, t, q', e', rest) ==> Drained(q0, e0, t0, q', e', out + rest)
  }

  lemma ReachedStart(q: multiset<Item>, e: nat, t: Option<Item>)
    ensures Reached(q, e, t, [], q, e, t)
  {
    hide Drained;
    assert forall rest: seq<Item> :: [] + rest == rest;
  }

  lemma ReachedNext(q0: multiset<Item>, e0: nat, t0: Option<Item>, out: seq<Item>,
                    q: multiset<Item>, e: nat, t: Item, u: Option<Item>)
    requires Reached(q0, e0, t0, out, q, e, Some(t)) && t.frame.sequence == e
    requires TopOf(Less, q - multiset{t}, u)
    ensures Reached(q0, e0, t0, out + [t], q - multiset{t}, Next(e), u)
  {
    hide TopOf, Less;
    forall q', e', rest: seq<Item> | Drained(q - multiset{t}, Next(e), u, q', e', rest)
      ensures Drained(q0, e0, t0, q', e', out + [t] + rest)
    {
      DrainedCons(q, e, t, u, q', e', rest);
      assert out + [t] + rest == out + ([t] + rest);
    }
  }

  lemma ReachedEnd(q0: multiset<Item>, e0: nat, t0: Option<Item>, out: seq<Item>,
                   q: multiset<Item>, e: nat, t: Option<Item>)
    requires Reached(q0, e0, t0, out, q, e, t) && !(t.Some? && t.value.frame.sequence == e)
    ensures Drained(q0, e0, t0, q, e, out)
  {
    assert Drained(q, e, t, q, e, []);
    assert out + [] == out;
  }

  lemma DrainedCons(q: multiset<Item>, e: nat, t: Item, u: Option<Item>, q': multiset<Item>, e': nat, rest: seq<Item>)
    requires t.frame.sequence == e && TopOf(Less, q - multiset{t}, u)
    requires Drained(q - multiset{t}, Next(e), u, q', e', rest)
    ensures Drained(q, e, Some(t), q', e', [t] + rest)
  {
    assert ([t] + rest)[1..] == rest;
  }

  /** A late frame or a duplicate that finds the queue empty: it is written out of turn, and
      moves the expected number back, exactly when no frame may wait or it has waited too long. */
  lemma LoneFrame(l: Limits, s: State, i: Item, now: int, s': State, jump: Jump)
    requires Framed(i) && s.queue == multiset{} && i.frame.sequence != s.expected
    requires Step(l, s, i, now, s', jump)
    ensures jump != NoJump <==>
      l.maxQueue == 0 || now - (if i.frame.sequence != s.lastTop then now else s.topChange) > l.maxWait
    ensures jump != NoJump ==> s'.expected == Next(i.frame.sequence) && s'.written == s.written + [i]
    ensures jump == NoJump ==> s'.expected == s.expected && s'.written == s.written && s'.queue == multiset{i}
  {
    hide Drained, Less;
    var t: Item, out: seq<Item> :| StepVia(l, s, i, now, s', jump, t, out);
    assert Noted(s, i, t, now).queue == multiset{i};
    assert t in multiset{i};
    LoneDrained(i, if jump == NoJump then s.expected else i.frame.sequence, s'.queue, s'.expected, out);
  }

  lemma LoneDrained(i: Item, e: nat, q': multiset<Item>, e': nat, out: seq<Item>)
    requires Drained(multiset{i}, e, Some(i), q', e', out)
    ensures if i.frame.sequence == e then out == [i] && e' == Next(e) else out == [] && e' == e && q' == multiset{i}
  {
    hide Less;
    if i.frame.sequence == e {
      var r := multiset{i} - multiset{i};
      var u: Option<Item> :| TopOf(Less, r, u) && Drained(r, Next(e), u, q', e', out[1..]);
      assert r == multiset{};
      assert u == None;
    }
  }

  // ---- every run -------------------------------------------------------------------------

  ghost predicate Run(l: Limits, states: seq<State>, items: seq<Item>, nows: seq<int>, jumps: seq<Jump>) {
    && |states| == |items| + 1 && |nows| == |items| && |jumps| == |items|
    && forall k | 0 <= k < |items| :: Step(l, states[k], items[k], nows[k], states[k + 1], jumps[k])
  }

  predicate NoJumps(jumps: seq<Jump>) { forall j | 0 <= j < |jumps| :: jumps[j] == NoJump }

  lemma {:induction false} DrainedConserves(q: multiset<Item>, e: nat, t: Option<Item>, q': multiset<Item>, e': nat,
                                            out: seq<Item>)
    requires TopOf(Less, q, t) && Drained(q, e, t, q', e', out)
    ensures q == q' + multiset(out) && Settled(q', e')
    decreases |out|
  {
    hide Less, TopOf;
    if t.Some? && t.value.frame.sequence == e {
      TopIsIn(Less, q, t.value);
      var r := q - multiset{t.value};
      var u: Option<Item> :| TopOf(Less, r, u) && Drained(r, Next(e), u, q', e', out[1..]);
      DrainedConserves(r, Next(e), u, q', e', out[1..]);
      ConsConserves(q, t.value, r, q', out);
    }
  }

  lemma ConsConserves(q: multiset<Item>, t: Item, r: multiset<Item>, q': multiset<Item>, out: seq<Item>)
    requires t in q && r == q - multiset{t} && out != [] && out[0] == t && r == q' + multiset(out[1..])
    ensures q == q' + multiset(out)
  {
    assert out == [t] + out[1..];
    assert multiset(out) == multiset{t} + multiset(out[1..]);
    assert q == r + multiset{t};
  }

  /** The queue is empty or its top is not the expected frame. */
  ghost predicate Settled(q: multiset<Item>, e: nat) {
    exists t: Option<Item> :: TopOf(Less, q, t) && (t.Some? ==> t.value.frame.sequence != e)
  }

  /** One step loses and invents nothing, keeps the queue within its bound and settles it;
      this needs no assumption on the numbers. */
  lemma StepConserves(l: Limits, s: State, i: Item, now: int, s': State, jump: Jump)
    requires Step(l, s, i, now, s', jump)
    ensures multiset(s'.written) + s'.queue == multiset(s.written) + s.queue + multiset{i}
    ensures |s.queue| <= l.maxQueue ==> |s'.queue| <= l.maxQueue
    ensures Framed(i) || Settled(s.queue, s.expected) ==> Settled(s'.queue, s'.expected)
  {
    hide Drained, Less, Settled;
    if Framed(i) {
      var t: Item, out: seq<Item> :| StepVia(l, s, i, now, s', jump, t, out);
      var n := Noted(s, i, t, now);
      var e := if jump == NoJump then n.expected else t.frame.sequence;
      DrainedConserves(n.queue, e, Some(t), s'.queue, s'.expected, out);
      if t.frame.sequence == e { DrainedSome(n.queue, e, t, s'.queue, s'.expected, out); }
      assert |multiset(out)| == |out|;
      assert s'.written == s.written + out;
      assert multiset(s'.written) == multiset(s.written) + multiset(out);
      assert n.queue == s.queue + multiset{i} && n.written == s.written;
      Rearrange(multiset(s.written), multiset(out), s'.queue, s.queue, multiset{i});
    } else {
      assert multiset(s'.written) == multiset(s.written) + multiset{i};
    }
  }

  lemma Rearrange<T>(w: multiset<T>, out: multiset<T>, q': multiset<T>, q: multiset<T>, i: multiset<T>)
    requires q + i == q' + out
    ensures (w + out) + q' == w + q + i
  {
    assert (w + out) + q' == w + (q' + out);
    assert w + q + i == w + (q + i);
  }

  lemma DrainedSome(q: multiset<Item>, e: nat, t: Item, q': multiset<Item>, e': nat, out: seq<Item>)
    requires Drained(q, e, Some(t), q', e', out) && t.frame.sequence == e
    ensures out != []
  {
  }

  /** Over every run: what was received is what was written plus what is held, the queue never
      holds more than it may, and its top is never the expected frame. */
  lemma {:induction false} RunConserves(l: Limits, states: seq<State>, items: seq<Item>, nows: seq<int>,
                                        jumps: seq<Jump>, k: nat)
    requires Run(l, states, items, nows, jumps) && k <= |items|
    requires states[0].queue == multiset{} && states[0].written == []
    ensures multiset(states[k].written) + states[k].queue == multiset(items[..k])
    ensures |states[k].queue| <= l.maxQueue && Settled(states[k].queue, states[k].expected)
  {
    hide Step, Settled;
    if k == 0 {
      NothingSettled(states[0].expected);
    } else {
      RunConserves(l, states, items, nows, jumps, k - 1);
      StepConserves(l, states[k - 1], items[k - 1], nows[k - 1], states[k], jumps[k - 1]);
      assert items[..k] == items[..k - 1] + [items[k - 1]];
    }
  }

  lemma NothingSettled(e: nat)
    ensures Settled(multiset{}, e)
  {
    assert TopOf(Less, multiset{}, None);
  }

  // ---- numbers in sequence ----------------------------------------------------------------

  /** Frames numbered consecutively from `start`, modulo 2^32. */
  ghost predicate Numbered(sent: seq<Item>, start: nat) {
    forall i | 0 <= i < |sent| :: Framed(sent[i]) && sent[i].frame.sequence == (start + i) % MODULUS
  }

  lemma ModShift(x: nat, d: nat)
    requires d < MODULUS
    ensures (x + d) % MODULUS == if x % MODULUS + d < MODULUS then x % MODULUS + d else x % MODULUS + d - MODULUS
  {
  }

  /** Within a window of 2^31 - 1 the comparator is the order of the frames, across the
      wrap-around of the numbers. */
  lemma CmpIsOrder(start: nat, a: nat, b: nat)
    requires a < b + HALF && b < a + HALF
    ensures FrameCmp((start + a) % MODULUS, (start + b) % MODULUS) <==> a > b
    ensures (start + a) % MODULUS == (start + b) % MODULUS ==> a == b
  {
    if a > b { ModShift(start + b, a - b); } else { ModShift(start + a, b - a); }
  }

  ghost predicate Within(held: set<nat>, low: nat, n: nat) {
    forall i | i in held :: low <= i < n && i < low + HALF
  }

  lemma Apart(sent: seq<Item>, start: nat, i: nat, j: nat)
    requires Numbered(sent, start) && i < |sent| && j < |sent| && i < j + HALF && j < i + HALF
    ensures Less(sent[i], sent[j]) <==> i > j
    ensures sent[i].frame.sequence == sent[j].frame.sequence ==> i == j
    ensures sent[i] == sent[j] ==> i == j
  {
    CmpIsOrder(start, i, j);
  }

  /** Within a window the comparator agrees with the numbering. */
  lemma WindowAgrees(sent: seq<Item>, start: nat, held: set<nat>, low: nat)
    requires Numbered(sent, start) && Within(held, low, |sent|)
    ensures Agrees(Less, sent, held)
  {
    hide Less;
    forall i, j | i in held && j in held && i != j
      ensures sent[i] != sent[j] && (Less(sent[i], sent[j]) <==> i > j)
    {
      Apart(sent, start, i, j);
    }
  }

  function Above(held: set<nat>, n: nat): set<nat> { set m | m in held && m >= n }

  /** What the pop loop writes: the frames from the expected one on, as far as they are held. */
  lemma {:induction false} DrainedInOrder(q: multiset<Item>, sent: seq<Item>, start: nat, held: set<nat>, e: nat,
                       t: Option<Item>, q': multiset<Item>, e': nat, out: seq<Item>) returns (n: nat)
    requires Numbered(sent, start) && Holds(q, sent, held) && Within(held, e, |sent|) && e <= |sent|
    requires TopOf(Less, q, t) && Drained(q, (start + e) % MODULUS, t, q', e', out)
    ensures e <= n <= |sent| && out == sent[e..n] && e' == (start + n) % MODULUS
    ensures n !in held && forall m | e <= m < n :: m in held
    ensures Holds(q', sent, Above(held, n))
    decreases |out|
  {
    hide Less, Holds, Agrees, TopOf, Numbered, Drained, Within;
    if t.Some? && t.value.frame.sequence == (start + e) % MODULUS {
      var u := DrainedFirst(q, sent, start, held, e, t.value, q', e', out);
      n := DrainedInOrder(q - multiset{t.value}, sent, start, held - {e}, e + 1, u, q', e', out[1..]);
      assert out == [out[0]] + out[1..] && sent[e..n] == [sent[e]] + sent[e + 1..n];
      assert Above(held - {e}, n) == Above(held, n);
      forall m | e <= m < n ensures m in held { assert m > e ==> m in held - {e}; }
    } else {
      DrainedNothing(q, sent, start, held, e, t, q', e', out);
      n := e;
    }
  }

  lemma DrainedFirst(q: multiset<Item>, sent: seq<Item>, start: nat, held: set<nat>, e: nat,
                     t: Item, q': multiset<Item>, e': nat, out: seq<Item>) returns (u: Option<Item>)
    requires Numbered(sent, start) && Holds(q, sent, held) && Within(held, e, |sent|) && e <= |sent|
    requires TopOf(Less, q, Some(t)) && Drained(q, (start + e) % MODULUS, Some(t), q', e', out)
    requires t.frame.sequence == (start + e) % MODULUS
    ensures e in held && e < |sent| && out != [] && out[0] == sent[e] && t == sent[e]
    ensures Holds(q - multiset{t}, sent, held - {e}) && Within(held - {e}, e + 1, |sent|)
    ensures TopOf(Less, q - multiset{t}, u) && Drained(q - multiset{t}, (start + (e + 1)) % MODULUS, u, q', e',
                                                       out[1..])
  {
    hide Less, Holds, Agrees, TopOf, Numbered;
    WindowAgrees(sent, start, held, e);
    var i := TopIsLeast(Less, q, sent, held, t);
    TopIsExpected(sent, start, i, e);
    NextNumber(start, e);
    HoldsRemove(Less, q, sent, held, e);
    u :| TopOf(Less, q - multiset{t}, u) && Drained(q - multiset{t}, Next((start + e) % MODULUS), u, q', e', out[1..]);
  }

  lemma DrainedNothing(q: multiset<Item>, sent: seq<Item>, start: nat, held: set<nat>, e: nat,
                       t: Option<Item>, q': multiset<Item>, e': nat, out: seq<Item>)
    requires Numbered(sent, start) && Holds(q, sent, held) && Within(held, e, |sent|) && e <= |sent|
    requires TopOf(Less, q, t) && Drained(q, (start + e) % MODULUS, t, q', e', out)
    requires t.Some? ==> t.value.frame.sequence != (start + e) % MODULUS
    ensures out == [] && q' == q && e' == (start + e) % MODULUS && e !in held && Above(held, e) == held
  {
    hide Less, Holds, Agrees, TopOf, Numbered;
    DrainedHead(q, (start + e) % MODULUS, t, q', e', out);
    WindowAgrees(sent, start, held, e);
    if t.Some? {
      var i := TopIsLeast(Less, q, sent, held, t.value);
      TopNotExpected(sent, start, i, e);
    } else {
      NothingHeld(Less, q, sent, held);
    }
  }

  lemma DrainedHead(q: multiset<Item>, e: nat, t: Option<Item>, q': multiset<Item>, e': nat, out: seq<Item>)
    requires Drained(q, e, t, q', e', out)
    ensures t.None? || t.value.frame.sequence != e ==> out == [] && q' == q && e' == e
    ensures t.Some? && t.value.frame.sequence == e ==> out != [] && out[0] == t.value
  {
  }

  lemma TopIsExpected(sent: seq<Item>, start: nat, i: nat, e: nat)
    requires Numbered(sent, start) && i < |sent| && e <= i < e + HALF
    requires sent[i].frame.sequence == (start + e) % MODULUS
    ensures i == e
  {
    CmpIsOrder(start, i, e);
  }

  lemma TopNotExpected(sent: seq<Item>, start: nat, i: nat, e: nat)
    requires Numbered(sent, start) && i < |sent| && sent[i].frame.sequence != (start + e) % MODULUS
    ensures i != e
  {
  }

  lemma NextNumber(start: nat, e: nat)
    ensures Next((start + e) % MODULUS) == (start + (e + 1)) % MODULUS
  {
    ModShift(start + e, 1);
  }

  // ---- reordering -------------------------------------------------------------------------

  /** No frame arrives 2^31 - 1 or more ahead of one that is still missing. */
  ghost predicate Windowed(arr: seq<nat>) {
    forall k, p | 0 <= k < p < |arr| :: arr[k] < arr[p] + HALF
  }

  /** The frames that overtake the one arriving at position p. */
  function Overtakers(arr: seq<nat>, p: nat): set<nat>
    requires p < |arr|
  {
    set j | j in arr[..p] && j > arr[p]
  }

  ghost predicate FewOvertakers(arr: seq<nat>, max: nat) {
    forall p | 0 <= p < |arr| :: |Overtakers(arr, p)| <= max
  }

  /** The frames that have arrived after k arrivals, ahead of frame e. */
  function Early(arr: seq<nat>, k: nat, e: nat): set<nat>
    requires k <= |arr|
  {
    set j | j in Seen(arr, k) && j > e
  }

  /** All frames before n have arrived. */
  ghost predicate Through(arr: seq<nat>, k: nat, n: nat)
    requires k <= |arr|
  {
    var seen := Seen(arr, k);
    forall m: nat | m < n :: m in seen
  }

  /** After k arrivals without a jump: the frames before e are written in order, frame e is
      missing, and the queue holds the others that have arrived. */
  ghost predicate Progress(sent: seq<Item>, start: nat, arr: seq<nat>, before: seq<Item>, k: nat, s: State, e: nat)
    requires k <= |arr|
  {
    && e <= |sent| && e !in Seen(arr, k) && Through(arr, k, e)
    && s.written == before + sent[..e] && s.expected == (start + e) % MODULUS
    && Holds(s.queue, sent, Early(arr, k, e))
  }

  lemma EarlyWithin(sent: seq<Item>, arr: seq<nat>, k: nat, e: nat)
    requires Arrival(sent, arr) && Windowed(arr) && k <= |arr| && e < |sent| && e !in Seen(arr, k)
    ensures Within(Early(arr, k, e), e, |sent|)
  {
    var p := PositionOf(arr, e);
    SeenAt(arr, k, p);
    forall j | j in Early(arr, k, e) ensures e <= j < |sent| && j < e + HALF {
      var q := PositionOf(arr[..k], j);
      assert arr[q] == j;
    }
  }

  lemma EarlyNext(arr: seq<nat>, k: nat, e: nat)
    requires k < |arr| && arr[k] >= e
    ensures Early(arr, k + 1, e) == if arr[k] == e then Early(arr, k, e) else Early(arr, k, e) + {arr[k]}
  {
    SeenNext(arr, k);
  }

  /** The next frame to arrive is new and not before the missing one. */
  lemma NextArrival(sent: seq<Item>, start: nat, arr: seq<nat>, before: seq<Item>, k: nat, s: State, e: nat)
    requires Arrival(sent, arr) && k < |arr| && Progress(sent, start, arr, before, k, s, e)
    ensures arr[k] !in Seen(arr, k) && e <= arr[k] < |sent| && e < |sent|
    ensures arr[k] !in Early(arr, k, e)
  {
    hide Seen;
    SeenAt(arr, k, k);
  }

  /** The queue with the arrived frame, and its top. */
  lemma Joined(sent: seq<Item>, start: nat, arr: seq<nat>, before: seq<Item>, k: nat, s: State, e: nat, t: Item)
    requires Numbered(sent, start) && Arrival(sent, arr) && Windowed(arr) && k < |arr|
    requires Progress(sent, start, arr, before, k, s, e)
    requires TopOf(Less, s.queue + multiset{sent[arr[k]]}, Some(t))
    ensures e <= arr[k] < |sent|
    ensures var (q, held) := (s.queue + multiset{sent[arr[k]]}, Early(arr, k, e) + {arr[k]});
            && Holds(q, sent, held) && Within(held, e, |sent|) && |q| == |held|
            && (t.frame.sequence == s.expected <==> arr[k] == e)
  {
    hide Less, Holds, Agrees, TopOf, Numbered, Early, Seen;
    NextArrival(sent, start, arr, before, k, s, e);
    var i := arr[k];
    JoinedWithin(sent, arr, k, e);
    var (q, held) := (s.queue + multiset{sent[i]}, Early(arr, k, e) + {i});
    WindowAgrees(sent, start, held, e);
    HoldsAdd(Less, s.queue, sent, Early(arr, k, e), i);
    HoldsCount(Less, q, sent, held);
    var least := TopIsLeast(Less, q, sent, held, t);
    if t.frame.sequence == s.expected {
      TopIsExpected(sent, start, least, e);
      EarlyAbove(arr, k, e);
    } else {
      TopNotExpected(sent, start, least, e);
    }
  }

  lemma EarlyAbove(arr: seq<nat>, k: nat, e: nat)
    requires k <= |arr|
    ensures e !in Early(arr, k, e)
  {
  }

  lemma JoinedWithin(sent: seq<Item>, arr: seq<nat>, k: nat, e: nat)
    requires Arrival(sent, arr) && Windowed(arr) && k < |arr| && e !in Seen(arr, k) && e <= arr[k]
    ensures Within(Early(arr, k, e) + {arr[k]}, e, |sent|)
  {
    EarlyWithin(sent, arr, k, e);
    var p := PositionOf(arr, e);
    SeenAt(arr, k, p);
  }

  /** Which frame is the top at step k. */
  lemma TopFrame(sent: seq<Item>, start: nat, arr: seq<nat>, before: seq<Item>, k: nat, s: State, e: nat, t: Item)
    returns (c: nat, p: nat)
    requires Numbered(sent, start) && Arrival(sent, arr) && Windowed(arr) && k < |arr|
    requires Progress(sent, start, arr, before, k, s, e)
    requires TopOf(Less, s.queue + multiset{sent[arr[k]]}, Some(t))
    ensures p <= k && arr[p] == c && e <= c < |sent| && c < e + HALF && t == sent[c]
    ensures t.frame.sequence == (start + c) % MODULUS
    ensures arr[k] == e ==> c == e
    ensures t.frame.sequence == s.expected <==> arr[k] == e
  {
    hide Less, Holds, Agrees, TopOf, Seen, Arrival, Windowed, Numbered;
    Joined(sent, start, arr, before, k, s, e, t);
    var held := Early(arr, k, e) + {arr[k]};
    WindowAgrees(sent, start, held, e);
    c := TopIsLeast(Less, s.queue + multiset{sent[arr[k]]}, sent, held, t);
    p := ArrivedAt(arr, k, e, c);
    NumberOf(sent, start, c);
    if arr[k] == e { assert e in held; }
  }

  lemma NumberOf(sent: seq<Item>, start: nat, c: nat)
    requires Numbered(sent, start) && c < |sent|
    ensures sent[c].frame.sequence == (start + c) % MODULUS
  {
  }

  lemma ArrivedAt(arr: seq<nat>, k: nat, e: nat, c: nat) returns (p: nat)
    requires k < |arr| && c in Early(arr, k, e) + {arr[k]}
    ensures p <= k && arr[p] == c
  {
    if c == arr[k] {
      p := k;
    } else {
      p := PositionOf(arr[..k], c);
    }
  }

  /** A step without a jump makes progress; without a timeout there is no jump exactly when
      the missing frame has arrived or the frames ahead of it fit the queue. */
  lemma StepProgress(l: Limits, sent: seq<Item>, start: nat, arr: seq<nat>, before: seq<Item>,
                     k: nat, s: State, e: nat, now: int, s': State, jump: Jump) returns (n: nat)
    requires Numbered(sent, start) && Arrival(sent, arr) && Windowed(arr) && k < |arr|
    requires Progress(sent, start, arr, before, k, s, e)
    requires Step(l, s, sent[arr[k]], now, s', jump) && jump != Timeout
    ensures jump == NoJump ==> Progress(sent, start, arr, before, k + 1, s', n)
    ensures e < |sent| && e <= arr[k]
    ensures jump == NoJump <==> arr[k] == e || |Early(arr, k + 1, e)| <= l.maxQueue
  {
    hide Less, Holds, Agrees, TopOf, Numbered, Early, Drained, Windowed, Arrival, Seen;
    NextArrival(sent, start, arr, before, k, s, e);
    var i := arr[k];
    assert Framed(sent[i]) by { NumberedFramed(sent, start, i); }
    var t: Item, out: seq<Item> :| StepVia(l, s, sent[i], now, s', jump, t, out);
    Joined(sent, start, arr, before, k, s, e, t);
    EarlyNext(arr, k, e);
    n := e;
    if jump == NoJump {
      n := DrainedInOrder(s.queue + multiset{sent[i]}, sent, start, Early(arr, k, e) + {i}, e, Some(t), s'.queue,
                          s'.expected, out);
      ProgressMade(sent, start, arr, before, k, s, e, s', n);
    }
  }

  lemma ProgressMade(sent: seq<Item>, start: nat, arr: seq<nat>, before: seq<Item>, k: nat, s: State, e: nat,
                     s': State, n: nat)
    requires k < |arr| && Progress(sent, start, arr, before, k, s, e) && e <= arr[k] && e <= n <= |sent|
    requires s'.written == s.written + sent[e..n] && s'.expected == (start + n) % MODULUS
    requires var held := Early(arr, k, e) + {arr[k]};
             n !in held && (forall m | e <= m < n :: m in held) && Holds(s'.queue, sent, Above(held, n))
    ensures Progress(sent, start, arr, before, k + 1, s', n)
  {
    hide Holds, Early, Seen;
    ProgressNext(sent, arr, k, e, n);
    assert sent[..n] == sent[..e] + sent[e..n];
    assert before + sent[..e] + sent[e..n] == before + sent[..n];
  }

  lemma NumberedFramed(sent: seq<Item>, start: nat, i: nat)
    requires Numbered(sent, start) && i < |sent|
    ensures Framed(sent[i])
  {
  }

  lemma ProgressNext(sent: seq<Item>, arr: seq<nat>, k: nat, e: nat, n: nat)
    requires k < |arr| && e <= arr[k] && e <= n && e !in Seen(arr, k) && Through(arr, k, e)
    requires var held := Early(arr, k, e) + {arr[k]}; n !in held && forall m | e <= m < n :: m in held
    ensures n !in Seen(arr, k + 1) && Through(arr, k + 1, n)
    ensures Above(Early(arr, k, e) + {arr[k]}, n) == Early(arr, k + 1, n)
  {
    hide Seen;
    SeenNext(arr, k);
    var held := Early(arr, k, e) + {arr[k]};
    var seen := Seen(arr, k + 1);
    forall m: nat | m < n ensures m in seen {
      if m >= e { assert m in held; }
    }
  }

  /** Progress after every prefix that is free of jumps. */
  lemma {:induction false} RunProgress(l: Limits, sent: seq<Item>, start: nat, arr: seq<nat>, states: seq<State>,
                    nows: seq<int>, jumps: seq<Jump>, k: nat) returns (e: nat)
    requires Numbered(sent, start) && Arrival(sent, arr) && Windowed(arr)
    requires Run(l, states, Arrivals(sent, arr), nows, jumps) && k <= |arr|
    requires states[0].queue == multiset{} && states[0].expected == start % MODULUS
    requires forall j | 0 <= j < k :: jumps[j] == NoJump
    ensures Progress(sent, start, arr, states[0].written, k, states[k], e)
  {
    hide Less, Holds, Agrees, Early, Step, Windowed, Numbered, Seen;
    var before := states[0].written;
    if k == 0 {
      e := 0;
      ProgressStart(sent, start, arr, states[0]);
    } else {
      var d := RunProgress(l, sent, start, arr, states, nows, jumps, k - 1);
      assert Step(l, states[k - 1], Arrivals(sent, arr)[k - 1], nows[k - 1], states[k], jumps[k - 1]);
      e := StepProgress(l, sent, start, arr, before, k - 1, states[k - 1], d, nows[k - 1], states[k], jumps[k - 1]);
    }
  }

  lemma ProgressStart(sent: seq<Item>, start: nat, arr: seq<nat>, s: State)
    requires s.queue == multiset{} && s.expected == start % MODULUS
    ensures Progress(sent, start, arr, s.written, 0, s, 0)
  {
    assert s.written + sent[..0] == s.written;
    assert Early(arr, 0, 0) == {};
  }

  /** Everything that overtook the frame arriving at p is early for the missing frame. */
  lemma OvertakersEarly(sent: seq<Item>, start: nat, arr: seq<nat>, before: seq<Item>, p: nat, s: State, e: nat)
    requires Arrival(sent, arr) && p < |arr| && Progress(sent, start, arr, before, p, s, e)
    ensures Overtakers(arr, p) <= Early(arr, p, e)
  {
    NextArrival(sent, start, arr, before, p, s, e);
  }

  lemma EarlyCount(l: Limits, sent: seq<Item>, start: nat, arr: seq<nat>, before: seq<Item>, k: nat, s: State, e: nat)
    requires Numbered(sent, start) && Arrival(sent, arr) && Windowed(arr) && k < |arr|
    requires Progress(sent, start, arr, before, k, s, e)
    ensures |Early(arr, k, e)| == |s.queue|
  {
    hide Less, Holds, Agrees, Numbered, Windowed;
    NextArrival(sent, start, arr, before, k, s, e);
    EarlyWithin(sent, arr, k, e);
    WindowAgrees(sent, start, Early(arr, k, e), e);
    HoldsCount(Less, s.queue, sent, Early(arr, k, e));
  }

  /** A run without a jump: no frame was overtaken by more than the queue may hold. */
  lemma NoJumpMeansFewOvertake(l: Limits, sent: seq<Item>, start: nat, arr: seq<nat>, states: seq<State>,
                               nows: seq<int>, jumps: seq<Jump>, p: nat)
    requires Numbered(sent, start) && Arrival(sent, arr) && Windowed(arr)
    requires Run(l, states, Arrivals(sent, arr), nows, jumps) && p < |arr|
    requires states[0].queue == multiset{} && states[0].expected == start % MODULUS
    requires NoJumps(jumps)
    ensures |Overtakers(arr, p)| <= l.maxQueue
  {
    hide Less, Holds, Agrees, Step, Windowed, Numbered;
    var e := RunProgress(l, sent, start, arr, states, nows, jumps, p);
    var before := states[0].written;
    OvertakersEarly(sent, start, arr, before, p, states[p], e);
    EarlyCount(l, sent, start, arr, before, p, states[p], e);
    Fewer(Overtakers(arr, p), Early(arr, p, e));
    QueueBound(l, states, Arrivals(sent, arr), nows, jumps, p);
  }

  lemma {:induction false} QueueBound(l: Limits, states: seq<State>, items: seq<Item>, nows: seq<int>,
                                      jumps: seq<Jump>, k: nat)
    requires Run(l, states, items, nows, jumps) && k <= |items| && |states[0].queue| <= l.maxQueue
    ensures |states[k].queue| <= l.maxQueue
  {
    hide Step;
    if k > 0 {
      QueueBound(l, states, items, nows, jumps, k - 1);
      StepConserves(l, states[k - 1], items[k - 1], nows[k - 1], states[k], jumps[k - 1]);
    }
  }

  /** Few overtakers, no timeout: the next step does not jump either. */
  lemma FewOvertakeMeansNoJump(l: Limits, sent: seq<Item>, start: nat, arr: seq<nat>, states: seq<State>,
                               nows: seq<int>, jumps: seq<Jump>, k: nat)
    requires Numbered(sent, start) && Arrival(sent, arr) && Windowed(arr)
    requires Run(l, states, Arrivals(sent, arr), nows, jumps) && k < |arr|
    requires states[0].queue == multiset{} && states[0].expected == start % MODULUS
    requires forall j | 0 <= j < k :: jumps[j] == NoJump
    requires jumps[k] != Timeout && FewOvertakers(arr, l.maxQueue)
    ensures jumps[k] == NoJump
  {
    hide Less, Holds, Agrees, Step, Windowed, Numbered, Progress, Early, Overtakers;
    var e := RunProgress(l, sent, start, arr, states, nows, jumps, k);
    assert Step(l, states[k], Arrivals(sent, arr)[k], nows[k], states[k + 1], jumps[k]);
    var n := StepProgress(l, sent, start, arr, states[0].written, k, states[k], e, nows[k], states[k + 1], jumps[k]);
    if arr[k] != e {
      var p := PositionOf(arr, e);
      MissingLater(sent, start, arr, states[0].written, k, states[k], e, p);
      EarlyOvertakes(arr, k, e, p);
      Fewer(Early(arr, k + 1, e), Overtakers(arr, p));
    }
  }

  lemma MissingLater(sent: seq<Item>, start: nat, arr: seq<nat>, before: seq<Item>, k: nat, s: State, e: nat, p: nat)
    requires Arrival(sent, arr) && k < |arr| && Progress(sent, start, arr, before, k, s, e)
    requires p < |arr| && arr[p] == e && arr[k] != e
    ensures k < p
  {
    SeenAt(arr, k, p);
  }

  lemma EarlyOvertakes(arr: seq<nat>, k: nat, e: nat, p: nat)
    requires k < p < |arr| && arr[p] == e
    ensures Early(arr, k + 1, e) <= Overtakers(arr, p)
  {
    forall j | j in Early(arr, k + 1, e) ensures j in Overtakers(arr, p) {
      var q := PositionOf(arr[..k + 1], j);
      assert arr[..p][q] == j;
    }
  }

  lemma {:induction false} NoJumpThrough(l: Limits, sent: seq<Item>, start: nat, arr: seq<nat>, states: seq<State>,
                      nows: seq<int>, jumps: seq<Jump>, k: nat)
    requires Numbered(sent, start) && Arrival(sent, arr) && Windowed(arr)
    requires Run(l, states, Arrivals(sent, arr), nows, jumps) && k <= |arr|
    requires states[0].queue == multiset{} && states[0].expected == start % MODULUS
    requires forall j | 0 <= j < |arr| :: jumps[j] != Timeout
    requires FewOvertakers(arr, l.maxQueue)
    ensures forall j | 0 <= j < k :: jumps[j] == NoJump
  {
    if k > 0 {
      NoJumpThrough(l, sent, start, arr, states, nows, jumps, k - 1);
      FewOvertakeMeansNoJump(l, sent, start, arr, states, nows, jumps, k - 1);
    }
  }

  // ---- what comes out after a jump --------------------------------------------------------

  /** A jump writes a later frame in the place of the missing one. */
  lemma JumpWrites(l: Limits, sent: seq<Item>, start: nat, arr: seq<nat>, before: seq<Item>, k: nat, s: State, e: nat,
                   now: int, s': State, jump: Jump)
    requires Numbered(sent, start) && Arrival(sent, arr) && Windowed(arr) && k < |arr|
    requires Progress(sent, start, arr, before, k, s, e)
    requires Step(l, s, sent[arr[k]], now, s', jump) && jump != NoJump
    ensures e < |sent| && |s'.written| > |before| + e && s'.written[|before| + e] != sent[e]
  {
    hide Less, TopOf, Seen, Holds, Drained, Windowed, Numbered, Arrival;
    NextArrival(sent, start, arr, before, k, s, e);
    NumberedFramed(sent, start, arr[k]);
    var t: Item, out: seq<Item> :| StepVia(l, s, sent[arr[k]], now, s', jump, t, out);
    var c, p := TopFrame(sent, start, arr, before, k, s, e, t);
    TopNotExpected(sent, start, c, e);
    Apart(sent, start, c, e);
    DrainedHead(s.queue + multiset{sent[arr[k]]}, t.frame.sequence, Some(t), s'.queue, s'.expected, out);
    assert s'.written == before + sent[..e] + out;
  }

  lemma StepGrows(l: Limits, s: State, i: Item, now: int, s': State, jump: Jump)
    requires Step(l, s, i, now, s', jump)
    ensures s.written <= s'.written
  {
    hide Drained, TopOf, Less;
    if Framed(i) {
      var t: Item, out: seq<Item> :| StepVia(l, s, i, now, s', jump, t, out);
    }
  }

  /** What is written stays written. */
  lemma {:induction false} WrittenGrows(l: Limits, states: seq<State>, items: seq<Item>, nows: seq<int>,
                                        jumps: seq<Jump>, k: nat, n: nat)
    requires Run(l, states, items, nows, jumps) && k <= n <= |items|
    ensures states[k].written <= states[n].written
    decreases n
  {
    hide Step;
    if k < n {
      WrittenGrows(l, states, items, nows, jumps, k, n - 1);
      StepGrows(l, states[n - 1], items[n - 1], nows[n - 1], states[n], jumps[n - 1]);
    }
  }

  /** After its first jump a run cannot write the frames in order any more. */
  lemma JumpBreaksOrder(l: Limits, sent: seq<Item>, start: nat, arr: seq<nat>, states: seq<State>, nows: seq<int>,
                        jumps: seq<Jump>, k: nat)
    requires Numbered(sent, start) && Arrival(sent, arr) && Windowed(arr)
    requires Run(l, states, Arrivals(sent, arr), nows, jumps) && k < |arr|
    requires states[0].queue == multiset{} && states[0].expected == start % MODULUS
    requires jumps[k] != NoJump && forall j | 0 <= j < k :: jumps[j] == NoJump
    ensures states[|arr|].written != states[0].written + sent
  {
    hide Less, Holds, Agrees, Step, Windowed, Numbered, Progress;
    var (items, before) := (Arrivals(sent, arr), states[0].written);
    var e := RunProgress(l, sent, start, arr, states, nows, jumps, k);
    assert Step(l, states[k], items[k], nows[k], states[k + 1], jumps[k]);
    JumpWrites(l, sent, start, arr, before, k, states[k], e, nows[k], states[k + 1], jumps[k]);
    WrittenGrows(l, states, items, nows, jumps, k + 1, |arr|);
    assert states[|arr|].written[|before| + e] != (before + sent)[|before| + e];
  }

  lemma FirstJump(jumps: seq<Jump>) returns (k: nat)
    requires exists j :: 0 <= j < |jumps| && jumps[j] != NoJump
    ensures k < |jumps| && jumps[k] != NoJump && forall j | 0 <= j < k :: jumps[j] == NoJump
  {
    k := 0;
    while jumps[k] == NoJump
      invariant k < |jumps| && forall j | 0 <= j < k :: jumps[j] == NoJump
      decreases |jumps| - k
    {
      k := k + 1;
    }
  }

  /** With every frame arriving once, in a window below 2^31 - 1, and whatever the waits: the
      frames are written in the order of their numbers if and only if the handler never jumps,
      and then none is held back. */
  lemma InOrderUnlessJump(l: Limits, sent: seq<Item>, start: nat, arr: seq<nat>, states: seq<State>, nows: seq<int>,
                          jumps: seq<Jump>)
    requires Numbered(sent, start) && Arrival(sent, arr) && Windowed(arr)
    requires Run(l, states, Arrivals(sent, arr), nows, jumps)
    requires states[0].queue == multiset{} && states[0].expected == start % MODULUS
    ensures states[|arr|].written == states[0].written + sent <==> NoJumps(jumps)
    ensures states[|arr|].written == states[0].written + sent ==>
      states[|arr|].queue == multiset{} && states[|arr|].expected == (start + |sent|) % MODULUS
  {
    hide Less, Holds, Agrees, Step, Windowed, Numbered, Progress, Run;
    RunShape(l, states, Arrivals(sent, arr), nows, jumps);
    if NoJumps(jumps) {
      var e := RunProgress(l, sent, start, arr, states, nows, jumps, |arr|);
      ProgressEnd(sent, start, arr, states[0].written, states[|arr|], e);
    } else {
      var k := FirstJump(jumps);
      JumpBreaksOrder(l, sent, start, arr, states, nows, jumps, k);
    }
  }

  /** Reordering works exactly as far as the queue reaches: with every frame arriving once, in
      a window below 2^31 - 1 and without a timeout, the frames are written in the order of their
      numbers, across the wrap-around, if and only if no frame is overtaken by more than maxQueue
      others, which is when the handler never jumps. */
  lemma InOrder(l: Limits, sent: seq<Item>, start: nat, arr: seq<nat>, states: seq<State>, nows: seq<int>,
                jumps: seq<Jump>)
    requires Numbered(sent, start) && Arrival(sent, arr) && Windowed(arr)
    requires Run(l, states, Arrivals(sent, arr), nows, jumps)
    requires states[0].queue == multiset{} && states[0].expected == start % MODULUS
    requires forall j | 0 <= j < |arr| :: jumps[j] != Timeout
    ensures states[|arr|].written == states[0].written + sent <==> FewOvertakers(arr, l.maxQueue)
    ensures NoJumps(jumps) <==> FewOvertakers(arr, l.maxQueue)
    ensures states[|arr|].written == states[0].written + sent ==>
      states[|arr|].queue == multiset{} && states[|arr|].expected == (start + |sent|) % MODULUS
  {
    hide Less, Holds, Agrees, Step, Windowed, Numbered, Progress, Overtakers, Run;
    var n := |arr|;
    RunShape(l, states, Arrivals(sent, arr), nows, jumps);
    InOrderUnlessJump(l, sent, start, arr, states, nows, jumps);
    if NoJumps(jumps) {
      forall p | 0 <= p < n ensures |Overtakers(arr, p)| <= l.maxQueue {
        NoJumpMeansFewOvertake(l, sent, start, arr, states, nows, jumps, p);
      }
    } else if FewOvertakers(arr, l.maxQueue) {
      NoJumpThrough(l, sent, start, arr, states, nows, jumps, n);
    }
  }

  lemma RunShape(l: Limits, states: seq<State>, items: seq<Item>, nows: seq<int>, jumps: seq<Jump>)
    requires Run(l, states, items, nows, jumps)
    ensures |states| == |items| + 1 && |nows| == |items| && |jumps| == |items|
  {
  }

  lemma ProgressEnd(sent: seq<Item>, start: nat, arr: seq<nat>, before: seq<Item>, s: State, e: nat)
    requires Arrival(sent, arr) && Progress(sent, start, arr, before, |arr|, s, e)
    ensures s.written == before + sent && s.queue == multiset{} && s.expected == (start + |sent|) % MODULUS
  {
    assert arr[..|arr|] == arr;
    assert e == |sent|;
    assert sent[..e] == sent;
    assert Early(arr, |arr|, e) == {};
    assert forall x :: x !in s.queue;
  }
}
