/** Late frames and duplicates at the resequencer: they sit at the head of the queue, hold up
    everything behind them, and move the expected number back when the queue overflows or the
    wait grows too long. */
module LateFrames {
  import opened Dnp3Frame
  import opened StreamReader
  import opened Options
  import opened PriorityQueue
  import opened DelimReorder

  // ---- a window of numbers ----------------------------------------------------------------

  /** How far number n lies ahead of `base`, modulo 2^32. */
  function Ahead(base: nat, n: nat): nat { (n - base) % MODULUS }

  predicate InWindow(base: nat, n: nat) { n < MODULUS && Ahead(base, n) < HALF }

  /** The expected number and the held ones lie within 2^31 - 1 of the base. */
  ghost predicate Spans(base: nat, q: multiset<Item>, e: nat) {
    InWindow(base, e) && forall x | x in q :: InWindow(base, x.frame.sequence)
  }

  predicate Behind(base: nat, x: Item, e: nat) { Ahead(base, x.frame.sequence) < Ahead(base, e) }

  /** A frame behind the expected one is held. */
  ghost predicate HoldsLate(base: nat, q: multiset<Item>, e: nat) { exists x :: x in q && Behind(base, x, e) }

  lemma FromBase(base: nat, n: nat)
    requires n < MODULUS
    ensures (base + Ahead(base, n)) % MODULUS == n
  {
    var d := n - base;
    assert d == d / MODULUS * MODULUS + d % MODULUS;
    assert base + d % MODULUS == n + (0 - d / MODULUS) * MODULUS;
    WholeTurns(n, 0 - d / MODULUS);
  }

  lemma WholeTurns(n: nat, k: int)
    requires n < MODULUS
    ensures (n + k * MODULUS) % MODULUS == n
  {
  }

  lemma AheadOrder(base: nat, a: nat, b: nat)
    requires InWindow(base, a) && InWindow(base, b)
    ensures FrameCmp(a, b) <==> Ahead(base, a) > Ahead(base, b)
    ensures Ahead(base, a) == Ahead(base, b) ==> a == b
  {
    hide Ahead;
    FromBase(base, a);
    FromBase(base, b);
    CmpIsOrder(base, Ahead(base, a), Ahead(base, b));
  }

  lemma AheadNext(base: nat, n: nat)
    requires InWindow(base, n)
    ensures Ahead(base, Next(n)) == Ahead(base, n) + 1
  {
    FromBase(base, n);
    var a := Ahead(base, n);
    NextNumber(base, a);
    AheadOf(base, a + 1);
  }

  lemma AheadOf(base: nat, d: nat)
    requires d < MODULUS
    ensures Ahead(base, (base + d) % MODULUS) == d
  {
    var k := (base + d) / MODULUS;
    assert (base + d) % MODULUS - base == d + (0 - k) * MODULUS;
    WholeTurns(d, 0 - k);
  }

  /** Within a window the comparator is a strict weak order; two frames with the same number are
      equivalent. */
  lemma WindowIsWeak(base: nat, q: multiset<Item>, e: nat)
    requires Spans(base, q, e)
    ensures StrictWeak(Less, q)
  {
    hide Ahead, FrameCmp;
    forall x, y | x in q && y in q
      ensures Less(x, y) <==> Ahead(base, x.frame.sequence) > Ahead(base, y.frame.sequence)
    {
      AheadOrder(base, x.frame.sequence, y.frame.sequence);
    }
  }

  ghost predicate Least(base: nat, q: multiset<Item>, n: nat) {
    && (exists x :: x in q && x.frame.sequence == n)
    && forall x | x in q :: Ahead(base, n) <= Ahead(base, x.frame.sequence)
  }

  /** The top has the number that lies least ahead of the base. */
  lemma TopIsLeast(base: nat, q: multiset<Item>, e: nat, t: Item)
    requires Spans(base, q, e) && TopOf(Less, q, Some(t))
    ensures Least(base, q, t.frame.sequence)
  {
    hide Ahead, FrameCmp, StrictWeak;
    WindowIsWeak(base, q, e);
    forall x | x in q ensures Ahead(base, t.frame.sequence) <= Ahead(base, x.frame.sequence) {
      if x != t { AheadOrder(base, t.frame.sequence, x.frame.sequence); }
    }
  }

  lemma LeastIsOne(base: nat, q: multiset<Item>, e: nat, m: nat, n: nat)
    requires Spans(base, q, e) && Least(base, q, m) && Least(base, q, n)
    ensures m == n
  {
    hide Ahead, FrameCmp;
    AheadOrder(base, m, n);
  }

  /** The top is behind the expected frame if and only if a held frame is. */
  lemma TopIsLateIff(base: nat, q: multiset<Item>, e: nat, t: Item)
    requires Spans(base, q, e) && TopOf(Less, q, Some(t))
    ensures Behind(base, t, e) <==> HoldsLate(base, q, e)
  {
    hide Ahead, FrameCmp, StrictWeak;
    TopIsLeast(base, q, e, t);
    assert t in q;
  }

  // ---- one step ---------------------------------------------------------------------------

  /** The queue is too long, or its head n has waited too long. */
  predicate Presses(l: Limits, s: State, size: nat, n: nat, now: int) {
    size > l.maxQueue || now - (if n != s.lastTop then now else s.topChange) > l.maxWait
  }

  /** A frame behind the expected one is written. */
  predicate WritesLate(base: nat, s: State, s': State) {
    |s'.written| > |s.written| && Behind(base, s'.written[|s.written|], s.expected)
  }

  /** While a late frame is held, a step that does not jump writes nothing. */
  lemma LateHoldsUp(l: Limits, s: State, i: Item, now: int, s': State, jump: Jump, base: nat)
    requires Framed(i) && Step(l, s, i, now, s', jump) && jump == NoJump
    requires Spans(base, s.queue + multiset{i}, s.expected) && HoldsLate(base, s.queue + multiset{i}, s.expected)
    ensures s'.written == s.written && s'.expected == s.expected && s'.queue == s.queue + multiset{i}
  {
    hide Ahead, Less, Drained, TopOf;
    var t: Item, out: seq<Item> :| StepVia(l, s, i, now, s', jump, t, out);
    TopIsLateIff(base, s.queue + multiset{i}, s.expected, t);
    DrainedHead(s.queue + multiset{i}, s.expected, Some(t), s'.queue, s'.expected, out);
  }

  /** A step writes a late frame exactly when one is held or arrives and the queue overflows
      or its head has waited too long. */
  lemma WritesLateExactly(l: Limits, s: State, i: Item, now: int, s': State, jump: Jump, base: nat, n: nat)
    requires Framed(i) && Step(l, s, i, now, s', jump)
    requires Spans(base, s.queue + multiset{i}, s.expected) && Least(base, s.queue + multiset{i}, n)
    ensures WritesLate(base, s, s') <==>
      HoldsLate(base, s.queue + multiset{i}, s.expected) && Presses(l, s, |s.queue| + 1, n, now)
  {
    hide Ahead, Less, Drained, TopOf, Least, HoldsLate, Spans;
    var q := s.queue + multiset{i};
    var t: Item, out: seq<Item> :| StepVia(l, s, i, now, s', jump, t, out);
    TopIsLateIff(base, q, s.expected, t);
    TopIsLeast(base, q, s.expected, t);
    LeastIsOne(base, q, s.expected, n, t.frame.sequence);
    DrainedHead(q, if jump == NoJump then s.expected else t.frame.sequence, Some(t), s'.queue, s'.expected, out);
  }

  // ---- where the expected number ends up --------------------------------------------------

  ghost predicate HeldAt(base: nat, q: multiset<Item>, a: nat) {
    exists x :: x in q && Ahead(base, x.frame.sequence) == a
  }

  /** At most one frame lies a ahead of the base. */
  ghost predicate Single(base: nat, q: multiset<Item>, a: nat) {
    && (forall x, y | x in q && y in q ::
          Ahead(base, x.frame.sequence) == a && Ahead(base, y.frame.sequence) == a ==> x == y)
    && (forall x | x in q && Ahead(base, x.frame.sequence) == a :: q[x] == 1)
  }

  /** The frames from a up to g are held, and none but the last of them twice. */
  ghost predicate Bridged(base: nat, q: multiset<Item>, a: nat, g: nat) {
    forall k | a <= k < g :: HeldAt(base, q, k) && (k + 1 < g ==> Single(base, q, k))
  }

  ghost predicate From(base: nat, q: multiset<Item>, a: nat) {
    forall x | x in q :: a <= Ahead(base, x.frame.sequence)
  }

  lemma AtExpected(base: nat, q: multiset<Item>, e: nat, x: Item)
    requires Spans(base, q, e) && x in q && Ahead(base, x.frame.sequence) == Ahead(base, e)
    ensures x.frame.sequence == e
  {
    AheadOrder(base, x.frame.sequence, e);
  }

  lemma GapStops(base: nat, q: multiset<Item>, e: nat, t: Option<Item>, g: nat)
    requires Spans(base, q, e) && From(base, q, Ahead(base, e)) && Ahead(base, e) < g
    requires TopOf(Less, q, t) && (t.None? || t.value.frame.sequence != e)
    ensures !Bridged(base, q, Ahead(base, e), g)
  {
    hide Ahead, Less, StrictWeak, Single;
    var a := Ahead(base, e);
    if HeldAt(base, q, a) {
      var x :| x in q && Ahead(base, x.frame.sequence) == a;
      AtExpected(base, q, e, x);
      TopIsLeast(base, q, e, t.value);
      AheadOrder(base, t.value.frame.sequence, e);
    }
  }

  lemma DrainedRest(q: multiset<Item>, e: nat, x: Item, q': multiset<Item>, e': nat, out: seq<Item>)
    returns (u: Option<Item>)
    requires Drained(q, e, Some(x), q', e', out) && x.frame.sequence == e
    ensures out != [] && TopOf(Less, q - multiset{x}, u) && Drained(q - multiset{x}, Next(e), u, q', e', out[1..])
  {
    hide Less, TopOf;
    u :| TopOf(Less, q - multiset{x}, u) && Drained(q - multiset{x}, Next(e), u, q', e', out[1..]);
  }

  lemma PopSpans(base: nat, q: multiset<Item>, e: nat, x: Item)
    requires Spans(base, q, e) && Ahead(base, e) + 1 < HALF
    ensures Spans(base, q - multiset{x}, Next(e)) && Ahead(base, Next(e)) == Ahead(base, e) + 1
  {
    hide Ahead;
    AheadNext(base, e);
  }

  lemma PopFrom(base: nat, q: multiset<Item>, x: Item, a: nat)
    requires From(base, q, a) && x in q && Ahead(base, x.frame.sequence) == a && Single(base, q, a)
    ensures From(base, q - multiset{x}, a + 1)
  {
    hide Ahead;
  }

  /** A second frame with the number just written stops the loop. */
  lemma DoubleStops(base: nat, q: multiset<Item>, e: nat, x: Item, u: Option<Item>)
    requires Spans(base, q, e) && From(base, q, Ahead(base, e)) && x in q && x.frame.sequence == e
    requires !Single(base, q, Ahead(base, e)) && TopOf(Less, q - multiset{x}, u)
    ensures u.Some? && u.value.frame.sequence == e != Next(e)
  {
    hide Ahead, Less, StrictWeak;
    var (a, r) := (Ahead(base, e), q - multiset{x});
    var y :| y in r && Ahead(base, y.frame.sequence) == a;
    assert u.Some?;
    TopIsLeast(base, r, e, u.value);
    AheadOrder(base, u.value.frame.sequence, e);
  }

  lemma BridgedDouble(base: nat, q: multiset<Item>, a: nat, g: nat)
    requires HeldAt(base, q, a) && !Single(base, q, a) && a < g
    ensures Bridged(base, q, a, g) <==> g == a + 1
  {
    hide HeldAt, Single;
  }

  lemma BridgedSingle(base: nat, q: multiset<Item>, x: Item, a: nat, g: nat)
    requires x in q && Ahead(base, x.frame.sequence) == a && Single(base, q, a) && a < g
    ensures Bridged(base, q, a, g) <==> g == a + 1 || Bridged(base, q - multiset{x}, a + 1, g)
  {
    hide Ahead;
    var r := q - multiset{x};
    assert HeldAt(base, q, a);
    forall k: nat | k > a
      ensures HeldAt(base, q, k) <==> HeldAt(base, r, k)
      ensures Single(base, q, k) <==> Single(base, r, k)
    {
      OthersStay(base, q, x, k);
    }
  }

  lemma OthersStay(base: nat, q: multiset<Item>, x: Item, k: nat)
    requires x in q && Ahead(base, x.frame.sequence) != k
    ensures HeldAt(base, q, k) <==> HeldAt(base, q - multiset{x}, k)
    ensures Single(base, q, k) <==> Single(base, q - multiset{x}, k)
  {
    hide Ahead;
    var r := q - multiset{x};
    assert forall y: Item | Ahead(base, y.frame.sequence) == k :: r[y] == q[y];
  }

  lemma {:induction false} DrainGoesOn(base: nat, q: multiset<Item>, e: nat, t: Option<Item>,
                                       q': multiset<Item>, e': nat, out: seq<Item>)
    requires (forall x | x in q :: InWindow(base, x.frame.sequence)) && e < MODULUS && Ahead(base, e) <= HALF
    requires TopOf(Less, q, t) && Drained(q, e, t, q', e', out)
    ensures Ahead(base, e) <= Ahead(base, e') <= HALF
    decreases |out|
  {
    hide Ahead, Less, Drained;
    if t.Some? && t.value.frame.sequence == e {
      var u := DrainedRest(q, e, t.value, q', e', out);
      AheadNext(base, e);
      DrainGoesOn(base, q - multiset{t.value}, Next(e), u, q', e', out[1..]);
    } else {
      DrainedHead(q, e, t, q', e', out);
    }
  }

  /** The pop loop gets from number e to one that lies g ahead of the base exactly when the
      frames in between bridge it. */
  lemma {:induction false} DrainReaches(base: nat, q: multiset<Item>, e: nat, t: Option<Item>,
                                        q': multiset<Item>, e': nat, out: seq<Item>, g: nat)
    requires Spans(base, q, e) && From(base, q, Ahead(base, e)) && Ahead(base, e) < g < HALF
    requires TopOf(Less, q, t) && Drained(q, e, t, q', e', out)
    ensures Ahead(base, e') >= g <==> Bridged(base, q, Ahead(base, e), g)
    decreases |out|
  {
    hide Ahead, Less, TopOf, Drained, Bridged, Single, Spans, From;
    var a := Ahead(base, e);
    if t.None? || t.value.frame.sequence != e {
      DrainedHead(q, e, t, q', e', out);
      GapStops(base, q, e, t, g);
    } else {
      var x := t.value;
      var r := q - multiset{x};
      TopIsIn(Less, q, x);
      var u := DrainedRest(q, e, x, q', e', out);
      PopSpans(base, q, e, x);
      if !Single(base, q, a) {
        DoubleStops(base, q, e, x, u);
        DrainedHead(r, Next(e), u, q', e', out[1..]);
        BridgedDouble(base, q, a, g);
      } else {
        BridgedSingle(base, q, x, a, g);
        if g == a + 1 {
          SpansWindow(base, r, Next(e));
          DrainGoesOn(base, r, Next(e), u, q', e', out[1..]);
        } else {
          PopFrom(base, q, x, a);
          DrainReaches(base, r, Next(e), u, q', e', out[1..], g);
        }
      }
    }
  }

  lemma SpansWindow(base: nat, q: multiset<Item>, e: nat)
    requires Spans(base, q, e)
    ensures (forall x | x in q :: InWindow(base, x.frame.sequence)) && InWindow(base, e)
  {
  }

  /** The expected number ends up behind where it was exactly when, besides, the frames from the
      late one on do not bridge the way back to it. */
  lemma MovesBackExactly(l: Limits, s: State, i: Item, now: int, s': State, jump: Jump, base: nat, n: nat)
    requires Framed(i) && Step(l, s, i, now, s', jump)
    requires Spans(base, s.queue + multiset{i}, s.expected) && Least(base, s.queue + multiset{i}, n)
    ensures Ahead(base, s'.expected) < Ahead(base, s.expected) <==>
      && HoldsLate(base, s.queue + multiset{i}, s.expected) && Presses(l, s, |s.queue| + 1, n, now)
      && !Bridged(base, s.queue + multiset{i}, Ahead(base, n), Ahead(base, s.expected))
  {
    hide Ahead, Less, Drained, TopOf, Least, HoldsLate, Spans, Bridged;
    var q := s.queue + multiset{i};
    var t: Item, out: seq<Item> :| StepVia(l, s, i, now, s', jump, t, out);
    TopIsLateIff(base, q, s.expected, t);
    TopIsLeast(base, q, s.expected, t);
    LeastIsOne(base, q, s.expected, n, t.frame.sequence);
    var e := if jump == NoJump then s.expected else n;
    SpansWindow(base, q, s.expected);
    TopIsIn(Less, q, t);
    LeastFrom(base, q, n);
    DrainGoesOn(base, q, e, Some(t), s'.queue, s'.expected, out);
    if Behind(base, t, s.expected) && jump != NoJump {
      SpansAt(base, q, s.expected, n);
      DrainReaches(base, q, n, Some(t), s'.queue, s'.expected, out, Ahead(base, s.expected));
    }
  }

  lemma LeastFrom(base: nat, q: multiset<Item>, n: nat)
    requires Least(base, q, n)
    ensures From(base, q, Ahead(base, n))
  {
  }

  lemma SpansAt(base: nat, q: multiset<Item>, e: nat, n: nat)
    requires Spans(base, q, e) && InWindow(base, n)
    ensures Spans(base, q, n)
  {
  }

  // ---- over runs --------------------------------------------------------------------------

  /** What step k of a run has in the queue when it looks for the top. */
  function Joined(states: seq<State>, items: seq<Item>, k: nat): multiset<Item>
    requires k < |items| && k < |states|
  {
    states[k].queue + multiset{items[k]}
  }

  /** A late frame is held or arrives at step k, and must go. */
  ghost predicate LateAndPressed(l: Limits, states: seq<State>, items: seq<Item>, nows: seq<int>, base: nat, k: nat)
    requires k < |items| && k < |states| && k < |nows|
  {
    var q := Joined(states, items, k);
    HoldsLate(base, q, states[k].expected)
      && exists n :: Least(base, q, n) && Presses(l, states[k], |states[k].queue| + 1, n, nows[k])
  }

  lemma SomeLeast(base: nat, q: multiset<Item>, e: nat) returns (n: nat)
    requires Spans(base, q, e) && q != multiset{}
    ensures Least(base, q, n)
    decreases |q|
  {
    hide Ahead;
    var x :| x in q;
    var r := q - multiset{x};
    n := x.frame.sequence;
    if r != multiset{} {
      var m := SomeLeast(base, r, e);
      if Ahead(base, m) < Ahead(base, n) { n := m; }
      SmallerIsLeast(base, q, x, m, n);
    } else {
      assert q == r + multiset{x};
      assert x.frame.sequence == n;
    }
  }

  lemma SmallerIsLeast(base: nat, q: multiset<Item>, x: Item, m: nat, n: nat)
    requires x in q && Least(base, q - multiset{x}, m)
    requires n == if Ahead(base, m) < Ahead(base, x.frame.sequence) then m else x.frame.sequence
    ensures Least(base, q, n)
  {
    hide Ahead;
    forall y | y in q ensures Ahead(base, n) <= Ahead(base, y.frame.sequence) {
      assert y == x || y in q - multiset{x};
    }
    if Ahead(base, m) < Ahead(base, x.frame.sequence) {
      var y :| y in q - multiset{x} && y.frame.sequence == m;
      assert y in q;
    } else {
      assert x in q && x.frame.sequence == n;
    }
  }

  lemma StepLateExactly(l: Limits, states: seq<State>, items: seq<Item>, nows: seq<int>, jumps: seq<Jump>, base: nat,
                        k: nat)
    requires Run(l, states, items, nows, jumps) && k < |items| && Framed(items[k])
    requires Spans(base, Joined(states, items, k), states[k].expected)
    ensures WritesLate(base, states[k], states[k + 1]) <==> LateAndPressed(l, states, items, nows, base, k)
  {
    hide Step, Ahead, Least, HoldsLate, Spans, WritesLate, Presses;
    var q := Joined(states, items, k);
    assert items[k] in q;
    var n := SomeLeast(base, q, states[k].expected);
    WritesLateExactly(l, states[k], items[k], nows[k], states[k + 1], jumps[k], base, n);
    if m :| Least(base, q, m) && Presses(l, states[k], |states[k].queue| + 1, m, nows[k]) {
      LeastIsOne(base, q, states[k].expected, m, n);
    }
  }

  /** Over every run of framed data whose numbers stay near a moving base: no frame is written
      late if and only if no late frame, held or arriving, is pressed on by overflow or wait. */
  lemma NeverLateExactly(l: Limits, states: seq<State>, items: seq<Item>, nows: seq<int>, jumps: seq<Jump>,
                         bases: seq<nat>)
    requires Run(l, states, items, nows, jumps) && |bases| == |items|
    requires forall k | 0 <= k < |items| ::
      Framed(items[k]) && Spans(bases[k], Joined(states, items, k), states[k].expected)
    ensures (forall k | 0 <= k < |items| :: !WritesLate(bases[k], states[k], states[k + 1]))
       <==> (forall k | 0 <= k < |items| :: !LateAndPressed(l, states, items, nows, bases[k], k))
  {
    hide Step, Spans, WritesLate, LateAndPressed;
    if k :| 0 <= k < |items| && LateAndPressed(l, states, items, nows, bases[k], k) {
      StepLateExactly(l, states, items, nows, jumps, bases[k], k);
    }
    if k :| 0 <= k < |items| && WritesLate(bases[k], states[k], states[k + 1]) {
      StepLateExactly(l, states, items, nows, jumps, bases[k], k);
    }
  }

  /** A late frame holds up everything: nothing is written, not even the expected frame, until
      the first jump, which without a timeout is the overflow of the queue. */
  lemma {:induction false} HeldUp(l: Limits, states: seq<State>, items: seq<Item>, nows: seq<int>, jumps: seq<Jump>,
                                  base: nat, j: nat, k: nat)
    requires Run(l, states, items, nows, jumps) && j <= k <= |items|
    requires forall m | j <= m < k :: Framed(items[m]) && jumps[m] == NoJump
    requires Spans(base, states[j].queue + multiset(items[j..k]), states[j].expected)
    requires HoldsLate(base, states[j].queue, states[j].expected)
    ensures states[k].written == states[j].written && states[k].expected == states[j].expected
    ensures states[k].queue == states[j].queue + multiset(items[j..k])
  {
    hide Step, Ahead, Behind;
    if k == j {
      assert items[j..k] == [];
    } else {
      assert items[j..k] == items[j..k - 1] + [items[k - 1]];
      HeldUp(l, states, items, nows, jumps, base, j, k - 1);
      assert states[k - 1].queue + multiset{items[k - 1]} == states[j].queue + multiset(items[j..k]);
      StillLate(base, states[j].queue, states[j].queue + multiset(items[j..k]), states[j].expected);
      LateHoldsUp(l, states[k - 1], items[k - 1], nows[k - 1], states[k], jumps[k - 1], base);
    }
  }

  lemma StillLate(base: nat, q: multiset<Item>, r: multiset<Item>, e: nat)
    requires HoldsLate(base, q, e) && q <= r
    ensures HoldsLate(base, r, e)
  {
  }

  /** When the queue overflows is a matter of counting. */
  lemma HeldUpUntilFull(l: Limits, states: seq<State>, items: seq<Item>, nows: seq<int>, jumps: seq<Jump>,
                        base: nat, j: nat, k: nat)
    requires Run(l, states, items, nows, jumps) && j <= k < |items| && Framed(items[k]) && jumps[k] != Timeout
    requires forall m | j <= m < k :: Framed(items[m]) && jumps[m] == NoJump
    requires Spans(base, states[j].queue + multiset(items[j..k + 1]), states[j].expected)
    requires HoldsLate(base, states[j].queue, states[j].expected)
    ensures jumps[k] == Overflow <==> |states[j].queue| + (k - j) + 1 > l.maxQueue
  {
    hide Step, Ahead, Behind;
    assert items[j..k + 1] == items[j..k] + [items[k]];
    HeldUp(l, states, items, nows, jumps, base, j, k);
    StillLate(base, states[j].queue, states[j].queue + multiset(items[j..k + 1]), states[j].expected);
    assert states[k].queue + multiset{items[k]} == states[j].queue + multiset(items[j..k + 1]);
    OverflowOfLate(l, states[k], items[k], nows[k], states[k + 1], jumps[k], base);
  }

  lemma OverflowOfLate(l: Limits, s: State, i: Item, now: int, s': State, jump: Jump, base: nat)
    requires Framed(i) && Step(l, s, i, now, s', jump) && jump != Timeout
    requires Spans(base, s.queue + multiset{i}, s.expected) && HoldsLate(base, s.queue + multiset{i}, s.expected)
    ensures jump == Overflow <==> |s.queue| + 1 > l.maxQueue
  {
    hide Ahead, Less, Drained, TopOf;
    var t: Item, out: seq<Item> :| StepVia(l, s, i, now, s', jump, t, out);
    TopIsLateIff(base, s.queue + multiset{i}, s.expected, t);
  }

  // ---- such a run -------------------------------------------------------------------------

  function Nth(n: nat): Item { Item(Frame(10, true, true, 1, n), []) }

  function Held(q: multiset<Item>, e: nat, top: nat, written: seq<Item>): State { State(q, e, top, 0, written) }

  /** With room for two, frames 0 and 1, frame 0 once more, then 2 and 3: the duplicate sits at
      the head, frame 2 is withheld although it is expected, and frame 3 makes the handler write
      frame 0 again and expect 1. */
  lemma DuplicateMovesBack(maxWait: nat) returns (states: seq<State>, jumps: seq<Jump>)
    ensures var (zero, one, two, three) := (Nth(0), Nth(1), Nth(2), Nth(3));
            && Run(Limits(2, maxWait), states, [zero, one, zero, two, three], [0, 0, 0, 0, 0], jumps)
            && states[0] == State(multiset{}, 0, MODULUS - 1, 0, [])
            && states[3].expected == states[4].expected == 2 && states[4].written == [zero, one]
            && states[5].expected == 1 && states[5].written == [zero, one, zero]
  {
    hide Step;
    var (zero, one, two, three) := (Nth(0), Nth(1), Nth(2), Nth(3));
    var l := Limits(2, maxWait);
    states := [State(multiset{}, 0, MODULUS - 1, 0, []), Held(multiset{}, 1, 0, [zero]),
               Held(multiset{}, 2, 1, [zero, one]),
               Held(multiset{zero}, 2, 0, [zero, one]), Held(multiset{zero, two}, 2, 0, [zero, one]),
               Held(multiset{two, three}, 1, 0, [zero, one, zero])];
    jumps := [NoJump, NoJump, NoJump, NoJump, Overflow];
    WritesAtOnce(l, states[0], zero, states[1]);
    WritesAtOnce(l, states[1], one, states[2]);
    Withheld(l, states[2], zero, multiset{}, states[3]);
    Withheld(l, states[3], two, multiset{zero}, states[4]);
    DuplicateOut(l, states[4], states[5]);
  }

  lemma AloneDrained(i: Item)
    ensures Drained(multiset{i}, i.frame.sequence, Some(i), multiset{}, Next(i.frame.sequence), [i])
  {
    var r := multiset{i} - multiset{i};
    assert r == multiset{};
    assert TopOf(Less, r, None) && Drained(r, Next(i.frame.sequence), None, r, Next(i.frame.sequence), [i][1..]);
  }

  lemma WritesAtOnce(l: Limits, s: State, i: Item, s': State)
    requires Framed(i) && s.queue == multiset{} && s.expected == i.frame.sequence != s.lastTop
      && i.frame.sequence + 1 < MODULUS
    requires s' == Held(multiset{}, s.expected + 1, s.expected, s.written + [i])
    ensures Step(l, s, i, 0, s', NoJump)
  {
    AloneDrained(i);
    assert s.queue + multiset{i} == multiset{i};
    assert TopOf(Less, multiset{i}, Some(i));
    assert StepVia(l, s, i, 0, s', NoJump, i, [i]);
  }

  /** The duplicate of frame 0 is the top, and no reason to jump. */
  lemma Withheld(l: Limits, s: State, i: Item, q: multiset<Item>, s': State)
    requires s.topChange == 0 && s.expected == 2 && l.maxQueue == 2 && s.queue == q
    requires (q == multiset{} && i == Nth(0)) || (q == multiset{Nth(0)} && i == Nth(2) && s.lastTop == 0)
    requires s' == Held(q + multiset{i}, 2, 0, s.written)
    ensures Step(l, s, i, 0, s', NoJump)
  {
    var zero := Nth(0);
    assert TopOf(Less, q + multiset{i}, Some(zero));
    assert StepVia(l, s, i, 0, s', NoJump, zero, []);
  }

  lemma DuplicateOut(l: Limits, s: State, s': State)
    requires l.maxQueue == 2 && s == Held(multiset{Nth(0), Nth(2)}, 2, 0, s.written)
    requires s' == Held(multiset{Nth(2), Nth(3)}, 1, 0, s.written + [Nth(0)])
    ensures Step(l, s, Nth(3), 0, s', Overflow)
  {
    var (zero, two, three) := (Nth(0), Nth(2), Nth(3));
    var q := multiset{zero, two, three};
    assert s.queue + multiset{three} == q && |q| == 3;
    assert q - multiset{zero} == multiset{two, three};
    assert TopOf(Less, q, Some(zero)) && TopOf(Less, multiset{two, three}, Some(two));
    assert Drained(multiset{two, three}, 1, Some(two), multiset{two, three}, 1, [zero][1..]);
    assert Drained(q, 0, Some(zero), multiset{two, three}, 1, [zero]);
    assert StepVia(l, s, three, 0, s', Overflow, zero, [zero]);
  }
}
