/** Messages of more fragments than the comparator can order: runs in which the queue, within
    its contract, gives the fragments out in another order. */
module Dnp3Limit {
  import opened Options
  import opened Dnp3Frame
  import opened StreamReader
  import opened PriorityQueue
  import opened IndexedQueue
  import opened Dnp3Reorder

  // ---- every queue has a top --------------------------------------------------------------

  lemma {:induction false} MaximalExists<T(!new)>(less: (T, T) -> bool, q: multiset<T>) returns (t: T)
    requires q != multiset{} && StrictWeak(less, q)
    ensures t in q && Maximal(less, q, t)
    decreases |q|
  {
    hide StrictWeak, Maximal;
    var x :| x in q;
    var r := q - multiset{x};
    if r == multiset{} {
      t := x;
      OnlyIsMaximal(less, q, x);
    } else {
      SmallerIsWeak(less, q, x);
      var m := MaximalExists(less, r);
      t := if less(m, x) then x else m;
      StaysMaximal(less, q, x, m);
    }
  }

  lemma OnlyIsMaximal<T(!new)>(less: (T, T) -> bool, q: multiset<T>, x: T)
    requires x in q && q - multiset{x} == multiset{}
    ensures Maximal(less, q, x)
  {
    forall y | y in q ensures y == x {
      assert (q - multiset{x})[y] == 0;
    }
  }

  lemma SmallerIsWeak<T(!new)>(less: (T, T) -> bool, q: multiset<T>, x: T)
    requires StrictWeak(less, q)
    ensures StrictWeak(less, q - multiset{x})
  {
    assert forall y | y in q - multiset{x} :: y in q && (q - multiset{x})[y] <= q[y];
  }

  lemma StaysMaximal<T(!new)>(less: (T, T) -> bool, q: multiset<T>, x: T, m: T)
    requires StrictWeak(less, q) && x in q && m in q - multiset{x} && Maximal(less, q - multiset{x}, m)
    ensures Maximal(less, q, if less(m, x) then x else m)
  {
    assert forall y | y in q && y != x :: y in q - multiset{x};
    if m == x { assert q[x] > 1; }
  }

  lemma TopExists(q: multiset<Item>) returns (t: Option<Item>)
    ensures TopOf(Less, q, t)
  {
    hide Less, StrictWeak, Maximal;
    if q == multiset{} {
      t := None;
    } else if StrictWeak(Less, q) {
      var x := MaximalExists(Less, q);
      t := Some(x);
    } else {
      var x :| x in q;
      t := Some(x);
    }
  }

  // ---- every step has a successor ---------------------------------------------------------

  lemma {:induction false} EmptiedExists(q: multiset<Item>, t: Option<Item>) returns (out: seq<Item>)
    requires TopOf(Less, q, t)
    ensures Emptied(q, t, out) && (t.Some? ==> out != [] && out[0] == t.value)
    decreases |q|
  {
    hide Less, TopOf;
    if t == None {
      out := [];
    } else {
      TopIsIn(Less, q, t.value);
      var r := q - multiset{t.value};
      var u := TopExists(r);
      var rest := EmptiedExists(r, u);
      out := [t.value] + rest;
      assert out[1..] == rest;
    }
  }

  /** A flush with a given top. */
  lemma FlushesFrom(s: Flow, t: Option<Item>) returns (s': Flow)
    requires TopOf(Less, s.queue, t)
    ensures Flushed(s, s') && s.written + AsSeq(t) <= s'.written
  {
    hide Less, TopOf, Emptied;
    var out := EmptiedExists(s.queue, t);
    s' := Dnp3Reorder.Cleared(s, out);
  }

  lemma Flushes(s: Flow) returns (s': Flow)
    ensures Flushed(s, s') && s.written <= s'.written
  {
    hide Less, TopOf, Emptied, Flushed;
    var t := TopExists(s.queue);
    s' := FlushesFrom(s, t);
  }

  lemma QueuesOn(s: Flow, i: Item) returns (s': Flow)
    ensures if Complete(Queued(s, i)) then Flushed(Queued(s, i), s') else s' == Queued(s, i)
    ensures s.written <= s'.written
  {
    hide Complete, Flushed;
    s' := Queued(s, i);
    if Complete(s') { s' := Flushes(s'); }
  }

  lemma StepExists(s: Flow, i: Item) returns (s': Flow)
    ensures Dnp3Reorder.Step(s, i, s') && s.written <= s'.written
  {
    hide Flushed, Complete, Queued, Duplicate;
    if i.frame.IsFragment() {
      var s1 := s;
      if Duplicate(s, i.frame) { s1 := Flushes(s); }
      s' := QueuesOn(s1, i);
      assert FragmentStep(s, i, s', s1);
    } else if s.next.Some? {
      var s1 := Flushes(s);
      s' := s1.(written := s1.written + [i]);
    } else if s.queue != multiset{} {
      s' := s.(next := Some(i));
    } else {
      s' := s.(written := s.written + [i]);
    }
  }

  lemma {:induction false} RunExists(s: Flow, items: seq<Item>) returns (states: seq<Flow>)
    ensures Dnp3Reorder.Run(states, items) && states[0] == s && s.written <= states[|items|].written
    decreases |items|
  {
    hide Dnp3Reorder.Step;
    if items == [] {
      states := [s];
    } else {
      var (last, front) := (items[|items| - 1], items[..|items| - 1]);
      var first := RunExists(s, front);
      var s' := StepExists(first[|front|], last);
      states := first + [s'];
      forall k | 0 <= k < |front| ensures Dnp3Reorder.Step(states[k], items[k], states[k + 1]) {
        assert Dnp3Reorder.Step(first[k], front[k], first[k + 1]);
      }
    }
  }

  // ---- a message that is too long ---------------------------------------------------------

  function Below(k: nat): (r: set<nat>)
    ensures forall j: nat :: j in r <==> j < k
  {
    if k == 0 then {} else Below(k - 1) + {k - 1}
  }

  /** The first k fragments of a message with numbers from 0 are held. */
  ghost function Held(msg: seq<Item>, k: nat): Flow
    requires k <= |msg|
  {
    Flow(multiset(msg[..k]), None, Below(k), false, k > 0, 0, 0, [])
  }

  lemma OneMore(msg: seq<Item>, k: nat)
    requires k < |msg|
    ensures multiset(msg[..k + 1]) == multiset(msg[..k]) + multiset{msg[k]}
  {
    assert msg[..k + 1] == msg[..k] + [msg[k]];
  }

  /** Up to the last fragment, or the 64th, the flow collects. */
  lemma HeldNext(msg: seq<Item>, k: nat)
    requires Message(msg, 0) && k < |msg| - 1 && k < 64
    ensures Dnp3Reorder.Step(Held(msg, k), msg[k], Held(msg, k + 1))
  {
    hide Flushed;
    assert IsPart(msg[k], 0, |msg|, k);
    OneMore(msg, k);
    var s := Held(msg, k);
    assert Queued(s, msg[k]) == Held(msg, k + 1);
    assert FragmentStep(s, msg[k], Held(msg, k + 1), s);
  }

  /** The second fragment may be the top of a queue that holds the first 34. */
  lemma SecondMayBeTop(msg: seq<Item>, k: nat)
    requires Message(msg, 0) && 35 <= k <= |msg|
    ensures TopOf(Less, multiset(msg[..k]), Some(msg[1]))
  {
    hide StrictWeak, Maximal;
    var q := multiset(msg[..k]);
    forall i | 0 <= i < 34 ensures msg[i] in q { assert msg[..k][i] in q; }
    NotWeak(msg, q);
  }

  lemma NotWeak(msg: seq<Item>, q: multiset<Item>)
    requires Message(msg, 0) && |msg| >= 35
    requires forall i | 0 <= i < 34 :: msg[i] in q
    ensures !StrictWeak(Less, q) && msg[1] in q
  {
    assert IsPart(msg[1], 0, |msg|, 1) && IsPart(msg[2], 0, |msg|, 2) && IsPart(msg[33], 0, |msg|, 33);
    var (a, b, c) := (msg[1], msg[2], msg[33]);
    assert Less(c, b) && Less(b, a) && !Less(c, a);
  }

  /** The last fragment of at most 64 completes the message. */
  lemma LastFlushes(msg: seq<Item>) returns (s': Flow)
    requires Message(msg, 0) && 35 <= |msg| <= 64
    ensures Dnp3Reorder.Step(Held(msg, |msg| - 1), msg[|msg| - 1], s') && [msg[1]] <= s'.written
  {
    hide Flushed, Less, TopOf;
    var (n, k) := (|msg|, |msg| - 1);
    var s := Held(msg, k);
    assert IsPart(msg[k], 0, n, k);
    OneMore(msg, k);
    SecondMayBeTop(msg, n);
    var q := Queued(s, msg[k]);
    assert |q.queue| == n;
    s' := FlushesFrom(q, Some(msg[1]));
    assert q.written + [msg[1]] == [msg[1]];
    assert FragmentStep(s, msg[k], s', s);
  }

  /** The 65th fragment has the number of the first and counts as a duplicate. */
  lemma WrapFlushes(msg: seq<Item>) returns (s': Flow)
    requires Message(msg, 0) && |msg| > 64
    ensures Dnp3Reorder.Step(Held(msg, 64), msg[64], s') && [msg[1]] <= s'.written
  {
    hide Flushed, Less, TopOf, Complete, Queued;
    var s := Held(msg, 64);
    assert IsPart(msg[64], 0, |msg|, 64);
    SecondMayBeTop(msg, 64);
    var s1 := FlushesFrom(s, Some(msg[1]));
    assert s.written + [msg[1]] == [msg[1]];
    s' := QueuesOn(s1, msg[64]);
    assert FragmentStep(s, msg[64], s', s1);
  }

  /** Of a message of 35 or more fragments the second may come out before the first. */
  lemma SecondFirst(msg: seq<Item>) returns (states: seq<Flow>)
    requires Message(msg, 0) && |msg| >= 35
    ensures Dnp3Reorder.Run(states, msg) && states[0] == EMPTY_FLOW
    ensures [msg[1]] <= states[|msg|].written
  {
    hide Dnp3Reorder.Step, Message, Held;
    var (n, k, s') := (|msg|, 64, EMPTY_FLOW);
    if n <= 64 {
      k := n - 1;
      s' := LastFlushes(msg);
    } else {
      s' := WrapFlushes(msg);
    }
    var rest := RunExists(s', msg[k + 1..]);
    var held := seq(k + 1, j requires 0 <= j < k + 1 => Held(msg, j));
    states := held + rest;
    forall j | 0 <= j < n ensures Dnp3Reorder.Step(states[j], msg[j], states[j + 1]) {
      if j < k {
        HeldNext(msg, j);
      } else if j > k {
        assert Dnp3Reorder.Step(rest[j - k - 1], msg[k + 1..][j - k - 1], rest[j - k]);
      }
    }
    assert Held(msg, 0) == EMPTY_FLOW by { NothingHeldYet(msg); }
  }

  lemma NothingHeldYet(msg: seq<Item>)
    ensures Held(msg, 0) == EMPTY_FLOW
  {
    assert msg[..0] == [];
  }

  // ---- the limit --------------------------------------------------------------------------

  function PartOf(n: nat, i: nat): Item {
    Item(Frame(12, i == 0, i == n - 1, 1, i % 64), [])
  }

  /** On an idle flow a message of n fragments is written as it was sent, whatever its first
      number, the order in which it arrives and the tops that the queue may give. */
  ghost predicate AlwaysWhole(n: nat) {
    forall msg: seq<Item>, start, arr, states: seq<Flow> | OneMessage(msg, n, start, arr, states) ::
      states[n].written == states[0].written + msg
  }

  ghost predicate OneMessage(msg: seq<Item>, n: nat, start: nat, arr: seq<nat>, states: seq<Flow>) {
    && |msg| == n && Message(msg, start) && Arrival(msg, arr)
    && Dnp3Reorder.Run(states, Arrivals(msg, arr)) && Dnp3Reorder.Idle(states[0])
  }

  lemma InItsOrder(msg: seq<Item>) returns (arr: seq<nat>)
    ensures Arrival(msg, arr) && Arrivals(msg, arr) == msg
  {
    arr := seq(|msg|, i requires 0 <= i < |msg| => i);
    forall m: nat | m < |msg| ensures m in arr { assert arr[m] == m; }
  }

  /** A run in which a message of more fragments comes out in another order. */
  lemma LongMessage(n: nat) returns (msg: seq<Item>, arr: seq<nat>, states: seq<Flow>)
    requires n >= 35
    ensures OneMessage(msg, n, 0, arr, states) && |states| == n + 1 && states[n].written != states[0].written + msg
  {
    hide Message, Arrival, Dnp3Reorder.Step;
    msg := seq(n, i requires 0 <= i < n => PartOf(n, i));
    PartsMakeMessage(n, msg);
    states := SecondFirst(msg);
    arr := InItsOrder(msg);
    assert states[n].written[0] == msg[1];
  }

  lemma PartsMakeMessage(n: nat, msg: seq<Item>)
    requires n >= 2 && |msg| == n && forall i | 0 <= i < n :: msg[i] == PartOf(n, i)
    ensures Message(msg, 0) && msg[0] != msg[1] && Dnp3Reorder.Idle(EMPTY_FLOW)
  {
    forall i | 0 <= i < n ensures IsPart(msg[i], 0, n, i) {
      assert msg[i] == PartOf(n, i);
    }
    assert msg[0] == PartOf(n, 0) && msg[1] == PartOf(n, 1);
  }

  lemma WholeInOrder(msg: seq<Item>, n: nat, start: nat, arr: seq<nat>, states: seq<Flow>)
    requires n <= 34 && OneMessage(msg, n, start, arr, states)
    ensures |states| == n + 1 && states[n].written == states[0].written + msg
  {
    hide Message, Dnp3Reorder.Step, Dnp3Reorder.Idle;
    AnyOrder(msg, start, arr, states);
  }

  /** 34 fragments is the limit for whole messages too. */
  lemma MessageLimit(n: nat)
    requires n >= 2
    ensures AlwaysWhole(n) <==> n <= 34
  {
    hide OneMessage;
    if n <= 34 {
      forall msg, start, arr, states | OneMessage(msg, n, start, arr, states) {
        WholeInOrder(msg, n, start, arr, states);
      }
    } else {
      var msg, arr, states := LongMessage(n);
    }
  }
}
