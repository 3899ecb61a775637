/** The wait of the resequencer in terms of arrival times: exactly when the frame at the head of
    the queue waits too long for one that it has overtaken. */
module InTime {
  import opened StreamReader
  import opened Options
  import opened PriorityQueue
  import opened IndexedQueue
  import opened DelimReorder

  predicate Clocked(nows: seq<int>) { forall j, k | 0 <= j < k < |nows| :: nows[j] <= nows[k] }

  /** Frame e is the first that has not arrived after k arrivals. */
  ghost predicate IsMissing(arr: seq<nat>, k: nat, e: nat)
    requires k <= |arr|
  {
    e !in Seen(arr, k) && Through(arr, k, e)
  }

  /** Arrival k makes frame c the first of those that have arrived and are not written. */
  ghost predicate IsHead(arr: seq<nat>, k: nat, c: nat)
    requires k < |arr|
  {
    c in Seen(arr, k + 1) && exists e: nat :: IsMissing(arr, k, e) && LeastFrom(Seen(arr, k + 1), e, c)
  }

  ghost predicate LeastFrom(seen: set<nat>, e: nat, c: nat) { e <= c && forall j | j in seen && j >= e :: c <= j }

  /** Frame c is the head from arrival j to arrival k, waiting for an earlier frame, and for
      longer than it may. */
  ghost predicate StaleSince(arr: seq<nat>, nows: seq<int>, maxWait: nat, k: nat, c: nat, j: nat)
    requires k < |arr| == |nows|
  {
    && j <= k && (forall i | j <= i <= k :: IsHead(arr, i, c))
    && !IsMissing(arr, k, c) && nows[k] - nows[j] > maxWait
  }

  ghost predicate Stale(arr: seq<nat>, nows: seq<int>, maxWait: nat, k: nat)
    requires k < |arr| == |nows|
  {
    exists c: nat, j: nat :: StaleSince(arr, nows, maxWait, k, c, j)
  }

  ghost predicate NeverStale(arr: seq<nat>, nows: seq<int>, maxWait: nat)
    requires |nows| == |arr|
  {
    forall k | 0 <= k < |arr| :: !Stale(arr, nows, maxWait, k)
  }

  // ---- the noted top ----------------------------------------------------------------------

  lemma SameNumber(start: nat, a: nat, b: nat)
    requires a < b + MODULUS && b < a + MODULUS && (start + a) % MODULUS == (start + b) % MODULUS
    ensures a == b
  {
    if a > b { ModShift(start + b, a - b); } else { ModShift(start + a, b - a); }
  }

  lemma OneMissing(arr: seq<nat>, k: nat, e: nat, n: nat)
    requires k <= |arr| && IsMissing(arr, k, e) && IsMissing(arr, k, n)
    ensures e == n
  {
    hide Seen;
  }

  lemma OneHead(arr: seq<nat>, k: nat, c: nat, d: nat)
    requires k < |arr| && IsHead(arr, k, c) && IsHead(arr, k, d)
    ensures c == d
  {
    hide Seen, IsMissing;
    var e: nat :| IsMissing(arr, k, e) && LeastFrom(Seen(arr, k + 1), e, c);
    var n: nat :| IsMissing(arr, k, n) && LeastFrom(Seen(arr, k + 1), n, d);
    OneMissing(arr, k, e, n);
  }

  lemma ProgressMissing(sent: seq<Item>, start: nat, arr: seq<nat>, before: seq<Item>, k: nat, s: State, e: nat)
    requires k <= |arr| && Progress(sent, start, arr, before, k, s, e)
    ensures IsMissing(arr, k, e)
  {
  }

  /** The top of the queue at step k is the head of the arrivals. */
  lemma TopIsHead(sent: seq<Item>, start: nat, arr: seq<nat>, before: seq<Item>, k: nat, s: State, e: nat, t: Item)
    returns (c: nat)
    requires Numbered(sent, start) && Arrival(sent, arr) && Windowed(arr) && k < |arr|
    requires Progress(sent, start, arr, before, k, s, e)
    requires TopOf(Less, s.queue + multiset{sent[arr[k]]}, Some(t))
    ensures IsHead(arr, k, c) && e <= c < e + HALF && t.frame.sequence == (start + c) % MODULUS
    ensures t.frame.sequence == s.expected <==> arr[k] == e
    ensures arr[k] == e <==> c == e
  {
    hide Less, Holds, Agrees, TopOf, Arrival, Windowed, Numbered;
    Joined(sent, start, arr, before, k, s, e, t);
    var held := Early(arr, k, e) + {arr[k]};
    WindowAgrees(sent, start, held, e);
    c := TopIsLeast(Less, s.queue + multiset{sent[arr[k]]}, sent, held, t);
    WithinAt(held, e, |sent|, c);
    NumberOf(sent, start, c);
    EarlyAbove(arr, k, e);
    ProgressMissing(sent, start, arr, before, k, s, e);
    HeldFrom(arr, k, e, c);
    if arr[k] == e { assert e in held; }
  }

  lemma WithinAt(held: set<nat>, low: nat, n: nat, c: nat)
    requires Within(held, low, n) && c in held
    ensures low <= c < n && c < low + HALF
  {
  }

  lemma HeldFrom(arr: seq<nat>, k: nat, e: nat, c: nat)
    requires k < |arr| && e <= arr[k] && IsMissing(arr, k, e)
    requires c in Early(arr, k, e) + {arr[k]} && forall j | j in Early(arr, k, e) + {arr[k]} :: c <= j
    ensures IsHead(arr, k, c)
  {
    hide Seen, Through;
    SeenNext(arr, k);
    var seen := Seen(arr, k + 1);
    forall j | j in seen && j >= e ensures c <= j {
      assert j in Early(arr, k, e) + {arr[k]};
    }
    assert LeastFrom(seen, e, c);
  }

  /** Frame c became the head at arrival j and was noted then, and has been the head since. */
  ghost predicate NotedAt(start: nat, arr: seq<nat>, nows: seq<int>, k: nat, s: State, e: nat, c: nat, j: nat)
    requires k <= |arr| == |nows|
  {
    && j < k && (forall i | j <= i < k :: IsHead(arr, i, c)) && FirstHead(arr, j, c)
    && c < e + HALF && e <= c + HALF && s.lastTop == (start + c) % MODULUS && s.topChange == nows[j]
  }

  ghost predicate FirstHead(arr: seq<nat>, j: nat, c: nat)
    requires j <= |arr|
  {
    j > 0 ==> !IsHead(arr, j - 1, c)
  }

  /** The last noted top after k arrivals; at first the number before the expected one. */
  ghost predicate TopKnown(start: nat, arr: seq<nat>, nows: seq<int>, k: nat, s: State, e: nat)
    requires k <= |arr| == |nows|
  {
    if k == 0 then e == 0 && s.lastTop == (start + MODULUS - 1) % MODULUS
    else exists c: nat, j: nat :: NotedAt(start, arr, nows, k, s, e, c, j)
  }

  /** Since when the head has been noted, once step k has noted it. */
  lemma NotedSince(start: nat, arr: seq<nat>, nows: seq<int>, k: nat, s: State, e: nat, c: nat) returns (j: nat)
    requires k < |arr| == |nows| && TopKnown(start, arr, nows, k, s, e)
    requires IsHead(arr, k, c) && e <= c < e + HALF
    ensures j <= k && FirstHead(arr, j, c) && forall i | j <= i <= k :: IsHead(arr, i, c)
    ensures nows[j] == if (start + c) % MODULUS != s.lastTop then nows[k] else s.topChange
  {
    hide IsHead;
    if k == 0 {
      j := 0;
      FirstIsNew(start, c);
    } else {
      var d: nat, i: nat :| NotedAt(start, arr, nows, k, s, e, d, i);
      if (start + c) % MODULUS == s.lastTop {
        SameNumber(start, c, d);
        j := i;
      } else {
        j := k;
        if IsHead(arr, k - 1, c) { OneHead(arr, k - 1, c, d); }
      }
    }
  }

  lemma FirstIsNew(start: nat, c: nat)
    requires c < HALF
    ensures (start + c) % MODULUS != (start + MODULUS - 1) % MODULUS
  {
    assert start + MODULUS - 1 == start + (MODULUS - 1);
    if (start + c) % MODULUS == (start + MODULUS - 1) % MODULUS { SameNumber(start, c, MODULUS - 1); }
  }

  /** The head has waited too long if and only if the arrivals say so. */
  lemma StaleIff(arr: seq<nat>, nows: seq<int>, maxWait: nat, k: nat, c: nat, j: nat)
    requires k < |arr| == |nows| && Clocked(nows) && j <= k
    requires FirstHead(arr, j, c) && forall i | j <= i <= k :: IsHead(arr, i, c)
    ensures Stale(arr, nows, maxWait, k) <==> !IsMissing(arr, k, c) && nows[k] - nows[j] > maxWait
  {
    hide IsHead, IsMissing;
    if Stale(arr, nows, maxWait, k) {
      var d: nat, m: nat :| StaleSince(arr, nows, maxWait, k, d, m);
      assert IsHead(arr, k, d) && IsHead(arr, k, c);
      OneHead(arr, k, c, d);
      assert nows[j] <= nows[m];
    }
    if !IsMissing(arr, k, c) && nows[k] - nows[j] > maxWait {
      assert StaleSince(arr, nows, maxWait, k, c, j);
    }
  }

  // ---- one step ---------------------------------------------------------------------------

  /** A step does not jump exactly when the missing frame has arrived, or the frames ahead of it
      fit the queue and the head is not stale. */
  lemma StepInTime(l: Limits, sent: seq<Item>, start: nat, arr: seq<nat>, nows: seq<int>, before: seq<Item>,
                   k: nat, s: State, e: nat, s': State, jump: Jump)
    requires Numbered(sent, start) && Arrival(sent, arr) && Windowed(arr) && k < |arr| == |nows| && Clocked(nows)
    requires Progress(sent, start, arr, before, k, s, e) && TopKnown(start, arr, nows, k, s, e)
    requires Step(l, s, sent[arr[k]], nows[k], s', jump)
    ensures jump == Timeout <==>
      arr[k] != e && |Early(arr, k, e) + {arr[k]}| <= l.maxQueue && Stale(arr, nows, l.maxWait, k)
    ensures Stale(arr, nows, l.maxWait, k) ==> arr[k] != e
  {
    hide Less, Holds, Agrees, TopOf, Seen, Drained, TopKnown, Progress, Windowed, Numbered, Arrival, Clocked;
    hide IsHead, IsMissing, Stale, FirstHead, Early;
    NextArrival(sent, start, arr, before, k, s, e);
    NumberedFramed(sent, start, arr[k]);
    var t: Item, out: seq<Item> :| StepVia(l, s, sent[arr[k]], nows[k], s', jump, t, out);
    var c := TopIsHead(sent, start, arr, before, k, s, e, t);
    Joined(sent, start, arr, before, k, s, e, t);
    var j := NotedSince(start, arr, nows, k, s, e, c);
    StaleIff(arr, nows, l.maxWait, k, c, j);
    ProgressMissing(sent, start, arr, before, k, s, e);
    if IsMissing(arr, k, c) { OneMissing(arr, k, c, e); }
  }

  lemma StepKnown(l: Limits, sent: seq<Item>, start: nat, arr: seq<nat>, nows: seq<int>, before: seq<Item>,
                   k: nat, s: State, e: nat, s': State, jump: Jump, n: nat)
    requires Numbered(sent, start) && Arrival(sent, arr) && Windowed(arr) && k < |arr| == |nows|
    requires Progress(sent, start, arr, before, k, s, e) && TopKnown(start, arr, nows, k, s, e)
    requires Step(l, s, sent[arr[k]], nows[k], s', jump)
    requires Progress(sent, start, arr, before, k + 1, s', n)
    ensures TopKnown(start, arr, nows, k + 1, s', n)
  {
    hide Less, Holds, Agrees, TopOf, Seen, Drained, TopKnown, Progress, Windowed, Numbered, Arrival;
    hide IsHead, FirstHead;
    NextArrival(sent, start, arr, before, k, s, e);
    NumberedFramed(sent, start, arr[k]);
    var t: Item, out: seq<Item> :| StepVia(l, s, sent[arr[k]], nows[k], s', jump, t, out);
    var c := TopIsHead(sent, start, arr, before, k, s, e, t);
    var j := NotedSince(start, arr, nows, k, s, e, c);
    ProgressNear(sent, start, arr, before, k, s, e, s', n);
    TopIsKnown(start, arr, nows, k, s', n, c, j);
  }

  lemma TopIsKnown(start: nat, arr: seq<nat>, nows: seq<int>, k: nat, s: State, e: nat, c: nat, j: nat)
    requires k < |arr| == |nows| && NotedAt(start, arr, nows, k + 1, s, e, c, j)
    ensures TopKnown(start, arr, nows, k + 1, s, e)
  {
  }

  /** The expected number moves on by less than half the numbers, and only past the top. */
  lemma ProgressNear(sent: seq<Item>, start: nat, arr: seq<nat>, before: seq<Item>, k: nat, s: State, e: nat,
                     s': State, n: nat)
    requires Arrival(sent, arr) && Windowed(arr) && k < |arr|
    requires Progress(sent, start, arr, before, k, s, e) && Progress(sent, start, arr, before, k + 1, s', n)
    ensures e <= n <= e + HALF && (n > e ==> arr[k] == e)
  {
    hide Holds, Seen;
    SeenNext(arr, k);
    if n > e {
      var m := n - 1;
      assert e in Seen(arr, k + 1) && m in Seen(arr, k + 1);
      assert arr[k] == e;
      if m != e { SeenWindowed(arr, k, m); }
    }
  }

  lemma SeenWindowed(arr: seq<nat>, k: nat, m: nat)
    requires Windowed(arr) && k < |arr| && m in Seen(arr, k)
    ensures m < arr[k] + HALF
  {
    var p := PositionOf(arr[..k], m);
    assert arr[p] == m;
  }

  // ---- every run --------------------------------------------------------------------------

  /** Progress and the noted top after every prefix that is free of jumps. */
  lemma {:induction false} KnownThrough(l: Limits, sent: seq<Item>, start: nat, arr: seq<nat>, states: seq<State>,
                                        nows: seq<int>, jumps: seq<Jump>, k: nat) returns (e: nat)
    requires Numbered(sent, start) && Arrival(sent, arr) && Windowed(arr)
    requires Run(l, states, Arrivals(sent, arr), nows, jumps) && k <= |arr| && |nows| == |arr|
    requires states[0].queue == multiset{} && states[0].expected == start % MODULUS
    requires states[0].lastTop == (start + MODULUS - 1) % MODULUS
    requires forall j | 0 <= j < k :: jumps[j] == NoJump
    ensures Progress(sent, start, arr, states[0].written, k, states[k], e)
      && TopKnown(start, arr, nows, k, states[k], e)
  {
    hide Less, Holds, Agrees, Step, Windowed, Numbered, Seen, Early, NotedAt;
    if k == 0 {
      e := 0;
      ProgressStart(sent, start, arr, states[0]);
    } else {
      var d := KnownThrough(l, sent, start, arr, states, nows, jumps, k - 1);
      assert Step(l, states[k - 1], Arrivals(sent, arr)[k - 1], nows[k - 1], states[k], jumps[k - 1]);
      var before := states[0].written;
      e := RunProgress(l, sent, start, arr, states, nows, jumps, k);
      StepKnown(l, sent, start, arr, nows, before, k - 1, states[k - 1], d, states[k], jumps[k - 1], e);
    }
  }

  /** After a prefix free of jumps the next step times out only when the head is stale, and does
      so or overflows then. */
  lemma NextInTime(l: Limits, sent: seq<Item>, start: nat, arr: seq<nat>, states: seq<State>, nows: seq<int>,
                   jumps: seq<Jump>, k: nat)
    requires Numbered(sent, start) && Arrival(sent, arr) && Windowed(arr)
    requires Run(l, states, Arrivals(sent, arr), nows, jumps) && k < |arr| == |nows| && Clocked(nows)
    requires states[0].queue == multiset{} && states[0].expected == start % MODULUS
    requires states[0].lastTop == (start + MODULUS - 1) % MODULUS
    requires forall j | 0 <= j < k :: jumps[j] == NoJump
    ensures jumps[k] == Timeout ==> Stale(arr, nows, l.maxWait, k)
    ensures Stale(arr, nows, l.maxWait, k) ==> jumps[k] != NoJump
  {
    hide Less, Holds, Agrees, Step, Windowed, Numbered, Seen, Early, TopKnown, Progress, Stale, Clocked;
    var e := KnownThrough(l, sent, start, arr, states, nows, jumps, k);
    var (before, now, jump) := (states[0].written, nows[k], jumps[k]);
    assert Step(l, states[k], Arrivals(sent, arr)[k], now, states[k + 1], jump);
    StepInTime(l, sent, start, arr, nows, before, k, states[k], e, states[k + 1], jump);
    if jump != Timeout {
      var n := StepProgress(l, sent, start, arr, before, k, states[k], e, now, states[k + 1], jump);
      EarlyNext(arr, k, e);
    }
  }

  lemma {:induction false} NoJumpThrough(l: Limits, sent: seq<Item>, start: nat, arr: seq<nat>, states: seq<State>,
                                         nows: seq<int>, jumps: seq<Jump>, k: nat)
    requires Numbered(sent, start) && Arrival(sent, arr) && Windowed(arr)
    requires Run(l, states, Arrivals(sent, arr), nows, jumps) && k <= |arr| == |nows| && Clocked(nows)
    requires states[0].queue == multiset{} && states[0].expected == start % MODULUS
    requires states[0].lastTop == (start + MODULUS - 1) % MODULUS
    requires FewOvertakers(arr, l.maxQueue) && NeverStale(arr, nows, l.maxWait)
    ensures forall j | 0 <= j < k :: jumps[j] == NoJump
  {
    hide Less, Holds, Agrees, Step, Windowed, Numbered, Seen, Clocked, Stale;
    if k > 0 {
      NoJumpThrough(l, sent, start, arr, states, nows, jumps, k - 1);
      NextInTime(l, sent, start, arr, states, nows, jumps, k - 1);
      FewOvertakeMeansNoJump(l, sent, start, arr, states, nows, jumps, k - 1);
    }
  }

  /** In terms of the arrivals and their times alone: the frames are written in the order of
      their numbers if and only if no frame is overtaken by more than the queue holds and the head
      is never stale. */
  lemma InOrderExactly(l: Limits, sent: seq<Item>, start: nat, arr: seq<nat>, states: seq<State>, nows: seq<int>,
                       jumps: seq<Jump>)
    requires Numbered(sent, start) && Arrival(sent, arr) && Windowed(arr)
    requires Run(l, states, Arrivals(sent, arr), nows, jumps) && |nows| == |arr| && Clocked(nows)
    requires states[0].queue == multiset{} && states[0].expected == start % MODULUS
    requires states[0].lastTop == (start + MODULUS - 1) % MODULUS
    ensures states[|arr|].written == states[0].written + sent
       <==> FewOvertakers(arr, l.maxQueue) && NeverStale(arr, nows, l.maxWait)
  {
    hide Less, Holds, Agrees, Step, Windowed, Numbered, Overtakers, Run, Clocked, Stale;
    RunShape(l, states, Arrivals(sent, arr), nows, jumps);
    InOrderUnlessJump(l, sent, start, arr, states, nows, jumps);
    if FewOvertakers(arr, l.maxQueue) && NeverStale(arr, nows, l.maxWait) {
      NoJumpThrough(l, sent, start, arr, states, nows, jumps, |arr|);
    }
    if NoJumps(jumps) {
      forall p | 0 <= p < |arr| ensures |Overtakers(arr, p)| <= l.maxQueue && !Stale(arr, nows, l.maxWait, p) {
        NoJumpMeansFewOvertake(l, sent, start, arr, states, nows, jumps, p);
        NextInTime(l, sent, start, arr, states, nows, jumps, p);
      }
    }
  }

  // ---- a simple sufficient condition ------------------------------------------------------

  /** Whenever one frame overtakes another, the other follows within the wait. */
  ghost predicate Prompt(arr: seq<nat>, nows: seq<int>, maxWait: nat)
    requires |nows| == |arr|
  {
    forall q, p | 0 <= q < p < |arr| && arr[q] > arr[p] :: nows[p] - nows[q] <= maxWait
  }

  /** A stale head has overtaken a frame that comes too late. */
  lemma StaleWaits(sent: seq<Item>, arr: seq<nat>, nows: seq<int>, maxWait: nat, k: nat, c: nat, j: nat)
    returns (q: nat, p: nat)
    requires Arrival(sent, arr) && k < |arr| == |nows| && Clocked(nows) && StaleSince(arr, nows, maxWait, k, c, j)
    ensures q < p < |arr| && arr[q] > arr[p] && nows[p] - nows[q] > maxWait
  {
    hide Seen, IsMissing;
    assert IsHead(arr, k, c) && IsHead(arr, j, c);
    var e: nat :| IsMissing(arr, k, e) && LeastFrom(Seen(arr, k + 1), e, c);
    q := SeenBy(arr, j + 1, c);
    p := MissingAfter(sent, arr, k, e, c);
    assert nows[q] <= nows[j] && nows[k] <= nows[p];
  }

  lemma PromptNotStale(sent: seq<Item>, arr: seq<nat>, nows: seq<int>, maxWait: nat, k: nat)
    requires Arrival(sent, arr) && k < |arr| == |nows| && Clocked(nows) && Prompt(arr, nows, maxWait)
    ensures !Stale(arr, nows, maxWait, k)
  {
    hide Arrival, Clocked, StaleSince;
    if c: nat, j: nat :| StaleSince(arr, nows, maxWait, k, c, j) {
      var q, p := StaleWaits(sent, arr, nows, maxWait, k, c, j);
    }
  }

  lemma SeenBy(arr: seq<nat>, k: nat, c: nat) returns (q: nat)
    requires k <= |arr| && c in Seen(arr, k)
    ensures q < k && arr[q] == c
  {
    q := PositionOf(arr[..k], c);
  }

  lemma MissingAfter(sent: seq<Item>, arr: seq<nat>, k: nat, e: nat, c: nat) returns (p: nat)
    requires Arrival(sent, arr) && k < |arr| && IsMissing(arr, k, e)
    requires c in Seen(arr, k + 1) && LeastFrom(Seen(arr, k + 1), e, c) && c != e
    ensures k < p < |arr| && arr[p] == e
  {
    var q := SeenBy(arr, k + 1, c);
    p := PositionOf(arr, e);
    SeenAt(arr, k + 1, p);
  }

  /** With every overtaken frame following in time, the frames are written in order if and only
      if no frame is overtaken by more than the queue holds, which is when the handler never
      jumps. */
  lemma InOrderInTime(l: Limits, sent: seq<Item>, start: nat, arr: seq<nat>, states: seq<State>, nows: seq<int>,
                      jumps: seq<Jump>)
    requires Numbered(sent, start) && Arrival(sent, arr) && Windowed(arr)
    requires Run(l, states, Arrivals(sent, arr), nows, jumps) && |nows| == |arr|
    requires states[0].queue == multiset{} && states[0].expected == start % MODULUS
    requires states[0].lastTop == (start + MODULUS - 1) % MODULUS
    requires Clocked(nows) && Prompt(arr, nows, l.maxWait)
    ensures states[|arr|].written == states[0].written + sent <==> FewOvertakers(arr, l.maxQueue)
    ensures NoJumps(jumps) <==> FewOvertakers(arr, l.maxQueue)
    ensures states[|arr|].written == states[0].written + sent ==>
      states[|arr|].queue == multiset{} && states[|arr|].expected == (start + |sent|) % MODULUS
  {
    hide Less, Holds, Agrees, Step, Windowed, Numbered, FewOvertakers, Run, Clocked, Prompt, Stale;
    forall k | 0 <= k < |arr| ensures !Stale(arr, nows, l.maxWait, k) {
      PromptNotStale(sent, arr, nows, l.maxWait, k);
    }
    InOrderExactly(l, sent, start, arr, states, nows, jumps);
    InOrderUnlessJump(l, sent, start, arr, states, nows, jumps);
  }
}
