/** Over runs of a cache: what an addition does, and exactly when a key goes. */
module CacheRuns {
  import opened TimeoutCache

  datatype Event<T> = Add(key: T, now: int) | Fire(key: T, now: int)

  /** Timers fire for keys that are there. */
  predicate Enabled<T(==)>(c: Cache<T>, e: Event<T>) { e.Fire? ==> e.key in c.entries }

  function Step<T(==)>(c: Cache<T>, timeout: nat, max: nat, e: Event<T>): Cache<T>
    requires Enabled(c, e)
  {
    match e
    case Add(key, now) => Added(c, timeout, max, key, now)
    case Fire(key, now) => Fired(c, timeout, key, now)
  }

  /** A run from the empty cache, under a clock that does not go back. */
  ghost predicate Run<T(!new)>(timeout: nat, max: nat, states: seq<Cache<T>>, events: seq<Event<T>>) {
    && |states| == |events| + 1 && states[0] == Cache([], map[], multiset{})
    && (forall k | 0 <= k < |events| ::
          Enabled(states[k], events[k]) && states[k + 1] == Step(states[k], timeout, max, events[k]))
    && (forall j, k | 0 <= j < k < |events| :: events[j].now <= events[k].now)
  }

  /** An addition is dropped if and only if the key is new and the cache is full; else the key is
      held as just added, last in the list if it is new. */
  lemma AdditionExactly<T(!new)>(c: Cache<T>, timeout: nat, max: nat, key: T, now: int)
    requires Ok(c, timeout, max)
    ensures var d := Added(c, timeout, max, key, now);
            if key !in c.keys && |c.keys| == max then d == c && key !in d.entries
            else
              && key in d.entries && d.entries[key].access == now
              && d.keys == (if key in c.keys then c.keys else c.keys + [key])
              && forall k | k in c.entries && k != key :: k in d.entries && d.entries[k] == c.entries[k]
  {
  }

  /** A timer that keeps its key is set to the end of the key's idle time, which is still ahead. */
  lemma RearmedLater<T(!new)>(c: Cache<T>, timeout: nat, max: nat, key: T, now: int)
    requires Ok(c, timeout, max) && key in c.entries && key in Fired(c, timeout, key, now).entries
    ensures var e := Fired(c, timeout, key, now).entries[key];
            e.access == c.entries[key].access && e.due == e.access + timeout > now
  {
  }

  lemma {:induction false} RunOk<T(!new)>(timeout: nat, max: nat, states: seq<Cache<T>>, events: seq<Event<T>>, k: nat)
    requires Run(timeout, max, states, events) && k <= |events|
    ensures Ok(states[k], timeout, max)
    ensures forall x | x in states[k].entries :: forall i | k <= i < |events| ::
              states[k].entries[x].access <= events[i].now
  {
    hide Enabled, Ok, Added, Fired;
    if k == 0 {
      EmptyIsOk<T>(timeout, max);
    } else {
      RunOk(timeout, max, states, events, k - 1);
      assert Enabled(states[k - 1], events[k - 1])
        && states[k] == Step(states[k - 1], timeout, max, events[k - 1]);
      StepOk(states[k - 1], timeout, max, events[k - 1]);
    }
  }

  lemma EmptyIsOk<T(!new)>(timeout: nat, max: nat)
    ensures Ok(Cache<T>.Cache([], map[], multiset{}), timeout, max)
  {
  }

  lemma StepOk<T(!new)>(c: Cache<T>, timeout: nat, max: nat, e: Event<T>)
    requires Ok(c, timeout, max) && Enabled(c, e) && forall x | x in c.entries :: c.entries[x].access <= e.now
    ensures var d := Step(c, timeout, max, e);
            Ok(d, timeout, max) && forall x | x in d.entries :: d.entries[x].access <= e.now
  {
    hide Without;
    match e {
      case Add(key, now) => AddedOk(c, timeout, max, key, now);
      case Fire(key, now) => FiredOk(c, timeout, max, key, now);
    }
  }

  /** Event j is the last addition of the key before event n. */
  predicate LastAdded<T(==)>(events: seq<Event<T>>, key: T, n: nat, j: nat)
    requires n <= |events|
  {
    && j < n && events[j].Add? && events[j].key == key
    && forall i | j < i < n :: !(events[i].Add? && events[i].key == key)
  }

  /** Whatever is held was last added when its entry says. */
  lemma {:induction false} AccessIsLast<T(!new)>(timeout: nat, max: nat, states: seq<Cache<T>>, events: seq<Event<T>>,
                                                 key: T, n: nat) returns (j: nat)
    requires Run(timeout, max, states, events) && n <= |events| && key in states[n].entries
    ensures LastAdded(events, key, n, j) && states[n].entries[key].access == events[j].now
  {
    hide Enabled, Ok, Without;
    var (c, e) := (states[n - 1], events[n - 1]);
    assert Enabled(c, e) && states[n] == Step(c, timeout, max, e);
    if e.Add? && e.key == key {
      j := n - 1;
      RunOk(timeout, max, states, events, n - 1);
      AdditionExactly(c, timeout, max, key, e.now);
    } else {
      WasHeld(c, timeout, max, e, key);
      j := AccessIsLast(timeout, max, states, events, key, n - 1);
    }
  }

  lemma WasHeld<T(!new)>(c: Cache<T>, timeout: nat, max: nat, e: Event<T>, key: T)
    requires Enabled(c, e) && key in Step(c, timeout, max, e).entries && !(e.Add? && e.key == key)
    ensures key in c.entries && Step(c, timeout, max, e).entries[key].access == c.entries[key].access
  {
    hide Without;
  }

  /** Over every run: a key goes if and only if its own timer fires a full timeout after its last
      addition, however often the timer fired before. */
  lemma GoesExactly<T(!new)>(timeout: nat, max: nat, states: seq<Cache<T>>, events: seq<Event<T>>, key: T, n: nat)
    returns (j: nat)
    requires Run(timeout, max, states, events) && n < |events| && key in states[n].entries
    ensures LastAdded(events, key, n, j)
    ensures key !in states[n + 1].entries <==>
      events[n].Fire? && events[n].key == key && events[n].now >= events[j].now + timeout
  {
    hide Ok, Without;
    j := AccessIsLast(timeout, max, states, events, key, n);
    RunOk(timeout, max, states, events, n);
    var (c, e) := (states[n], events[n]);
    assert Enabled(c, e) && states[n + 1] == Step(c, timeout, max, e);
    ForgottenOnlyIdle(c, timeout, max, e.key, e.now, key);
  }

  /** A key that was added, and not dropped, is held for a timeout. */
  lemma {:induction false} HeldForTimeout<T(!new)>(timeout: nat, max: nat, states: seq<Cache<T>>, events: seq<Event<T>>,
                                                   j: nat, n: nat)
    requires Run(timeout, max, states, events) && j < n <= |events| && events[j].Add?
    requires events[j].key in states[j].keys || |states[j].keys| < max
    requires events[n - 1].now < events[j].now + timeout
    ensures events[j].key in states[n].entries && states[n].entries[events[j].key].access >= events[j].now
  {
    hide Ok, Without;
    var (c, e) := (states[n - 1], events[n - 1]);
    assert Enabled(c, e) && states[n] == Step(c, timeout, max, e);
    RunOk(timeout, max, states, events, n - 1);
    if n == j + 1 {
      AdditionExactly(c, timeout, max, e.key, e.now);
    } else {
      assert events[n - 2].now <= events[n - 1].now && events[j].now <= e.now;
      HeldForTimeout(timeout, max, states, events, j, n - 1);
    }
  }
}
