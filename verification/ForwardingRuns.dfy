/** What holds over whole runs of the plex: caches in order, one active branch per address,
    and one copy for each branch. */
module ForwardingRuns {
  import opened Options
  import opened TimeoutCache
  import opened Forwarding

  /** A run from the start, under a clock that does not go back. */
  ghost predicate Run(c: Config, states: seq<Plex>, events: seq<Event>, outs: seq<multiset<Endpoint>>) {
    && |states| == |events| + 1 && |outs| == |events| && states[0] == Initial(c)
    && (forall k | 0 <= k < |events| ::
          Enabled(states[k], events[k]) && (states[k + 1], outs[k]) == Step(c, states[k], events[k]))
    && (forall j, k | 0 <= j < k < |events| :: events[j].now <= events[k].now)
  }

  function Clock(events: seq<Event>, k: nat): int
    requires k <= |events|
  {
    if k > 0 then events[k - 1].now else if events == [] then 0 else events[0].now
  }

  /** In every reachable state the caches are in order and every fixed branch is active,
      listed as inactive, or has a pending timeout notification. */
  lemma {:induction false} RunOk(c: Config, states: seq<Plex>, events: seq<Event>, outs: seq<multiset<Endpoint>>,
                                 k: nat)
    requires Run(c, states, events, outs) && k <= |events|
    ensures CachesOk(c, states[k], Clock(events, k)) && BranchesOk(c, states[k])
  {
    hide CachesOk, BranchesOk, Step, Enabled;
    if k == 0 {
      InitialOk(c, Clock(events, 0));
    } else {
      RunOk(c, states, events, outs, k - 1);
      StepCachesOk(c, states[k - 1], events[k - 1], Clock(events, k - 1));
      StepBranchesOk(c, states[k - 1], events[k - 1], Clock(events, k - 1));
      assert (states[k], outs[k - 1]) == Step(c, states[k - 1], events[k - 1]);
    }
  }

  lemma InitialOk(c: Config, now: int)
    ensures CachesOk(c, Initial(c), now) && BranchesOk(c, Initial(c))
  {
    EmptyOk(c.timeout, c.BranchLimit(), now);
  }

  // ---- the active branch stays ------------------------------------------------------------

  /** The branch list, or the list for an address. */
  function CacheAt(s: Plex, a: Option<nat>): Cache<Endpoint> { if a.None? then s.active else AddrOf(s, a.value) }

  lemma AddressBranchesHead(c: Config, s: Plex, sender: Endpoint, x: nat, associate: bool, now: int, a: nat,
                            b: Endpoint, t: int)
    requires HeadSince(AddrOf(s, a), b, t) && t <= now
    ensures HeadSince(AddrOf(AddressBranches(c, s, sender, x, associate, now), a), b, t)
  {
    hide Added, HeadSince;
    if x == a { AddKeepsHead(AddrOf(s, a), c.timeout, c.SwitchLimit(), sender, now, b, t); }
  }

  lemma SwitchStateHead(c: Config, s: Plex, sender: Endpoint, x: Addresses, now: int, a: nat, b: Endpoint, t: int)
    requires HeadSince(AddrOf(s, a), b, t) && t <= now
    ensures HeadSince(AddrOf(SwitchState(c, s, sender, x, now), a), b, t)
  {
    hide HeadSince, AddressBranches;
    AddressBranchesHead(c, s, sender, x.src, true, now, a, b, t);
    AddressBranchesHead(c, AddressBranches(c, s, sender, x.src, true, now), sender, x.dst, false, now, a, b, t);
  }

  lemma PacketKeepsHead(c: Config, s: Plex, e: Event, a: Option<nat>, b: Endpoint, t: int)
    requires e.Packet? && HeadSince(CacheAt(s, a), b, t) && t <= e.now
    ensures HeadSince(CacheAt(Received(c, s, e).0, a), b, t)
  {
    hide HeadSince, Added, SwitchState, ToAll, PrunePacket, SwitchPacket;
    var u := Branches(c, s, e.sender, e.now);
    if a.None? {
      PacketBranches(c, s, e);
      if e.sender != c.trunk { AddKeepsHead(s.active, c.timeout, c.BranchLimit(), e.sender, e.now, b, t); }
    } else if c.mode == Switch && e.addresses.Some? {
      SwitchStateHead(c, u, e.sender, e.addresses.value, e.now, a.value, b, t);
    }
  }

  lemma StepKeepsHead(c: Config, s: Plex, e: Event, before: int, a: Option<nat>, b: Endpoint, t: int)
    requires CachesOk(c, s, before) && Enabled(s, e) && HeadSince(CacheAt(s, a), b, t) && t <= e.now
    ensures HeadSince(CacheAt(Step(c, s, e).0, a), b, t) || e.now >= t + c.timeout
  {
    hide Fired, Received, Ok;
    match e {
      case Packet(_, _, _) => PacketKeepsHead(c, s, e, a, b, t);
      case BranchTimer(key, now) =>
        if a.None? { FireKeepsHead(s.active, c.timeout, c.BranchLimit(), key, now, b, t); }
      case AddressTimer(x, key, now) =>
        if a == Some(x) { FireKeepsHead(s.addr[x], c.timeout, c.SwitchLimit(), key, now, b, t); }
      case Notified(key, now) =>
    }
  }

  /** A head stays the head until a timeout has passed. */
  lemma {:induction false} HeadUntil(c: Config, states: seq<Plex>, events: seq<Event>, outs: seq<multiset<Endpoint>>,
                                     a: Option<nat>, b: Endpoint, j: nat, k: nat)
    requires Run(c, states, events, outs) && j < k <= |events|
    requires HeadSince(CacheAt(states[j + 1], a), b, events[j].now)
    ensures HeadSince(CacheAt(states[k], a), b, events[j].now) || events[k - 1].now >= events[j].now + c.timeout
  {
    hide HeadSince, CacheAt, Step, Enabled, CachesOk, BranchesOk;
    if k > j + 1 {
      HeadUntil(c, states, events, outs, a, b, j, k - 1);
      if HeadSince(CacheAt(states[k - 1], a), b, events[j].now) {
        RunOk(c, states, events, outs, k - 1);
        StepKeepsHead(c, states[k - 1], events[k - 1], Clock(events, k - 1), a, b, events[j].now);
        assert (states[k], outs[k - 1]) == Step(c, states[k - 1], events[k - 1]);
      }
    }
  }

  predicate PacketFrom(e: Event, src: nat) { e.Packet? && e.addresses.Some? && e.addresses.value.src == src }

  /** A packet with source address src that is accepted, whether or not there is anyone to send
      it to. */
  predicate Accepted(states: seq<Plex>, events: seq<Event>, src: nat, j: nat) {
    j < |events| && j + 1 < |states| && PacketFrom(events[j], src) && AcceptedFrom(states[j + 1], events[j].sender, src)
  }

  /** A packet is accepted exactly when its address has no branch yet or is on the sender's. */
  lemma AcceptsExactly(c: Config, s: Plex, sender: Endpoint, x: Addresses, before: int, now: int)
    requires CachesOk(c, s, before) && before <= now
    ensures var keys := AddrOf(s, x.src).keys;
            AcceptedFrom(SwitchState(c, s, sender, x, now), sender, x.src) <==> keys == [] || keys[0] == sender
  {
    hide Ok;
    AddrOk(c, s, x.src, before, now);
    if AddrOf(s, x.src).keys == [] { NoKeys(c, AddrOf(s, x.src)); }
  }

  lemma NoKeys(c: Config, cache: Cache<Endpoint>)
    requires Ok(cache, c.timeout, c.SwitchLimit()) && cache.keys == []
    ensures forall k :: k !in cache.entries
  {
  }

  /** Whatever is forwarded was accepted. */
  lemma ForwardedIsAccepted(c: Config, states: seq<Plex>, events: seq<Event>, outs: seq<multiset<Endpoint>>, src: nat,
                            j: nat)
    requires Run(c, states, events, outs) && c.mode == Switch && j < |events|
    requires PacketFrom(events[j], src) && outs[j] != multiset{}
    ensures Accepted(states, events, src, j)
  {
    hide CachesOk, BranchesOk, SwitchState, ToAll, PrunePacket, AcceptedFrom;
    assert (states[j + 1], outs[j]) == Step(c, states[j], events[j]);
  }

  lemma AcceptedIsHead(c: Config, s: Plex, e: Event, src: nat, before: int)
    requires CachesOk(c, s, before) && before <= e.now && c.mode == Switch && PacketFrom(e, src)
    requires AcceptedFrom(Received(c, s, e).0, e.sender, src)
    ensures HeadSince(CacheAt(Received(c, s, e).0, Some(src)), e.sender, e.now)
  {
    hide CachesOk, HeadSince, SwitchState, ToAll, PrunePacket;
    BranchesCachesOk(c, s, e.sender, before, e.now);
    SwitchHead(c, Branches(c, s, e.sender, e.now), e.sender, e.addresses.value, e.now, e.now);
  }

  lemma OneHead(cache: Cache<Endpoint>, a: Endpoint, b: Endpoint, t: int, u: int)
    requires HeadSince(cache, a, t) && HeadSince(cache, b, u)
    ensures a == b
  {
  }

  /** Switch mode: packets with the same source address that are accepted from different
      branches are at least a cache timeout apart. */
  lemma SwitchSticky(c: Config, states: seq<Plex>, events: seq<Event>, outs: seq<multiset<Endpoint>>, src: nat, j: nat,
                     k: nat)
    requires Run(c, states, events, outs) && c.mode == Switch && j < k < |events|
    requires Accepted(states, events, src, j) && Accepted(states, events, src, k)
      && events[j].sender != events[k].sender
    ensures events[k].now >= events[j].now + c.timeout
  {
    hide HeadSince, CacheAt, CachesOk, BranchesOk, Received;
    AcceptedAt(c, states, events, outs, src, j);
    AcceptedAt(c, states, events, outs, src, k);
    Replaced(c, states, events, outs, Some(src), j, k);
  }

  lemma AcceptedAt(c: Config, states: seq<Plex>, events: seq<Event>, outs: seq<multiset<Endpoint>>, src: nat, j: nat)
    requires Run(c, states, events, outs) && c.mode == Switch && j < |events|
    requires Accepted(states, events, src, j)
    ensures HeadSince(CacheAt(states[j + 1], Some(src)), events[j].sender, events[j].now)
  {
    hide HeadSince, CacheAt, CachesOk, BranchesOk, Received, AcceptedFrom;
    RunOk(c, states, events, outs, j);
    assert (states[j + 1], outs[j]) == Step(c, states[j], events[j]);
    AcceptedIsHead(c, states[j], events[j], src, Clock(events, j));
  }

  lemma Replaced(c: Config, states: seq<Plex>, events: seq<Event>, outs: seq<multiset<Endpoint>>, a: Option<nat>,
                 j: nat, k: nat)
    requires Run(c, states, events, outs) && j < k < |events| && events[j].Packet? && events[k].Packet?
    requires HeadSince(CacheAt(states[j + 1], a), events[j].sender, events[j].now)
    requires HeadSince(CacheAt(states[k + 1], a), events[k].sender, events[k].now)
    requires events[j].sender != events[k].sender
    ensures events[k].now >= events[j].now + c.timeout
  {
    hide HeadSince, CacheAt, Step, Enabled;
    HeadUntil(c, states, events, outs, a, events[j].sender, j, k + 1);
    if events[k].now < events[j].now + c.timeout {
      OneHead(CacheAt(states[k + 1], a), events[j].sender, events[k].sender, events[j].now, events[k].now);
    }
  }

  /** Prune mode: the branch list is not empty when a branch has sent, and the branch whose
      packet goes to the trunk is at its head since now. */
  lemma PruneHead(c: Config, s: Plex, e: Event, before: int)
    requires CachesOk(c, s, before) && before <= e.now && c.mode == Prune && e.Packet? && e.sender != c.trunk
    ensures var t := Received(c, s, e);
            t.0.active.keys != [] && (t.1 != multiset{} ==> HeadSince(t.0.active, e.sender, e.now))
  {
    hide Ok, Added, HeadSince;
    HeadAfterAdd(s.active, c.timeout, c.BranchLimit(), e.sender, e.now);
  }

  lemma PrunedAt(c: Config, states: seq<Plex>, events: seq<Event>, outs: seq<multiset<Endpoint>>, j: nat)
    requires Run(c, states, events, outs) && c.mode == Prune && j < |events|
    requires events[j].Packet? && events[j].sender != c.trunk && outs[j] != multiset{}
    ensures HeadSince(CacheAt(states[j + 1], None), events[j].sender, events[j].now)
  {
    hide HeadSince, CachesOk, BranchesOk, Received;
    RunOk(c, states, events, outs, j);
    PruneHead(c, states[j], events[j], Clock(events, j));
    assert (states[j + 1], outs[j]) == Step(c, states[j], events[j]);
  }

  /** Prune mode: packets forwarded to the trunk from different branches are at least a cache
      timeout apart. */
  lemma PruneSticky(c: Config, states: seq<Plex>, events: seq<Event>, outs: seq<multiset<Endpoint>>, j: nat, k: nat)
    requires Run(c, states, events, outs) && c.mode == Prune && j < k < |events|
    requires events[j].Packet? && events[k].Packet? && events[j].sender != events[k].sender
    requires events[j].sender != c.trunk && events[k].sender != c.trunk
    requires outs[j] != multiset{} && outs[k] != multiset{}
    ensures events[k].now >= events[j].now + c.timeout
  {
    hide HeadSince, CacheAt, Run;
    PrunedAt(c, states, events, outs, j);
    PrunedAt(c, states, events, outs, k);
    Replaced(c, states, events, outs, None, j, k);
  }

  lemma StillHead(c: Config, states: seq<Plex>, events: seq<Event>, outs: seq<multiset<Endpoint>>,
                  a: Option<nat>, j: nat, k: nat)
    requires Run(c, states, events, outs) && j < k < |events| && events[j].Packet?
    requires HeadSince(CacheAt(states[j + 1], a), events[j].sender, events[j].now)
    requires events[k].now < events[j].now + c.timeout
    ensures var keys := CacheAt(states[k + 1], a).keys; keys != [] && keys[0] == events[j].sender
  {
    hide CacheAt, Step, Enabled;
    HeadUntil(c, states, events, outs, a, events[j].sender, j, k + 1);
  }

  /** Switch mode learns: for a timeout after a packet from address `a` was accepted, an accepted
      packet to `a` from another branch goes to that packet's branch, and nowhere else. */
  lemma SwitchLearns(c: Config, states: seq<Plex>, events: seq<Event>, outs: seq<multiset<Endpoint>>, a: nat, j: nat,
                     k: nat)
    requires Run(c, states, events, outs) && c.mode == Switch && j < k < |events|
    requires Accepted(states, events, a, j) && events[k].Packet? && events[k].addresses.Some?
    requires events[k].addresses.value.dst == a && Accepted(states, events, events[k].addresses.value.src, k)
    requires events[k].sender != events[j].sender
    requires events[k].now < events[j].now + c.timeout
    ensures outs[k] == multiset{events[j].sender}
  {
    hide HeadSince, CachesOk, BranchesOk, Branches, SwitchState, ToAll, PrunePacket;
    AcceptedAt(c, states, events, outs, a, j);
    StillHead(c, states, events, outs, Some(a), j, k);
    assert (states[k + 1], outs[k]) == Step(c, states[k], events[k]);
  }

  /** Prune mode answers the speaker: for a timeout after a branch's packet went to the trunk,
      the trunk's packets go to that branch alone. */
  lemma PruneAnswers(c: Config, states: seq<Plex>, events: seq<Event>, outs: seq<multiset<Endpoint>>, j: nat, k: nat)
    requires Run(c, states, events, outs) && c.mode == Prune && j < k < |events|
    requires events[j].Packet? && events[j].sender != c.trunk && outs[j] != multiset{}
    requires events[k].Packet? && events[k].sender == c.trunk && events[k].now < events[j].now + c.timeout
    ensures outs[k] == multiset{events[j].sender}
  {
    hide HeadSince, CachesOk, BranchesOk, Branches, ToAll;
    PrunedAt(c, states, events, outs, j);
    StillHead(c, states, events, outs, None, j, k);
    assert (states[k + 1], outs[k]) == Step(c, states[k], events[k]);
  }

  /** Prune mode with no active branch: each fixed branch gets one copy. */
  lemma PruneToFixed(c: Config, s: Plex, e: Event, p: Endpoint)
    requires c.mode == Prune && e.Packet? && e.sender == c.trunk && s.active.keys == []
    ensures Received(c, s, e).1[p] == if p in c.perma && p != c.trunk then 1 else 0
  {
  }

  // ---- one copy for each ------------------------------------------------------------------

  lemma {:induction false} CountDistinct(keys: seq<Endpoint>, e: Endpoint)
    requires Distinct(keys)
    ensures multiset(keys)[e] == if e in keys then 1 else 0
  {
    if keys != [] {
      var rest := keys[1..];
      CountDistinct(rest, e);
      assert keys == [keys[0]] + rest;
      assert forall i | 0 <= i < |rest| :: rest[i] == keys[i + 1];
    }
  }

  /** How many copies an endpoint gets when a packet goes to all. */
  lemma CopiesToAll(s: Plex, sender: Endpoint, e: Endpoint)
    requires Distinct(s.active.keys)
    ensures ToAll(s, sender)[e] ==
      if e == sender then 0 else (if e in s.active.keys then 1 else 0) + (if e in s.inactive then 1 else 0)
  {
    CountDistinct(s.active.keys, e);
  }

  /** No branch is both active and listed as inactive. */
  ghost predicate Apart(s: Plex) { forall e | e in s.inactive :: e !in s.active.keys }

  /** A timeout notification that runs when its fixed branch is active again. */
  predicate Late(c: Config, s: Plex, e: Event) { e.Notified? && e.key in c.perma && e.key in s.active.keys }

  /** From a state without overlap, one step leads to an overlap exactly when it is a late
      notification. */
  lemma OverlapIsLate(c: Config, s: Plex, e: Event, before: int)
    requires CachesOk(c, s, before) && Enabled(s, e) && Apart(s)
    ensures Apart(Step(c, s, e).0) <==> !Late(c, s, e)
  {
    hide AddressBranches, ToAll, PrunePacket, SwitchPacket, Without, CachesOk, Distinct;
    assert Ok(s.active, c.timeout, c.BranchLimit()) by { ActiveOk(c, s, before); }
    match e {
      case Packet(_, _, _) => PacketBranches(c, s, e);
      case BranchTimer(key, now) => WithoutKeeps(s.active.keys, key);
      case AddressTimer(a, key, now) =>
      case Notified(key, now) =>
        var t := Step(c, s, e).0;
        if Late(c, s, e) { assert key in t.inactive; }
    }
  }

  /** Active and inactive branches stay apart through a run if and only if every notification
      of a fixed branch runs before the branch is active again. */
  lemma {:induction false} ApartUnlessLate(c: Config, states: seq<Plex>, events: seq<Event>,
                                           outs: seq<multiset<Endpoint>>, n: nat)
    requires Run(c, states, events, outs) && n <= |events|
    ensures (forall k | 0 <= k <= n :: Apart(states[k])) <==> (forall k | 0 <= k < n :: !Late(c, states[k], events[k]))
  {
    hide Apart, Late, Step, Enabled, CachesOk, BranchesOk;
    if n == 0 {
      assert Apart(states[0]) by { InitialApart(c); }
    } else {
      ApartUnlessLate(c, states, events, outs, n - 1);
      if Apart(states[n - 1]) {
        RunOk(c, states, events, outs, n - 1);
        OverlapIsLate(c, states[n - 1], events[n - 1], Clock(events, n - 1));
        assert (states[n], outs[n - 1]) == Step(c, states[n - 1], events[n - 1]);
      }
    }
  }

  lemma InitialApart(c: Config)
    ensures Apart(Initial(c))
  {
  }

  /** A packet for everyone: from any branch of a hub, or from the trunk. */
  predicate Broadcast(c: Config, e: Event) { e.Packet? && (c.mode == Hub || (c.mode == Trunk && e.sender == c.trunk)) }

  /** Forwarding by a hub, or from the trunk to the branches: without late notifications, every
      active branch and every fixed one gets exactly one copy, but for the sender and for fixed
      branches with a pending notification, which get none. */
  lemma OneCopyEach(c: Config, states: seq<Plex>, events: seq<Event>, outs: seq<multiset<Endpoint>>, k: nat,
                    e: Endpoint)
    requires Run(c, states, events, outs) && k < |events| && Broadcast(c, events[k])
    requires forall j | 0 <= j < k :: !Late(c, states[j], events[j])
    ensures var s := states[k + 1];
            && outs[k][e] == (if e != events[k].sender && (e in s.active.keys || e in s.inactive) then 1 else 0)
            && (e in c.perma && e !in s.active.posted && e != events[k].sender ==> outs[k][e] == 1)
  {
    hide Step, Enabled, CachesOk, Late;
    ApartUnlessLate(c, states, events, outs, k);
    RunOk(c, states, events, outs, k);
    RunOk(c, states, events, outs, k + 1);
    OverlapIsLate(c, states[k], events[k], Clock(events, k));
    NotLate(c, states[k], events[k]);
    BroadcastOut(c, states[k], events[k]);
    assert (states[k + 1], outs[k]) == Step(c, states[k], events[k]);
    ActiveDistinct(c, states[k + 1], Clock(events, k + 1));
    CopiesToAll(states[k + 1], events[k].sender, e);
  }

  lemma NotLate(c: Config, s: Plex, e: Event)
    requires e.Packet?
    ensures !Late(c, s, e)
  {
  }

  lemma BroadcastOut(c: Config, s: Plex, e: Event)
    requires Broadcast(c, e)
    ensures Enabled(s, e) && Step(c, s, e).1 == ToAll(Step(c, s, e).0, e.sender)
  {
  }

  lemma ActiveDistinct(c: Config, s: Plex, now: int)
    requires CachesOk(c, s, now)
    ensures Distinct(s.active.keys)
  {
  }

  /** In every mode nothing is sent back to the sender. */
  lemma NeverBack(c: Config, s: Plex, e: Event)
    requires e.Packet?
    ensures Received(c, s, e).1[e.sender] == 0
  {
    hide SwitchState, Branches;
  }

  /** In Trunk and Prune mode a packet goes at most to the trunk, unless the trunk sent it. */
  lemma BranchesToTrunk(c: Config, s: Plex, e: Event)
    requires e.Packet? && e.sender != c.trunk && (c.mode == Trunk || c.mode == Prune)
    ensures c.mode == Trunk ==> Received(c, s, e).1 == multiset{c.trunk}
    ensures Received(c, s, e).1 <= multiset{c.trunk}
  {
    hide Branches;
  }

  // ---- the race ---------------------------------------------------------------------------

  const P := Endpoint(1, 1)
  const Q := Endpoint(2, 2)
  const RACE := Config(Hub, Endpoint(0, 0), {P}, 1, 0, 0)

  function RaceState(keys: seq<Endpoint>, entries: map<Endpoint, Entry>, posted: multiset<Endpoint>,
                     inactive: set<Endpoint>): Plex {
    Plex(Cache(keys, entries, posted), inactive, map[])
  }

  const SENT := RaceState([P], map[P := Entry(0, 1)], multiset{}, {})
  const TIMED_OUT := RaceState([], map[], multiset{P}, {})
  const SENT_AGAIN := RaceState([P], map[P := Entry(2, 3)], multiset{P}, {})
  const OVERLAP := RaceState([P], map[P := Entry(2, 3)], multiset{}, {P})

  /** A fixed branch times out, sends again, and only then its notification runs: the next
      packet reaches it twice. */
  lemma RaceDuplicates() returns (states: seq<Plex>, outs: seq<multiset<Endpoint>>)
    ensures var events := [Packet(P, None, 0), BranchTimer(P, 1), Packet(P, None, 2), Notified(P, 3),
                           Packet(Q, None, 4)];
            Run(RACE, states, events, outs) && outs[4][P] == 2
  {
    hide Step, Enabled;
    RaceFirst();
    RaceTimeout();
    RaceNotified();
    RaceTwice();
    var last := Step(RACE, OVERLAP, Packet(Q, None, 4));
    states := [Initial(RACE), SENT, TIMED_OUT, SENT_AGAIN, OVERLAP, last.0];
    outs := [multiset{}, multiset{}, multiset{}, multiset{}, last.1];
  }

  lemma RaceFirst()
    ensures var e := Packet(P, None, 0); Enabled(Initial(RACE), e) && Step(RACE, Initial(RACE), e) == (SENT, multiset{})
    ensures var e := Packet(P, None, 2); Enabled(TIMED_OUT, e) && Step(RACE, TIMED_OUT, e) == (SENT_AGAIN, multiset{})
  {
    var (s, t) := (Branches(RACE, Initial(RACE), P, 0), Branches(RACE, TIMED_OUT, P, 2));
    assert s.active.keys == [P] && s.inactive == {} && s.active.entries == map[P := Entry(0, 1)];
    assert s == SENT && t.active.keys == [P];
    OnlySender(SENT);
    OnlySender(SENT_AGAIN);
  }

  lemma OnlySender(s: Plex)
    requires s.active.keys == [P] && s.inactive == {}
    ensures ToAll(s, P) == multiset{}
  {
    assert ToList(s.active.keys, P) == multiset{};
    assert ToSet(s.inactive, P) == multiset{};
  }

  lemma RaceTimeout()
    ensures var e := BranchTimer(P, 1); Enabled(SENT, e) && Step(RACE, SENT, e) == (TIMED_OUT, multiset{})
  {
    var t := Fired(SENT.active, 1, P, 1);
    assert t.keys == [] && t.entries == map[] && t.posted == multiset{P};
  }

  lemma RaceNotified()
    ensures var e := Notified(P, 3); Enabled(SENT_AGAIN, e) && Step(RACE, SENT_AGAIN, e) == (OVERLAP, multiset{})
  {
    var t := NotifiedOf(RACE, SENT_AGAIN, P);
    assert t.inactive == {P} && t.active.posted == multiset{};
  }

  lemma RaceTwice()
    ensures var e := Packet(Q, None, 4); Enabled(OVERLAP, e) && Step(RACE, OVERLAP, e).1[P] == 2
  {
    var s := Branches(RACE, OVERLAP, Q, 4);
    assert s.active.keys == [P, Q] && s.inactive == {P};
    CopiesToAll(s, Q, P);
  }
}
