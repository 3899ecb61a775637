/** Where a packet goes, exactly: to the trunk in Prune mode, and by address in Switch mode. */
module Routing {
  import opened Options
  import opened TimeoutCache
  import opened Forwarding
  import opened ForwardingRuns

  // ---- prune ------------------------------------------------------------------------------

  /** The head after an addition is the head before it, or the key itself on an empty list. */
  lemma HeadOfAdded<T(!new)>(c: Cache<T>, timeout: nat, max: nat, key: T, now: int)
    requires Ok(c, timeout, max) && max > 0
    ensures var keys := Added(c, timeout, max, key, now).keys;
            keys != [] && keys[0] == if c.keys == [] then key else c.keys[0]
  {
    HeadAfterAdd(c, timeout, max, key, now);
    assert key in c.entries ==> key in c.keys;
  }

  /** Prune mode: a branch's packet goes to the trunk, once, if and only if the sender heads the
      branch list, that is, if nobody was active or the sender was first; else it goes nowhere. */
  lemma PruneExactly(c: Config, s: Plex, e: Event, before: int)
    requires CachesOk(c, s, before) && before <= e.now && c.mode == Prune && e.Packet? && e.sender != c.trunk
    ensures var (t, out) := Received(c, s, e);
            && t.active.keys != []
            && (t.active.keys[0] == e.sender <==> s.active.keys == [] || s.active.keys[0] == e.sender)
            && out == if t.active.keys[0] == e.sender then multiset{c.trunk} else multiset{}
  {
    hide Ok, Added;
    HeadOfAdded(s.active, c.timeout, c.BranchLimit(), e.sender, e.now);
    OneCopy(c.trunk, e.sender);
  }

  lemma OneCopy(p: Endpoint, sender: Endpoint)
    ensures ToList([p], sender) == if p == sender then multiset{} else multiset{p}
  {
  }

  /** For a timeout after a branch's packet went to the trunk, each of its packets goes there,
      once; and so does a packet that comes when no branch is active. */
  lemma PruneSpeaks(c: Config, states: seq<Plex>, events: seq<Event>, outs: seq<multiset<Endpoint>>, j: nat, k: nat)
    requires Run(c, states, events, outs) && c.mode == Prune && k < |events|
    requires events[k].Packet? && events[k].sender != c.trunk
    requires states[k].active.keys == []
      || (j < k && events[j].Packet? && events[j].sender == events[k].sender && outs[j] != multiset{}
          && events[k].now < events[j].now + c.timeout)
    ensures outs[k] == multiset{c.trunk}
  {
    hide CachesOk, BranchesOk, Received, HeadSince;
    RunOk(c, states, events, outs, k);
    PruneExactly(c, states[k], events[k], Clock(events, k));
    assert (states[k + 1], outs[k]) == Step(c, states[k], events[k]);
    if states[k].active.keys != [] {
      PrunedAt(c, states, events, outs, j);
      StillHead(c, states, events, outs, None, j, k);
    }
  }

  /** The trunk's packets go to the head of the branch list while there is one. */
  lemma PruneToHead(c: Config, s: Plex, e: Event)
    requires c.mode == Prune && e.Packet? && e.sender == c.trunk && s.active.keys != []
    ensures Received(c, s, e).1 == if s.active.keys[0] == c.trunk then multiset{} else multiset{s.active.keys[0]}
  {
    OneCopy(s.active.keys[0], c.trunk);
  }

  // ---- switch -----------------------------------------------------------------------------

  /** A packet changes no list but that of its source address. */
  lemma OtherListsStay(c: Config, s: Plex, sender: Endpoint, x: Addresses, now: int, a: nat)
    requires a != x.src
    ensures AddrOf(SwitchState(c, s, sender, x, now), a) == AddrOf(s, a)
  {
    hide Added;
  }

  lemma SourceList(c: Config, s: Plex, sender: Endpoint, x: Addresses, now: int)
    ensures AddrOf(SwitchState(c, s, sender, x, now), x.src)
         == Added(AddrOf(s, x.src), c.timeout, c.SwitchLimit(), sender, now)
  {
    hide Added;
  }

  /** Switch mode, by what was known of the two addresses before: a packet of an address that is
      on another branch goes nowhere; any other goes to the first branch of its destination, or,
      when there is none, to every active and every inactive branch; and not back. */
  lemma SwitchExactly(c: Config, s: Plex, e: Event, before: int)
    requires CachesOk(c, s, before) && before <= e.now && c.mode == Switch && e.Packet? && e.addresses.Some?
    ensures var x := e.addresses.value;
            var (t, out) := Received(c, s, e);
            var (src, dst) := (AddrOf(s, x.src).keys, AddrOf(s, x.dst).keys);
            && (forall a | a != x.src :: AddrOf(t, a) == AddrOf(s, a))
            && if src != [] && src[0] != e.sender then out == multiset{}
               else if x.dst == x.src then out == multiset{}
               else if dst == [] then forall p :: out[p] == if p == e.sender then 0 else
                 (if p in t.active.keys then 1 else 0) + (if p in t.inactive then 1 else 0)
               else out == if dst[0] == e.sender then multiset{} else multiset{dst[0]}
  {
    hide Ok, Added, SwitchState, ToAll, AddrOf, CachesOk;
    var (x, u) := (e.addresses.value, Branches(c, s, e.sender, e.now));
    var t := Received(c, s, e).0;
    BranchesCachesOk(c, s, e.sender, before, e.now);
    SameAddresses(c, s, e.sender, e.now);
    AddrOk(c, u, x.src, e.now, e.now);
    HeadOfAdded(AddrOf(u, x.src), c.timeout, c.SwitchLimit(), e.sender, e.now);
    SourceList(c, u, e.sender, x, e.now);
    forall a | a != x.src ensures AddrOf(t, a) == AddrOf(s, a) { OtherListsStay(c, u, e.sender, x, e.now, a); }
    PacketCachesOk(c, s, e, before);
    ActiveDistinct(c, t, e.now);
    forall p ensures ToAll(t, e.sender)[p] == if p == e.sender then 0 else
        (if p in t.active.keys then 1 else 0) + (if p in t.inactive then 1 else 0)
    {
      CopiesToAll(t, e.sender, p);
    }
    forall p { OneCopy(p, e.sender); }
  }

  lemma SameAddresses(c: Config, s: Plex, sender: Endpoint, now: int)
    ensures forall a :: AddrOf(Branches(c, s, sender, now), a) == AddrOf(s, a)
  {
    hide Added;
  }

  predicate Unspoken(s: Plex, a: nat) { AddrOf(s, a).keys == [] && AddrOf(s, a).entries == map[] }

  /** Nobody is associated with an address from which no packet has come. */
  lemma {:induction false} NeverSpoken(c: Config, states: seq<Plex>, events: seq<Event>, outs: seq<multiset<Endpoint>>,
                                       a: nat, k: nat)
    requires Run(c, states, events, outs) && c.mode == Switch && k <= |events|
    requires forall j | 0 <= j < k :: !PacketFrom(events[j], a)
    ensures Unspoken(states[k], a)
  {
    hide CachesOk, BranchesOk, Step, Enabled, Unspoken;
    if k == 0 {
      InitialUnspoken(c, a);
    } else {
      NeverSpoken(c, states, events, outs, a, k - 1);
      RunOk(c, states, events, outs, k - 1);
      assert (states[k], outs[k - 1]) == Step(c, states[k - 1], events[k - 1]);
      StepUnspoken(c, states[k - 1], events[k - 1], Clock(events, k - 1), a);
    }
  }

  lemma InitialUnspoken(c: Config, a: nat)
    ensures Unspoken(Initial(c), a)
  {
  }

  lemma StepUnspoken(c: Config, s: Plex, e: Event, before: int, a: nat)
    requires CachesOk(c, s, before) && before <= e.now && c.mode == Switch && Enabled(s, e) && !PacketFrom(e, a)
    requires Unspoken(s, a)
    ensures Unspoken(Step(c, s, e).0, a)
  {
    hide Received, CachesOk, Fired;
    match e {
      case Packet(sender, addresses, now) =>
        if addresses.Some? {
          SwitchExactly(c, s, e, before);
        } else {
          Unrouted(c, s, e, a);
        }
      case BranchTimer(key, now) =>
      case AddressTimer(x, key, now) =>
      case Notified(key, now) =>
    }
  }

  lemma Unrouted(c: Config, s: Plex, e: Event, a: nat)
    requires c.mode == Switch && e.Packet? && e.addresses.None?
    ensures AddrOf(Received(c, s, e).0, a) == AddrOf(s, a)
  {
    SameAddresses(c, s, e.sender, e.now);
  }

  /** A packet to an address from which no packet has come, and whose own address is not on
      another branch, goes to everyone. */
  lemma UnknownToAll(c: Config, states: seq<Plex>, events: seq<Event>, outs: seq<multiset<Endpoint>>, k: nat,
                     p: Endpoint)
    requires Run(c, states, events, outs) && c.mode == Switch && k < |events|
    requires events[k].Packet? && events[k].addresses.Some?
    requires var x := events[k].addresses.value;
             && Accepted(states, events, x.src, k) && x.dst != x.src
             && forall j | 0 <= j < k :: !PacketFrom(events[j], x.dst)
    ensures var s := states[k + 1];
            outs[k][p] == if p == events[k].sender then 0 else
              (if p in s.active.keys then 1 else 0) + (if p in s.inactive then 1 else 0)
  {
    hide CachesOk, BranchesOk, Received, AddrOf, SwitchState;
    var (e, x) := (events[k], events[k].addresses.value);
    RunOk(c, states, events, outs, k);
    NeverSpoken(c, states, events, outs, x.dst, k);
    SwitchExactly(c, states[k], e, Clock(events, k));
    assert (states[k + 1], outs[k]) == Step(c, states[k], e);
    AcceptedWas(c, states[k], e, Clock(events, k));
  }

  lemma AcceptedWas(c: Config, s: Plex, e: Event, before: int)
    requires CachesOk(c, s, before) && before <= e.now && c.mode == Switch && e.Packet? && e.addresses.Some?
    requires AcceptedFrom(Received(c, s, e).0, e.sender, e.addresses.value.src)
    ensures var src := AddrOf(s, e.addresses.value.src).keys; src == [] || src[0] == e.sender
  {
    hide CachesOk, SwitchState, AcceptedFrom, ToAll;
    SameAddresses(c, s, e.sender, e.now);
    BranchesCachesOk(c, s, e.sender, before, e.now);
    AcceptsExactly(c, Branches(c, s, e.sender, e.now), e.sender, e.addresses.value, e.now, e.now);
  }
}
