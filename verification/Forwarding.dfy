/** Forwarding packets between the branches of a plex, and a trunk.  Active branches are those
    that sent a packet lately; fixed branches that are not active are listed as inactive. */
module Forwarding {
  import opened Options
  import opened TimeoutCache

  datatype Endpoint = Endpoint(address: nat, port: nat)

  datatype Mode = Hub | Trunk | Prune | Switch

  datatype Config = Config(mode: Mode, trunk: Endpoint, perma: set<Endpoint>, timeout: nat, maxBranch: nat,
                           maxSwitch: nat) {
    /** A maximum of 0 means none. */
    function BranchLimit(): (n: nat) ensures n > 0 { if maxBranch == 0 then NO_LIMIT else maxBranch }
    function SwitchLimit(): (n: nat) ensures n > 0 { if maxSwitch == 0 then NO_LIMIT else maxSwitch }
  }

  /** The source and destination address of a packet, when they can be found. */
  datatype Addresses = Addresses(src: nat, dst: nat)

  datatype Plex = Plex(active: Cache<Endpoint>, inactive: set<Endpoint>, addr: map<nat, Cache<Endpoint>>)

  const EMPTY: Cache<Endpoint> := Cache([], map[], multiset{})

  /** A packet arrives, a timer fires, or a posted timeout notification runs. */
  datatype Event =
    | Packet(sender: Endpoint, addresses: Option<Addresses>, now: int)
    | BranchTimer(key: Endpoint, now: int)
    | AddressTimer(address: nat, key: Endpoint, now: int)
    | Notified(key: Endpoint, now: int)

  // ---- one packet -------------------------------------------------------------------------

  /** The sender's place among the branches is refreshed, unless it is the trunk. */
  function Branches(c: Config, s: Plex, sender: Endpoint, now: int): Plex {
    if sender == c.trunk then s
    else
      s.(active := Added(s.active, c.timeout, c.BranchLimit(), sender, now),
         inactive := if Result(s.active, c.BranchLimit(), sender) == ADDED then s.inactive - {sender} else s.inactive)
  }

  function AddrOf(s: Plex, a: nat): Cache<Endpoint> { if a in s.addr then s.addr[a] else EMPTY }

  function AddressBranches(c: Config, s: Plex, sender: Endpoint, a: nat, associate: bool, now: int): Plex {
    var cache := AddrOf(s, a);
    s.(addr := s.addr[a := if associate then Added(cache, c.timeout, c.SwitchLimit(), sender, now) else cache])
  }

  /** Where the packet is sent: everywhere in the list but back to the sender. */
  function ToList(list: seq<Endpoint>, sender: Endpoint): multiset<Endpoint> { multiset(list)[sender := 0] }

  function ToSet(endpoints: set<Endpoint>, sender: Endpoint): multiset<Endpoint> { multiset(endpoints - {sender}) }

  function ToAll(s: Plex, sender: Endpoint): multiset<Endpoint> {
    ToList(s.active.keys, sender) + ToSet(s.inactive, sender)
  }

  function PrunePacket(c: Config, s: Plex, sender: Endpoint): multiset<Endpoint> {
    var keys := s.active.keys;
    if sender != c.trunk && keys != [] && sender != keys[0] then multiset{}
    else if sender == c.trunk then
      if keys == [] then ToSet(c.perma, sender) else ToList([keys[0]], sender)
    else ToList([c.trunk], sender)
  }

  function SwitchState(c: Config, s: Plex, sender: Endpoint, a: Addresses, now: int): Plex {
    AddressBranches(c, AddressBranches(c, s, sender, a.src, true, now), sender, a.dst, false, now)
  }

  predicate AcceptedFrom(s: Plex, sender: Endpoint, src: nat) {
    var keys := AddrOf(s, src).keys;
    keys != [] && keys[0] == sender
  }

  function SwitchPacket(s: Plex, sender: Endpoint, a: Addresses): multiset<Endpoint> {
    var dst := AddrOf(s, a.dst).keys;
    if !AcceptedFrom(s, sender, a.src) then multiset{}
    else if dst == [] then ToAll(s, sender)
    else ToList([dst[0]], sender)
  }

  /** The state after a packet, and where it is sent. */
  function Received(c: Config, s0: Plex, e: Event): (Plex, multiset<Endpoint>)
    requires e.Packet?
  {
    var s := Branches(c, s0, e.sender, e.now);
    match c.mode
    case Hub => (s, ToAll(s, e.sender))
    case Trunk => (s, if e.sender == c.trunk then ToAll(s, e.sender) else ToList([c.trunk], e.sender))
    case Prune => (s, PrunePacket(c, s, e.sender))
    case Switch =>
      if e.addresses.None? then (s, multiset{})
      else
        var t := SwitchState(c, s, e.sender, e.addresses.value, e.now);
        (t, SwitchPacket(t, e.sender, e.addresses.value))
  }

  // ---- steps ------------------------------------------------------------------------------

  predicate Enabled(s: Plex, e: Event) {
    match e
    case Packet(_, _, _) => true
    case BranchTimer(key, _) => key in s.active.entries
    case AddressTimer(a, key, _) => a in s.addr && key in s.addr[a].entries
    case Notified(key, _) => key in s.active.posted
  }

  function NotifiedOf(c: Config, s: Plex, key: Endpoint): Plex {
    s.(active := s.active.(posted := s.active.posted - multiset{key}),
       inactive := if key in c.perma then s.inactive + {key} else s.inactive)
  }

  function Step(c: Config, s: Plex, e: Event): (Plex, multiset<Endpoint>)
    requires Enabled(s, e)
  {
    match e
    case Packet(_, _, _) => Received(c, s, e)
    case BranchTimer(key, now) => (s.(active := Fired(s.active, c.timeout, key, now)), multiset{})
    case AddressTimer(a, key, now) => (s.(addr := s.addr[a := Fired(s.addr[a], c.timeout, key, now)]), multiset{})
    case Notified(key, _) => (NotifiedOf(c, s, key), multiset{})
  }

  function Initial(c: Config): Plex { Plex(EMPTY, c.perma, map[]) }

  // ---- what every step keeps --------------------------------------------------------------

  ghost predicate NotAhead(c: Cache<Endpoint>, now: int) { forall k | k in c.entries :: c.entries[k].access <= now }

  /** Every cache is in order. */
  ghost predicate CachesOk(c: Config, s: Plex, now: int) {
    && Ok(s.active, c.timeout, c.BranchLimit()) && NotAhead(s.active, now)
    && forall a | a in s.addr :: Ok(s.addr[a], c.timeout, c.SwitchLimit()) && NotAhead(s.addr[a], now)
  }

  predicate Listed(s: Plex, p: Endpoint) { p in s.active.keys || p in s.inactive || p in s.active.posted }

  /** Every fixed branch is active, listed as inactive, or about to be; others are not listed. */
  ghost predicate BranchesOk(c: Config, s: Plex) {
    s.inactive <= c.perma && forall p | p in c.perma :: Listed(s, p)
  }

  lemma AddedNotAhead(cache: Cache<Endpoint>, timeout: nat, max: nat, key: Endpoint, now: int, before: int)
    requires Ok(cache, timeout, max) && NotAhead(cache, before) && before <= now
    ensures Ok(Added(cache, timeout, max, key, now), timeout, max)
      && NotAhead(Added(cache, timeout, max, key, now), now)
  {
    AddedOk(cache, timeout, max, key, now);
  }

  lemma FiredNotAhead(cache: Cache<Endpoint>, timeout: nat, max: nat, key: Endpoint, now: int, before: int)
    requires Ok(cache, timeout, max) && NotAhead(cache, before) && before <= now && key in cache.entries
    ensures Ok(Fired(cache, timeout, key, now), timeout, max) && NotAhead(Fired(cache, timeout, key, now), now)
  {
    hide Without;
    FiredOk(cache, timeout, max, key, now);
  }

  lemma EmptyOk(timeout: nat, max: nat, now: int)
    ensures Ok(EMPTY, timeout, max) && NotAhead(EMPTY, now)
  {
  }

  lemma AddrOk(c: Config, s: Plex, a: nat, before: int, now: int)
    requires CachesOk(c, s, before) && before <= now
    ensures Ok(AddrOf(s, a), c.timeout, c.SwitchLimit()) && NotAhead(AddrOf(s, a), now)
  {
    hide Ok;
    EmptyOk(c.timeout, c.SwitchLimit(), now);
  }

  lemma AddressBranchesOk(c: Config, s: Plex, sender: Endpoint, a: nat, associate: bool, before: int, now: int)
    requires CachesOk(c, s, before) && before <= now
    ensures CachesOk(c, AddressBranches(c, s, sender, a, associate, now), now)
  {
    hide Ok, Added;
    AddrOk(c, s, a, before, now);
    AddedNotAhead(AddrOf(s, a), c.timeout, c.SwitchLimit(), sender, now, now);
  }

  lemma PacketCachesOk(c: Config, s: Plex, e: Event, before: int)
    requires CachesOk(c, s, before) && before <= e.now && e.Packet?
    ensures CachesOk(c, Received(c, s, e).0, e.now)
  {
    hide Ok, Added, AddressBranches, ToAll, PrunePacket, SwitchPacket, CachesOk;
    var t := Branches(c, s, e.sender, e.now);
    BranchesCachesOk(c, s, e.sender, before, e.now);
    if c.mode == Switch && e.addresses.Some? {
      var a := e.addresses.value;
      AddressBranchesOk(c, t, e.sender, a.src, true, e.now, e.now);
      AddressBranchesOk(c, AddressBranches(c, t, e.sender, a.src, true, e.now), e.sender, a.dst, false, e.now, e.now);
    }
  }

  lemma BranchesCachesOk(c: Config, s: Plex, sender: Endpoint, before: int, now: int)
    requires CachesOk(c, s, before) && before <= now
    ensures CachesOk(c, Branches(c, s, sender, now), now)
  {
    hide Ok, Added;
    AddedNotAhead(s.active, c.timeout, c.BranchLimit(), sender, now, before);
  }

  lemma StepCachesOk(c: Config, s: Plex, e: Event, before: int)
    requires CachesOk(c, s, before) && before <= e.now && Enabled(s, e)
    ensures CachesOk(c, Step(c, s, e).0, e.now)
  {
    hide Ok, Fired, Received;
    match e {
      case Packet(_, _, _) => PacketCachesOk(c, s, e, before);
      case BranchTimer(key, now) => FiredNotAhead(s.active, c.timeout, c.BranchLimit(), key, now, before);
      case AddressTimer(a, key, now) => FiredNotAhead(s.addr[a], c.timeout, c.SwitchLimit(), key, now, before);
      case Notified(key, now) => PostedIrrelevant(s.active, s.active.posted - multiset{key}, c.timeout,
                                                  c.BranchLimit());
    }
  }

  lemma PostedIrrelevant(cache: Cache<Endpoint>, posted: multiset<Endpoint>, timeout: nat, max: nat)
    requires Ok(cache, timeout, max)
    ensures Ok(cache.(posted := posted), timeout, max)
  {
  }

  lemma StepBranchesOk(c: Config, s: Plex, e: Event, before: int)
    requires CachesOk(c, s, before) && BranchesOk(c, s) && Enabled(s, e)
    ensures BranchesOk(c, Step(c, s, e).0)
  {
    hide AddressBranches, ToAll, PrunePacket, SwitchPacket, Without, CachesOk, Distinct;
    var t := Step(c, s, e).0;
    assert Ok(s.active, c.timeout, c.BranchLimit()) by { ActiveOk(c, s, before); }
    match e {
      case Packet(_, _, _) => PacketBranches(c, s, e);
      case BranchTimer(key, now) => WithoutKeeps(s.active.keys, key);
      case AddressTimer(a, key, now) =>
      case Notified(key, now) =>
    }
  }

  lemma ActiveOk(c: Config, s: Plex, now: int)
    requires CachesOk(c, s, now)
    ensures Ok(s.active, c.timeout, c.BranchLimit())
  {
  }

  /** Only the branches of the plex matter for the list, not the addresses. */
  lemma PacketBranches(c: Config, s: Plex, e: Event)
    requires e.Packet?
    ensures var (t, u) := (Received(c, s, e).0, Branches(c, s, e.sender, e.now));
            t.active == u.active && t.inactive == u.inactive
  {
  }

  /** The list for the source address is never empty when its head is looked at, and the
      accepted sender is at its head since now. */
  lemma SwitchHead(c: Config, s: Plex, sender: Endpoint, x: Addresses, before: int, now: int)
    requires CachesOk(c, s, before) && before <= now
    ensures var t := SwitchState(c, s, sender, x, now);
            AddrOf(t, x.src).keys != [] && (AcceptedFrom(t, sender, x.src) ==> HeadSince(AddrOf(t, x.src), sender, now))
  {
    hide Ok, Added, HeadSince;
    AddrOk(c, s, x.src, before, now);
    HeadAfterAdd(AddrOf(s, x.src), c.timeout, c.SwitchLimit(), sender, now);
  }

  lemma SwitchKnows(c: Config, s: Plex, sender: Endpoint, x: Addresses, now: int)
    ensures x.src in SwitchState(c, s, sender, x, now).addr && x.dst in SwitchState(c, s, sender, x, now).addr
  {
  }
}
