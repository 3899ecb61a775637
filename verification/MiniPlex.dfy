/** The plex with its caches, updated in place on the processing strand. */
module MiniPlex {
  import opened Options
  import opened TimeoutCache
  import opened Forwarding

  class MiniPlex {
    const config: Config
    const activeBranches: TimeoutCache<Endpoint>
    var inactivePermaBranches: set<Endpoint>
    var addrBranches: map<nat, TimeoutCache<Endpoint>>
    ghost var repr: set<object>

    /** Every address has a cache of its own. */
    ghost predicate Shape()
      reads `addrBranches, `repr
    {
      && this !in repr && activeBranches in repr
      && activeBranches.timeout == config.timeout && activeBranches.maxSize == config.BranchLimit()
      && (forall a | a in addrBranches ::
            var t := addrBranches[a];
            t in repr && t != activeBranches && t.timeout == config.timeout && t.maxSize == config.SwitchLimit())
      && (forall a, b | a in addrBranches && b in addrBranches && a != b :: addrBranches[a] != addrBranches[b])
    }

    ghost function AddressViews(): map<nat, Cache<Endpoint>>
      requires Shape()
      reads `addrBranches, `repr, repr
    {
      map a | a in addrBranches :: addrBranches[a].View()
    }

    ghost function View(): Plex
      requires Shape()
      reads this, repr
    {
      Plex(activeBranches.View(), inactivePermaBranches, AddressViews())
    }

    /** All caches are in order at time `now`. */
    ghost predicate Valid(now: int)
      reads this, repr
    {
      Shape() && CachesOk(config, View(), now)
    }

    constructor (config: Config, now: int)
      ensures this.config == config && Valid(now) && fresh(repr) && View() == Initial(config)
    {
      this.config := config;
      activeBranches := new TimeoutCache(config.timeout, config.BranchLimit());
      inactivePermaBranches := config.perma;
      addrBranches := map[];
      new;
      repr := {activeBranches};
      EmptyOk(config.timeout, config.BranchLimit(), now);
      assert View() == Initial(config);
    }

    /** Posts a packet to the endpoints of a list, except the sender. */
    method Forward(sender: Endpoint, branches: seq<Endpoint>) returns (out: seq<Endpoint>)
      ensures multiset(out) == ToList(branches, sender)
    {
      out := [];
      for i := 0 to |branches|
        invariant multiset(out) == ToList(branches[..i], sender)
      {
        assert branches[..i + 1] == branches[..i] + [branches[i]];
        if branches[i] != sender {
          out := out + [branches[i]];
        }
      }
      assert branches[..|branches|] == branches;
    }

    /** The same for a set, in whatever order it is iterated. */
    method ForwardSet(sender: Endpoint, branches: set<Endpoint>) returns (out: seq<Endpoint>)
      ensures multiset(out) == ToSet(branches, sender)
    {
      out := [];
      var todo := branches;
      while todo != {}
        invariant todo <= branches && multiset(out) == multiset((branches - todo) - {sender})
        decreases todo
      {
        var endpoint :| endpoint in todo;
        if endpoint != sender {
          out := out + [endpoint];
          assert (branches - (todo - {endpoint})) - {sender} == ((branches - todo) - {sender}) + {endpoint};
        } else {
          assert (branches - (todo - {endpoint})) - {sender} == (branches - todo) - {sender};
        }
        todo := todo - {endpoint};
      }
      assert branches - {} == branches;
    }

    /** To the active branches and to the inactive fixed ones. */
    method ForwardToAll(sender: Endpoint) returns (out: seq<Endpoint>)
      requires Shape()
      ensures multiset(out) == ToAll(View(), sender)
    {
      hide ToList, ToSet;
      var first := Forward(sender, activeBranches.keySequence);
      var second := ForwardSet(sender, inactivePermaBranches);
      out := first + second;
    }

    method Branches(ep: Endpoint, ghost before: int, now: int)
      requires Valid(before) && before <= now
      modifies this`inactivePermaBranches, activeBranches
      ensures Valid(now) && repr == old(repr)
      ensures View() == Forwarding.Branches(config, old(View()), ep, now)
    {
      hide Added, Ok;
      ghost var s := View();
      BranchesCachesOk(config, s, ep, before, now);
      if ep != config.trunk {
        OpenActive(before, now);
        var res := activeBranches.Add(ep, now);
        if res == ADDED {
          inactivePermaBranches := inactivePermaBranches - {ep};
        }
      }
      assert AddressViews() == s.addr;
    }

    lemma OpenActive(before: int, now: int)
      requires Valid(before) && before <= now
      ensures activeBranches.Valid() && forall k | k in activeBranches.cache :: activeBranches.cache[k].access <= now
    {
      assert NotAhead(View().active, before);
    }

    /** The cache of an address, made when there is none. */
    method CacheFor(a: nat) returns (t: TimeoutCache<Endpoint>)
      requires Shape()
      modifies this`addrBranches, this`repr
      ensures Shape() && fresh(repr - old(repr)) && old(repr) <= repr
      ensures a in addrBranches && t == addrBranches[a]
      ensures activeBranches.View() == old(activeBranches.View())
      ensures AddressViews() == old(AddressViews())[a := AddrOf(old(View()), a)]
    {
      hide TimeoutCache.View;
      if a !in addrBranches {
        t := new TimeoutCache(config.timeout, config.SwitchLimit());
        addrBranches := addrBranches[a := t];
        repr := repr + {t};
      } else {
        t := addrBranches[a];
      }
    }

    method Associate(t: TimeoutCache<Endpoint>, a: nat, ep: Endpoint, now: int)
      requires Valid(now) && a in addrBranches && t == addrBranches[a]
      modifies t
      ensures Shape() && activeBranches.View() == old(activeBranches.View())
      ensures AddressViews() == old(AddressViews())[a :=
                Added(old(AddressViews()[a]), config.timeout, config.SwitchLimit(), ep, now)]
    {
      hide TimeoutCache.View, Added, Ok;
      OpenAddress(a, now);
      var res := t.Add(ep, now);
      forall b | b in addrBranches && b != a ensures addrBranches[b].View() == old(AddressViews())[b] {
        assert addrBranches[b] != t;
      }
    }

    lemma OpenAddress(a: nat, now: int)
      requires Valid(now) && a in addrBranches
      ensures addrBranches[a].Valid() && forall k | k in addrBranches[a].cache :: addrBranches[a].cache[k].access <= now
    {
      assert NotAhead(View().addr[a], now);
    }

    method AddressBranches(ep: Endpoint, addr: nat, associate: bool, now: int) returns (keys: seq<Endpoint>)
      requires Valid(now)
      modifies this`addrBranches, this`repr, repr
      ensures Valid(now) && fresh(repr - old(repr))
      ensures View() == Forwarding.AddressBranches(config, old(View()), ep, addr, associate, now)
      ensures keys == View().addr[addr].keys
    {
      hide TimeoutCache.View, Added, Ok, AddressViews, CachesOk;
      ghost var s := View();
      var t := CacheFor(addr);
      AddressBranchesOk(config, s, ep, addr, false, now, now);
      assert View() == Forwarding.AddressBranches(config, s, ep, addr, false, now);
      if associate {
        AddressBranchesOk(config, s, ep, addr, true, now, now);
        Associate(t, addr, ep, now);
        assert View() == Forwarding.AddressBranches(config, s, ep, addr, true, now);
      }
      keys := addrBranches[addr].keySequence;
      ViewAt(addr);
    }

    lemma ViewAt(a: nat)
      requires Shape() && a in addrBranches
      ensures a in View().addr && View().addr[a].keys == addrBranches[a].keySequence
    {
    }

    // ---- the modes ----------------------------------------------------------------------

    method Hub(sender: Endpoint) returns (out: seq<Endpoint>)
      requires Shape()
      ensures multiset(out) == ToAll(View(), sender)
    {
      out := ForwardToAll(sender);
    }

    method Trunk(sender: Endpoint) returns (out: seq<Endpoint>)
      requires Shape()
      ensures multiset(out) == if sender == config.trunk then ToAll(View(), sender) else ToList([config.trunk], sender)
    {
      if sender == config.trunk {
        out := ForwardToAll(sender);
      } else {
        out := Forward(sender, [config.trunk]);
      }
    }

    method Prune(sender: Endpoint) returns (out: seq<Endpoint>)
      requires Shape()
      ensures multiset(out) == PrunePacket(config, View(), sender)
    {
      hide ToList, ToSet;
      var branches := activeBranches.keySequence;
      if sender != config.trunk && branches != [] && sender != branches[0] {
        return [];
      }
      if sender == config.trunk {
        if branches == [] {
          out := ForwardSet(sender, config.perma);
        } else {
          out := Forward(sender, [branches[0]]);
        }
      } else {
        out := Forward(sender, [config.trunk]);
      }
    }

    /** The heads of the lists are looked at after both are brought up to date. */
    method Switch(sender: Endpoint, a: Addresses, now: int) returns (out: seq<Endpoint>)
      requires Valid(now)
      modifies this`addrBranches, this`repr, repr
      ensures Valid(now) && fresh(repr - old(repr))
      ensures View() == SwitchState(config, old(View()), sender, a, now)
      ensures multiset(out) == SwitchPacket(View(), sender, a)
    {
      hide ToList, ToAll, Added, Ok, CachesOk, Forwarding.AddressBranches;
      SwitchHead(config, View(), sender, a, now, now);
      SwitchKnows(config, View(), sender, a, now);
      var srcBranches := AddressBranches(sender, a.src, true, now);
      var dstBranches := AddressBranches(sender, a.dst, false, now);
      out := Route(sender, a);
    }

    method Route(sender: Endpoint, a: Addresses) returns (out: seq<Endpoint>)
      requires Shape() && a.src in View().addr && a.dst in View().addr && View().addr[a.src].keys != []
      ensures multiset(out) == SwitchPacket(View(), sender, a)
    {
      hide ToList, ToAll;
      ViewAt(a.src);
      ViewAt(a.dst);
      var activeSrcBranch := addrBranches[a.src].keySequence[0];
      var dstBranches := addrBranches[a.dst].keySequence;
      if activeSrcBranch != sender {
        return [];
      }
      if dstBranches == [] {
        out := ForwardToAll(sender);
      } else {
        out := Forward(sender, [dstBranches[0]]);
      }
    }

    // ---- events -------------------------------------------------------------------------

    /** A packet arrives; `addresses` is what the address program finds in it. */
    method RcvHandler(sender: Endpoint, addresses: Option<Addresses>, ghost before: int, now: int)
        returns (out: seq<Endpoint>)
      requires Valid(before) && before <= now
      modifies this`inactivePermaBranches, this`addrBranches, this`repr, repr
      ensures Valid(now) && fresh(repr - old(repr))
      ensures (View(), multiset(out)) == Step(config, old(View()), Packet(sender, addresses, now))
    {
      hide ToList, ToAll, Added, Ok, CachesOk, PrunePacket, SwitchPacket, SwitchState, Forwarding.Branches;
      Branches(sender, before, now);
      match config.mode {
        case Hub => out := Hub(sender);
        case Trunk => out := Trunk(sender);
        case Prune => out := Prune(sender);
        case Switch =>
          if addresses == None {
            out := [];
          } else {
            out := Switch(sender, addresses.value, now);
          }
      }
    }

    method BranchTimerFired(key: Endpoint, ghost before: int, now: int)
      requires Valid(before) && before <= now && key in activeBranches.cache
      modifies activeBranches
      ensures Valid(now) && View() == Step(config, old(View()), BranchTimer(key, now)).0
    {
      hide Fired, Ok;
      ghost var s := View();
      StepCachesOk(config, s, BranchTimer(key, now), before);
      OpenActive(before, now);
      activeBranches.TimerHandler(key, now);
      assert AddressViews() == s.addr;
    }

    method AddressTimerFired(a: nat, key: Endpoint, ghost before: int, now: int)
      requires Valid(before) && before <= now && a in addrBranches && key in addrBranches[a].cache
      modifies addrBranches[a]
      ensures Valid(now) && View() == Step(config, old(View()), AddressTimer(a, key, now)).0
    {
      hide Fired, Ok, TimeoutCache.View;
      ghost var s := View();
      KeyAt(a, key);
      StepCachesOk(config, s, AddressTimer(a, key, now), before);
      AddressCacheOk(a, before);
      addrBranches[a].TimerHandler(key, now);
      forall b | b in addrBranches && b != a ensures addrBranches[b].View() == s.addr[b] {
        assert addrBranches[b] != addrBranches[a];
      }
      assert AddressViews() == s.addr[a := Fired(s.addr[a], config.timeout, key, now)];
    }

    lemma KeyAt(a: nat, key: Endpoint)
      requires Shape() && a in addrBranches && key in addrBranches[a].cache
      ensures a in View().addr && key in View().addr[a].entries
    {
    }

    lemma AddressCacheOk(a: nat, now: int)
      requires Valid(now) && a in addrBranches
      ensures addrBranches[a].Valid()
    {
      assert NotAhead(View().addr[a], now);
    }

    /** A posted notification runs: a fixed branch that timed out is listed as inactive. */
    method NotifyTimeout(key: Endpoint, ghost before: int, now: int)
      requires Valid(before) && before <= now && key in activeBranches.posted
      modifies this`inactivePermaBranches, activeBranches`posted
      ensures Valid(now) && View() == Step(config, old(View()), Notified(key, now)).0
    {
      hide Ok;
      ghost var s := View();
      StepCachesOk(config, s, Notified(key, now), before);
      activeBranches.posted := activeBranches.posted - multiset{key};
      if key in config.perma {
        inactivePermaBranches := inactivePermaBranches + {key};
      }
      assert AddressViews() == s.addr;
    }
  }
}
