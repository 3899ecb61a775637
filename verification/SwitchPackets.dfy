/** Switch mode from the packet's bytes: the published address program runs on the machine, and
    what it finds decides where the packet goes. */
module SwitchPackets {
  import opened Bits
  import opened Options
  import opened Forwarding
  import opened ForwardingRuns
  import opened SwitchAddress
  import B = Dnp3Bytecode
  import M = MiniPlex
  import R = Regions
  import V = TinyRiscV64

  /** The addresses of a packet, as the published program finds them. */
  function Parsed(packet: seq<u8>): Option<Addresses> {
    if IsDnp3(packet) then Some(Addresses(Field(packet, 6), Field(packet, 4))) else None
  }

  /** The addresses matter in switch mode only. */
  lemma OnlySwitchLooks(c: Config, s: Plex, sender: Endpoint, x: Option<Addresses>, y: Option<Addresses>, now: int)
    requires c.mode != Switch
    ensures Step(c, s, Packet(sender, x, now)) == Step(c, s, Packet(sender, y, now))
  {
    hide Branches, ToAll, ToList, PrunePacket;
  }

  /** A packet arrives: in switch mode the machine looks at its bytes.  Plex, machine and packet
      share nothing. */
  method Receive(plex: M.MiniPlex, vm: V.VM, buf: array<u8>, n: nat, sender: Endpoint, ghost before: int, now: int)
    returns (out: seq<Endpoint>)
    requires plex.Valid(before) && before <= now
    requires vm.Valid() && vm.program == B.Bytecode() && |vm.stack| >= 16 && n <= buf.Length
    requires |vm.program| + R.GAP + n + R.GAP + |vm.stack| <= R.LAST_GUARDED
    requires plex.repr !! {vm, vm.x, buf}
    modifies plex`inactivePermaBranches, plex`addrBranches, plex`repr, plex.repr, vm, vm.x, buf
    ensures plex.Valid(now) && fresh(plex.repr - old(plex.repr))
    ensures (plex.View(), multiset(out)) == Step(plex.config, old(plex.View()),
                                                 Packet(sender, Parsed(old(buf[..n])), now))
    ensures vm.Valid() && vm.program == old(vm.program) && |vm.stack| == old(|vm.stack|) && buf[..n] == old(buf[..n])
  {
    hide Step, Field, IsDnp3, B.Bytecode, CachesOk, V.VM.Valid;
    ghost var s := plex.View();
    var found: Option<Addresses> := None;
    if plex.config.mode == Switch {
      var success, src, dst := GetSrcDst(vm, buf, n);
      if success {
        found := Some(Addresses(src, dst));
      }
      assert plex.Valid(before) && plex.View() == s;
    }
    OnlySwitch(plex.config, s, sender, found, Parsed(old(buf[..n])), now);
    out := plex.RcvHandler(sender, found, before, now);
  }

  lemma OnlySwitch(c: Config, s: Plex, sender: Endpoint, x: Option<Addresses>, y: Option<Addresses>, now: int)
    requires c.mode == Switch ==> x == y
    ensures Step(c, s, Packet(sender, x, now)) == Step(c, s, Packet(sender, y, now))
  {
    hide Step;
    if c.mode != Switch { OnlySwitchLooks(c, s, sender, x, y, now); }
  }

  // ---- runs over packets ------------------------------------------------------------------

  /** A run whose packets are parsed by the program. */
  ghost predicate ParsedRun(c: Config, states: seq<Plex>, events: seq<Event>, outs: seq<multiset<Endpoint>>,
                            packets: seq<seq<u8>>) {
    && Run(c, states, events, outs) && c.mode == Switch && |packets| == |events|
    && forall k | 0 <= k < |events| && events[k].Packet? :: events[k].addresses == Parsed(packets[k])
  }

  /** Packet j is a DNP3 packet that is accepted. */
  predicate AcceptedPacket(states: seq<Plex>, events: seq<Event>, packets: seq<seq<u8>>, j: nat) {
    && j < |events| && j < |packets| && j + 1 < |states| && events[j].Packet? && IsDnp3(packets[j])
    && AcceptedFrom(states[j + 1], events[j].sender, Field(packets[j], 6))
  }

  /** DNP3 packets that agree in bytes 6 and 7 and are accepted from different branches are at
      least a cache timeout apart. */
  lemma Dnp3Sticky(c: Config, states: seq<Plex>, events: seq<Event>, outs: seq<multiset<Endpoint>>,
                   packets: seq<seq<u8>>, j: nat, k: nat)
    requires ParsedRun(c, states, events, outs, packets) && j < k < |events|
    requires AcceptedPacket(states, events, packets, j) && AcceptedPacket(states, events, packets, k)
    requires packets[j][6..8] == packets[k][6..8] && events[j].sender != events[k].sender
    ensures events[k].now >= events[j].now + c.timeout
  {
    hide Run, AcceptedFrom;
    var src := Field(packets[j], 6);
    SameField(packets[j], 6, packets[k], 6);
    assert Accepted(states, events, src, j) && Accepted(states, events, src, k)
        by { RunLength(c, states, events, outs); }
    SwitchSticky(c, states, events, outs, src, j, k);
  }

  /** For a timeout after a DNP3 packet was accepted, an accepted one whose bytes 4 and 5 are its
      bytes 6 and 7 goes from any other branch to that packet's branch alone. */
  lemma Dnp3Learns(c: Config, states: seq<Plex>, events: seq<Event>, outs: seq<multiset<Endpoint>>,
                   packets: seq<seq<u8>>, j: nat, k: nat)
    requires ParsedRun(c, states, events, outs, packets) && j < k < |events|
    requires AcceptedPacket(states, events, packets, j) && AcceptedPacket(states, events, packets, k)
    requires packets[j][6..8] == packets[k][4..6] && events[j].sender != events[k].sender
    requires events[k].now < events[j].now + c.timeout
    ensures RunShape(states, events, outs) && outs[k] == multiset{events[j].sender}
  {
    hide Run, AcceptedFrom;
    var src := Field(packets[j], 6);
    SameField(packets[j], 6, packets[k], 4);
    RunLength(c, states, events, outs);
    assert Accepted(states, events, src, j) && Accepted(states, events, Field(packets[k], 6), k);
    SwitchLearns(c, states, events, outs, src, j, k);
  }

  predicate RunShape(states: seq<Plex>, events: seq<Event>, outs: seq<multiset<Endpoint>>) {
    |states| == |events| + 1 && |outs| == |events|
  }

  lemma RunLength(c: Config, states: seq<Plex>, events: seq<Event>, outs: seq<multiset<Endpoint>>)
    requires Run(c, states, events, outs)
    ensures RunShape(states, events, outs)
  {
  }

  lemma SameField(a: seq<u8>, i: nat, b: seq<u8>, j: nat)
    requires i + 2 <= |a| && j + 2 <= |b| && a[i..i + 2] == b[j..j + 2]
    ensures Field(a, i) == Field(b, j)
  {
    assert a[i] == a[i..i + 2][0] && a[i + 1] == a[i..i + 2][1];
    assert b[j] == b[j..j + 2][0] && b[j + 1] == b[j..j + 2][1];
  }
}
