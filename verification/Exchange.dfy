/** What each message from the switch brings about, as the switch would tell it: which messages it
    hears back, and what changes in the tables.  Types, protocol numbers and offsets are written
    out; none of the functions that specify a handler is named. */
module Exchange {
  import opened Bytes
  import opened OpenFlow
  import opened Peer
  import opened Learning
  import opened Protocol
  import opened Handlers
  import opened Connection
  import Anim

  /** After `before`, exactly the messages `heard` were sent, in order. */
  ghost predicate Said(before: seq<seq<byte>>, after: seq<seq<byte>>, heard: seq<Heard>) {
    && |after| == |before| + |heard| && after[..|before|] == before
    && forall i :: 0 <= i < |heard| ==> Hear(after[|before| + i]) == heard[i]
  }

  function Successor(xid: u32): u32 {
    if xid == 0xffff_ffff then 0 else xid + 1
  }

  lemma SuccessorIs(xid: u32)
    ensures NextXid(xid) == Successor(xid)
  {
  }

  lemma SaidNothing(sent: seq<seq<byte>>)
    ensures Said(sent, sent, []) && sent + [] == sent
  {
  }

  lemma SaidOne(sent: seq<seq<byte>>, m: seq<byte>)
    ensures Said(sent, sent + [m], [Hear(m)])
  {
    hide Hear;
  }

  lemma SaidTwo(sent: seq<seq<byte>>, m: seq<byte>, n: seq<byte>)
    ensures Said(sent, sent + [m, n], [Hear(m), Hear(n)])
  {
    hide Hear;
  }

  // ----- By message type -----

  /** HELLO, type 0: a HELLO with its id and a features request with the next. */
  lemma HelloEffect(st: State, cbench: bool, s: seq<byte>, pos: nat)
    requires At(s, pos + 1) == 0
    ensures var ((after, ok), xid) := (MessageState(st, cbench, s, pos), Be32(s, pos + 4));
      && ok && after == st.(xid := Successor(xid), sent := after.sent)
      && Said(st.sent, after.sent, [Hello(xid), FeaturesRequest(Successor(xid))])
  {
    hide Hear, HeaderMsg;
    var xid := Be32(s, pos + 4);
    SuccessorIs(xid);
    HearsHeader(0, xid);
    HearsHeader(5, NextXid(xid));
    SaidTwo(st.sent, HeaderMsg(Header(0, 8, xid)), HeaderMsg(Header(5, 8, NextXid(xid))));
  }

  /** ECHO_REQUEST, type 2: a bare echo reply with its id. */
  lemma EchoEffect(st: State, cbench: bool, s: seq<byte>, pos: nat)
    requires At(s, pos + 1) == 2
    ensures var ((after, ok), xid) := (MessageState(st, cbench, s, pos), Be32(s, pos + 4));
      && ok && after == st.(xid := xid, sent := after.sent) && Said(st.sent, after.sent, [EchoAnswer(xid)])
  {
    hide Hear, HeaderMsg;
    var xid := Be32(s, pos + 4);
    HearsHeader(3, xid);
    SaidOne(st.sent, HeaderMsg(Header(3, 8, xid)));
  }

  /** The `n` ports described from octet 32 of a features reply, 48 octets each, are appended. */
  predicate PortsTaken(before: seq<SwitchPort>, after: seq<SwitchPort>, s: seq<byte>, pos: nat, n: nat) {
    && |after| == |before| + n && after[..|before|] == before
    && forall i :: 0 <= i < n ==>
         after[|before| + i] == SwitchPort(Be64(s, pos + 8), Be16(s, pos + 32 + 48 * i), MacAt(s, pos + 34 + 48 * i))
  }

  /** FEATURES_REPLY, type 6: the ports and the identifier are taken over, a sharing thread is
      started and the switch is told to send 128 octets of a frame; without ports the handler
      fails and leaves the mutex locked. */
  lemma FeaturesEffect(st: State, cbench: bool, s: seq<byte>, pos: nat)
    requires At(s, pos + 1) == 6 && Be16(s, pos + 2) >= 32
    ensures var ((after, ok), xid) := (MessageState(st, cbench, s, pos), Be32(s, pos + 4));
      var n := (Be16(s, pos + 2) - 32) / 48;
      if n == 0 then !ok && after == st.(xid := xid, noOfPorts := 0, locked := true)
      else
        && ok && after == st.(xid := Successor(xid), noOfPorts := n, switchId := Be64(s, pos + 8),
                              sharers := st.sharers + 1, ports := after.ports, sent := after.sent)
        && PortsTaken(st.ports, after.ports, s, pos, n)
        && Said(st.sent, after.sent, [SetConfig(Successor(xid), 0, 128)])
  {
    hide Hear, CountOf;
    var xid := Be32(s, pos + 4);
    SuccessorIs(xid);
    HearsConfig(NextXid(xid), 0, 128);
    SaidOne(st.sent, ConfigMsg(NextXid(xid)));
    PortsAreTaken(st.ports, s, pos, PortCount(s, pos));
    hide ConfigMsg, PortsAt, PortsTaken;
  }

  lemma PortsAreTaken(before: seq<SwitchPort>, s: seq<byte>, pos: nat, n: nat)
    ensures PortsTaken(before, before + PortsAt(s, pos, n), s, pos, n)
  {
    hide Be64, Be16, MacAt;
  }

  /** Any type but 0, 2, 6 and 10 changes nothing. */
  lemma OtherEffect(st: State, cbench: bool, s: seq<byte>, pos: nat)
    requires At(s, pos + 1) !in {0, 2, 6, 10}
    ensures MessageState(st, cbench, s, pos) == (st, true)
  {
  }

  // ----- PACKET_IN, type 10: the learning switch -----

  function HeardFlood(xid: u32, bufferId: u32, inPort: u16): Heard {
    Emission(xid, bufferId, inPort, 0xfffb, [])
  }

  function HeardArpRule(xid: u32, bufferId: u32, inPort: u16, f: seq<byte>, port: u16): Heard {
    Rule(xid, Key(inPort, MacAt(f, 6), MacAt(f, 0), 0xffff, 0, 0x0806, 0, 0, Be32(f, 28), Be32(f, 38), 0, 0),
         60, bufferId, port)
  }

  function HeardIpRule(xid: u32, bufferId: u32, inPort: u16, f: seq<byte>, port: u16): Heard {
    var ports := if At(f, 23) == 1 then (0, 0) else (Be16(f, 34), Be16(f, 36));
    Rule(xid, Key(inPort, MacAt(f, 6), MacAt(f, 0), 0xffff, 0, 0x0800, 0, At(f, 23), Be32(f, 26), Be32(f, 30),
                  ports.0, ports.1), 60, bufferId, port)
  }

  /** What the switch hears after a packet-in with frame `f`, LLDP aside.  `port` is that of the
      destination in the host table, 0 when it is not there. */
  function Answer(cbench: bool, xid: u32, bufferId: u32, inPort: u16, f: seq<byte>, port: u16): seq<Heard> {
    var etherType, proto := Be16(f, 12), At(f, 23);
    if etherType == 0x86dd then
      if cbench then [HeardFlood(xid, bufferId, inPort)] else []
    else if etherType == 0x0806 then
      if MacAt(f, 0) == [255, 255, 255, 255, 255, 255] then [HeardFlood(xid, bufferId, inPort)]
      else if port == 0 then []
      else [HeardArpRule(xid, bufferId, inPort, f, port)]
    else if etherType == 0x0800 then
      if proto == 1 || proto == 6 || proto == 17 then
        if port == 0 then [] else [HeardIpRule(xid, bufferId, inPort, f, port)]
      else if proto == 255 then [HeardFlood(xid, bufferId, inPort)]
      else []
    else []
  }

  /** An ARP frame from an address not in the table adds its sender. */
  function Learned(hosts: seq<Host>, datapath: u64, inPort: u16, f: seq<byte>): seq<Host> {
    if Be16(f, 12) == 0x0806 && forall i :: 0 <= i < |hosts| ==> hosts[i].mac != MacAt(f, 6)
    then hosts + [Host(datapath, inPort, MacAt(f, 6), Be32(f, 28))] else hosts
  }

  lemma LearnedIs(hosts: seq<Host>, datapath: u64, inPort: u16, f: seq<byte>)
    ensures Learn(hosts, datapath, inPort, f) == Learned(hosts, datapath, inPort, f)
  {
  }

  lemma ArpKeyOctets(inPort: u16, f: seq<byte>)
    requires Be16(f, 12) == 0x0806
    ensures RuleKey(inPort, f) ==
      Key(inPort, MacAt(f, 6), MacAt(f, 0), 0xffff, 0, 0x0806, 0, 0, Be32(f, 28), Be32(f, 38), 0, 0)
  {
    ArpKeyIs(inPort, f);
    hide Be32, MacAt, At, ArpOpOnWire;
  }

  lemma IpKeyOctets(inPort: u16, f: seq<byte>)
    requires Be16(f, 12) == 0x0800
    ensures var ports := if At(f, 23) == 1 then (0, 0) else (Be16(f, 34), Be16(f, 36));
      RuleKey(inPort, f) == Key(inPort, MacAt(f, 6), MacAt(f, 0), 0xffff, 0, 0x0800, 0, At(f, 23),
                                Be32(f, 26), Be32(f, 30), ports.0, ports.1)
  {
    hide Be32, MacAt, At, ArpOpOnWire;
  }

  lemma EmitSays(sent: seq<seq<byte>>, d: Decision, xid: u32, bufferId: u32, inPort: u16)
    ensures Said(sent, sent + Emit(d, xid, bufferId, inPort),
      match d
      case Ignore => []
      case Flood => [HeardFlood(xid, bufferId, inPort)]
      case Install(key, port) => [Rule(xid, key, 60, bufferId, port)])
  {
    hide Hear, FloodMsg, RuleMsg, Said;
    match d
    case Ignore => SaidNothing(sent);
    case Flood =>
      FloodMsgDecodes(xid, bufferId, inPort);
      SaidOne(sent, FloodMsg(xid, bufferId, inPort));
    case Install(key, port) =>
      RuleMsgDecodes(key, port, xid, bufferId);
      SaidOne(sent, RuleMsg(key, port, xid, bufferId));
  }

  lemma DecideSays(hosts: seq<Host>, cbench: bool, inPort: u16, f: seq<byte>, xid: u32, bufferId: u32)
    ensures Answer(cbench, xid, bufferId, inPort, f, Lookup(hosts, MacAt(f, 0))) ==
      match Decide(hosts, cbench, inPort, f)
      case Ignore => []
      case Flood => [HeardFlood(xid, bufferId, inPort)]
      case Install(key, port) => [Rule(xid, key, 60, bufferId, port)]
  {
    if Be16(f, 12) == 0x0806 {
      ArpKeyOctets(inPort, f);
    } else if Be16(f, 12) == 0x0800 {
      IpKeyOctets(inPort, f);
    }
    hide RuleKey, Lookup, At, Be16, Be32, MacAt;
  }

  lemma PacketInEffect(st: State, cbench: bool, s: seq<byte>, pos: nat)
    requires At(s, pos + 1) == 10 && Be16(s, pos + 30) != 0x88cc
    ensures var ((after, ok), f) := (MessageState(st, cbench, s, pos), From(s, pos + 18));
      var xid, bufferId, inPort := Be32(s, pos + 4), Be32(s, pos + 8), Be16(s, pos + 14);
      && ok && after == st.(xid := xid, hosts := after.hosts, sent := after.sent)
      && after.hosts == Learned(st.hosts, st.switchId, inPort, f)
      && Said(st.sent, after.sent,
              Answer(cbench, xid, bufferId, inPort, f, Lookup(after.hosts, MacAt(f, 0))))
  {
    hide Learn, Learned, Decide, Emit, Answer, Said, Lookup;
    var xid, bufferId, inPort, f := Be32(s, pos + 4), Be32(s, pos + 8), Be16(s, pos + 14), From(s, pos + 18);
    assert Be16(f, 12) == Be16(s, pos + 30);
    var hosts := Learn(st.hosts, st.switchId, inPort, f);
    LearnedIs(st.hosts, st.switchId, inPort, f);
    DecideSays(hosts, cbench, inPort, f, xid, bufferId);
    EmitSays(st.sent, Decide(hosts, cbench, inPort, f), xid, bufferId, inPort);
  }

  // ----- PACKET_IN, type 10: link discovery -----

  /** The echo reply of link discovery, sent as from the controller. */
  function Pong(port: u16): Heard {
    Emission(0, 0xffff_ffff, 0xfffd, port, [1, 0x23, 0x20, 0, 0, 1, 0, 0, 0, 0, 0, 1, 0x88, 0xcc, 1, 0, 0, 4])
  }

  lemma PongIs(port: u16)
    ensures Hear(Anim.AnimMsg(port, EchoReply)) == Pong(port)
  {
    Anim.AnimRoundTrip(port, EchoReply);
    hide Hear;
  }

  /** An LLDP frame of kind 0 is answered on its own port, kind 1 is recorded as a reply, kind 2 as
      a link, and resets the timer; no other kind has an effect. */
  lemma DiscoveryEffect(st: State, cbench: bool, s: seq<byte>, pos: nat)
    requires At(s, pos + 1) == 10 && Be16(s, pos + 30) == 0x88cc
    ensures var (after, ok) := MessageState(st, cbench, s, pos);
      var inPort, kind := Be16(s, pos + 14), At(s, pos + 32);
      var link := Link(NodeId(st.switchId, inPort), NodeId(Be64(s, pos + 36), Be16(s, pos + 44)));
      && ok && after == st.(xid := Be32(s, pos + 4), sent := after.sent,
                            replys := if kind == 1 then st.replys + [Reply(inPort, true)] else st.replys,
                            links := if kind == 2 then st.links + [link] else st.links,
                            counter := if kind == 2 then 0 else st.counter)
      && Said(st.sent, after.sent, if kind == 0 then [Pong(inPort)] else [])
  {
    var inPort, f := Be16(s, pos + 14), From(s, pos + 18);
    assert Be16(f, 12) == 0x88cc && At(f, 14) == At(s, pos + 32);
    assert Be64(f, 18) == Be64(s, pos + 36) && Be16(f, 26) == Be16(s, pos + 44);
    hide Hear, Said, Pong, Be16, Be32, Be64, At, From, HelloState, EchoState, FeaturesState, Learn, Decide, Emit;
    PongIs(inPort);
    SaidNothing(st.sent);
    SaidOne(st.sent, Anim.AnimMsg(inPort, EchoReply));
    assert st.replys + [] == st.replys && st.links + [] == st.links;
  }

  // ----- Whole receptions in the default mode -----

  /** Outside cbench mode a reception has the effect of its first message, when that is of version
      1 or a HELLO of any version, and none otherwise. */
  lemma DefaultMode(st: State, s: seq<byte>)
    requires s != []
    ensures CommunicateState(st, false, s) ==
      if At(s, 0) == 1 || At(s, 1) == 0 then MessageState(st, false, s, 0) else (st, true)
  {
    hide PacketInState, FeaturesState;
  }

  /** One whole message has the same effect in both modes, an IPv6 frame aside. */
  lemma DefaultIsCbench(st: State, f: seq<byte>)
    requires Whole(f) && !(At(f, 1) == 10 && Be16(f, 30) == 0x86dd)
    ensures Terminates(true, f) && CommunicateState(st, false, f) == CommunicateState(st, true, f)
  {
    ModeOnlyMattersForIp6(st, f);
    hide MessageState, Needs;
    FailsIff(st, true, f, 0);
    assert Stops(f, |f|, 0) && Progresses(f, |f|, 0);
    assert LoopState(MessageState(st, true, f, 0).0, true, f, |f|, 0) == (MessageState(st, true, f, 0).0, true);
  }

  lemma ModeOnlyMattersForIp6(st: State, f: seq<byte>)
    requires !(At(f, 1) == 10 && Be16(f, 30) == 0x86dd)
    ensures MessageState(st, false, f, 0) == MessageState(st, true, f, 0)
  {
    hide Learn, Emit, FeaturesState;
    assert Be16(From(f, 18), 12) == Be16(f, 30);
  }

  /** A failed reception empties the tables and keeps all else; outside cbench mode the new
      connection is greeted with ids 0 and 1. */
  lemma ReconnectEffect(st: State, cbench: bool)
    ensures var (after, ok) := CommunicateState(st, cbench, []);
      && ok && after == st.(hosts := [], ports := [], links := [], replys := [], sent := after.sent,
                            xid := if cbench then st.xid else 1)
      && Said(st.sent, after.sent, if cbench then [] else [Hello(0), FeaturesRequest(1)])
  {
    assert Be32([], 4) == 0;
    if cbench {
      SaidNothing(st.sent);
    } else {
      HelloEffect(Reconnected(st), false, [], 0);
    }
  }
}
