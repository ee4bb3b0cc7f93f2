/** The learning switch inside `action_packout`: the host table, and what the controller
    answers to a packet-in carrying an ARP, IPv4 or IPv6 frame. */
module Learning {
  import opened Bytes
  import opened OpenFlow
  import opened Matching
  import opened Peer

  datatype Host = Host(datapath: u64, port: u16, mac: Mac, ip: u32)

  const BROADCAST: Mac := [0xff, 0xff, 0xff, 0xff, 0xff, 0xff]
  const PROTO_UNKNOWN: byte := 255
  const IDLE_TIMEOUT: u16 := 60

  function Src(f: seq<byte>): Mac { MacAt(f, 6) }

  function Dst(f: seq<byte>): Mac { MacAt(f, 0) }

  predicate Known(hosts: seq<Host>, mac: Mac) {
    exists i :: 0 <= i < |hosts| && hosts[i].mac == mac
  }

  /** The port of the first entry for `mac`, 0 when there is none. */
  function Lookup(hosts: seq<Host>, mac: Mac): u16 {
    if hosts == [] then 0
    else if hosts[0].mac == mac then hosts[0].port
    else Lookup(hosts[1..], mac)
  }

  function HostOf(datapath: u64, inPort: u16, f: seq<byte>): Host {
    Host(datapath, inPort, Src(f), Be32(f, 28))
  }

  function Learn(hosts: seq<Host>, datapath: u64, inPort: u16, f: seq<byte>): seq<Host> {
    if EthType(f) == TYPE_ARP && !Known(hosts, Src(f)) then hosts + [HostOf(datapath, inPort, f)] else hosts
  }

  datatype Decision = Ignore | Flood | Install(key: Key, port: u16)

  /** `op` is read into 8 bits, byte-swapped as 16 and narrowed to 8 again. */
  function ArpOpOnWire(f: seq<byte>): byte {
    Htons(Be16(f, 20) % 0x100) % 0x100
  }

  function RuleKey(inPort: u16, f: seq<byte>): Key {
    var base := Key(inPort, Src(f), Dst(f), VLAN_NONE, 0, EthType(f), 0, 0, 0, 0, 0, 0);
    if EthType(f) == TYPE_ARP then
      base.(nwProto := ArpOpOnWire(f), nwSrc := Be32(f, 28), nwDst := Be32(f, 38))
    else
      var ip := base.(nwProto := At(f, 23), nwSrc := Be32(f, 26), nwDst := Be32(f, 30));
      if At(f, 23) == PROTO_ICMP then ip else ip.(tpSrc := Be16(f, 34), tpDst := Be16(f, 36))
  }

  predicate Ruled(proto: byte) {
    proto == PROTO_ICMP || proto == PROTO_TCP || proto == PROTO_UDP
  }

  /** `hosts` is the table after `Learn`. */
  function Decide(hosts: seq<Host>, cbench: bool, inPort: u16, f: seq<byte>): Decision {
    if EthType(f) == TYPE_IP6 then
      if cbench then Flood else Ignore
    else if EthType(f) == TYPE_ARP then
      if Dst(f) == BROADCAST then Flood
      else if Lookup(hosts, Dst(f)) != 0 then Install(RuleKey(inPort, f), Lookup(hosts, Dst(f)))
      else Ignore
    else if EthType(f) == TYPE_IP then
      if Ruled(At(f, 23)) then
        if Lookup(hosts, Dst(f)) != 0 then Install(RuleKey(inPort, f), Lookup(hosts, Dst(f))) else Ignore
      else if At(f, 23) == PROTO_UNKNOWN then Flood
      else Ignore
    else Ignore
  }

  function FloodMsg(xid: u32, bufferId: u32, inPort: u16): seq<byte> {
    PacketOutMsg(PacketOut(Header(PACKET_OUT, 24, xid), bufferId, inPort, 8), Output(PORT_FLOOD, 0))
  }

  function RuleMsg(key: Key, port: u16, xid: u32, bufferId: u32): seq<byte> {
    FlowModMsg(RuleMod(xid, bufferId, key, IDLE_TIMEOUT), Output(port, 0))
  }

  /** The messages sent to the switch. */
  function Emit(d: Decision, xid: u32, bufferId: u32, inPort: u16): seq<seq<byte>> {
    match d
    case Ignore => []
    case Flood => [FloodMsg(xid, bufferId, inPort)]
    case Install(key, port) => [RuleMsg(key, port, xid, bufferId)]
  }

  // ----- The table -----

  lemma {:induction false} LookupAppend(hosts: seq<Host>, h: Host, mac: Mac)
    ensures Lookup(hosts + [h], mac) == if Known(hosts, mac) then Lookup(hosts, mac)
                                        else if h.mac == mac then h.port else 0
  {
    if hosts == [] {
    } else {
      assert (hosts + [h])[1..] == hosts[1..] + [h];
      LookupAppend(hosts[1..], h, mac);
      if Known(hosts, mac) && hosts[0].mac != mac {
        var i :| 0 <= i < |hosts| && hosts[i].mac == mac;
        assert hosts[1..][i - 1].mac == mac;
      }
    }
  }

  lemma {:induction false} LookupUnknown(hosts: seq<Host>, mac: Mac)
    requires !Known(hosts, mac)
    ensures Lookup(hosts, mac) == 0
  {
    if hosts == [] {
    } else {
      LookupUnknown(hosts[1..], mac);
    }
  }

  /** Appending never changes an answer other than 0: what makes a cached answer last. */
  lemma LearnKeepsAnswers(hosts: seq<Host>, datapath: u64, inPort: u16, f: seq<byte>, mac: Mac)
    ensures Known(hosts, mac) ==> Known(Learn(hosts, datapath, inPort, f), mac)
    ensures Lookup(hosts, mac) != 0 ==> Lookup(Learn(hosts, datapath, inPort, f), mac) == Lookup(hosts, mac)
    ensures EthType(f) == TYPE_ARP ==> Known(Learn(hosts, datapath, inPort, f), Src(f))
  {
    var after := Learn(hosts, datapath, inPort, f);
    if after != hosts {
      var h := HostOf(datapath, inPort, f);
      LookupAppend(hosts, h, mac);
      assert after[|hosts|] == h;
      if Known(hosts, mac) {
        var i :| 0 <= i < |hosts| && hosts[i].mac == mac;
        assert after[i].mac == mac;
      } else {
        LookupUnknown(hosts, mac);
      }
    }
  }

  // ----- The table after a history of packet-ins, against a definition by first ARP frame -----

  /** A packet-in, with the identifier the controller had for its switch at the time. */
  datatype Arrival = Arrival(datapath: u64, inPort: u16, frame: seq<byte>)

  function HostsAfter(h: seq<Arrival>): seq<Host> {
    if h == [] then []
    else
      var last := h[|h| - 1];
      Learn(HostsAfter(h[..|h| - 1]), last.datapath, last.inPort, last.frame)
  }

  predicate ArpFrom(a: Arrival, mac: Mac) {
    EthType(a.frame) == TYPE_ARP && Src(a.frame) == mac
  }

  predicate IsFirstArp(h: seq<Arrival>, j: nat)
    requires j < |h|
  {
    && EthType(h[j].frame) == TYPE_ARP
    && forall i :: 0 <= i < j ==> !ArpFrom(h[i], Src(h[j].frame))
  }

  /** The ingress port, and the sender's hardware and protocol addresses. */
  function EntryFor(a: Arrival): Host {
    Host(a.datapath, a.inPort, MacAt(a.frame, 6), Be32(a.frame, 28))
  }

  predicate ArpSentBy(f: seq<byte>, mac: Mac) {
    Be16(f, 12) == 0x0806 && MacAt(f, 6) == mac
  }

  /** In octets: an ARP frame from an address that no earlier ARP frame came from. */
  lemma FirstArpMeans(h: seq<Arrival>, j: nat)
    requires j < |h|
    ensures IsFirstArp(h, j) <==>
      && ArpSentBy(h[j].frame, MacAt(h[j].frame, 6))
      && forall i :: 0 <= i < j ==> !ArpSentBy(h[i].frame, MacAt(h[j].frame, 6))
  {
    var mac := MacAt(h[j].frame, 6);
    assert forall i :: 0 <= i < |h| ==> (ArpFrom(h[i], mac) <==> ArpSentBy(h[i].frame, mac));
  }

  /** Positions of the first ARP frame of each source, ascending. */
  function FirstArps(h: seq<Arrival>, n: nat): seq<nat>
    requires n <= |h|
  {
    if n == 0 then [] else FirstArps(h, n - 1) + if IsFirstArp(h, n - 1) then [n - 1] else []
  }

  lemma {:induction false} FirstArpsExact(h: seq<Arrival>, n: nat)
    requires n <= |h|
    ensures forall i, j :: 0 <= i < j < |FirstArps(h, n)| ==> FirstArps(h, n)[i] < FirstArps(h, n)[j]
    ensures forall j: nat :: j in FirstArps(h, n) <==> j < n && IsFirstArp(h, j)
  {
    if n == 0 {
    } else {
      FirstArpsExact(h, n - 1);
      var before := FirstArps(h, n - 1);
      forall i | 0 <= i < |before| ensures before[i] < n - 1 {
        assert before[i] in before;
      }
    }
  }

  lemma LearnKnows(hosts: seq<Host>, a: Arrival, mac: Mac)
    ensures Known(Learn(hosts, a.datapath, a.inPort, a.frame), mac) <==> Known(hosts, mac) || ArpFrom(a, mac)
  {
    var after := Learn(hosts, a.datapath, a.inPort, a.frame);
    if Known(hosts, mac) {
      var i :| 0 <= i < |hosts| && hosts[i].mac == mac;
      assert after[i].mac == mac;
    }
    if after != hosts {
      assert after[|hosts|].mac == Src(a.frame);
    }
  }

  lemma {:induction false} KnownIffArp(h: seq<Arrival>, mac: Mac)
    ensures Known(HostsAfter(h), mac) <==> exists j :: 0 <= j < |h| && ArpFrom(h[j], mac)
  {
    hide ArpFrom, Known, Learn;
    if h == [] {
      NoneKnown(mac);
    } else {
      var n := |h| - 1;
      KnownIffArp(h[..n], mac);
      LearnKnows(HostsAfter(h[..n]), h[n], mac);
      if j :| 0 <= j < n && ArpFrom(h[j], mac) {
        assert ArpFrom(h[..n][j], mac);
      }
    }
  }

  lemma NoneKnown(mac: Mac)
    ensures !Known([], mac)
  {
  }

  lemma KnownBefore(h: seq<Arrival>, n: nat, mac: Mac)
    requires n <= |h|
    ensures Known(HostsAfter(h[..n]), mac) <==> exists j :: 0 <= j < n && ArpFrom(h[j], mac)
  {
    hide ArpFrom, Known, HostsAfter;
    KnownIffArp(h[..n], mac);
    if j :| 0 <= j < n && ArpFrom(h[j], mac) {
      assert ArpFrom(h[..n][j], mac);
    }
  }

  /** The last packet-in adds an entry exactly when it is the first ARP frame of its source, and
      then no entry has that source's address. */
  lemma LastAdds(h: seq<Arrival>)
    requires h != []
    ensures var n, a := |h| - 1, h[|h| - 1];
      && HostsAfter(h) == HostsAfter(h[..n]) +
           (if IsFirstArp(h, n) then [HostOf(a.datapath, a.inPort, a.frame)] else [])
      && (IsFirstArp(h, n) ==> !Known(HostsAfter(h[..n]), Src(a.frame)))
  {
    hide EthType, Src, HostOf, Known;
    KnownBefore(h, |h| - 1, Src(h[|h| - 1].frame));
  }

  /** The table holds, in first-seen order, the port and IP of the first ARP frame of each
      source and nothing else; its addresses are distinct. */
  lemma {:induction false} HostTableIsFirstArps(h: seq<Arrival>)
    ensures var t := HostsAfter(h);
      var firsts := FirstArps(h, |h|);
      && |t| == |firsts|
      && (forall i :: 0 <= i < |t| ==>
            firsts[i] < |h| && t[i] == EntryFor(h[firsts[i]]))
      && (forall i, j :: 0 <= i < j < |t| ==> t[i].mac != t[j].mac)
  {
    if h == [] {
    } else {
      hide IsFirstArp;
      var n := |h| - 1;
      HostTableIsFirstArps(h[..n]);
      FirstArpsPrefix(h, n, n);
      LastAdds(h);
    }
  }

  lemma {:induction false} FirstArpsPrefix(h: seq<Arrival>, n: nat, m: nat)
    requires m <= n < |h|
    ensures FirstArps(h[..n], m) == FirstArps(h, m)
  {
    if m == 0 {
    } else {
      FirstArpsPrefix(h, n, m - 1);
    }
  }

  /** A scan of the table answers the ingress port of the first ARP frame from `mac`. */
  lemma LookupIsFirstArp(h: seq<Arrival>, mac: Mac)
    ensures (forall j :: 0 <= j < |h| ==> !ArpFrom(h[j], mac)) ==> Lookup(HostsAfter(h), mac) == 0
    ensures forall j :: 0 <= j < |h| && IsFirstArp(h, j) && Src(h[j].frame) == mac ==>
      Lookup(HostsAfter(h), mac) == h[j].inPort
  {
    HostTableIsFirstArps(h);
    KnownIffArp(h, mac);
    var t := HostsAfter(h);
    if forall j :: 0 <= j < |h| ==> !ArpFrom(h[j], mac) {
      LookupUnknown(t, mac);
    }
    forall j | 0 <= j < |h| && IsFirstArp(h, j) && Src(h[j].frame) == mac
      ensures Lookup(t, mac) == h[j].inPort
    {
      FirstArpsExact(h, |h|);
      var i :| 0 <= i < |t| && FirstArps(h, |h|)[i] == j;
      LookupOnly(t, i);
    }
  }

  lemma {:induction false} LookupOnly(hosts: seq<Host>, i: nat)
    requires i < |hosts| && forall k, l :: 0 <= k < l < |hosts| ==> hosts[k].mac != hosts[l].mac
    ensures Lookup(hosts, hosts[i].mac) == hosts[i].port
  {
    if i == 0 {
    } else {
      LookupOnly(hosts[1..], i - 1);
    }
  }

  // ----- What a peer decodes from the emitted octets -----

  lemma RuleMsgDecodes(key: Key, port: u16, xid: u32, bufferId: u32)
    ensures var m := RuleMsg(key, port, xid, bufferId);
      && |m| == 80 && DecodeHeader(m) == Header(14, 80, xid)
      && DecodeFlowMod(m) == RuleMod(xid, bufferId, key, IDLE_TIMEOUT)
      && DecodeAction(m, 72) == Action(0, 8, port, 0)
      && Hear(m) == Rule(xid, key, 60, bufferId, port)
  {
    FlowModRoundTrip(RuleMod(xid, bufferId, key, IDLE_TIMEOUT), Output(port, 0));
    hide FlowModMsg, Hear, DecodeAction, At;
    HearsRule(RuleMsg(key, port, xid, bufferId), xid, key, 60, bufferId, port, 0);
  }

  lemma FloodMsgDecodes(xid: u32, bufferId: u32, inPort: u16)
    ensures var m := FloodMsg(xid, bufferId, inPort);
      && |m| == 24 && DecodeHeader(m) == Header(13, 24, xid)
      && DecodePacketOut(m) == PacketOut(Header(13, 24, xid), bufferId, inPort, 8)
      && DecodeAction(m, 16) == Action(0, 8, 0xfffb, 0)
      && Hear(m) == Emission(xid, bufferId, inPort, 0xfffb, [])
  {
    PacketOutRoundTrip(PacketOut(Header(PACKET_OUT, 24, xid), bufferId, inPort, 8), Output(PORT_FLOOD, 0));
    hide Hear, DecodeAction, At;
    HearsEmission(FloodMsg(xid, bufferId, inPort), xid, bufferId, inPort, 0xfffb, 0);
  }

  // ----- Does the rule match the frame it was made for? -----

  /** Exactly when the installed key is the key the switch extracts from the frame itself. */
  predicate FaithfulFrame(f: seq<byte>) {
    if EthType(f) == TYPE_ARP then At(f, 21) == 0
    else
      && At(f, 15) < 4
      && if At(f, 23) == PROTO_ICMP then
           Fragment(f) || Be16(f, TransportAt(f)) == 0
         else if Fragment(f) then
           Be32(f, 34) == 0
         else
           TransportAt(f) == 34 || Be32(f, TransportAt(f)) == Be32(f, 34)
  }

  lemma RuleMatchesOwnFrameIff(hosts: seq<Host>, cbench: bool, inPort: u16, f: seq<byte>)
    requires Decide(hosts, cbench, inPort, f).Install?
    ensures Decide(hosts, cbench, inPort, f).key == SwitchKey(inPort, f) <==> FaithfulFrame(f)
  {
    if EthType(f) == TYPE_ARP {
      ArpRuleMatchesIff(inPort, f);
    } else {
      IpRuleMatchesIff(inPort, f);
    }
    hide RuleKey, SwitchKey, FaithfulFrame, Lookup, EthType;
  }

  lemma ArpKeyIs(inPort: u16, f: seq<byte>)
    requires EthType(f) == TYPE_ARP
    ensures RuleKey(inPort, f).nwProto == 0
  {
    assert ArpOpOnWire(f) == 0;
  }

  /** The two ARP keys differ in the protocol field at most. */
  lemma ArpRuleMatchesIff(inPort: u16, f: seq<byte>)
    requires EthType(f) == TYPE_ARP
    ensures RuleKey(inPort, f) == SwitchKey(inPort, f) <==> At(f, 21) == 0
  {
    ArpKeyIs(inPort, f);
    assert SwitchKey(inPort, f) == RuleKey(inPort, f).(nwProto := At(f, 21)) by {
      hide ArpOpOnWire, Be16, Be32, At, MacAt;
      assert MatchType(f) == TYPE_ARP && NetworkAt(f) == 14;
    }
    hide RuleKey, SwitchKey;
  }

  /** A rule made for an ARP request or reply never matches the frame it was made for... */
  lemma ArpRuleMisses(hosts: seq<Host>, cbench: bool, inPort: u16, f: seq<byte>)
    requires EthType(f) == TYPE_ARP && (Be16(f, 20) == 1 || Be16(f, 20) == 2)
    requires Decide(hosts, cbench, inPort, f).Install?
    ensures Decide(hosts, cbench, inPort, f).key.nwProto == 0
    ensures Decide(hosts, cbench, inPort, f).key != SwitchKey(inPort, f)
  {
    assert ArpOpOnWire(f) == 0;
    RuleMatchesOwnFrameIff(hosts, cbench, inPort, f);
  }

  /** 02:..:0A answers 02:..:0B's ARP request. */
  const ARP_REPLY: seq<byte> := [2, 0, 0, 0, 0, 11, 2, 0, 0, 0, 0, 10, 8, 6, 0, 1, 8, 0, 6, 4, 0, 2]

  /** ... as when a host that is known is sent an ARP reply. */
  lemma ArpReplyMisses(cbench: bool, b: Host) returns (f: seq<byte>)
    requires b.port != 0 && b.mac == [2, 0, 0, 0, 0, 11]
    ensures EthType(f) == TYPE_ARP && Be16(f, 20) == 2 && Dst(f) == b.mac
    ensures Decide([b], cbench, 1, f).Install? && Decide([b], cbench, 1, f).key != SwitchKey(1, f)
  {
    f := ARP_REPLY;
    assert Dst(f) == b.mac != BROADCAST && EthType(f) == TYPE_ARP && Be16(f, 20) == 2;
    hide RuleKey, SwitchKey, EthType, Be16, Dst;
    ArpRuleMisses([b], cbench, 1, f);
  }

  /** Nor does a rule made for an echo request: a switch takes the ICMP type, 8, for its port. */
  lemma PingRuleMisses(hosts: seq<Host>, cbench: bool, inPort: u16, f: seq<byte>)
    requires EthType(f) == TYPE_IP && At(f, 23) == PROTO_ICMP && !Fragment(f) && At(f, TransportAt(f)) == 8
    requires Decide(hosts, cbench, inPort, f).Install?
    ensures Decide(hosts, cbench, inPort, f).key != SwitchKey(inPort, f)
  {
    hide RuleKey, SwitchKey, TransportAt;
    RuleMatchesOwnFrameIff(hosts, cbench, inPort, f);
  }

  /** 02:..:0A pings 02:..:0B. */
  const PING_REQUEST: seq<byte> :=
    [2, 0, 0, 0, 0, 11, 2, 0, 0, 0, 0, 10, 8, 0, 0x45, 0, 0, 28, 0, 0, 0, 0, 64, 1, 0, 0, 10, 0, 0, 1, 10, 0, 0, 2, 8]

  lemma PingRequestHeader(f: seq<byte>)
    requires f == PING_REQUEST
    ensures EthType(f) == TYPE_IP && At(f, 23) == PROTO_ICMP && At(f, 34) == 8 && Dst(f) == [2, 0, 0, 0, 0, 11]
  {
  }

  lemma PingRequestWhole(f: seq<byte>)
    requires f == PING_REQUEST && EthType(f) == TYPE_IP
    ensures !Fragment(f) && TransportAt(f) == 34
  {
    hide EthType;
    assert NetworkAt(f) == 14 && At(f, 14) == 0x45 && At(f, 20) == 0 && At(f, 21) == 0;
  }

  lemma PingRequestMisses(cbench: bool, b: Host) returns (f: seq<byte>)
    requires b.port != 0 && b.mac == [2, 0, 0, 0, 0, 11]
    ensures EthType(f) == TYPE_IP && At(f, 23) == PROTO_ICMP && At(f, 34) == 8 && Dst(f) == b.mac
    ensures Decide([b], cbench, 1, f).Install? && Decide([b], cbench, 1, f).key != SwitchKey(1, f)
  {
    hide RuleKey, SwitchKey, EthType, Dst, TransportAt, Fragment, At;
    f := PING_REQUEST;
    PingRequestHeader(f);
    PingRequestWhole(f);
    PingRuleMisses([b], cbench, 1, f);
  }

  lemma IpRuleMatchesIff(inPort: u16, f: seq<byte>)
    requires EthType(f) == TYPE_IP && Ruled(At(f, 23))
    ensures RuleKey(inPort, f) == SwitchKey(inPort, f) <==> FaithfulFrame(f)
  {
    assert At(f, 15) / 4 * 4 == 0 <==> At(f, 15) < 4;
    var k, w := RuleKey(inPort, f), SwitchKey(inPort, f);
    assert k == w <==> w.nwTos == 0 && k.tpSrc == w.tpSrc && k.tpDst == w.tpDst;
  }

  /** An unfragmented, ToS-0 TCP or UDP frame with a 20-octet IP header. */
  predicate PlainTransport(f: seq<byte>) {
    && Be16(f, 12) == 0x0800 && (At(f, 23) == 6 || At(f, 23) == 17)
    && At(f, 14) % 16 == 5 && At(f, 15) == 0 && !Fragment(f)
  }

  lemma PlainTransportKey(inPort: u16, f: seq<byte>)
    requires PlainTransport(f)
    ensures RuleKey(inPort, f) == SwitchKey(inPort, f)
  {
    IpRuleMatchesIff(inPort, f);
  }

  /** For such a frame with a known destination, the octets sent decode to the frame's own
      12-tuple and the learned port. */
  lemma TransportRuleFidelity(hosts: seq<Host>, cbench: bool, inPort: u16, f: seq<byte>, xid: u32, bufferId: u32)
    requires PlainTransport(f) && Lookup(hosts, Dst(f)) != 0
    ensures |Emit(Decide(hosts, cbench, inPort, f), xid, bufferId, inPort)| == 1
    ensures var m := Emit(Decide(hosts, cbench, inPort, f), xid, bufferId, inPort)[0];
      Hear(m) == Rule(xid, SwitchKey(inPort, f), 60, bufferId, Lookup(hosts, Dst(f)))
  {
    PlainTransportKey(inPort, f);
    RuleMsgDecodes(SwitchKey(inPort, f), Lookup(hosts, Dst(f)), xid, bufferId);
  }

  // ----- A packet-in carries only the head of a buffered frame -----

  /** Octets of the frame that learning and deciding read; TCP and UDP ports count whether or not
      the destination turns out to be known. */
  function HeadNeeds(f: seq<byte>): (n: nat)
    ensures 14 <= n <= 42
  {
    if EthType(f) == TYPE_ARP then 42
    else if EthType(f) == TYPE_IP then
      if At(f, 23) == PROTO_TCP || At(f, 23) == PROTO_UDP then 38 else 34
    else 14
  }

  predicate SameHead(f: seq<byte>, g: seq<byte>) {
    forall i: nat :: i < HeadNeeds(f) ==> At(f, i) == At(g, i)
  }

  lemma DecisionReadsHead(hosts: seq<Host>, datapath: u64, cbench: bool, inPort: u16, f: seq<byte>, g: seq<byte>)
    requires SameHead(f, g)
    ensures Learn(hosts, datapath, inPort, f) == Learn(hosts, datapath, inPort, g)
    ensures Decide(hosts, cbench, inPort, f) == Decide(hosts, cbench, inPort, g)
  {
    assert EthType(f) == EthType(g) && Src(f) == Src(g) && Dst(f) == Dst(g);
    if EthType(f) == TYPE_ARP {
      assert Be16(f, 20) == Be16(g, 20) && Be32(f, 28) == Be32(g, 28) && Be32(f, 38) == Be32(g, 38);
      assert RuleKey(inPort, f) == RuleKey(inPort, g);
    } else if EthType(f) == TYPE_IP {
      assert At(f, 23) == At(g, 23) && Be32(f, 26) == Be32(g, 26) && Be32(f, 30) == Be32(g, 30);
      if At(f, 23) == PROTO_TCP || At(f, 23) == PROTO_UDP {
        assert Be16(f, 34) == Be16(g, 34) && Be16(f, 36) == Be16(g, 36);
      }
      assert Ruled(At(f, 23)) ==> RuleKey(inPort, f) == RuleKey(inPort, g);
    }
  }
}
