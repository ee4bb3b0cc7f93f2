/** The older controller of ANIv1: its packet-in handler, with its inline field writes, proved
    against its own decisions, and exactly when the later controller sends the same octets.
    ANIv1 keeps its host table and its buffers in globals of the same types, so its handler is
    written over the same class. */
module Legacy {
  import opened Bytes
  import opened OpenFlow
  import opened Matching
  import opened Learning
  import opened Com
  import opened ObjectLists
  import opened Handlers
  import opened Controllers
  import opened Exchange
  import opened Peer
  import Anim
  import Protocol

  /** The match fields as ANIv1 stores them: an ARP operation is narrowed to 8 bits and stored as
      it is. */
  function OldKey(inPort: u16, f: seq<byte>): Key {
    if EthType(f) == TYPE_ARP then
      Key(inPort, Src(f), Dst(f), VLAN_NONE, 0, TYPE_ARP, 0, Be16(f, 20) % 0x100, Be32(f, 28), Be32(f, 38), 0, 0)
    else if At(f, 23) == PROTO_ICMP then
      Key(inPort, Src(f), Dst(f), VLAN_NONE, 0, TYPE_IP, 0, PROTO_ICMP, Be32(f, 26), Be32(f, 30), 0, 0)
    else
      Key(inPort, Src(f), Dst(f), VLAN_NONE, 0, TYPE_IP, 0, At(f, 23), Be32(f, 26), Be32(f, 30),
          Be16(f, 34), Be16(f, 36))
  }

  /** A rule is made whether or not the destination is known: then its output port is 0. */
  function OldDecide(hosts: seq<Host>, inPort: u16, f: seq<byte>): Decision {
    if EthType(f) == TYPE_IP6 then Flood
    else if EthType(f) == TYPE_ARP then
      if Dst(f) == BROADCAST then Flood else Install(OldKey(inPort, f), Lookup(hosts, Dst(f)))
    else if EthType(f) == TYPE_IP then
      if Ruled(At(f, 23)) then Install(OldKey(inPort, f), Lookup(hosts, Dst(f)))
      else if At(f, 23) == PROTO_UNKNOWN then Flood
      else Ignore
    else Ignore
  }

  function OldPacketInState(st: State, s: seq<byte>, pos: nat): State {
    var xid, bufferId, inPort, f := Be32(s, pos + 4), Be32(s, pos + 8), Be16(s, pos + 14), From(s, pos + 18);
    var hosts := Learn(st.hosts, st.switchId, inPort, f);
    st.(xid := xid, hosts := hosts, sent := st.sent + Emit(OldDecide(hosts, inPort, f), xid, bufferId, inPort))
  }

  /** What the switch hears of ANIv1 after a packet-in: a rule for a unicast ARP frame, and for
      ICMP, TCP and UDP, whether or not the destination is in the table; `port` is 0 when it is
      not. */
  function OldAnswer(xid: u32, bufferId: u32, inPort: u16, f: seq<byte>, port: u16): seq<Heard> {
    var etherType, proto := Be16(f, 12), At(f, 23);
    var flood := [HeardFlood(xid, bufferId, inPort)];
    if etherType == 0x86dd then flood
    else if etherType == 0x0806 then
      if MacAt(f, 0) == [255, 255, 255, 255, 255, 255] then flood
      else
        var rule := HeardArpRule(xid, bufferId, inPort, f, port);
        [rule.(key := rule.key.(nwProto := At(f, 21)))]
    else if etherType == 0x0800 then
      if proto == 1 || proto == 6 || proto == 17 then [HeardIpRule(xid, bufferId, inPort, f, port)]
      else if proto == 255 then flood
      else []
    else []
  }

  lemma OldDecideSays(hosts: seq<Host>, inPort: u16, f: seq<byte>, xid: u32, bufferId: u32)
    ensures OldAnswer(xid, bufferId, inPort, f, Lookup(hosts, MacAt(f, 0))) ==
      match OldDecide(hosts, inPort, f)
      case Ignore => []
      case Flood => [HeardFlood(xid, bufferId, inPort)]
      case Install(key, port) => [Rule(xid, key, 60, bufferId, port)]
  {
    LowOctet(f, 20);
    hide Lookup, At, Be16, Be32, MacAt;
  }

  /** The whole effect of ANIv1's handler, as the switch hears it. */
  lemma OldPacketInEffect(st: State, s: seq<byte>, pos: nat)
    ensures var after, f := OldPacketInState(st, s, pos), From(s, pos + 18);
      var xid, bufferId, inPort := Be32(s, pos + 4), Be32(s, pos + 8), Be16(s, pos + 14);
      && after == st.(xid := xid, hosts := after.hosts, sent := after.sent)
      && after.hosts == Learned(st.hosts, st.switchId, inPort, f)
      && Said(st.sent, after.sent, OldAnswer(xid, bufferId, inPort, f, Lookup(after.hosts, MacAt(f, 0))))
  {
    hide Learn, Learned, OldDecide, Emit, OldAnswer, Said, Lookup;
    var xid, bufferId, inPort, f := Be32(s, pos + 4), Be32(s, pos + 8), Be16(s, pos + 14), From(s, pos + 18);
    var hosts := Learn(st.hosts, st.switchId, inPort, f);
    LearnedIs(st.hosts, st.switchId, inPort, f);
    OldDecideSays(hosts, inPort, f, xid, bufferId);
    EmitSays(st.sent, OldDecide(hosts, inPort, f), xid, bufferId, inPort);
  }

  // ----- When the two versions answer alike -----

  /** What the caller can see in the frame and the table. */
  predicate DecidesAlike(hosts: seq<Host>, cbench: bool, f: seq<byte>) {
    if EthType(f) == TYPE_IP6 then cbench
    else if EthType(f) == TYPE_ARP then Dst(f) == BROADCAST || (Lookup(hosts, Dst(f)) != 0 && At(f, 21) == 0)
    else if EthType(f) == TYPE_IP then Ruled(At(f, 23)) ==> Lookup(hosts, Dst(f)) != 0
    else true
  }

  /** The later version also answers the echo requests of link discovery. */
  predicate SameAnswer(hosts: seq<Host>, cbench: bool, f: seq<byte>) {
    if EthType(f) == TYPE_LLDP then At(f, 14) != Anim.ANIM_ECHO_REQUEST else DecidesAlike(hosts, cbench, f)
  }

  lemma ArpKeysAgreeIff(inPort: u16, f: seq<byte>)
    requires EthType(f) == TYPE_ARP
    ensures OldKey(inPort, f) == RuleKey(inPort, f) <==> At(f, 21) == 0
  {
    ArpKeyIs(inPort, f);
    OldArpKeyIs(inPort, f);
    hide OldKey, RuleKey, EthType, At;
  }

  lemma OldArpKeyIs(inPort: u16, f: seq<byte>)
    requires EthType(f) == TYPE_ARP
    ensures OldKey(inPort, f) == RuleKey(inPort, f).(nwProto := At(f, 21))
  {
    LowOctet(f, 20);
    hide Be16, Be32, MacAt, At, EthType, ArpOpOnWire;
  }

  lemma LowOctet(f: seq<byte>, i: nat)
    ensures Be16(f, i) % 0x100 == At(f, i + 1)
  {
  }

  lemma IpKeysAgree(inPort: u16, f: seq<byte>)
    requires EthType(f) == TYPE_IP && Ruled(At(f, 23))
    ensures OldKey(inPort, f) == RuleKey(inPort, f)
  {
  }

  lemma DecidesAlikeIff(hosts: seq<Host>, cbench: bool, inPort: u16, f: seq<byte>)
    ensures OldDecide(hosts, inPort, f) == Decide(hosts, cbench, inPort, f) <==> DecidesAlike(hosts, cbench, f)
  {
    hide OldKey, RuleKey, Lookup, Dst, At, EthType;
    if EthType(f) == TYPE_ARP {
      ArpKeysAgreeIff(inPort, f);
    } else if EthType(f) == TYPE_IP && Ruled(At(f, 23)) {
      IpKeysAgree(inPort, f);
    }
  }

  /** Different decisions are different octets on the wire. */
  lemma EmitIsInjective(d: Decision, e: Decision, xid: u32, bufferId: u32, inPort: u16)
    requires Emit(d, xid, bufferId, inPort) == Emit(e, xid, bufferId, inPort)
    ensures d == e
  {
    hide FloodMsg, RuleMsg;
    if d.Flood? || e.Flood? {
      FloodMsgDecodes(xid, bufferId, inPort);
    }
    if d.Install? {
      RuleMsgDecodes(d.key, d.port, xid, bufferId);
    }
    if e.Install? {
      RuleMsgDecodes(e.key, e.port, xid, bufferId);
    }
  }

  lemma SameSuffix<T>(a: seq<T>, b: seq<T>, c: seq<T>)
    ensures a + b == a + c <==> b == c
  {
    assert (a + b)[|a|..] == b && (a + c)[|a|..] == c;
  }

  /** The two packet-in handlers have sent the same octets, for any packet-in at all, exactly when
      `SameAnswer` holds of the table after learning. */
  lemma SameOctetsIff(st: State, cbench: bool, s: seq<byte>, pos: nat)
    ensures var f := From(s, pos + 18);
      var hosts := Learn(st.hosts, st.switchId, Be16(s, pos + 14), f);
      OldPacketInState(st, s, pos).sent == PacketInState(st, cbench, s, pos).sent <==> SameAnswer(hosts, cbench, f)
  {
    hide Learn, Decide, OldDecide, Emit, DecidesAlike;
    var xid, bufferId, inPort, f := Be32(s, pos + 4), Be32(s, pos + 8), Be16(s, pos + 14), From(s, pos + 18);
    var hosts := Learn(st.hosts, st.switchId, inPort, f);
    var was := Emit(OldDecide(hosts, inPort, f), xid, bufferId, inPort);
    if EthType(f) == TYPE_LLDP {
      OldIgnoresLldp(hosts, inPort, f, xid, bufferId);
      assert (Anim.Parse(f) == Protocol.Some(Protocol.EchoRequest)) <==> At(f, 14) == Anim.ANIM_ECHO_REQUEST;
      SameSuffix(st.sent, was, Answers(inPort, Anim.Parse(f)));
    } else {
      var now := Emit(Decide(hosts, cbench, inPort, f), xid, bufferId, inPort);
      SameSuffix(st.sent, was, now);
      DecidesAlikeIff(hosts, cbench, inPort, f);
      if was == now {
        EmitIsInjective(OldDecide(hosts, inPort, f), Decide(hosts, cbench, inPort, f), xid, bufferId, inPort);
      }
    }
  }

  lemma OldIgnoresLldp(hosts: seq<Host>, inPort: u16, f: seq<byte>, xid: u32, bufferId: u32)
    requires EthType(f) == TYPE_LLDP
    ensures Emit(OldDecide(hosts, inPort, f), xid, bufferId, inPort) == []
  {
  }

  /** For ICMP, TCP and UDP with a known destination the refactored handler sends, after the same
      messages, the same one message of 80 octets. */
  lemma RefactorPreservesRule(st: State, cbench: bool, s: seq<byte>, pos: nat)
    requires var f := From(s, pos + 18);
      EthType(f) == TYPE_IP && Ruled(At(f, 23)) && Lookup(st.hosts, Dst(f)) != 0
    ensures var was, now := OldPacketInState(st, s, pos).sent, PacketInState(st, cbench, s, pos).sent;
      was == now && |now| == |st.sent| + 1 && now[..|st.sent|] == st.sent && |now[|st.sent|]| == 80
  {
    hide RuleMsg, RuleKey, OldKey;
    SameOctetsIff(st, cbench, s, pos);
    var inPort, f := Be16(s, pos + 14), From(s, pos + 18);
    RuleMsgDecodes(RuleKey(inPort, f), Lookup(st.hosts, Dst(f)), Be32(s, pos + 4), Be32(s, pos + 8));
  }

  // ----- The inline writes -----

  /** The fields stored before `cookie`. */
  predicate EarlyField(j: int) {
    0 <= j < 29 || 30 <= j < 32 || j == 33 || 36 <= j < 44
  }

  method WriteEarly(buf: array<byte>, m: FlowMod)
    requires 72 <= buf.Length && m.header == Header(FLOW_MOD, 80, m.header.xid)
    modifies buf
    ensures forall j :: 0 <= j < buf.Length ==> buf[j] == if EarlyField(j) then FlowModByte(m, j) else old(buf[j])
  {
    var length: u16 := 80;
    Store8(buf, 0, VERSION);
    Store16(buf, 2, Htons(length));
    Store8(buf, 1, FLOW_MOD);
    Store32(buf, 4, Htonl(m.header.xid));
    SwapTwice16(length);
    SwapTwice32(m.header.xid);
    WriteEarlyMatch(buf, m);
  }

  method WriteEarlyMatch(buf: array<byte>, m: FlowMod)
    requires 72 <= buf.Length
    modifies buf
    ensures forall j :: 0 <= j < buf.Length ==>
      buf[j] == if EarlyField(j) && 8 <= j then FlowModByte(m, j) else old(buf[j])
  {
    var k := m.key;
    Store16(buf, 12, Htons(k.inPort));
    Store32(buf, 8, Htonl(m.wildcards));
    StoreMac(buf, 14, k.dlSrc);
    StoreMac(buf, 20, k.dlDst);
    Store16(buf, 26, Htons(k.dlVlan));
    Store8(buf, 28, k.dlVlanPcp);
    Store8(buf, 33, k.nwProto);
    Store32(buf, 40, Htonl(k.nwDst));
    Store32(buf, 36, Htonl(k.nwSrc));
    Store16(buf, 30, Htons(k.dlType));
    SwapTwice16(k.inPort);
    SwapTwice32(m.wildcards);
    SwapTwice16(k.dlVlan);
    SwapTwice32(k.nwDst);
    SwapTwice32(k.nwSrc);
    SwapTwice16(k.dlType);
  }

  method WriteLate(buf: array<byte>, m: FlowMod)
    requires 72 <= buf.Length
    modifies buf
    ensures forall j :: 0 <= j < buf.Length ==>
      buf[j] == if 0 <= j < 72 && !EarlyField(j) then FlowModByte(m, j) else old(buf[j])
  {
    WriteLateFields(buf, m);
    WriteLateMatch(buf, m);
  }

  method WriteLateFields(buf: array<byte>, m: FlowMod)
    requires 72 <= buf.Length
    modifies buf
    ensures forall j :: 0 <= j < buf.Length ==>
      buf[j] == if 48 <= j < 72 then FlowModByte(m, j) else old(buf[j])
  {
    Store64(buf, 48, Htobe64(m.cookie));
    Store16(buf, 56, Htons(m.command));
    Store32(buf, 64, Htonl(m.bufferId));
    Store16(buf, 58, Htons(m.idle));
    Store16(buf, 60, Htons(m.hard));
    Store16(buf, 62, Htons(m.priority));
    Store16(buf, 68, Htons(m.outPort));
    Store16(buf, 70, Htons(m.flags));
    SwapTwice64(m.cookie);
    SwapTwice16(m.command);
    SwapTwice32(m.bufferId);
    SwapTwice16(m.idle);
    SwapTwice16(m.hard);
    SwapTwice16(m.priority);
    SwapTwice16(m.outPort);
    SwapTwice16(m.flags);
  }

  method WriteLateMatch(buf: array<byte>, m: FlowMod)
    requires 72 <= buf.Length
    modifies buf
    ensures forall j :: 0 <= j < buf.Length ==>
      buf[j] == if 0 <= j < 48 && !EarlyField(j) then FlowModByte(m, j) else old(buf[j])
  {
    Store8(buf, 32, m.key.nwTos);
    Store8(buf, 29, 0);
    Store8(buf, 34, 0);
    Store8(buf, 35, 0);
    Store16(buf, 46, Htons(m.key.tpDst));
    Store16(buf, 44, Htons(m.key.tpSrc));
    SwapTwice16(m.key.tpDst);
    SwapTwice16(m.key.tpSrc);
  }

  method WriteOutput(buf: array<byte>, off: nat, port: u16)
    requires off + 8 <= buf.Length
    modifies buf
    ensures forall j :: off <= j < off + 8 ==> buf[j] == OutputByte(Output(port, 0), j - off)
    ensures OnlyWrote(buf, off, 8)
  {
    var z: u16, eight: u16 := 0, 8;
    Store16(buf, off, Htons(z));
    Store16(buf, off + 6, Htons(z));
    Store16(buf, off + 2, Htons(eight));
    Store16(buf, off + 4, Htons(port));
    SwapTwice16(z);
    SwapTwice16(eight);
    SwapTwice16(port);
  }

  /** The three flow-mod blocks differ in their arguments alone. */
  method SendOldRule(c: Controller, bufferId: u32, key: Key, port: u16)
    requires c.writeBuffer.Length == WRITE_BUFFER_SIZE
    modifies c.writeBuffer, c`sent
    ensures c.sent == old(c.sent) + [RuleMsg(key, port, c.xid, bufferId)]
  {
    var buf := c.writeBuffer;
    Clear(buf);
    var m := RuleMod(c.xid, bufferId, key, IDLE_TIMEOUT);
    WriteEarly(buf, m);
    WriteLate(buf, m);
    WriteOutput(buf, 72, port);
    assert buf[..80] == RuleMsg(key, port, c.xid, bufferId);
    c.sent := c.sent + [buf[..80]];
  }

  /** The packet-out blocks: the length is stored last. */
  method WriteFlood(buf: array<byte>, m: PacketOut)
    requires 24 <= buf.Length && m.header == Header(PACKET_OUT, 24, m.header.xid) && m.actionsLen == 8
    modifies buf
    ensures forall j :: 0 <= j < 16 ==> buf[j] == PacketOutByte(m, j)
    ensures forall j :: 16 <= j < 24 ==> buf[j] == OutputByte(Output(PORT_FLOOD, 0), j - 16)
  {
    var length: u16, eight: u16 := 24, 8;
    Store8(buf, 0, VERSION);
    Store8(buf, 1, PACKET_OUT);
    Store32(buf, 4, Htonl(m.header.xid));
    Store32(buf, 8, Htonl(m.bufferId));
    Store16(buf, 12, Htons(m.inPort));
    Store16(buf, 14, Htons(eight));
    WriteOutput(buf, 16, PORT_FLOOD);
    Store16(buf, 2, Htons(length));
    SwapTwice32(m.header.xid);
    SwapTwice32(m.bufferId);
    SwapTwice16(m.inPort);
    SwapTwice16(eight);
    SwapTwice16(length);
  }

  method SendOldFlood(c: Controller, bufferId: u32, inPort: u16)
    requires c.writeBuffer.Length == WRITE_BUFFER_SIZE
    modifies c.writeBuffer, c`sent
    ensures c.sent == old(c.sent) + [FloodMsg(c.xid, bufferId, inPort)]
  {
    var buf := c.writeBuffer;
    Clear(buf);
    WriteFlood(buf, PacketOut(Header(PACKET_OUT, 24, c.xid), bufferId, inPort, 8));
    assert buf[..24] == FloodMsg(c.xid, bufferId, inPort);
    c.sent := c.sent + [buf[..24]];
  }

  // ----- The handler -----

  method OldArpKey(c: Controller, pos: nat, inPort: u16, ghost f: seq<byte>) returns (key: Key)
    requires c.Mirrors() && pos + 60 <= c.readBuffer.Length
    requires f == From(c.input, pos + 18) && EthType(f) == TYPE_ARP
    ensures key == OldKey(inPort, f)
  {
    var op: byte := c.Load16(pos + 38) % 0x100;
    key := Key(inPort, c.LoadMac(pos + 24), c.LoadMac(pos + 18), VLAN_NONE, 0, TYPE_ARP, 0, op,
               c.Load32(pos + 46), c.Load32(pos + 56), 0, 0);
  }

  method OldIpKey(c: Controller, pos: nat, inPort: u16, ghost f: seq<byte>) returns (key: Key)
    requires c.Mirrors() && pos + 18 + HeadNeeds(f) <= c.readBuffer.Length
    requires f == From(c.input, pos + 18) && EthType(f) == TYPE_IP
    ensures Ruled(key.nwProto) ==> key == OldKey(inPort, f)
    ensures key.dlDst == Dst(f) && key.nwProto == At(f, 23)
  {
    var proto := c.readBuffer[pos + 41];
    assert proto == At(f, 23);
    var tpSrc, tpDst := 0, 0;
    if proto == PROTO_TCP || proto == PROTO_UDP {
      tpSrc, tpDst := c.Load16(pos + 52), c.Load16(pos + 54);
    }
    key := Key(inPort, c.LoadMac(pos + 24), c.LoadMac(pos + 18), VLAN_NONE, 0, TYPE_IP, 0, proto,
               c.Load32(pos + 44), c.Load32(pos + 48), tpSrc, tpDst);
  }

  /** Learn, then flood a broadcast or make a rule. */
  method OldArp(c: Controller, pos: nat, bufferId: u32, inPort: u16, ghost f: seq<byte>)
    requires c.hosts.Valid() && c.writeBuffer.Length == WRITE_BUFFER_SIZE && c.Mirrors()
    requires pos + 60 <= c.readBuffer.Length && f == From(c.input, pos + 18) && EthType(f) == TYPE_ARP
    modifies c.hosts, c.hosts.nodes, c.writeBuffer, c`sent
    ensures c.hosts.Valid() && c.hosts.Grown()
    ensures c.hosts.contents == Learn(old(c.hosts.contents), c.switchId, inPort, f)
    ensures c.sent == old(c.sent) + Emit(OldDecide(c.hosts.contents, inPort, f), c.xid, bufferId, inPort)
  {
    hide ObjectList.Valid, Controller.Mirrors, EthType;
    var key := OldArpKey(c, pos, inPort, f);
    c.LearnSource(key.dlSrc, inPort, key.nwSrc);
    if key.dlDst == BROADCAST {
      SendOldFlood(c, bufferId, inPort);
    } else {
      var port, _ := c.FindPort(key.dlDst);
      SendOldRule(c, bufferId, key, port);
    }
  }

  method OldIp(c: Controller, pos: nat, bufferId: u32, inPort: u16, ghost f: seq<byte>)
    requires c.hosts.Valid() && c.writeBuffer.Length == WRITE_BUFFER_SIZE && c.Mirrors()
    requires pos + 18 + HeadNeeds(f) <= c.readBuffer.Length && f == From(c.input, pos + 18) && EthType(f) == TYPE_IP
    modifies c.hosts`current, c.writeBuffer, c`sent
    ensures c.sent == old(c.sent) + Emit(OldDecide(c.hosts.contents, inPort, f), c.xid, bufferId, inPort)
  {
    var key := OldIpKey(c, pos, inPort, f);
    var port, _ := c.FindPort(key.dlDst);
    if Ruled(key.nwProto) {
      SendOldRule(c, bufferId, key, port);
    } else if key.nwProto == PROTO_UNKNOWN {
      SendOldFlood(c, bufferId, inPort);
    }
  }

  method OldForward(c: Controller, pos: nat, ghost f: seq<byte>)
    requires c.hosts.Valid() && c.writeBuffer.Length == WRITE_BUFFER_SIZE
    requires c.Mirrors() && c.readBuffer != c.writeBuffer
    requires pos + 18 + HeadNeeds(f) <= c.readBuffer.Length && f == From(c.input, pos + 18)
    modifies c`xid, c`sent, c.writeBuffer, c.hosts, c.hosts.nodes
    ensures c.hosts.Valid() && c.hosts.Grown() && c.xid == Be32(c.input, pos + 4)
    ensures c.hosts.contents == Learn(old(c.hosts.contents), c.switchId, Be16(c.input, pos + 14), f)
    ensures c.sent == old(c.sent) + Emit(OldDecide(c.hosts.contents, Be16(c.input, pos + 14), f),
                                         c.xid, Be32(c.input, pos + 8), Be16(c.input, pos + 14))
  {
    hide ObjectList.Valid;
    var bufferId, inPort, etherType := c.Load32(pos + 8), c.Load16(pos + 14), c.Load16(pos + 30);
    assert etherType == EthType(f);
    c.xid := c.Load32(pos + 4);
    if etherType == TYPE_IP6 {
      SendOldFlood(c, bufferId, inPort);
    } else if etherType == TYPE_ARP {
      OldArp(c, pos, bufferId, inPort, f);
    } else if etherType == TYPE_IP {
      OldIp(c, pos, bufferId, inPort, f);
    }
  }

  /** ANIv1's `action_packout`: the whole new state, for every packet-in. */
  method OldActionPackout(c: Controller, pos: nat)
    requires c.Valid() && pos + 18 + HeadNeeds(From(c.input, pos + 18)) <= READ_BUFFER_SIZE
    modifies c`xid, c`sent, c.writeBuffer, c.hosts, c.hosts.nodes
    ensures c.Valid() && c.Abs() == OldPacketInState(old(c.Abs()), c.input, pos)
  {
    hide Learn, OldDecide, Emit, ObjectList.Valid;
    OldForward(c, pos, From(c.input, pos + 18));
  }
}
