/** The receive thread in the source's form: global tables on `ObjectList`, byte buffers, handlers
    that update them in place, and the receive loop.  (The sharing thread's is in `Sharing`.)

    Each method is proved equal to the function of `Handlers` or `Connection` that specifies it.
    `GetObject` may only be called with a live cursor, so verifying a method proves that it never
    steps from a freed node. */
module Controllers {
  import opened Bytes
  import opened OpenFlow
  import opened Com
  import opened Matching
  import opened Learning
  import opened ObjectLists
  import opened Protocol
  import Anim
  import opened Handlers
  import opened Connection

  const WRITE_BUFFER_SIZE: nat := 10240

  class Controller {
    const cbench: bool
    const hosts: ObjectList<Host>
    const ports: ObjectList<SwitchPort>
    const links: ObjectList<Link>
    const replys: ObjectList<Reply>
    const readBuffer: array<byte>
    const writeBuffer: array<byte>
    var readLen: nat
    var xid: u32
    var switchId: u64
    var noOfPorts: int
    var counter: nat
    var locked: bool
    var sharers: nat
    var sent: seq<seq<byte>>
    /** The octets of the last `recv`. */
    ghost var input: seq<byte>

    /** The read buffer holds the octets received and zeros after them. */
    ghost predicate Mirrors()
      reads this`input, this`readLen, readBuffer
    {
      && readLen == |input| <= readBuffer.Length
      && forall i :: 0 <= i < readBuffer.Length ==> readBuffer[i] == At(input, i)
    }

    /** Cursors of `ports`, `links` and `replys` rest on null between handlers; that of `hosts` may
        be anywhere, even on a freed node. */
    ghost predicate Valid()
      reads this`input, this`readLen, readBuffer
      reads hosts, ports, links, replys, hosts.nodes, ports.nodes, links.nodes, replys.nodes
    {
      && readBuffer.Length == READ_BUFFER_SIZE && writeBuffer.Length == WRITE_BUFFER_SIZE && readBuffer != writeBuffer
      && hosts.Valid() && ports.Valid() && links.Valid() && replys.Valid()
      && ports.current == null && links.current == null && replys.current == null
      && Mirrors()
    }

    ghost function Abs(): State
      reads this, hosts, ports, links, replys, hosts.nodes, ports.nodes, links.nodes, replys.nodes
    {
      State(xid, switchId, noOfPorts, counter, locked, sharers,
            hosts.contents, ports.contents, replys.contents, links.contents, sent)
    }

    /** The tables and buffers are the program's globals: empty lists and zeroed arrays. */
    constructor (cbench: bool, hosts: ObjectList<Host>, ports: ObjectList<SwitchPort>, links: ObjectList<Link>,
                 replys: ObjectList<Reply>, readBuffer: array<byte>, writeBuffer: array<byte>)
      requires hosts.Valid() && ports.Valid() && links.Valid() && replys.Valid()
      requires hosts.nodes == [] && ports.nodes == [] && links.nodes == [] && replys.nodes == []
      requires ports.current == null && links.current == null && replys.current == null
      requires readBuffer.Length == READ_BUFFER_SIZE && writeBuffer.Length == WRITE_BUFFER_SIZE
      requires readBuffer != writeBuffer && forall i :: 0 <= i < readBuffer.Length ==> readBuffer[i] == 0
      ensures Valid()
      ensures Abs() == State(0, 0, -1, 0, false, 0, [], [], [], [], [])
    {
      this.cbench := cbench;
      this.hosts, this.ports, this.links, this.replys := hosts, ports, links, replys;
      this.readBuffer, this.writeBuffer := readBuffer, writeBuffer;
      readLen, xid, switchId, noOfPorts, counter, locked, sharers, sent := 0, 0, 0, -1, 0, false, 0, [];
      input := [];
    }

    // ----- Loads through a struct pointer, already in host order -----

    function Load16(i: nat): (r: u16)
      requires i + 2 <= readBuffer.Length
      reads this`input, this`readLen, readBuffer
      ensures Mirrors() ==> r == Be16(input, i)
    {
      readBuffer[i] as int * 0x100 + readBuffer[i + 1]
    }

    function Load32(i: nat): (r: u32)
      requires i + 4 <= readBuffer.Length
      reads this`input, this`readLen, readBuffer
      ensures Mirrors() ==> r == Be32(input, i)
    {
      Load16(i) * 0x1_0000 + Load16(i + 2)
    }

    function Load64(i: nat): (r: u64)
      requires i + 8 <= readBuffer.Length
      reads this`input, this`readLen, readBuffer
      ensures Mirrors() ==> r == Be64(input, i)
    {
      Load32(i) * 0x1_0000_0000 + Load32(i + 4)
    }

    function LoadMac(i: nat): (r: Mac)
      requires i + 6 <= readBuffer.Length
      reads this`input, this`readLen, readBuffer
      ensures Mirrors() ==> r == MacAt(input, i)
    {
      [readBuffer[i], readBuffer[i + 1], readBuffer[i + 2], readBuffer[i + 3], readBuffer[i + 4], readBuffer[i + 5]]
    }

    // ----- Tables -----

    /** Rewind, then scan for `mac`; the cursor stays where the scan stopped. */
    method ScanFor(mac: Mac) returns (h: Node?<Host>, ghost i: nat)
      requires hosts.Valid()
      modifies hosts`current
      ensures hosts.CursorLive() && h == hosts.current && h == hosts.NodeAt(i)
      ensures i <= |hosts.nodes| && forall j :: 0 <= j < i ==> hosts.nodes[j].p.mac != mac
      ensures if h == null then i == |hosts.nodes| else i < |hosts.nodes| && h.p.mac == mac
    {
      hosts.ListRewind();
      assert hosts.CursorAt(-1);
      h := hosts.GetObject();
      i := 0;
      while h != null
        invariant 0 <= i <= |hosts.nodes| && hosts.CursorLive() && h == hosts.current
        invariant h == hosts.NodeAt(i) && (h == null ==> i == |hosts.nodes|)
        invariant forall j :: 0 <= j < i ==> hosts.nodes[j].p.mac != mac
        decreases |hosts.nodes| - i
      {
        if h.p.mac == mac {
          return;
        }
        assert hosts.CursorAt(i);
        h := hosts.GetObject();
        i := i + 1;
      }
    }

    method FindPort(mac: Mac) returns (port: u16, found: bool)
      requires hosts.Valid()
      modifies hosts`current
      ensures hosts.CursorLive() && (!found ==> hosts.current == null)
      ensures port == Lookup(hosts.contents, mac) && found == Known(hosts.contents, mac)
    {
      ghost var c := hosts.contents;
      var h, i := ScanFor(mac);
      assert Absent(c[..i], mac);
      if h != null {
        LookupFirst(c, mac, i);
        return h.p.port, true;
      }
      assert c[..i] == c;
      LookupUnknown(c, mac);
      return 0, false;
    }

    static predicate Absent(c: seq<Host>, mac: Mac) {
      forall j :: 0 <= j < |c| ==> c[j].mac != mac
    }

    static lemma {:induction false} LookupFirst(c: seq<Host>, mac: Mac, i: nat)
      requires i < |c| && c[i].mac == mac && Absent(c[..i], mac)
      ensures Lookup(c, mac) == c[i].port && Known(c, mac)
    {
      if i == 0 {
      } else {
        assert c[..i][0] == c[0] && c[1..][..i - 1] == c[..i][1..];
        LookupFirst(c[1..], mac, i - 1);
      }
    }

    /** `show_hosts` and `show_ports`: with the cursor on null the whole table is shown, from its
        first entry, and the cursor is left on null. */
    static method Show<T>(table: ObjectList<T>) returns (shown: seq<T>)
      requires table.Valid() && table.current == null
      modifies table`current
      ensures shown == table.contents && table.current == null
    {
      shown := [];
      assert table.CursorAt(-1);
      var p := table.GetObject();
      while p != null
        invariant |shown| <= |table.nodes| && table.CursorLive() && p == table.current
        invariant p == table.NodeAt(|shown|) && (p == null ==> |shown| == |table.nodes|)
        invariant forall j :: 0 <= j < |shown| ==> shown[j] == table.nodes[j].p
        decreases |table.nodes| - |shown|
      {
        assert table.CursorAt(|shown|);
        shown := shown + [p.p];
        p := table.GetObject();
      }
      table.ListRewind();
    }

    /** A source seen for the first time is appended, and the table shown. */
    method LearnSource(src: Mac, inPort: u16, ip: u32)
      requires hosts.Valid()
      modifies hosts, hosts.nodes
      ensures hosts.Valid()
      ensures hosts.contents ==
        if Known(old(hosts.contents), src) then old(hosts.contents)
        else old(hosts.contents) + [Host(switchId, inPort, src, ip)]
      ensures hosts.Grown()
    {
      var _, found := FindPort(src);
      if !found {
        var n := hosts.AddObject(Host(switchId, inPort, src, ip));
        var _ := Show(hosts);
      }
    }

    // ----- Sending -----

    /** `send` of the length written in the message's own header. */
    method Send(ghost msg: seq<byte>)
      requires writeBuffer.Length == WRITE_BUFFER_SIZE && 4 <= |msg| <= WRITE_BUFFER_SIZE
      requires (forall j :: 0 <= j < |msg| ==> writeBuffer[j] == msg[j]) && Be16(msg, 2) == |msg|
      modifies this`sent
      ensures sent == old(sent) + [msg]
    {
      var n := writeBuffer[2] as int * 0x100 + writeBuffer[3];
      assert n == Be16(msg, 2);
      assert writeBuffer[..n] == msg;
      sent := sent + [writeBuffer[..n]];
    }

    method SendFlood(bufferId: u32, inPort: u16)
      requires writeBuffer.Length == WRITE_BUFFER_SIZE
      modifies writeBuffer, this`sent
      ensures sent == old(sent) + [FloodMsg(xid, bufferId, inPort)]
    {
      Clear(writeBuffer);
      EncodePacketOut(writeBuffer, xid, bufferId, inPort, PORT_FLOOD, 0);
      FloodMsgDecodes(xid, bufferId, inPort);
      Send(FloodMsg(xid, bufferId, inPort));
    }

    method SendRule(bufferId: u32, key: Key, port: u16)
      requires writeBuffer.Length == WRITE_BUFFER_SIZE
      modifies writeBuffer, this`sent
      ensures sent == old(sent) + [RuleMsg(key, port, xid, bufferId)]
    {
      Clear(writeBuffer);
      EncodeRule(writeBuffer, xid, bufferId, key, IDLE_TIMEOUT, port);
      RuleMsgDecodes(key, port, xid, bufferId);
      Send(RuleMsg(key, port, xid, bufferId));
    }

    // ----- Packet-in -----

    /** What the ARP branch sends once the source is learned. */
    static function ArpReply(hosts: seq<Host>, key: Key, xid: u32, bufferId: u32): seq<seq<byte>> {
      if key.dlDst == BROADCAST then [FloodMsg(xid, bufferId, key.inPort)]
      else if Lookup(hosts, key.dlDst) != 0 then [RuleMsg(key, Lookup(hosts, key.dlDst), xid, bufferId)]
      else []
    }

    /** Flood a broadcast, or install a rule for a known destination. */
    method AnswerArp(bufferId: u32, key: Key)
      requires hosts.Valid() && writeBuffer.Length == WRITE_BUFFER_SIZE
      modifies hosts`current, writeBuffer, this`sent
      ensures sent == old(sent) + ArpReply(hosts.contents, key, xid, bufferId)
    {
      if key.dlDst == BROADCAST {
        SendFlood(bufferId, key.inPort);
      } else {
        var port, _ := FindPort(key.dlDst);
        if port != 0 {
          SendRule(bufferId, key, port);
        }
      }
    }

    static function IpReply(hosts: seq<Host>, key: Key, xid: u32, bufferId: u32): seq<seq<byte>> {
      if Ruled(key.nwProto) then
        if Lookup(hosts, key.dlDst) != 0 then [RuleMsg(key, Lookup(hosts, key.dlDst), xid, bufferId)] else []
      else if key.nwProto == PROTO_UNKNOWN then [FloodMsg(xid, bufferId, key.inPort)]
      else []
    }

    method AnswerIp(bufferId: u32, key: Key)
      requires hosts.Valid() && writeBuffer.Length == WRITE_BUFFER_SIZE
      modifies hosts`current, writeBuffer, this`sent
      ensures sent == old(sent) + IpReply(hosts.contents, key, xid, bufferId)
    {
      var port, _ := FindPort(key.dlDst);
      if Ruled(key.nwProto) {
        if port != 0 {
          SendRule(bufferId, key, port);
        }
      } else if key.nwProto == PROTO_UNKNOWN {
        SendFlood(bufferId, key.inPort);
      }
    }

    /** The match fields the ARP branch reads; `op` is loaded into 8 bits, swapped as 16 and
        narrowed again on its way into the rule. */
    method ArpKey(pos: nat, inPort: u16, ghost f: seq<byte>) returns (key: Key)
      requires Mirrors() && pos + 60 <= readBuffer.Length
      requires f == From(input, pos + 18) && EthType(f) == TYPE_ARP
      ensures key == RuleKey(inPort, f)
    {
      var op: byte := Load16(pos + 38) % 0x100;
      key := Key(inPort, LoadMac(pos + 24), LoadMac(pos + 18), VLAN_NONE, 0, TYPE_ARP, 0, Htons(op) % 0x100,
                 Load32(pos + 46), Load32(pos + 56), 0, 0);
    }

    /** Ports are loaded for TCP and UDP only; the rest of the key is what every branch looks at. */
    method IpKey(pos: nat, inPort: u16, ghost f: seq<byte>) returns (key: Key)
      requires Mirrors() && pos + 18 + HeadNeeds(f) <= readBuffer.Length
      requires f == From(input, pos + 18) && EthType(f) == TYPE_IP
      ensures Ruled(key.nwProto) ==> key == RuleKey(inPort, f)
      ensures key.inPort == inPort && key.dlDst == Dst(f) && key.nwProto == At(f, 23)
    {
      var proto := readBuffer[pos + 41];
      assert proto == At(f, 23);
      var tpSrc, tpDst := 0, 0;
      if proto == PROTO_TCP || proto == PROTO_UDP {
        tpSrc, tpDst := Load16(pos + 52), Load16(pos + 54);
      }
      key := Key(inPort, LoadMac(pos + 24), LoadMac(pos + 18), VLAN_NONE, 0, TYPE_IP, 0, proto,
                 Load32(pos + 44), Load32(pos + 48), tpSrc, tpDst);
    }

    method LoadAnim(pos: nat, ghost f: seq<byte>) returns (m: Option<Msg>)
      requires Mirrors() && pos + 18 + FrameNeeds(f) <= readBuffer.Length
      requires f == From(input, pos + 18) && EthType(f) == TYPE_LLDP
      ensures m == Anim.Parse(f)
    {
      var kind := readBuffer[pos + 32];
      assert kind == At(f, 14);
      if kind == Anim.ANIM_ECHO_REQUEST {
        m := Some(EchoRequest);
      } else if kind == Anim.ANIM_ECHO_REPLY {
        m := Some(EchoReply);
      } else if kind == Anim.ANIM_NODE {
        m := Some(Node(NodeId(Load64(pos + 36), Load16(pos + 44))));
      } else {
        m := None;
      }
    }

    method RecordReply(inPort: u16)
      requires replys.Valid()
      modifies replys, replys.nodes
      ensures replys.Valid() && replys.current == old(replys.current)
      ensures replys.contents == old(replys.contents) + [Reply(inPort, true)]
      ensures replys.Grown()
    {
      var _ := replys.AddObject(Reply(inPort, true));
    }

    method RecordLink(inPort: u16, id: NodeId)
      requires links.Valid()
      modifies links, links.nodes, this`counter
      ensures links.Valid() && links.current == old(links.current) && counter == 0
      ensures links.contents == old(links.contents) + [Link(NodeId(switchId, inPort), id)]
      ensures links.Grown()
    {
      var _ := links.AddObject(Link(NodeId(switchId, inPort), id));
      counter := 0;
    }

    method SendAnim(port: u16, m: Msg)
      modifies this`sent
      ensures sent == old(sent) + [Anim.AnimMsg(port, m)]
    {
      var msg := Anim.Build(port, m);
      sent := sent + [msg];
    }

    /** The body of the LLDP branch, run under the mutex. */
    method AnswerAnim(inPort: u16, m: Option<Msg>)
      requires replys.Valid() && links.Valid()
      modifies this`counter, this`sent, replys, replys.nodes, links, links.nodes
      ensures replys.Valid() && links.Valid()
      ensures replys.current == old(replys.current) && links.current == old(links.current)
      ensures sent == old(sent) + Answers(inPort, m) && counter == CounterAfter(old(counter), m)
      ensures replys.contents == old(replys.contents) + NewReplys(inPort, m)
      ensures links.contents == old(links.contents) + NewLinks(switchId, inPort, m)
      ensures replys.Grown() && links.Grown()
    {
      match m
      case None =>
      case Some(EchoRequest) => SendAnim(inPort, EchoReply);
      case Some(EchoReply) => RecordReply(inPort);
      case Some(Node(id)) => RecordLink(inPort, id);
    }

    static lemma ArpLearns(hosts: seq<Host>, datapath: u64, inPort: u16, f: seq<byte>, key: Key)
      requires EthType(f) == TYPE_ARP && key == RuleKey(inPort, f)
      ensures Learn(hosts, datapath, inPort, f) ==
        if Known(hosts, key.dlSrc) then hosts else hosts + [Host(datapath, key.inPort, key.dlSrc, key.nwSrc)]
    {
    }

    static lemma ArpReplyIsDecision(hosts: seq<Host>, cbench: bool, inPort: u16, f: seq<byte>, xid: u32, bufferId: u32)
      requires EthType(f) == TYPE_ARP
      ensures ArpReply(hosts, RuleKey(inPort, f), xid, bufferId) ==
        Emit(Decide(hosts, cbench, inPort, f), xid, bufferId, inPort)
    {
    }

    static lemma IpReplyIsDecision(hosts: seq<Host>, cbench: bool, inPort: u16, f: seq<byte>, key: Key,
                                   xid: u32, bufferId: u32)
      requires EthType(f) == TYPE_IP && (Ruled(key.nwProto) ==> key == RuleKey(inPort, f))
      requires key.inPort == inPort && key.dlDst == Dst(f) && key.nwProto == At(f, 23)
      ensures IpReply(hosts, key, xid, bufferId) == Emit(Decide(hosts, cbench, inPort, f), xid, bufferId, inPort)
    {
    }

    method HandleArp(pos: nat, bufferId: u32, inPort: u16, ghost f: seq<byte>)
      requires hosts.Valid() && writeBuffer.Length == WRITE_BUFFER_SIZE && Mirrors() && pos + 60 <= readBuffer.Length
      requires f == From(input, pos + 18) && EthType(f) == TYPE_ARP
      modifies hosts, hosts.nodes, writeBuffer, this`sent
      ensures hosts.Valid()
      ensures hosts.contents == Learn(old(hosts.contents), switchId, inPort, f)
      ensures sent == old(sent) + Emit(Decide(hosts.contents, cbench, inPort, f), xid, bufferId, inPort)
      ensures hosts.Grown()
    {
      hide Learn, Decide, Emit, RuleKey, ArpReply;
      var key := ArpKey(pos, inPort, f);
      ArpLearns(hosts.contents, switchId, inPort, f, key);
      LearnSource(key.dlSrc, key.inPort, key.nwSrc);
      AnswerArp(bufferId, key);
      ArpReplyIsDecision(hosts.contents, cbench, inPort, f, xid, bufferId);
    }

    method HandleIp(pos: nat, bufferId: u32, inPort: u16, ghost f: seq<byte>)
      requires hosts.Valid() && writeBuffer.Length == WRITE_BUFFER_SIZE && Mirrors()
      requires pos + 18 + FrameNeeds(f) <= readBuffer.Length
      requires f == From(input, pos + 18) && EthType(f) == TYPE_IP
      modifies hosts`current, writeBuffer, this`sent
      ensures sent == old(sent) + Emit(Decide(hosts.contents, cbench, inPort, f), xid, bufferId, inPort)
    {
      var key := IpKey(pos, inPort, f);
      AnswerIp(bufferId, key);
      IpReplyIsDecision(hosts.contents, cbench, inPort, f, key, xid, bufferId);
    }

    method HandleIp6(bufferId: u32, inPort: u16, ghost f: seq<byte>)
      requires writeBuffer.Length == WRITE_BUFFER_SIZE && EthType(f) == TYPE_IP6
      modifies writeBuffer, this`sent
      ensures sent == old(sent) + Emit(Decide(hosts.contents, cbench, inPort, f), xid, bufferId, inPort)
    {
      if cbench {
        SendFlood(bufferId, inPort);
      }
    }

    /** Everything but LLDP. */
    method Forward(pos: nat, bufferId: u32, inPort: u16, ghost f: seq<byte>)
      requires hosts.Valid() && writeBuffer.Length == WRITE_BUFFER_SIZE && Mirrors()
      requires pos + 18 + FrameNeeds(f) <= readBuffer.Length
      requires f == From(input, pos + 18) && readBuffer != writeBuffer && EthType(f) != TYPE_LLDP
      modifies hosts, hosts.nodes, writeBuffer, this`sent
      ensures hosts.Valid()
      ensures hosts.contents == Learn(old(hosts.contents), switchId, inPort, f)
      ensures sent == old(sent) + Emit(Decide(hosts.contents, cbench, inPort, f), xid, bufferId, inPort)
      ensures hosts.Grown()
    {
      var etherType := Load16(pos + 30);
      assert etherType == EthType(f);
      if etherType == TYPE_IP6 {
        HandleIp6(bufferId, inPort, f);
      } else if etherType == TYPE_ARP {
        HandleArp(pos, bufferId, inPort, f);
      } else if etherType == TYPE_IP {
        HandleIp(pos, bufferId, inPort, f);
      }
    }

    /** Every branch but LLDP, transaction id included. */
    method PackoutForward(pos: nat, ghost f: seq<byte>)
      requires hosts.Valid() && writeBuffer.Length == WRITE_BUFFER_SIZE && Mirrors()
      requires pos + 18 + FrameNeeds(f) <= readBuffer.Length
      requires readBuffer != writeBuffer && f == From(input, pos + 18) && EthType(f) != TYPE_LLDP
      modifies this`xid, this`sent, writeBuffer, hosts, hosts.nodes
      ensures hosts.Valid() && xid == Be32(input, pos + 4)
      ensures hosts.contents == Learn(old(hosts.contents), switchId, Be16(input, pos + 14), f)
      ensures sent == old(sent) +
        Emit(Decide(hosts.contents, cbench, Be16(input, pos + 14), f), xid, Be32(input, pos + 8), Be16(input, pos + 14))
      ensures hosts.Grown()
    {
      hide Learn, Decide, Emit;
      xid := Load32(pos + 4);
      Forward(pos, Load32(pos + 8), Load16(pos + 14), f);
    }

    method ActionForward(pos: nat, ghost f: seq<byte>)
      requires Valid() && pos + 18 + FrameNeeds(f) <= readBuffer.Length
      requires f == From(input, pos + 18) && EthType(f) != TYPE_LLDP
      modifies this`xid, this`sent, writeBuffer, hosts, hosts.nodes
      ensures Valid() && Abs() == PacketInState(old(Abs()), cbench, input, pos)
      ensures hosts.Grown()
    {
      hide Learn, Decide, Emit, ObjectList.Valid;
      PackoutForward(pos, f);
    }

    method PackoutLldp(pos: nat, ghost f: seq<byte>)
      requires replys.Valid() && links.Valid() && Mirrors()
      requires pos + 18 + FrameNeeds(f) <= readBuffer.Length
      requires f == From(input, pos + 18) && EthType(f) == TYPE_LLDP
      modifies this`xid, this`counter, this`sent, replys, replys.nodes, links, links.nodes
      ensures replys.Valid() && links.Valid() && xid == Be32(input, pos + 4)
      ensures replys.current == old(replys.current) && links.current == old(links.current)
      ensures sent == old(sent) + Answers(Be16(input, pos + 14), Anim.Parse(f))
      ensures counter == CounterAfter(old(counter), Anim.Parse(f))
      ensures replys.contents == old(replys.contents) + NewReplys(Be16(input, pos + 14), Anim.Parse(f))
      ensures links.contents == old(links.contents) + NewLinks(switchId, Be16(input, pos + 14), Anim.Parse(f))
      ensures replys.Grown() && links.Grown()
    {
      hide Answers, NewReplys, NewLinks, CounterAfter, Anim.Parse;
      xid := Load32(pos + 4);
      var m := LoadAnim(pos, f);
      AnswerAnim(Load16(pos + 14), m);
    }

    method ActionLldp(pos: nat, ghost f: seq<byte>)
      requires Valid() && pos + 18 + FrameNeeds(f) <= readBuffer.Length
      requires f == From(input, pos + 18) && EthType(f) == TYPE_LLDP
      modifies this`xid, this`counter, this`sent, replys, replys.nodes, links, links.nodes
      ensures Valid() && Abs() == PacketInState(old(Abs()), cbench, input, pos)
      ensures replys.Grown() && links.Grown()
    {
      hide EthType, Answers, NewReplys, NewLinks, CounterAfter, Anim.Parse, ObjectList.Valid;
      PackoutLldp(pos, f);
    }

    /** `return` at the end of the function is missing in the source; success is taken as 0. */
    method ActionPackout(pos: nat) returns (ret: int)
      requires Valid() && pos + 18 + FrameNeeds(From(input, pos + 18)) <= READ_BUFFER_SIZE
      modifies this`xid, this`counter, this`sent, writeBuffer
      modifies hosts, hosts.nodes, replys, replys.nodes, links, links.nodes
      ensures Valid() && ret == 0 && Abs() == PacketInState(old(Abs()), cbench, input, pos)
      ensures hosts.Grown() && replys.Grown() && links.Grown()
    {
      hide PacketInState, ObjectList.Valid;
      ghost var f := From(input, pos + 18);
      assert Load16(pos + 30) == EthType(f);
      if Load16(pos + 30) == TYPE_LLDP {
        ActionLldp(pos, f);
      } else {
        ActionForward(pos, f);
      }
      return 0;
    }

    // ----- Hello, echo, features -----

    method SendHeader(kind: byte)
      requires writeBuffer.Length == WRITE_BUFFER_SIZE
      modifies this`sent, writeBuffer
      ensures sent == old(sent) + [HeaderMsg(Header(kind, 8, xid))]
    {
      SwapTwice32(xid);
      CreateHeader(writeBuffer, kind, Htonl(xid), 8);
      HeaderRoundTrip(Header(kind, 8, xid));
      Send(HeaderMsg(Header(kind, 8, xid)));
    }

    method Greet(id: u32)
      requires writeBuffer.Length == WRITE_BUFFER_SIZE
      modifies this`xid, this`sent, writeBuffer
      ensures xid == NextXid(id)
      ensures sent == old(sent) + [HeaderMsg(Header(HELLO, 8, id)), HeaderMsg(Header(FEATURES_REQUEST, 8, xid))]
    {
      xid := id;
      Clear(writeBuffer);
      SendHeader(HELLO);
      xid := NextXid(xid);
      SendHeader(FEATURES_REQUEST);
    }

    method ActionHello(pos: nat) returns (ret: int)
      requires Valid() && pos + 8 <= READ_BUFFER_SIZE
      modifies this`xid, this`sent, writeBuffer
      ensures Valid() && ret == 0 && Abs() == HelloState(old(Abs()), input, pos)
    {
      hide ObjectList.Valid;
      Greet(Load32(pos + 4));
      return 0;
    }

    method Echo(id: u32)
      requires writeBuffer.Length == WRITE_BUFFER_SIZE
      modifies this`xid, this`sent, writeBuffer
      ensures xid == id && sent == old(sent) + [HeaderMsg(Header(ECHO_REPLY, 8, id))]
    {
      xid := id;
      Clear(writeBuffer);
      SendHeader(ECHO_REPLY);
    }

    method ActionEcho(pos: nat) returns (ret: int)
      requires Valid() && pos + 8 <= READ_BUFFER_SIZE
      modifies this`xid, this`sent, writeBuffer
      ensures Valid() && ret == 0 && Abs() == EchoState(old(Abs()), input, pos)
    {
      hide ObjectList.Valid;
      Echo(Load32(pos + 4));
      return 0;
    }

    method LoadPort(pos: nat, i: nat) returns (port: SwitchPort)
      requires Mirrors() && pos + 48 * i + 40 <= readBuffer.Length && switchId == Be64(input, pos + 8)
      ensures port == PortAt(input, pos, i)
    {
      var at := pos + 32 + 48 * i;
      port := SwitchPort(switchId, Load16(at), LoadMac(at + 2));
    }

    static lemma PortsAtStep(s: seq<byte>, pos: nat, i: nat)
      ensures PortsAt(s, pos, 0) == []
      ensures PortsAt(s, pos, i + 1) == PortsAt(s, pos, i) + [PortAt(s, pos, i)]
    {
      hide PortAt;
    }

    /** Appends the `n` ports described after the fixed part of a features reply. */
    method AddPorts(pos: nat, n: nat)
      requires ports.Valid() && Mirrors() && pos + 48 * n - 8 <= readBuffer.Length
      requires switchId == Be64(input, pos + 8)
      modifies ports, ports.nodes
      ensures ports.Valid() && ports.current == old(ports.current)
      ensures ports.contents == old(ports.contents) + PortsAt(input, pos, n)
      ensures ports.Grown()
    {
      hide PortsAt, PortAt, Mirrors;
      ghost var before := ports.contents;
      PortsAtStep(input, pos, 0);
      for i := 0 to n
        invariant ports.Valid() && ports.current == old(ports.current)
        invariant ports.contents == before + PortsAt(input, pos, i)
        invariant ports.Grown()
      {
        var port := LoadPort(pos, i);
        assert ports.last != null ==> ports.last in ports.nodes;
        var _ := ports.AddObject(port);
        PortsAtStep(input, pos, i);
      }
    }

    method SendConfig()
      requires writeBuffer.Length == WRITE_BUFFER_SIZE
      modifies this`xid, this`sent, writeBuffer
      ensures xid == NextXid(old(xid)) && sent == old(sent) + [ConfigMsg(xid)]
    {
      Clear(writeBuffer);
      xid := NextXid(xid);
      SwapTwice32(xid);
      SwapTwice16(128);
      CreateSwitchConfig(writeBuffer, Htonl(xid), Htons(0), Htons(128));
      SwitchConfigRoundTrip(SwitchConfig(Header(SET_CONFIG, 12, xid), 0, 128));
      Send(ConfigMsg(xid));
    }

    method TakeFeatures(pos: nat, n: nat)
      requires ports.Valid() && ports.current == null && writeBuffer.Length == WRITE_BUFFER_SIZE
      requires n > 0 && Mirrors() && pos + 48 * n - 8 <= readBuffer.Length
      modifies this`xid, this`noOfPorts, this`switchId, this`sharers, this`sent, writeBuffer, ports, ports.nodes
      ensures ports.Valid() && ports.current == null && noOfPorts == n
      ensures switchId == Be64(input, pos + 8) && sharers == old(sharers) + 1
      ensures ports.contents == old(ports.contents) + PortsAt(input, pos, n)
      ensures xid == NextXid(Be32(input, pos + 4)) && sent == old(sent) + [ConfigMsg(xid)]
      ensures ports.Grown()
    {
      hide PortsAt, NextXid, ConfigMsg;
      xid := Load32(pos + 4);
      noOfPorts := n;
      switchId := Load64(pos + 8);
      sharers := sharers + 1;
      AddPorts(pos, n);
      var _ := Show(ports);
      SendConfig();
    }

    static lemma FeaturesIs(st: State, s: seq<byte>, pos: nat, n: nat)
      requires n == PortCount(s, pos)
      ensures FeaturesState(st, s, pos) ==
        if n == 0 then (st.(xid := Be32(s, pos + 4), noOfPorts := 0, locked := true), false)
        else (st.(xid := NextXid(Be32(s, pos + 4)), noOfPorts := n, switchId := Be64(s, pos + 8),
                  sharers := st.sharers + 1, ports := st.ports + PortsAt(s, pos, n),
                  sent := st.sent + [ConfigMsg(NextXid(Be32(s, pos + 4)))]), true)
    {
    }

    method FailFeatures(pos: nat)
      requires Valid() && pos + 8 <= readBuffer.Length && PortCount(input, pos) == 0
      modifies this`xid, this`locked, this`noOfPorts
      ensures Valid() && locked && (Abs(), false) == FeaturesState(old(Abs()), input, pos)
    {
      hide ObjectList.Valid;
      xid, noOfPorts, locked := Load32(pos + 4), 0, true;
    }

    method PassFeatures(pos: nat, n: nat)
      requires Valid() && n == PortCount(input, pos) > 0 && pos + 48 * n - 8 <= readBuffer.Length
      modifies this`xid, this`noOfPorts, this`switchId, this`sharers, this`sent, writeBuffer, ports, ports.nodes
      ensures Valid() && (Abs(), true) == FeaturesState(old(Abs()), input, pos)
      ensures ports.Grown()
    {
      hide FeaturesState, PortsAt, ConfigMsg, NextXid, ObjectList.Valid;
      FeaturesIs(Abs(), input, pos, n);
      TakeFeatures(pos, n);
    }

    /** With no ports the handler returns without unlocking the mutex; `locked` records that net
        effect, a lock and unlock in one handler having none. */
    method ActionFeaturesReply(pos: nat) returns (ret: int)
      requires Valid() && !locked && At(input, pos + 1) == FEATURES_REPLY && Readable(input, pos)
      modifies this`xid, this`locked, this`noOfPorts, this`switchId, this`sharers, this`sent, writeBuffer
      modifies ports, ports.nodes
      ensures Valid() && ret == if locked then -1 else 0
      ensures (Abs(), !locked) == FeaturesState(old(Abs()), input, pos)
      ensures ports.Grown()
    {
      hide FeaturesState;
      var n := CountOf(Load16(pos + 2));
      if n == 0 {
        FailFeatures(pos);
        return -1;
      }
      PassFeatures(pos, n);
      return 0;
    }

    // ----- The receive loop -----

    predicate CheckOpenflow(pos: nat)
      requires Valid() && (pos == 0 || pos < readLen)
      reads this`input, this`readLen, readBuffer
      reads hosts, ports, links, replys, hosts.nodes, ports.nodes, links.nodes, replys.nodes
      ensures CheckOpenflow(pos) <==> At(input, pos) == VERSION
    {
      readBuffer[pos] == VERSION
    }

    function MessageType(pos: nat): (r: byte)
      requires Valid() && (pos == 0 || Readable(input, pos))
      reads this`input, this`readLen, readBuffer
      reads hosts, ports, links, replys, hosts.nodes, ports.nodes, links.nodes, replys.nodes
      ensures r == At(input, pos + 1)
    {
      readBuffer[pos + 1]
    }

    function MessageSize(pos: nat): (r: nat)
      requires Valid() && Readable(input, pos)
      reads this`input, this`readLen, readBuffer
      reads hosts, ports, links, replys, hosts.nodes, ports.nodes, links.nodes, replys.nodes
      ensures r == Be16(input, pos + 2)
    {
      Load16(pos + 2)
    }

    /** One dispatch by message type.  A handler overwrites the header pointer the source keeps in
        a global; the caller's own copy of the length is what the loop advances by. */
    method HandleMessage(pos: nat) returns (ret: int)
      requires Valid() && !locked && Readable(input, pos)
      modifies this`xid, this`locked, this`noOfPorts, this`switchId, this`sharers, this`counter, this`sent, writeBuffer
      modifies hosts, hosts.nodes, ports, ports.nodes, replys, replys.nodes, links, links.nodes
      ensures Valid() && ret == if locked then -1 else 0
      ensures (Abs(), !locked) == MessageState(old(Abs()), cbench, input, pos)
      ensures hosts.Grown() && ports.Grown() && replys.Grown() && links.Grown()
    {
      hide HelloState, EchoState, FeaturesState, PacketInState, Valid, Mirrors, Abs;
      var kind := MessageType(pos);
      if kind == HELLO {
        ret := ActionHello(pos);
      } else if kind == FEATURES_REPLY {
        ret := ActionFeaturesReply(pos);
      } else if kind == PACKET_IN {
        ret := ActionPackout(pos);
      } else if kind == ECHO_REQUEST {
        ret := ActionEcho(pos);
      } else {
        ret := 0;
      }
    }

    /** The cbench loop: `counter` octets are left at `pos`; each pass advances by the length field. */
    method SendInformationLoop() returns (ret: int)
      requires Valid() && !locked && Runs(input, 0, readLen)
      modifies this`xid, this`locked, this`noOfPorts, this`switchId, this`sharers, this`counter, this`sent, writeBuffer
      modifies hosts, hosts.nodes, ports, ports.nodes, replys, replys.nodes, links, links.nodes
      ensures Valid() && ret == if locked then -1 else 0
      ensures (Abs(), !locked) == LoopState(old(Abs()), cbench, input, 0, readLen)
      ensures hosts.Grown() && ports.Grown() && replys.Grown() && links.Grown()
    {
      hide Valid, Mirrors, MessageState, Readable, Fails, Be16, Abs;
      var pos: nat, left: int := 0, readLen;
      ghost var all := LoopState(Abs(), cbench, input, 0, readLen);
      while left > 0
        invariant pos + left == readLen && Valid() && !locked
        invariant Runs(input, pos, left) && all == LoopState(Abs(), cbench, input, pos, left)
        invariant hosts.Grown() && ports.Grown() && replys.Grown() && links.Grown()
        decreases left
      {
        if !CheckOpenflow(pos) {
          return 0;
        }
        var size := MessageSize(pos);
        FailsIff(Abs(), cbench, input, pos);
        ret := HandleMessage(pos);
        if ret == -1 {
          return -1;
        }
        pos, left := pos + size, left - size;
      }
      return 0;
    }

    /** Outside cbench mode only the first message is looked at. */
    method SendInformationSingle() returns (ret: int)
      requires Valid() && !locked && (At(input, 0) == VERSION ==> Readable(input, 0))
      modifies this`xid, this`locked, this`noOfPorts, this`switchId, this`sharers, this`counter, this`sent, writeBuffer
      modifies hosts, hosts.nodes, ports, ports.nodes, replys, replys.nodes, links, links.nodes
      ensures Valid() && ret == if locked then -1 else 0
      ensures (Abs(), !locked) == SingleState(old(Abs()), cbench, input)
      ensures hosts.Grown() && ports.Grown() && replys.Grown() && links.Grown()
    {
      hide Mirrors, MessageState, HelloState, Readable, Abs, ObjectList.Valid;
      if !CheckOpenflow(0) {
        if MessageType(0) == HELLO {
          ret := ActionHello(0);
        }
        return 0;
      }
      ret := HandleMessage(0);
    }

    method SendInformation() returns (ret: int)
      requires Valid() && !locked && Accepts(cbench, input)
      modifies this`xid, this`locked, this`noOfPorts, this`switchId, this`sharers, this`counter, this`sent, writeBuffer
      modifies hosts, hosts.nodes, ports, ports.nodes, replys, replys.nodes, links, links.nodes
      ensures Valid() && ret == if locked then -1 else 0
      ensures (Abs(), !locked) == InformationState(old(Abs()), cbench, input)
      ensures hosts.Grown() && ports.Grown() && replys.Grown() && links.Grown()
    {
      hide LoopState, SingleState, Runs, Readable, Abs;
      if cbench {
        ret := SendInformationLoop();
      } else {
        ret := SendInformationSingle();
      }
    }

    /** Clear the whole buffer, then receive into its front. */
    static method Fill(buffer: array<byte>, received: seq<byte>)
      requires |received| <= buffer.Length
      modifies buffer
      ensures forall j :: 0 <= j < buffer.Length ==> buffer[j] == At(received, j)
    {
      Clear(buffer);
      for i := 0 to |received|
        invariant forall j :: 0 <= j < buffer.Length ==> buffer[j] == if j < i then received[j] else 0
      {
        buffer[i] := received[i];
      }
    }

    /** `received` is what `recv` delivered: nothing when it failed or the peer closed. */
    method ReadFromSwitch(received: seq<byte>) returns (ret: int)
      requires Valid() && |received| <= READ_BUFFER_SIZE
      modifies readBuffer, this`readLen, this`input
      ensures Valid() && input == received && Abs() == old(Abs())
      ensures ret == if received == [] then -1 else 0
    {
      hide ObjectList.Valid;
      Fill(readBuffer, received);
      readLen, input := |received|, received;
      ret := if readLen < 1 then -1 else 0;
    }

    /** The source frees the tables in one expression after another; no cursor is reset. */
    method FreeHostsAndPorts()
      requires Valid()
      modifies hosts, hosts.nodes, ports, ports.nodes
      ensures Valid() && hosts.nodes == [] && ports.nodes == []
      ensures Abs() == old(Abs()).(hosts := [], ports := [])
    {
      hide Mirrors, ObjectList.Valid;
      var _ := hosts.FreeList();
      var _ := ports.FreeList();
    }

    method FreeLinksAndReplys()
      requires Valid()
      modifies replys, replys.nodes, links, links.nodes
      ensures Valid() && replys.nodes == [] && links.nodes == []
      ensures Abs() == old(Abs()).(links := [], replys := [])
    {
      hide Mirrors, ObjectList.Valid;
      var _ := links.FreeList();
      var _ := replys.FreeList();
    }

    method FreeTables()
      requires Valid()
      modifies hosts, hosts.nodes, ports, ports.nodes, replys, replys.nodes, links, links.nodes
      ensures Valid() && Abs() == Reconnected(old(Abs()))
      ensures hosts.nodes == [] && ports.nodes == [] && replys.nodes == [] && links.nodes == []
    {
      hide Valid;
      FreeHostsAndPorts();
      FreeLinksAndReplys();
    }

    method CommunicateWithSwitch(received: seq<byte>) returns (ret: int)
      requires Valid() && !locked && Accepts(cbench, received)
      modifies this`readLen, this`input, readBuffer
      modifies this`xid, this`locked, this`noOfPorts, this`switchId, this`sharers, this`counter, this`sent, writeBuffer
      modifies hosts, hosts.nodes, ports, ports.nodes, replys, replys.nodes, links, links.nodes
      ensures Valid() && ret == if locked then -1 else 0
      ensures (Abs(), !locked) == CommunicateState(old(Abs()), cbench, received)
      ensures hosts.Grown() && ports.Grown() && replys.Grown() && links.Grown()
    {
      hide InformationState, Runs, Readable, Valid, Abs;
      var status := ReadFromSwitch(received);
      if status == -1 {
        FreeTables();
      }
      ret := SendInformation();
    }

    /** The main loop over any sequence of receptions; the process exits when a handler fails. */
    method Serve(recvs: seq<seq<byte>>)
      requires Valid() && !locked && AllAccepted(cbench, recvs)
      modifies this`readLen, this`input, readBuffer
      modifies this`xid, this`locked, this`noOfPorts, this`switchId, this`sharers, this`counter, this`sent, writeBuffer
      modifies hosts, hosts.nodes, ports, ports.nodes, replys, replys.nodes, links, links.nodes
      ensures Valid() && (Abs(), !locked) == ServeState(old(Abs()), cbench, recvs)
    {
      hide CommunicateState, Accepts, Valid, Abs;
      ghost var all := ServeState(Abs(), cbench, recvs);
      for i := 0 to |recvs|
        invariant Valid() && !locked && AllAccepted(cbench, recvs[i..])
        invariant all == ServeState(Abs(), cbench, recvs[i..])
        invariant hosts.Grown() && ports.Grown() && replys.Grown() && links.Grown()
      {
        assert recvs[i..][0] == recvs[i] && recvs[i..][1..] == recvs[i + 1..];
        var ret := CommunicateWithSwitch(recvs[i]);
        if ret == -1 {
          return;
        }
      }
    }
  }
}
