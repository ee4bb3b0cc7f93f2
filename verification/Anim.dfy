/** Discovery messages as octets: an LLDP-typed Ethernet frame carrying `anim_header` and, for
    NODE, `net_node`, inside a packet-out that names its port.  The round trip is what lets
    `Protocol` speak of messages instead of octets. */
module Anim {
  import opened Bytes
  import opened Com
  import opened OpenFlow
  import opened Peer
  import opened Matching
  import opened Protocol

  const ANIM_ECHO_REQUEST: byte := 0
  const ANIM_ECHO_REPLY: byte := 1
  const ANIM_NODE: byte := 2

  const PORT_CONTROLLER: u16 := 65533

  /** Ethernet header 14, anim_header 4, net_node 16: a 64-bit identifier, a 16-bit port, padding. */
  function FrameLength(m: Msg): nat {
    if m.Node? then 34 else 18
  }

  function Kind(m: Msg): byte {
    match m
    case EchoRequest => ANIM_ECHO_REQUEST
    case EchoReply => ANIM_ECHO_REPLY
    case Node(_) => ANIM_NODE
  }

  const LLDP_DST: Mac := [1, 0x23, 0x20, 0, 0, 1]
  const LLDP_SRC: Mac := [0, 0, 0, 0, 0, 1]

  function FrameByte(m: Msg, i: nat): byte {
    if i < 6 then LLDP_DST[i]
    else if i < 12 then LLDP_SRC[i - 6]
    else if i < 14 then Be16Byte(TYPE_LLDP, i - 12)
    else if i == 14 then Kind(m)
    else if i == 15 then 0
    else if i < 18 then Be16Byte(FrameLength(m) - 14, i - 16)
    else if !m.Node? then 0
    else if i < 26 then Be64Byte(m.id.datapath, i - 18)
    else if i < 28 then Be16Byte(m.id.port, i - 26)
    else 0
  }

  function Frame(m: Msg): seq<byte> {
    seq(FrameLength(m), i requires 0 <= i < FrameLength(m) => FrameByte(m, i))
  }

  function Envelope(m: Msg): PacketOut {
    PacketOut(Header(PACKET_OUT, 24 + FrameLength(m), 0), NO_BUFFER, PORT_CONTROLLER, 8)
  }

  function AnimByte(port: u16, m: Msg, i: nat): byte {
    if i < 16 then PacketOutByte(Envelope(m), i)
    else if i < 24 then OutputByte(Output(port, 0), i - 16)
    else FrameByte(m, i - 24)
  }

  /** The packet-out that sends `m` on `port`. */
  function AnimMsg(port: u16, m: Msg): seq<byte> {
    seq(24 + FrameLength(m), i requires 0 <= i < 24 + FrameLength(m) => AnimByte(port, m, i))
  }

  /** What the receiving controller reads from the frame of a packet-in. */
  function Parse(f: seq<byte>): Option<Msg> {
    if At(f, 14) == ANIM_ECHO_REQUEST then Some(EchoRequest)
    else if At(f, 14) == ANIM_ECHO_REPLY then Some(EchoReply)
    else if At(f, 14) == ANIM_NODE then Some(Node(NodeId(Be64(f, 18), Be16(f, 26))))
    else None
  }

  /** Padding after the frame does not matter. */
  lemma ParsesPrefix(f: seq<byte>, m: Msg)
    requires forall i: nat :: i < FrameLength(m) ==> At(f, i) == FrameByte(m, i)
    ensures EthType(f) == TYPE_LLDP && Parse(f) == Some(m)
  {
    ReadBack16(f, 12, TYPE_LLDP);
    if m.Node? {
      ReadBack64(f, 18, m.id.datapath);
      ReadBack16(f, 26, m.id.port);
    }
  }

  lemma FrameRoundTrip(m: Msg)
    ensures EthType(Frame(m)) == TYPE_LLDP && Parse(Frame(m)) == Some(m)
  {
    ParsesPrefix(Frame(m), m);
  }

  /** The frame octet by octet: destination 01:23:20:00:00:01, source 00:00:00:00:00:01, LLDP, the
      kind, the length of what follows the Ethernet header, and for NODE the announced port. */
  function FrameOctets(m: Msg): seq<byte> {
    [1, 0x23, 0x20, 0, 0, 1, 0, 0, 0, 0, 0, 1, 0x88, 0xcc] +
    match m
    case EchoRequest => [0, 0, 0, 4]
    case EchoReply => [1, 0, 0, 4]
    case Node(id) => [2, 0, 0, 20] + BigEndian64(id.datapath) + [id.port / 0x100, id.port % 0x100, 0, 0, 0, 0, 0, 0]
  }

  function BigEndian64(v: u64): seq<byte> {
    seq(8, k requires 0 <= k < 8 => Be64Byte(v, k))
  }

  lemma FrameIs(m: Msg)
    ensures Frame(m) == FrameOctets(m)
  {
    var f, o := Frame(m), FrameOctets(m);
    assert |f| == |o|;
    forall i | 0 <= i < |f| ensures f[i] == o[i] {
      FrameOctetIs(m, i);
    }
  }

  lemma FrameOctetIs(m: Msg, i: nat)
    requires i < FrameLength(m)
    ensures |FrameOctets(m)| == FrameLength(m) && FrameByte(m, i) == FrameOctets(m)[i]
  {
    var lldp, length := TYPE_LLDP, FrameLength(m) - 14;
    assert lldp / 0x100 == 0x88 && lldp % 0x100 == 0xcc && length / 0x100 == 0 && length % 0x100 == length;
  }

  /** The switch hears an emission to exactly the named port, as from the controller (port 0xfffd),
      of the octets of the frame, which parse back to the message. */
  lemma AnimRoundTrip(port: u16, m: Msg)
    ensures var s := AnimMsg(port, m);
      && Hear(s) == Emission(0, 0xffff_ffff, 0xfffd, port, FrameOctets(m))
      && s[24..] == Frame(m) && Parse(s[24..]) == Some(m) && EthType(s[24..]) == TYPE_LLDP
  {
    hide AnimMsg, PacketOutByte, OutputByte, HeaderByte, Frame, FrameOctets, Parse, EthType, Be16, Be32, At, Hear;
    var s := AnimMsg(port, m);
    AnimAt(port, m);
    HeaderReadBack(s, Envelope(m).header);
    ReadBack32(s, 8, NO_BUFFER);
    ReadBack16(s, 12, PORT_CONTROLLER);
    ReadBack16(s, 14, 8);
    OutputReadBack(s, 16, Output(port, 0));
    HearsEmission(s, 0, 0xffff_ffff, 0xfffd, port, 0);
    FrameRoundTrip(m);
    FrameIs(m);
  }

  lemma AnimAt(port: u16, m: Msg)
    ensures var s := AnimMsg(port, m);
      && |s| == 24 + FrameLength(m) && s[24..] == Frame(m) && At(s, 0) == 1
      && (forall i: nat :: i < 8 ==> At(s, i) == HeaderByte(Envelope(m).header, i))
      && (forall i: nat :: 8 <= i < 12 ==> At(s, i) == Be32Byte(NO_BUFFER, i - 8))
      && (forall i: nat :: 12 <= i < 14 ==> At(s, i) == Be16Byte(PORT_CONTROLLER, i - 12))
      && (forall i: nat :: 14 <= i < 16 ==> At(s, i) == Be16Byte(8, i - 14))
      && (forall i: nat :: 16 <= i < 24 ==> At(s, i) == OutputByte(Output(port, 0), i - 16))
  {
    hide OutputByte, FrameByte, Be16Byte, Be32Byte;
  }

  /** Writes the message into a cleared buffer and sends its length's worth.  The source repeats
      these stores inline for each kind; the envelope's are the ones com.cpp makes. */
  method Build(port: u16, m: Msg) returns (msg: seq<byte>)
    ensures msg == AnimMsg(port, m)
  {
    var buf := new byte[10240];
    Clear(buf);
    EncodePacketOut(buf, 0, NO_BUFFER, PORT_CONTROLLER, port, FrameLength(m));
    BuildHead(buf, m);
    if m.Node? {
      BuildNode(buf, m.id);
    }
    msg := buf[..24 + FrameLength(m)];
  }

  method BuildHead(buf: array<byte>, m: Msg)
    requires buf.Length == 10240
    modifies buf
    ensures forall j :: 0 <= j < buf.Length ==>
      buf[j] == if 24 <= j < 39 || 40 <= j < 42 then FrameByte(m, j - 24) else old(buf[j])
  {
    StoreMac(buf, 30, LLDP_SRC);
    StoreMac(buf, 24, LLDP_DST);
    Store16(buf, 36, Htons(TYPE_LLDP));
    Store8(buf, 38, Kind(m));
    Store16(buf, 40, Htons(FrameLength(m) - 14));
    SwapTwice16(FrameLength(m) - 14);
    SwapTwice16(TYPE_LLDP);
  }

  method BuildNode(buf: array<byte>, id: NodeId)
    requires buf.Length == 10240
    modifies buf
    ensures forall j :: 0 <= j < buf.Length ==>
      buf[j] == if 42 <= j < 52 then FrameByte(Node(id), j - 24) else old(buf[j])
  {
    Store64(buf, 42, Htobe64(id.datapath));
    Store16(buf, 50, Htons(id.port));
    SwapTwice64(id.datapath);
    SwapTwice16(id.port);
  }
}
