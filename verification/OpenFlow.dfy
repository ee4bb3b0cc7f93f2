/** OpenFlow 1.0 messages as the controller uses them: one datatype per struct of openflow.h,
    the octet each field puts at each offset, and the decoder a peer applies.

    A layout function answers "which octet stands at offset i"; it is written from the struct
    offsets alone, and the decoders are written from the field offsets of sections 5.1 to 5.3
    of the OpenFlow Switch Specification 1.0.0.  The round-trip lemmas tie the two. */
module OpenFlow {
  import opened Bytes

  const VERSION: byte := 1

  const HELLO: byte := 0
  const ECHO_REQUEST: byte := 2
  const ECHO_REPLY: byte := 3
  const FEATURES_REQUEST: byte := 5
  const FEATURES_REPLY: byte := 6
  const SET_CONFIG: byte := 9
  const PACKET_IN: byte := 10
  const PACKET_OUT: byte := 13
  const FLOW_MOD: byte := 14

  const PORT_FLOOD: u16 := 0xfffb
  const NO_BUFFER: u32 := 0xffff_ffff
  const VLAN_NONE: u16 := 0xffff
  const ETH2_CUTOFF: u16 := 0x0600
  const NOT_ETH_TYPE: u16 := 0x05ff

  datatype Header = Header(kind: byte, length: u16, xid: u32)

  /** The twelve fields of section 3.4, in `ofp_match` order. */
  datatype Key = Key(
    inPort: u16, dlSrc: Mac, dlDst: Mac, dlVlan: u16, dlVlanPcp: byte, dlType: u16,
    nwTos: byte, nwProto: byte, nwSrc: u32, nwDst: u32, tpSrc: u16, tpDst: u16)

  datatype FlowMod = FlowMod(
    header: Header, wildcards: u32, key: Key, cookie: u64, command: u16, idle: u16, hard: u16,
    priority: u16, bufferId: u32, outPort: u16, flags: u16)

  datatype PacketOut = PacketOut(header: Header, bufferId: u32, inPort: u16, actionsLen: u16)

  datatype Output = Output(port: u16, maxLen: u16)

  datatype SwitchConfig = SwitchConfig(header: Header, flags: u16, missSendLen: u16)

  // ----- Layouts -----

  function HeaderByte(h: Header, i: nat): byte {
    if i == 0 then VERSION
    else if i == 1 then h.kind
    else if i < 4 then Be16Byte(h.length, i - 2)
    else Be32Byte(h.xid, i - 4)
  }

  function MatchByte(wildcards: u32, k: Key, i: nat): byte
    requires i < 40
  {
    if i < 4 then Be32Byte(wildcards, i)
    else if i < 6 then Be16Byte(k.inPort, i - 4)
    else if i < 12 then k.dlSrc[i - 6]
    else if i < 18 then k.dlDst[i - 12]
    else if i < 20 then Be16Byte(k.dlVlan, i - 18)
    else if i == 20 then k.dlVlanPcp
    else if i == 21 then 0
    else if i < 24 then Be16Byte(k.dlType, i - 22)
    else if i == 24 then k.nwTos
    else if i == 25 then k.nwProto
    else if i < 28 then 0
    else if i < 32 then Be32Byte(k.nwSrc, i - 28)
    else if i < 36 then Be32Byte(k.nwDst, i - 32)
    else if i < 38 then Be16Byte(k.tpSrc, i - 36)
    else Be16Byte(k.tpDst, i - 38)
  }

  function FlowModByte(m: FlowMod, i: nat): byte
    requires i < 72
  {
    if i < 8 then HeaderByte(m.header, i)
    else if i < 48 then MatchByte(m.wildcards, m.key, i - 8)
    else if i < 56 then Be64Byte(m.cookie, i - 48)
    else if i < 58 then Be16Byte(m.command, i - 56)
    else if i < 60 then Be16Byte(m.idle, i - 58)
    else if i < 62 then Be16Byte(m.hard, i - 60)
    else if i < 64 then Be16Byte(m.priority, i - 62)
    else if i < 68 then Be32Byte(m.bufferId, i - 64)
    else if i < 70 then Be16Byte(m.outPort, i - 68)
    else Be16Byte(m.flags, i - 70)
  }

  function PacketOutByte(m: PacketOut, i: nat): byte
    requires i < 16
  {
    if i < 8 then HeaderByte(m.header, i)
    else if i < 12 then Be32Byte(m.bufferId, i - 8)
    else if i < 14 then Be16Byte(m.inPort, i - 12)
    else Be16Byte(m.actionsLen, i - 14)
  }

  function OutputByte(o: Output, i: nat): byte
    requires i < 8
  {
    if i < 2 then 0
    else if i < 4 then Be16Byte(8, i - 2)
    else if i < 6 then Be16Byte(o.port, i - 4)
    else Be16Byte(o.maxLen, i - 6)
  }

  function SwitchConfigByte(m: SwitchConfig, i: nat): byte
    requires i < 12
  {
    if i < 8 then HeaderByte(m.header, i)
    else if i < 10 then Be16Byte(m.flags, i - 8)
    else Be16Byte(m.missSendLen, i - 10)
  }

  // ----- Whole messages -----

  function HeaderMsg(h: Header): seq<byte> {
    seq(8, i requires 0 <= i < 8 => HeaderByte(h, i))
  }

  function SwitchConfigMsg(m: SwitchConfig): seq<byte> {
    seq(12, i requires 0 <= i < 12 => SwitchConfigByte(m, i))
  }

  /** A packet-out or flow-mod followed by its one output action. */
  function PacketOutMsg(m: PacketOut, o: Output): seq<byte> {
    seq(24, i requires 0 <= i < 24 => if i < 16 then PacketOutByte(m, i) else OutputByte(o, i - 16))
  }

  function FlowModMsg(m: FlowMod, o: Output): seq<byte> {
    seq(80, i requires 0 <= i < 80 => if i < 72 then FlowModByte(m, i) else OutputByte(o, i - 72))
  }

  /** An exact-match, priority-0, no-hard-timeout ADD with one action. */
  function RuleMod(xid: u32, bufferId: u32, key: Key, idle: u16): FlowMod {
    FlowMod(Header(FLOW_MOD, 80, xid), 0, key, 0, 0, idle, 0, 0, bufferId, 0, 0)
  }

  // ----- Decoders -----

  function DecodeHeader(s: seq<byte>): Header {
    Header(At(s, 1), Be16(s, 2), Be32(s, 4))
  }

  function DecodeKey(s: seq<byte>, off: nat): Key {
    Key(Be16(s, off + 4), MacAt(s, off + 6), MacAt(s, off + 12), Be16(s, off + 18), At(s, off + 20),
        Be16(s, off + 22), At(s, off + 24), At(s, off + 25), Be32(s, off + 28), Be32(s, off + 32),
        Be16(s, off + 36), Be16(s, off + 38))
  }

  function DecodeFlowMod(s: seq<byte>): FlowMod {
    FlowMod(DecodeHeader(s), Be32(s, 8), DecodeKey(s, 8), Be64(s, 48), Be16(s, 56), Be16(s, 58),
            Be16(s, 60), Be16(s, 62), Be32(s, 64), Be16(s, 68), Be16(s, 70))
  }

  function DecodePacketOut(s: seq<byte>): PacketOut {
    PacketOut(DecodeHeader(s), Be32(s, 8), Be16(s, 12), Be16(s, 14))
  }

  /** `ofp_action_output`, section 5.2.4: type and length in front of the two arguments. */
  datatype Action = Action(kind: u16, length: u16, port: u16, maxLen: u16)

  function DecodeAction(s: seq<byte>, off: nat): Action {
    Action(Be16(s, off), Be16(s, off + 2), Be16(s, off + 4), Be16(s, off + 6))
  }

  function DecodeSwitchConfig(s: seq<byte>): SwitchConfig {
    SwitchConfig(DecodeHeader(s), Be16(s, 8), Be16(s, 10))
  }

  lemma HeaderReadBack(s: seq<byte>, h: Header)
    requires forall i: nat :: i < 8 ==> At(s, i) == HeaderByte(h, i)
    ensures DecodeHeader(s) == h
  {
    ReadBack16(s, 2, h.length);
    ReadBack32(s, 4, h.xid);
  }

  lemma HeaderRoundTrip(h: Header)
    ensures DecodeHeader(HeaderMsg(h)) == h && At(HeaderMsg(h), 0) == 1
  {
    HeaderReadBack(HeaderMsg(h), h);
  }

  lemma OutputReadBack(s: seq<byte>, off: nat, o: Output)
    requires forall j: nat :: off <= j < off + 8 ==> At(s, j) == OutputByte(o, j - off)
    ensures DecodeAction(s, off) == Action(0, 8, o.port, o.maxLen)
  {
    ReadBack16(s, off, 0);
    ReadBack16(s, off + 2, 8);
    ReadBack16(s, off + 4, o.port);
    ReadBack16(s, off + 6, o.maxLen);
  }

  lemma PacketOutRoundTrip(m: PacketOut, o: Output)
    ensures DecodePacketOut(PacketOutMsg(m, o)) == m && At(PacketOutMsg(m, o), 0) == 1
    ensures DecodeAction(PacketOutMsg(m, o), 16) == Action(0, 8, o.port, o.maxLen)
  {
    var s := PacketOutMsg(m, o);
    HeaderReadBack(s, m.header);
    ReadBack32(s, 8, m.bufferId);
    ReadBack16(s, 12, m.inPort);
    ReadBack16(s, 14, m.actionsLen);
    OutputReadBack(s, 16, o);
  }

  lemma KeyReadBack(s: seq<byte>, wildcards: u32, k: Key)
    requires forall j: nat :: 8 <= j < 48 ==> At(s, j) == MatchByte(wildcards, k, j - 8)
    ensures DecodeKey(s, 8) == k && Be32(s, 8) == wildcards
  {
    ReadBack32(s, 8, wildcards);
    ReadBack16(s, 12, k.inPort);
    assert MacAt(s, 14) == k.dlSrc;
    assert MacAt(s, 20) == k.dlDst;
    ReadBack16(s, 26, k.dlVlan);
    ReadBack16(s, 30, k.dlType);
    ReadBack32(s, 36, k.nwSrc);
    ReadBack32(s, 40, k.nwDst);
    ReadBack16(s, 44, k.tpSrc);
    ReadBack16(s, 46, k.tpDst);
  }

  lemma FlowModTailReadBack(s: seq<byte>, m: FlowMod)
    requires forall j: nat :: 48 <= j < 72 ==> At(s, j) == FlowModByte(m, j)
    ensures Be64(s, 48) == m.cookie && Be16(s, 56) == m.command && Be16(s, 58) == m.idle
    ensures Be16(s, 60) == m.hard && Be16(s, 62) == m.priority && Be32(s, 64) == m.bufferId
    ensures Be16(s, 68) == m.outPort && Be16(s, 70) == m.flags
  {
    ReadBack64(s, 48, m.cookie);
    ReadBack16(s, 56, m.command);
    ReadBack16(s, 58, m.idle);
    ReadBack16(s, 60, m.hard);
    ReadBack16(s, 62, m.priority);
    ReadBack32(s, 64, m.bufferId);
    ReadBack16(s, 68, m.outPort);
    ReadBack16(s, 70, m.flags);
  }

  lemma FlowModAt(m: FlowMod, o: Output)
    ensures var s := FlowModMsg(m, o);
      && At(s, 0) == 1 && (forall j: nat :: j < 8 ==> At(s, j) == HeaderByte(m.header, j))
      && (forall j: nat :: 8 <= j < 48 ==> At(s, j) == MatchByte(m.wildcards, m.key, j - 8))
      && (forall j: nat :: 48 <= j < 72 ==> At(s, j) == FlowModByte(m, j))
      && (forall j: nat :: 72 <= j < 80 ==> At(s, j) == OutputByte(o, j - 72))
  {
    hide MatchByte, OutputByte, Be16Byte, Be32Byte, Be64Byte;
  }

  lemma FlowModRoundTrip(m: FlowMod, o: Output)
    ensures DecodeFlowMod(FlowModMsg(m, o)) == m && At(FlowModMsg(m, o), 0) == 1
    ensures DecodeAction(FlowModMsg(m, o), 72) == Action(0, 8, o.port, o.maxLen)
  {
    hide FlowModMsg, FlowModByte, HeaderByte, MatchByte, OutputByte, At, Be16, Be32, Be64, DecodeHeader, DecodeKey;
    var s := FlowModMsg(m, o);
    FlowModAt(m, o);
    HeaderReadBack(s, m.header);
    KeyReadBack(s, m.wildcards, m.key);
    FlowModTailReadBack(s, m);
    OutputReadBack(s, 72, o);
  }

  lemma SwitchConfigRoundTrip(m: SwitchConfig)
    ensures DecodeSwitchConfig(SwitchConfigMsg(m)) == m && At(SwitchConfigMsg(m), 0) == 1
  {
    var s := SwitchConfigMsg(m);
    HeaderReadBack(s, m.header);
    ReadBack16(s, 8, m.flags);
    ReadBack16(s, 10, m.missSendLen);
  }
}
