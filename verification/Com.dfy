/** The encoders of com.cpp: each stores fields through a struct pointer into the caller's
    buffer.  Multi-octet arguments arrive already in network order, as in C, so the field a
    peer reads is `Htons` of the argument. */
module Com {
  import opened Bytes
  import opened OpenFlow

  /** `buf[off..off + n]` was written, all else kept. */
  twostate predicate OnlyWrote(buf: array<byte>, off: nat, n: nat)
    reads buf
  {
    forall j :: 0 <= j < buf.Length && !(off <= j < off + n) ==> buf[j] == old(buf[j])
  }

  /** The hello, echo-reply and features-request encoders differ in `kind` alone. */
  method CreateHeader(buf: array<byte>, kind: byte, xid: u32, length: u16)
    requires 8 <= buf.Length
    modifies buf
    ensures forall j :: 0 <= j < 8 ==> buf[j] == HeaderByte(Header(kind, length, Htonl(xid)), j)
    ensures OnlyWrote(buf, 0, 8)
  {
    Store8(buf, 0, VERSION);
    Store8(buf, 1, kind);
    Store32(buf, 4, xid);
    Store16(buf, 2, Htons(length));
    SwapTwice16(length);
  }

  method CreateSwitchConfig(buf: array<byte>, xid: u32, flags: u16, missSendLen: u16)
    requires 12 <= buf.Length
    modifies buf
    ensures forall j :: 0 <= j < 12 ==> buf[j] == SwitchConfigByte(
      SwitchConfig(Header(SET_CONFIG, 12, Htonl(xid)), Htons(flags), Htons(missSendLen)), j)
    ensures OnlyWrote(buf, 0, 12)
  {
    CreateHeader(buf, SET_CONFIG, xid, 12);
    Store16(buf, 8, flags);
    Store16(buf, 10, missSendLen);
  }

  method CreatePacketOut(buf: array<byte>, xid: u32, bufferId: u32, inPort: u16, actionsLen: u16, dataLen: u16)
    requires 16 <= buf.Length
    requires 16 + actionsLen + dataLen < 0x1_0000
    modifies buf
    ensures forall j :: 0 <= j < 16 ==> buf[j] == PacketOutByte(
      PacketOut(Header(PACKET_OUT, 16 + actionsLen + dataLen, Htonl(xid)),
                Htonl(bufferId), Htons(inPort), actionsLen), j)
    ensures OnlyWrote(buf, 0, 16)
  {
    CreateHeader(buf, PACKET_OUT, xid, 16 + actionsLen + dataLen);
    Store32(buf, 8, bufferId);
    Store16(buf, 12, inPort);
    Store16(buf, 14, Htons(actionsLen));
    SwapTwice16(actionsLen);
  }

  method CreateFlowMod(buf: array<byte>, xid: u32, inPort: u16, outPort: u16, bufferId: u32, command: u16,
                       cookie: u64, flags: u16, hard: u16, idle: u16, priority: u16, wildcards: u32,
                       ipSrc: u32, ipDst: u32, tpSrc: u16, tpDst: u16, ipProto: byte, ipTos: byte,
                       vlan: u16, vlanPcp: byte, ethSrc: Mac, ethDst: Mac, ethType: u16, actsLen: u16)
    requires 72 <= buf.Length
    requires 72 + actsLen < 0x1_0000
    modifies buf
    ensures forall j :: 0 <= j < 72 ==> buf[j] == FlowModByte(
      FlowMod(Header(FLOW_MOD, 72 + actsLen, Htonl(xid)), Htonl(wildcards),
              Key(Htons(inPort), ethSrc, ethDst, Htons(vlan), vlanPcp, Htons(ethType), ipTos, ipProto,
                  Htonl(ipSrc), Htonl(ipDst), Htons(tpSrc), Htons(tpDst)),
              Htobe64(cookie), Htons(command), Htons(idle), Htons(hard), Htons(priority),
              Htonl(bufferId), Htons(outPort), Htons(flags)), j)
    ensures OnlyWrote(buf, 0, 72)
  {
    CreateHeader(buf, FLOW_MOD, xid, 72 + actsLen);
    CreateMatch(buf, inPort, wildcards, ipSrc, ipDst, tpSrc, tpDst,
                ipProto, ipTos, vlan, vlanPcp, ethSrc, ethDst, ethType);
    Store16(buf, 68, outPort);
    Store32(buf, 64, bufferId);
    Store16(buf, 56, command);
    Store64(buf, 48, cookie);
    Store16(buf, 70, flags);
    Store16(buf, 60, hard);
    Store16(buf, 58, idle);
    Store16(buf, 62, priority);
  }

  /** The `match` member, in the source's order of stores. */
  method CreateMatch(buf: array<byte>, inPort: u16, wildcards: u32, ipSrc: u32, ipDst: u32, tpSrc: u16, tpDst: u16,
                     ipProto: byte, ipTos: byte, vlan: u16, vlanPcp: byte, ethSrc: Mac, ethDst: Mac, ethType: u16)
    requires 48 <= buf.Length
    modifies buf
    ensures forall j :: 8 <= j < 48 ==> buf[j] == MatchByte(
      Htonl(wildcards),
      Key(Htons(inPort), ethSrc, ethDst, Htons(vlan), vlanPcp, Htons(ethType), ipTos, ipProto,
          Htonl(ipSrc), Htonl(ipDst), Htons(tpSrc), Htons(tpDst)), j - 8)
    ensures OnlyWrote(buf, 8, 40)
  {
    Store16(buf, 12, inPort);
    Store32(buf, 8, wildcards);
    Store8(buf, 33, ipProto);
    StoreMac(buf, 14, ethSrc);
    StoreMac(buf, 20, ethDst);
    Store8(buf, 29, 0);
    Store8(buf, 34, 0);
    Store8(buf, 35, 0);
    Store16(buf, 30, ethType);
    Store32(buf, 36, ipSrc);
    Store32(buf, 40, ipDst);
    Store8(buf, 32, ipTos);
    Store16(buf, 44, tpSrc);
    Store16(buf, 46, tpDst);
    Store16(buf, 26, vlan);
    Store8(buf, 28, vlanPcp);
  }

  /** The action is written where the caller's `actions` pointer leads. */
  method CreateActionOutput(buf: array<byte>, off: nat, maxLen: u16, outPort: u16)
    requires off + 8 <= buf.Length
    modifies buf
    ensures forall j :: off <= j < off + 8 ==> buf[j] == OutputByte(Output(Htons(outPort), Htons(maxLen)), j - off)
    ensures OnlyWrote(buf, off, 8)
  {
    Store16(buf, off, Htons(0));
    Store16(buf, off + 2, Htons(8));
    Store16(buf, off + 6, maxLen);
    Store16(buf, off + 4, outPort);
    SwapTwice16(0);
    SwapTwice16(8);
  }

  // ----- The two call patterns of the controller -----

  /** A packet-out with one output action, every field given in host order. */
  method EncodePacketOut(buf: array<byte>, xid: u32, bufferId: u32, inPort: u16, port: u16, dataLen: u16)
    requires 24 <= buf.Length && 24 + dataLen < 0x1_0000
    modifies buf
    ensures forall j :: 0 <= j < 16 ==> buf[j] == PacketOutByte(
      PacketOut(Header(PACKET_OUT, 24 + dataLen, xid), bufferId, inPort, 8), j)
    ensures forall j :: 16 <= j < 24 ==> buf[j] == OutputByte(Output(port, 0), j - 16)
    ensures OnlyWrote(buf, 0, 24)
  {
    SwapTwice32(xid);
    SwapTwice32(bufferId);
    SwapTwice16(inPort);
    SwapTwice16(port);
    CreatePacketOut(buf, Htonl(xid), Htonl(bufferId), Htons(inPort), 8, dataLen);
    CreateActionOutput(buf, 16, Htons(0), Htons(port));
  }

  /** An exact-match rule with one output action: only the fields the call sites vary. */
  method EncodeRule(buf: array<byte>, xid: u32, bufferId: u32, key: Key, idle: u16, port: u16)
    requires 80 <= buf.Length
    modifies buf
    ensures forall j :: 0 <= j < 72 ==> buf[j] == FlowModByte(RuleMod(xid, bufferId, key, idle), j)
    ensures forall j :: 72 <= j < 80 ==> buf[j] == OutputByte(Output(port, 0), j - 72)
    ensures OnlyWrote(buf, 0, 80)
  {
    EncodeRuleMod(buf, xid, bufferId, key, idle);
    SwapTwice16(port);
    CreateActionOutput(buf, 72, Htons(0), Htons(port));
  }

  method EncodeRuleMod(buf: array<byte>, xid: u32, bufferId: u32, key: Key, idle: u16)
    requires 72 <= buf.Length
    modifies buf
    ensures forall j :: 0 <= j < 72 ==> buf[j] == FlowModByte(RuleMod(xid, bufferId, key, idle), j)
    ensures OnlyWrote(buf, 0, 72)
  {
    var k, x, b, t := NetKey(key), Htonl(xid), Htonl(bufferId), Htons(idle);
    var z2: u16, z4: u32, z8: u64 := 0, 0, 0;
    CreateFlowMod(buf, x, k.inPort, z2, b, z2, z8, z2, z2, t, z2, z4, k.nwSrc, k.nwDst, k.tpSrc, k.tpDst,
                  k.nwProto, k.nwTos, k.dlVlan, k.dlVlanPcp, k.dlSrc, k.dlDst, k.dlType, 8);
    SwappedRule(xid, bufferId, key, idle, z2, z4, z8);
  }

  /** The multi-octet match fields in network order; 0 is its own swap. */
  function NetKey(key: Key): Key {
    Key(Htons(key.inPort), key.dlSrc, key.dlDst, Htons(key.dlVlan), key.dlVlanPcp, Htons(key.dlType), key.nwTos,
        key.nwProto, Htonl(key.nwSrc), Htonl(key.nwDst), Htons(key.tpSrc), Htons(key.tpDst))
  }

  lemma NetKeyTwice(key: Key)
    ensures NetKey(NetKey(key)) == key
  {
    SwapTwice16(key.inPort);
    SwapTwice16(key.dlVlan);
    SwapTwice16(key.dlType);
    SwapTwice16(key.tpSrc);
    SwapTwice16(key.tpDst);
    SwapTwice32(key.nwSrc);
    SwapTwice32(key.nwDst);
  }

  /** What `CreateFlowMod` stores for arguments swapped to network order. */
  lemma SwappedRule(xid: u32, bufferId: u32, key: Key, idle: u16, z2: u16, z4: u32, z8: u64)
    requires z2 == 0 && z4 == 0 && z8 == 0
    ensures FlowMod(Header(FLOW_MOD, 80, Htonl(Htonl(xid))), Htonl(z4), NetKey(NetKey(key)), Htobe64(z8), Htons(z2),
                    Htons(Htons(idle)), Htons(z2), Htons(z2), Htonl(Htonl(bufferId)), Htons(z2), Htons(z2))
            == RuleMod(xid, bufferId, key, idle)
  {
    SwapTwice32(xid);
    SwapTwice32(bufferId);
    SwapTwice16(idle);
    NetKeyTwice(key);
    SwapZero16(z2);
    SwapZero32(z4);
    SwapZero64(z8);
  }
}
