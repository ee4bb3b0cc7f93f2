/** What a switch makes of the octets the controller sends it: the reference every message is
    judged by.  The numbers are those of sections 5.1 to 5.5 of the OpenFlow Switch Specification
    1.0.0, written out here and not taken from the encoders. */
module Peer {
  import opened Bytes
  import opened OpenFlow

  datatype Heard =
    | Hello(xid: u32)
    | EchoAnswer(xid: u32)
    | FeaturesRequest(xid: u32)
    | SetConfig(xid: u32, flags: u16, missSendLen: u16)
    /** A packet-out with one output action: of the frame buffered as `bufferId`, or of `data`. */
    | Emission(xid: u32, bufferId: u32, inPort: u16, outPort: u16, data: seq<byte>)
    /** An exact-match ADD with one output action, no hard timeout, priority 0. */
    | Rule(xid: u32, key: Key, idle: u16, bufferId: u32, outPort: u16)
    | Unknown

  /** One action, OFPAT_OUTPUT, eight octets long. */
  predicate OutputAt(m: seq<byte>, off: nat) {
    Be16(m, off) == 0 && Be16(m, off + 2) == 8
  }

  /** A version-1 message whose length field is its length. */
  predicate Framed(m: seq<byte>) {
    |m| >= 8 && At(m, 0) == 1 && Be16(m, 2) == |m|
  }

  /** Wildcards, cookie, command, hard timeout, priority, out_port and flags are all 0. */
  predicate PlainAdd(m: seq<byte>) {
    && Be32(m, 8) == 0 && Be64(m, 48) == 0 && Be16(m, 56) == 0 && Be16(m, 60) == 0 && Be16(m, 62) == 0
    && Be16(m, 68) == 0 && Be16(m, 70) == 0
  }

  function Hear(m: seq<byte>): Heard {
    if !Framed(m) then Unknown
    else
      var kind, xid := At(m, 1), Be32(m, 4);
      if kind == 0 && |m| == 8 then Hello(xid)
      else if kind == 3 && |m| == 8 then EchoAnswer(xid)
      else if kind == 5 && |m| == 8 then FeaturesRequest(xid)
      else if kind == 9 && |m| == 12 then SetConfig(xid, Be16(m, 8), Be16(m, 10))
      else if kind == 13 && |m| >= 24 && Be16(m, 14) == 8 && OutputAt(m, 16) then
        Emission(xid, Be32(m, 8), Be16(m, 12), Be16(m, 20), m[24..])
      else if kind == 14 && |m| == 80 && PlainAdd(m) && OutputAt(m, 72) then
        Rule(xid, DecodeKey(m, 8), Be16(m, 58), Be32(m, 64), Be16(m, 76))
      else Unknown
  }

  lemma HearsHeader(kind: byte, xid: u32)
    ensures var h := Hear(HeaderMsg(Header(kind, 8, xid)));
      && (kind == 0 ==> h == Hello(xid)) && (kind == 3 ==> h == EchoAnswer(xid))
      && (kind == 5 ==> h == FeaturesRequest(xid))
  {
    HeaderRoundTrip(Header(kind, 8, xid));
    hide HeaderMsg, At, Be16, Be32;
    assert |HeaderMsg(Header(kind, 8, xid))| == 8;
  }

  lemma HearsConfig(xid: u32, flags: u16, missSendLen: u16)
    ensures Hear(SwitchConfigMsg(SwitchConfig(Header(9, 12, xid), flags, missSendLen)))
      == SetConfig(xid, flags, missSendLen)
  {
    var c := SwitchConfig(Header(9, 12, xid), flags, missSendLen);
    SwitchConfigRoundTrip(c);
    hide SwitchConfigMsg, At, Be16, Be32;
    assert |SwitchConfigMsg(c)| == 12 && DecodeSwitchConfig(SwitchConfigMsg(c)).header == c.header;
  }

  lemma HearsEmission(m: seq<byte>, xid: u32, bufferId: u32, inPort: u16, outPort: u16, maxLen: u16)
    requires 24 <= |m| < 0x1_0000 && At(m, 0) == 1
    requires DecodePacketOut(m) == PacketOut(Header(13, |m|, xid), bufferId, inPort, 8)
    requires DecodeAction(m, 16) == Action(0, 8, outPort, maxLen)
    ensures Hear(m) == Emission(xid, bufferId, inPort, outPort, m[24..])
  {
    hide At, Be16, Be32;
    assert DecodeHeader(m) == Header(13, |m|, xid);
  }

  lemma HearsRule(m: seq<byte>, xid: u32, key: Key, idle: u16, bufferId: u32, outPort: u16, maxLen: u16)
    requires |m| == 80 && At(m, 0) == 1
    requires DecodeFlowMod(m) == FlowMod(Header(14, 80, xid), 0, key, 0, 0, idle, 0, 0, bufferId, 0, 0)
    requires DecodeAction(m, 72) == Action(0, 8, outPort, maxLen)
    ensures Hear(m) == Rule(xid, key, idle, bufferId, outPort)
  {
    hide At, Be16, Be32, Be64, DecodeKey;
    assert DecodeHeader(m) == Header(14, 80, xid);
  }
}
