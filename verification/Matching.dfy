/** How a switch turns a frame into the twelve match fields: section 3.4 of the OpenFlow
    Switch Specification 1.0.0, octet by octet.  Written without reference to the controller. */
module Matching {
  import opened Bytes
  import opened OpenFlow

  const TYPE_IP: u16 := 0x0800
  const TYPE_ARP: u16 := 0x0806
  const TYPE_VLAN: u16 := 0x8100
  const TYPE_IP6: u16 := 0x86dd
  const TYPE_LLDP: u16 := 0x88cc

  const PROTO_ICMP: byte := 1
  const PROTO_TCP: byte := 6
  const PROTO_UDP: byte := 17

  /** The two octets after the addresses: an Ethernet type, a VLAN mark or an 802.3 length. */
  function EthType(f: seq<byte>): u16 {
    Be16(f, 12)
  }

  /** An 802.3 frame whose 802.2 header carries a SNAP header with OUI 0. */
  predicate Snap(f: seq<byte>) {
    && EthType(f) < ETH2_CUTOFF
    && Be16(f, 14) == 0xaaaa && At(f, 16) == 3
    && At(f, 17) == 0 && Be16(f, 18) == 0
  }

  function MatchType(f: seq<byte>): u16 {
    if EthType(f) == TYPE_VLAN then Be16(f, 16)
    else if EthType(f) >= ETH2_CUTOFF then EthType(f)
    else if Snap(f) then Be16(f, 20)
    else NOT_ETH_TYPE
  }

  function NetworkAt(f: seq<byte>): nat {
    if EthType(f) == TYPE_VLAN then 18 else if Snap(f) then 22 else 14
  }

  /** More-fragments set or a non-zero fragment offset. */
  predicate Fragment(f: seq<byte>) {
    Be16(f, NetworkAt(f) + 6) % 0x4000 != 0
  }

  function TransportAt(f: seq<byte>): nat {
    NetworkAt(f) + At(f, NetworkAt(f)) % 16 * 4
  }

  function TpSrc(f: seq<byte>): u16 {
    var proto := At(f, NetworkAt(f) + 9);
    if Fragment(f) then 0
    else if proto == PROTO_TCP || proto == PROTO_UDP then Be16(f, TransportAt(f))
    else if proto == PROTO_ICMP then At(f, TransportAt(f))
    else 0
  }

  function TpDst(f: seq<byte>): u16 {
    var proto := At(f, NetworkAt(f) + 9);
    if Fragment(f) then 0
    else if proto == PROTO_TCP || proto == PROTO_UDP then Be16(f, TransportAt(f) + 2)
    else if proto == PROTO_ICMP then At(f, TransportAt(f) + 1)
    else 0
  }

  function SwitchKey(inPort: u16, f: seq<byte>): Key {
    var vlan: u16 := if EthType(f) == TYPE_VLAN then Be16(f, 14) % 0x1000 else VLAN_NONE;
    var pcp: byte := if EthType(f) == TYPE_VLAN then Be16(f, 14) / 0x2000 else 0;
    var n := NetworkAt(f);
    var base := Key(inPort, MacAt(f, 6), MacAt(f, 0), vlan, pcp, MatchType(f), 0, 0, 0, 0, 0, 0);
    if MatchType(f) == TYPE_ARP then
      base.(nwProto := At(f, n + 7), nwSrc := Be32(f, n + 14), nwDst := Be32(f, n + 24))
    else if MatchType(f) == TYPE_IP then
      base.(nwTos := At(f, n + 1) / 4 * 4, nwProto := At(f, n + 9),
            nwSrc := Be32(f, n + 12), nwDst := Be32(f, n + 16), tpSrc := TpSrc(f), tpDst := TpDst(f))
    else base
  }
}
