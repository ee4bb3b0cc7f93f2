/** The switch as a cache of the controller's decisions: exact-match rules installed by the
    controller's own flow-mod octets, expiring at any time.

    `RunCached` sends a frame to the controller only when no rule matches; `RunDirect` sends
    every frame.  The theorems say when the two cannot be told apart. */
module FlowCache {
  import opened Bytes
  import opened OpenFlow
  import opened Matching
  import opened Learning
  import opened Peer
  import Handlers

  datatype Event =
    | Arrive(inPort: u16, bufferId: u32, xid: u32, frame: seq<byte>)
    | Expire(keys: set<Key>)

  /** `Flooded` names the one port a flood leaves out. */
  datatype Outcome = Dropped | SentTo(port: u16) | Flooded(but: u16)

  type Rules = map<Key, u16>

  datatype Switch = Switch(hosts: seq<Host>, rules: Rules)

  /** What the switch was told by the message that answers its features reply. */
  function MissSendLen(): u16 {
    var h := Hear(Handlers.ConfigMsg(0));
    if h.SetConfig? then h.missSendLen else 0
  }

  lemma MissSendLenIs()
    ensures MissSendLen() == 128
  {
    HearsConfig(0, 0, 128);
    hide Hear;
  }

  /** What a packet-in carries: the configured head of a buffered frame, the whole of an
      unbuffered one. */
  function Punted(ev: Event): seq<byte>
    requires ev.Arrive?
  {
    if ev.bufferId != NO_BUFFER && |ev.frame| > MissSendLen() then ev.frame[..MissSendLen()] else ev.frame
  }

  /** The switch obeys one message as it hears it.  An action applies to the buffered frame the
      message names; with no buffer and no data there is nothing to output. */
  function Obey(rules: Rules, msg: seq<byte>): (Rules, Outcome) {
    match Hear(msg)
    case Rule(_, key, _, bufferId, port) =>
      (rules[key := port], if bufferId == 0xffff_ffff then Dropped else SentTo(port))
    case Emission(_, bufferId, inPort, port, _) =>
      (rules,
       if bufferId == 0xffff_ffff then Dropped else if port == 0xfffb then Flooded(inPort) else SentTo(port))
    case _ => (rules, Dropped)
  }

  function ObeyAll(rules: Rules, msgs: seq<seq<byte>>): (Rules, Outcome) {
    if msgs == [] then (rules, Dropped) else Obey(rules, msgs[0])
  }

  /** A table miss: the controller learns, decides and answers. */
  function Miss(datapath: u64, cbench: bool, sw: Switch, ev: Event): (Switch, Outcome)
    requires ev.Arrive?
  {
    var f := Punted(ev);
    var hosts := Learn(sw.hosts, datapath, ev.inPort, f);
    var (rules, out) := ObeyAll(sw.rules, Emit(Decide(hosts, cbench, ev.inPort, f), ev.xid, ev.bufferId, ev.inPort));
    (Switch(hosts, rules), out)
  }

  /** The miss is the packet-in handler's own doing: on any octets that carry the event's fields
      and the head of its frame, LLDP aside, the controller ends with the same table and sends
      what the switch obeys. */
  lemma MissIsPacketIn(cbench: bool, sw: Switch, ev: Event, st: Handlers.State, s: seq<byte>, pos: nat)
    requires ev.Arrive? && st.hosts == sw.hosts && EthType(Punted(ev)) != TYPE_LLDP
    requires Be32(s, pos + 4) == ev.xid && Be32(s, pos + 8) == ev.bufferId && Be16(s, pos + 14) == ev.inPort
    requires SameHead(Punted(ev), From(s, pos + 18))
    ensures var after := Handlers.PacketInState(st, cbench, s, pos);
      && |after.sent| >= |st.sent|
      && var (rules, out) := ObeyAll(sw.rules, after.sent[|st.sent|..]);
         Miss(st.switchId, cbench, sw, ev) == (Switch(after.hosts, rules), out)
  {
    hide Learn, Decide, Emit, ObeyAll;
    var f, g := Punted(ev), From(s, pos + 18);
    assert EthType(f) == EthType(g);
    DecisionReadsHead(sw.hosts, st.switchId, cbench, ev.inPort, f, g);
    var hosts := Learn(sw.hosts, st.switchId, ev.inPort, f);
    DecisionReadsHead(hosts, st.switchId, cbench, ev.inPort, f, g);
    var sent := Emit(Decide(hosts, cbench, ev.inPort, f), ev.xid, ev.bufferId, ev.inPort);
    assert (st.sent + sent)[|st.sent|..] == sent;
  }

  predicate Hits(rules: Rules, ev: Event) {
    ev.Arrive? && SwitchKey(ev.inPort, ev.frame) in rules
  }

  function StepCached(datapath: u64, cbench: bool, sw: Switch, ev: Event): (Switch, seq<Outcome>) {
    match ev
    case Expire(keys) => (sw.(rules := sw.rules - keys), [])
    case Arrive(inPort, _, _, frame) =>
      var key := SwitchKey(inPort, frame);
      if key in sw.rules then (sw, [SentTo(sw.rules[key])])
      else
        var (after, out) := Miss(datapath, cbench, sw, ev);
        (after, [out])
  }

  function StepDirect(datapath: u64, cbench: bool, hosts: seq<Host>, ev: Event): (seq<Host>, seq<Outcome>) {
    match ev
    case Expire(_) => (hosts, [])
    case Arrive(_, _, _, _) =>
      var (after, out) := Miss(datapath, cbench, Switch(hosts, map[]), ev);
      (after.hosts, [out])
  }

  function RunCached(datapath: u64, cbench: bool, sw: Switch, evs: seq<Event>): (Switch, seq<Outcome>)
    decreases |evs|
  {
    if evs == [] then (sw, [])
    else
      var (mid, o) := StepCached(datapath, cbench, sw, evs[0]);
      var (end, os) := RunCached(datapath, cbench, mid, evs[1..]);
      (end, o + os)
  }

  function RunDirect(datapath: u64, cbench: bool, hosts: seq<Host>, evs: seq<Event>): (seq<Host>, seq<Outcome>)
    decreases |evs|
  {
    if evs == [] then (hosts, [])
    else
      var (mid, o) := StepDirect(datapath, cbench, hosts, evs[0]);
      var (end, os) := RunDirect(datapath, cbench, mid, evs[1..]);
      (end, o + os)
  }

  // ----- What every rule in the switch still says about the host table -----

  ghost predicate RuleSound(hosts: seq<Host>, key: Key, port: u16) {
    && port != 0 && Lookup(hosts, key.dlDst) == port && key.dlVlan == VLAN_NONE
    && if key.dlType == TYPE_ARP then Known(hosts, key.dlSrc) && key.dlDst != BROADCAST
       else key.dlType == TYPE_IP && Ruled(key.nwProto)
  }

  ghost predicate CacheSound(sw: Switch) {
    forall key :: key in sw.rules ==> RuleSound(sw.hosts, key, sw.rules[key])
  }

  lemma PuntedHead(ev: Event)
    requires ev.Arrive?
    ensures SameHead(ev.frame, Punted(ev))
  {
    MissSendLenIs();
    hide MissSendLen;
  }

  /** The answer to a miss, in terms of the whole frame. */
  lemma MissIs(datapath: u64, cbench: bool, sw: Switch, ev: Event)
    requires ev.Arrive?
    ensures var hosts := Learn(sw.hosts, datapath, ev.inPort, ev.frame);
      var d := Decide(hosts, cbench, ev.inPort, ev.frame);
      Miss(datapath, cbench, sw, ev) ==
        (Switch(hosts, if d.Install? then sw.rules[d.key := d.port] else sw.rules),
         if ev.bufferId == NO_BUFFER || d.Ignore? then Dropped
         else if d.Flood? then Flooded(ev.inPort) else SentTo(d.port))
  {
    hide Hear, FloodMsg, RuleMsg, Learn, Decide, Punted;
    PuntedHead(ev);
    DecisionReadsHead(sw.hosts, datapath, cbench, ev.inPort, ev.frame, Punted(ev));
    var hosts := Learn(sw.hosts, datapath, ev.inPort, ev.frame);
    DecisionReadsHead(hosts, datapath, cbench, ev.inPort, ev.frame, Punted(ev));
    match Decide(hosts, cbench, ev.inPort, ev.frame)
    case Ignore =>
    case Flood => FloodMsgDecodes(ev.xid, ev.bufferId, ev.inPort);
    case Install(key, port) => RuleMsgDecodes(key, port, ev.xid, ev.bufferId);
  }

  lemma RuleStaysSound(hosts: seq<Host>, datapath: u64, inPort: u16, f: seq<byte>, key: Key, port: u16)
    requires RuleSound(hosts, key, port)
    ensures RuleSound(Learn(hosts, datapath, inPort, f), key, port)
  {
    LearnKeepsAnswers(hosts, datapath, inPort, f, key.dlDst);
    LearnKeepsAnswers(hosts, datapath, inPort, f, key.dlSrc);
  }

  lemma NewRuleSound(hosts: seq<Host>, datapath: u64, cbench: bool, inPort: u16, f: seq<byte>)
    ensures var after := Learn(hosts, datapath, inPort, f);
      var d := Decide(after, cbench, inPort, f);
      d.Install? ==> RuleSound(after, d.key, d.port)
  {
    LearnKeepsAnswers(hosts, datapath, inPort, f, Src(f));
  }

  /** Every step keeps every rule true of the current table: rules are made only for known
      destinations, the table only grows, and an ARP rule's source is learned first. */
  lemma StepKeepsCacheSound(datapath: u64, cbench: bool, sw: Switch, ev: Event)
    requires CacheSound(sw)
    ensures CacheSound(StepCached(datapath, cbench, sw, ev).0)
  {
    if ev.Arrive? && !Hits(sw.rules, ev) {
      MissIs(datapath, cbench, sw, ev);
      NewRuleSound(sw.hosts, datapath, cbench, ev.inPort, ev.frame);
      forall key | key in sw.rules
        ensures RuleSound(Learn(sw.hosts, datapath, ev.inPort, ev.frame), key, sw.rules[key])
      {
        RuleStaysSound(sw.hosts, datapath, ev.inPort, ev.frame, key, sw.rules[key]);
      }
    }
  }

  // ----- Transparency -----

  /** The frame is buffered and its type field is an Ethernet type, not an 802.3 length. */
  predicate Plain(ev: Event) {
    ev.Arrive? ==> ev.bufferId != NO_BUFFER && EthType(ev.frame) >= ETH2_CUTOFF
  }

  /** A hit leaves the table as the controller would, and outputs as the controller would
      exactly when the frame is plain. */
  lemma HitIsTransparentIff(datapath: u64, cbench: bool, sw: Switch, ev: Event)
    requires CacheSound(sw) && Hits(sw.rules, ev)
    ensures StepDirect(datapath, cbench, sw.hosts, ev).0 == sw.hosts
    ensures StepCached(datapath, cbench, sw, ev).1 == StepDirect(datapath, cbench, sw.hosts, ev).1 <==> Plain(ev)
  {
    var key := SwitchKey(ev.inPort, ev.frame);
    assert RuleSound(sw.hosts, key, sw.rules[key]);
    MissIs(datapath, cbench, Switch(sw.hosts, map[]), ev);
    assert EthType(ev.frame) != TYPE_VLAN;
    assert key.dlSrc == Src(ev.frame) && key.dlDst == Dst(ev.frame);
    if EthType(ev.frame) >= ETH2_CUTOFF {
      assert key.dlType == EthType(ev.frame);
      assert key.dlType == TYPE_IP ==> key.nwProto == At(ev.frame, 23);
    }
  }

  ghost predicate HitsArePlain(datapath: u64, cbench: bool, sw: Switch, evs: seq<Event>)
    decreases |evs|
  {
    evs != [] ==>
      && (Hits(sw.rules, evs[0]) ==> Plain(evs[0]))
      && HitsArePlain(datapath, cbench, StepCached(datapath, cbench, sw, evs[0]).0, evs[1..])
  }

  lemma StepAgrees(datapath: u64, cbench: bool, sw: Switch, ev: Event)
    requires CacheSound(sw)
    ensures var c, d := StepCached(datapath, cbench, sw, ev), StepDirect(datapath, cbench, sw.hosts, ev);
      && c.0.hosts == d.0 && |c.1| == |d.1|
      && (c.1 == d.1 <==> (Hits(sw.rules, ev) ==> Plain(ev)))
  {
    if Hits(sw.rules, ev) {
      HitIsTransparentIff(datapath, cbench, sw, ev);
    } else if ev.Arrive? {
      MissIs(datapath, cbench, sw, ev);
      MissIs(datapath, cbench, Switch(sw.hosts, map[]), ev);
    }
  }

  /** Over every run and every expiry schedule the host table is the one a controller seeing
      every frame would build, and the outputs are the same exactly when no frame that hits a
      rule is unbuffered or SNAP-encapsulated. */
  lemma {:induction false} CacheInvisibleIff(datapath: u64, cbench: bool, sw: Switch, evs: seq<Event>)
    requires CacheSound(sw)
    ensures RunCached(datapath, cbench, sw, evs).0.hosts == RunDirect(datapath, cbench, sw.hosts, evs).0
    ensures |RunCached(datapath, cbench, sw, evs).1| == |RunDirect(datapath, cbench, sw.hosts, evs).1|
    ensures RunCached(datapath, cbench, sw, evs).1 == RunDirect(datapath, cbench, sw.hosts, evs).1
      <==> HitsArePlain(datapath, cbench, sw, evs)
    decreases |evs|
  {
    if evs == [] {
    } else {
      StepAgrees(datapath, cbench, sw, evs[0]);
      StepKeepsCacheSound(datapath, cbench, sw, evs[0]);
      var (mid, o) := StepCached(datapath, cbench, sw, evs[0]);
      var (_, o') := StepDirect(datapath, cbench, sw.hosts, evs[0]);
      CacheInvisibleIff(datapath, cbench, mid, evs[1..]);
      SplitEqual(o, RunCached(datapath, cbench, mid, evs[1..]).1,
                 o', RunDirect(datapath, cbench, mid.hosts, evs[1..]).1);
    }
  }

  lemma SplitEqual<T>(a: seq<T>, b: seq<T>, c: seq<T>, d: seq<T>)
    requires |a| == |c|
    ensures a + b == c + d <==> a == c && b == d
  {
    if a + b == c + d {
      assert a == (a + b)[..|a|] && b == (a + b)[|a|..];
      assert c == (c + d)[..|c|] && d == (c + d)[|c|..];
    }
  }

  /** From an empty connection, plain traffic never shows the cache. */
  lemma CacheInvisible(datapath: u64, cbench: bool, evs: seq<Event>)
    requires forall ev :: ev in evs ==> Plain(ev)
    ensures RunCached(datapath, cbench, Switch([], map[]), evs).1 == RunDirect(datapath, cbench, [], evs).1
    ensures RunCached(datapath, cbench, Switch([], map[]), evs).0.hosts == RunDirect(datapath, cbench, [], evs).0
  {
    PlainHits(datapath, cbench, Switch([], map[]), evs);
    CacheInvisibleIff(datapath, cbench, Switch([], map[]), evs);
  }

  lemma {:induction false} PlainHits(datapath: u64, cbench: bool, sw: Switch, evs: seq<Event>)
    requires forall ev :: ev in evs ==> Plain(ev)
    ensures HitsArePlain(datapath, cbench, sw, evs)
    decreases |evs|
  {
    if evs == [] {
    } else {
      PlainHits(datapath, cbench, StepCached(datapath, cbench, sw, evs[0]).0, evs[1..]);
    }
  }

  // ----- The two ways the cache shows -----

  /** B (02:..:0B) asks by broadcast ARP; A (02:..:0A) pings B, in Ethernet II and in SNAP. */
  const ARP_B: seq<byte> := [255, 255, 255, 255, 255, 255, 2, 0, 0, 0, 0, 11, 8, 6, 0, 1, 8, 0, 6, 4, 0, 1]
  const PING: seq<byte> := [2, 0, 0, 0, 0, 11, 2, 0, 0, 0, 0, 10, 8, 0, 0x45, 0, 0, 28, 0, 0, 0, 0, 64, 1]
  const PING_SNAP: seq<byte> :=
    [2, 0, 0, 0, 0, 11, 2, 0, 0, 0, 0, 10, 0, 36, 0xaa, 0xaa, 3, 0, 0, 0, 8, 0, 0x45, 0, 0, 28, 0, 0, 0, 0, 64, 1]

  function PingKey(a: Mac, b: Mac): Key {
    Key(1, a, b, VLAN_NONE, 0, TYPE_IP, 0, PROTO_ICMP, 0, 0, 0, 0)
  }

  /** The fields of an option-free, unfragmented ICMP echo reply with zero addresses. */
  predicate PingAt(f: seq<byte>, n: nat) {
    && At(f, n) % 16 == 5 && At(f, n + 1) == 0 && Be16(f, n + 6) == 0 && At(f, n + 9) == PROTO_ICMP
    && Be32(f, n + 12) == 0 && Be32(f, n + 16) == 0 && Be16(f, n + 20) == 0
  }

  lemma PingKeys(f: seq<byte>)
    requires EthType(f) == TYPE_IP && PingAt(f, 14)
    ensures RuleKey(1, f) == PingKey(Src(f), Dst(f))
    ensures SwitchKey(1, f) == PingKey(Src(f), Dst(f))
  {
    IpRuleMatchesIff(1, f);
  }

  lemma SnapPingKey(f: seq<byte>)
    requires Snap(f) && Be16(f, 20) == TYPE_IP && PingAt(f, 22)
    ensures SwitchKey(1, f) == PingKey(Src(f), Dst(f))
  {
    assert NetworkAt(f) == 22 && !Fragment(f) && TransportAt(f) == 42;
    assert TpSrc(f) == 0 && TpDst(f) == 0;
  }

  lemma ArpFrame() returns (f: seq<byte>)
    ensures EthType(f) == TYPE_ARP && Dst(f) == BROADCAST && Src(f) == [2, 0, 0, 0, 0, 11]
  {
    f := ARP_B;
  }

  lemma PingFrame() returns (f: seq<byte>)
    ensures EthType(f) == TYPE_IP && PingAt(f, 14) && At(f, 23) == PROTO_ICMP
    ensures Src(f) == [2, 0, 0, 0, 0, 10] && Dst(f) == [2, 0, 0, 0, 0, 11]
  {
    f := PING;
  }

  lemma SnapFrame() returns (f: seq<byte>)
    ensures Snap(f) && EthType(f) < ETH2_CUTOFF && Be16(f, 20) == TYPE_IP && PingAt(f, 22)
    ensures Src(f) == [2, 0, 0, 0, 0, 10] && Dst(f) == [2, 0, 0, 0, 0, 11]
  {
    f := PING_SNAP;
  }

  lemma FirstIsLearned(datapath: u64, cbench: bool, none: Switch, arp: Event)
    requires none.hosts == [] && none.rules == map[]
    requires arp.Arrive? && arp.inPort == 2 && EthType(arp.frame) == TYPE_ARP && Dst(arp.frame) == BROADCAST
    ensures var one := StepCached(datapath, cbench, none, arp).0;
      one.rules == map[] && Lookup(one.hosts, Src(arp.frame)) == 2
  {
    MissIs(datapath, cbench, none, arp);
  }

  lemma SecondIsInstalled(datapath: u64, cbench: bool, one: Switch, ping: Event)
    requires ping.Arrive? && EthType(ping.frame) == TYPE_IP && At(ping.frame, 23) == PROTO_ICMP
    requires one.rules == map[] && Lookup(one.hosts, Dst(ping.frame)) == 2
    ensures RuleKey(ping.inPort, ping.frame) in StepCached(datapath, cbench, one, ping).0.rules
  {
    MissIs(datapath, cbench, one, ping);
  }

  /** Once the destination is learned and the first ping has installed its rule, repeating the
      ping in a form that is not plain makes the outputs differ. */
  lemma RepeatShows(datapath: u64, cbench: bool, none: Switch, evs: seq<Event>)
    requires none.hosts == [] && none.rules == map[]
    requires |evs| == 3 && evs[0].Arrive? && evs[1].Arrive? && evs[2].Arrive?
    requires evs[0].inPort == 2 && EthType(evs[0].frame) == TYPE_ARP && Dst(evs[0].frame) == BROADCAST
    requires EthType(evs[1].frame) == TYPE_IP && At(evs[1].frame, 23) == PROTO_ICMP
    requires Dst(evs[1].frame) == Src(evs[0].frame)
    requires SwitchKey(evs[2].inPort, evs[2].frame) == RuleKey(evs[1].inPort, evs[1].frame) && !Plain(evs[2])
    ensures RunCached(datapath, cbench, none, evs).1 != RunDirect(datapath, cbench, none.hosts, evs).1
  {
    FirstIsLearned(datapath, cbench, none, evs[0]);
    var one := StepCached(datapath, cbench, none, evs[0]).0;
    SecondIsInstalled(datapath, cbench, one, evs[1]);
    var two := StepCached(datapath, cbench, one, evs[1]).0;
    assert Hits(two.rules, evs[2]);
    assert evs[1..][0] == evs[1] && evs[1..][1..] == evs[2..] && evs[2..][0] == evs[2];
    assert !HitsArePlain(datapath, cbench, two, evs[2..]);
    assert !HitsArePlain(datapath, cbench, one, evs[1..]);
    CacheInvisibleIff(datapath, cbench, none, evs);
  }

  /** The two concrete repeats: the same ping unbuffered, and the same datagram in SNAP. */
  lemma CacheShows(datapath: u64, cbench: bool, none: Switch, snap: bool) returns (evs: seq<Event>)
    requires none.hosts == [] && none.rules == map[]
    ensures |evs| == 3 && (forall i :: 0 <= i < 3 ==> evs[i].Arrive?)
    ensures Plain(evs[0]) && Plain(evs[1])
    ensures if snap then Snap(evs[2].frame) && evs[2].bufferId != NO_BUFFER
            else evs[2].frame == evs[1].frame && evs[2].bufferId == NO_BUFFER
    ensures RunCached(datapath, cbench, none, evs).1 != RunDirect(datapath, cbench, none.hosts, evs).1
  {
    hide RunCached, RunDirect, SwitchKey, RuleKey, PingKey, PingAt, At, EthType, Snap, Src, Dst;
    var arp := ArpFrame();
    var ping := PingFrame();
    var other := SnapFrame();
    PingKeys(ping);
    SnapPingKey(other);
    evs := [Arrive(2, 5, 7, arp), Arrive(1, 6, 8, ping),
            if snap then Arrive(1, 7, 9, other) else Arrive(1, NO_BUFFER, 9, ping)];
    RepeatShows(datapath, cbench, none, evs);
  }
}
