/** Whole runs of the receive thread: what one `recv` brings about, what a failed one does, and
    the host table after any number of them. */
module Connection {
  import opened Bytes
  import opened OpenFlow
  import opened Matching
  import opened Learning
  import opened Handlers
  import Anim

  /** Handling `s` comes to an end: in cbench mode the loop does. */
  predicate Terminates(cbench: bool, s: seq<byte>) {
    cbench ==> Progresses(s, 0, |s|)
  }

  /** What the source demands of a reception without asking: it fits the buffer, the loop ends,
      and every message handled reads inside the buffer. */
  predicate Accepts(cbench: bool, s: seq<byte>): (r: bool)
    ensures r ==> Terminates(cbench, s)
  {
    && |s| <= READ_BUFFER_SIZE
    && if cbench then Runs(s, 0, |s|) else At(s, 0) == VERSION ==> Readable(s, 0)
  }

  function InformationState(st: State, cbench: bool, s: seq<byte>): (State, bool)
    requires Terminates(cbench, s)
  {
    if cbench then LoopState(st, cbench, s, 0, |s|) else SingleState(st, cbench, s)
  }

  /** All four tables are freed; the switch identifier and the port count survive. */
  function Reconnected(st: State): State {
    st.(hosts := [], ports := [], links := [], replys := [])
  }

  /** `received` is empty when `recv` failed or the peer closed. */
  function CommunicateState(st: State, cbench: bool, received: seq<byte>): (State, bool)
    requires Terminates(cbench, received)
  {
    InformationState(if received == [] then Reconnected(st) else st, cbench, received)
  }

  predicate AllTerminate(cbench: bool, recvs: seq<seq<byte>>) {
    forall i :: 0 <= i < |recvs| ==> Terminates(cbench, recvs[i])
  }

  predicate AllAccepted(cbench: bool, recvs: seq<seq<byte>>): (r: bool)
    ensures r ==> AllTerminate(cbench, recvs)
  {
    forall i :: 0 <= i < |recvs| ==> Accepts(cbench, recvs[i])
  }

  /** The main loop, until a handler fails. */
  function ServeState(st: State, cbench: bool, recvs: seq<seq<byte>>): (State, bool)
    requires AllTerminate(cbench, recvs)
    decreases |recvs|
  {
    if recvs == [] then (st, true)
    else
      var (mid, ok) := CommunicateState(st, cbench, recvs[0]);
      if ok then ServeState(mid, cbench, recvs[1..]) else (mid, false)
  }

  /** Serving more receptions is serving them after the first, unless a handler failed. */
  lemma {:induction false} ServeBoth(st: State, cbench: bool, a: seq<seq<byte>>, b: seq<seq<byte>>)
    requires AllTerminate(cbench, a) && AllTerminate(cbench, b)
    ensures AllTerminate(cbench, a + b)
    ensures ServeState(st, cbench, a + b) ==
      var (mid, ok) := ServeState(st, cbench, a);
      if ok then ServeState(mid, cbench, b) else (mid, false)
    decreases |a|
  {
    hide CommunicateState, Terminates;
    if a == [] {
      assert a + b == b;
    } else {
      assert (a + b)[1..] == a[1..] + b && (a + b)[0] == a[0];
      ServeBoth(CommunicateState(st, cbench, a[0]).0, cbench, a[1..], b);
    }
  }

  lemma ServeOne(st: State, cbench: bool, received: seq<byte>)
    requires Terminates(cbench, received)
    ensures AllTerminate(cbench, [received])
    ensures ServeState(st, cbench, [received]) == CommunicateState(st, cbench, received)
  {
    hide CommunicateState, Terminates;
    assert [received][1..] == [];
  }

  /** Reconnecting outside cbench mode greets the new connection at once: the cleared read buffer
      passes for a HELLO with transaction id 0. */
  lemma ReconnectGreets(st: State, cbench: bool)
    ensures Terminates(cbench, [])
    ensures var (after, ok) := CommunicateState(st, cbench, []);
      && ok && after.hosts == [] && after.ports == [] && after.links == [] && after.replys == []
      && after.switchId == st.switchId && after.noOfPorts == st.noOfPorts
      && after.sent == st.sent +
           if cbench then [] else [HeaderMsg(Header(HELLO, 8, 0)), HeaderMsg(Header(FEATURES_REQUEST, 8, 1))]
  {
    assert Be32([], 4) == 0;
  }

  // ----- The host table after any run -----

  /** The packet-in at `pos`, when the message there is one. */
  function Seen(st: State, s: seq<byte>, pos: nat): seq<Arrival> {
    if At(s, pos + 1) == PACKET_IN then [Arrival(st.switchId, Be16(s, pos + 14), From(s, pos + 18))] else []
  }

  /** `h` extended by the packet-ins the loop handles, in order. */
  function LoopHistory(st: State, h: seq<Arrival>, cbench: bool, s: seq<byte>, pos: nat, counter: int): seq<Arrival>
    requires Progresses(s, pos, counter)
    decreases counter
  {
    if Stops(s, pos, counter) then h
    else
      var now := h + Seen(st, s, pos);
      if Fails(s, pos) then now
      else LoopHistory(MessageState(st, cbench, s, pos).0, now, cbench, s,
                       pos + Be16(s, pos + 2), counter - Be16(s, pos + 2))
  }

  function InformationHistory(st: State, h: seq<Arrival>, cbench: bool, s: seq<byte>): seq<Arrival>
    requires Terminates(cbench, s)
  {
    if cbench then LoopHistory(st, h, cbench, s, 0, |s|)
    else if At(s, 0) == VERSION then h + Seen(st, s, 0)
    else h
  }

  /** The packet-ins handled since the last reconnect, after `h`. */
  function History(st: State, h: seq<Arrival>, cbench: bool, recvs: seq<seq<byte>>): seq<Arrival>
    requires AllTerminate(cbench, recvs)
    decreases |recvs|
  {
    if recvs == [] then h
    else
      var (mid, ok) := CommunicateState(st, cbench, recvs[0]);
      var anew := recvs[0] == [];
      var now := InformationHistory(if anew then Reconnected(st) else st, if anew then [] else h, cbench, recvs[0]);
      if ok then History(mid, now, cbench, recvs[1..]) else now
  }

  /** Only a packet-in changes the host table, and then by `Learn`. */
  lemma MessageLearns(st: State, h: seq<Arrival>, cbench: bool, s: seq<byte>, pos: nat)
    requires st.hosts == HostsAfter(h)
    ensures MessageState(st, cbench, s, pos).0.hosts == HostsAfter(h + Seen(st, s, pos))
  {
    if At(s, pos + 1) == PACKET_IN {
      var a := Arrival(st.switchId, Be16(s, pos + 14), From(s, pos + 18));
      assert (h + [a])[..|h|] == h;
      assert HostsAfter(h + [a]) == Learn(st.hosts, a.datapath, a.inPort, a.frame);
      assert MessageState(st, cbench, s, pos).0 == PacketInState(st, cbench, s, pos);
    } else {
      assert h + [] == h;
    }
  }

  lemma {:induction false} LoopLearns(st: State, h: seq<Arrival>, cbench: bool, s: seq<byte>, pos: nat, counter: int)
    requires Progresses(s, pos, counter) && st.hosts == HostsAfter(h)
    ensures LoopState(st, cbench, s, pos, counter).0.hosts == HostsAfter(LoopHistory(st, h, cbench, s, pos, counter))
    decreases counter
  {
    hide MessageState, Seen, Fails, Be16;
    if Stops(s, pos, counter) {
    } else {
      MessageLearns(st, h, cbench, s, pos);
      if !Fails(s, pos) {
        LoopLearns(MessageState(st, cbench, s, pos).0, h + Seen(st, s, pos), cbench, s,
                   pos + Be16(s, pos + 2), counter - Be16(s, pos + 2));
      }
    }
  }

  lemma InformationLearns(st: State, h: seq<Arrival>, cbench: bool, s: seq<byte>)
    requires Terminates(cbench, s) && st.hosts == HostsAfter(h)
    ensures InformationState(st, cbench, s).0.hosts == HostsAfter(InformationHistory(st, h, cbench, s))
  {
    hide MessageState, LoopState, LoopHistory, Seen;
    if cbench {
      LoopLearns(st, h, cbench, s, 0, |s|);
    } else if At(s, 0) == VERSION {
      MessageLearns(st, h, cbench, s, 0);
    }
  }

  lemma {:induction false} ServeLearns(st: State, h: seq<Arrival>, cbench: bool, recvs: seq<seq<byte>>)
    requires AllTerminate(cbench, recvs) && st.hosts == HostsAfter(h)
    ensures ServeState(st, cbench, recvs).0.hosts == HostsAfter(History(st, h, cbench, recvs))
    decreases |recvs|
  {
    hide InformationState, InformationHistory, Terminates;
    if recvs == [] {
    } else {
      var anew := recvs[0] == [];
      var start, h' := if anew then Reconnected(st) else st, if anew then [] else h;
      assert start.hosts == HostsAfter(h');
      InformationLearns(start, h', cbench, recvs[0]);
      var (mid, ok) := CommunicateState(st, cbench, recvs[0]);
      if ok {
        ServeLearns(mid, InformationHistory(start, h', cbench, recvs[0]), cbench, recvs[1..]);
      }
    }
  }

  /** From the octets received to the table: after any run, reconnects included, the table's
      addresses are distinct, and it holds in first-seen order the port and IP of the first ARP
      frame of each source since the last reconnect. */
  lemma ServedHostsAreFirstArps(st: State, cbench: bool, recvs: seq<seq<byte>>)
    requires AllTerminate(cbench, recvs) && st.hosts == []
    ensures var t := ServeState(st, cbench, recvs).0.hosts;
      var h := History(st, [], cbench, recvs);
      var firsts := FirstArps(h, |h|);
      && |t| == |firsts|
      && (forall i :: 0 <= i < |t| ==>
            firsts[i] < |h| && t[i] == EntryFor(h[firsts[i]]))
      && (forall i, j :: 0 <= i < j < |t| ==> t[i].mac != t[j].mac)
  {
    ServeLearns(st, [], cbench, recvs);
    HostTableIsFirstArps(History(st, [], cbench, recvs));
  }

  // ----- A batch of messages, and the same messages one at a time -----

  /** A framed message of version 1 that holds everything its handler reads. */
  predicate Whole(f: seq<byte>) {
    WellSized(f) && At(f, 0) == VERSION && Needs(f, 0) <= |f|
  }

  predicate Holds(s: seq<byte>, pos: nat, f: seq<byte>) {
    forall i: nat :: i < |f| ==> At(s, pos + i) == At(f, i)
  }

  lemma PortsAreLocal(s: seq<byte>, pos: nat, f: seq<byte>, n: nat)
    requires Holds(s, pos, f) && 32 + 48 * n <= |f|
    ensures PortsAt(s, pos, n) == PortsAt(f, 0, n)
  {
    forall i | 0 <= i < n ensures PortAt(s, pos, i) == PortAt(f, 0, i) {
      assert Be32(s, pos + 8) == Be32(f, 8) && Be32(s, pos + 12) == Be32(f, 12);
    }
  }

  lemma FeaturesAreLocal(st: State, s: seq<byte>, pos: nat, f: seq<byte>)
    requires Holds(s, pos, f) && Whole(f) && At(f, 1) == FEATURES_REPLY
    ensures FeaturesState(st, s, pos) == FeaturesState(st, f, 0)
  {
    assert Be16(s, pos + 2) == Be16(f, 2) && Be32(s, pos + 4) == Be32(f, 4);
    assert Be32(s, pos + 8) == Be32(f, 8) && Be32(s, pos + 12) == Be32(f, 12);
    var n := PortCount(f, 0);
    if n > 0 {
      PortsAreLocal(s, pos, f, n);
    }
  }

  lemma PacketInIsLocal(st: State, cbench: bool, s: seq<byte>, pos: nat, f: seq<byte>)
    requires Holds(s, pos, f) && Whole(f) && At(f, 1) == PACKET_IN
    ensures PacketInState(st, cbench, s, pos) == PacketInState(st, cbench, f, 0)
  {
    hide Decide, Learn, Emit;
    assert Be32(s, pos + 4) == Be32(f, 4) && Be32(s, pos + 8) == Be32(f, 8) && Be16(s, pos + 14) == Be16(f, 14);
    var g, h := From(f, 18), From(s, pos + 18);
    assert forall i: nat :: i < FrameNeeds(g) ==> At(g, i) == At(h, i);
    assert EthType(g) == EthType(h);
    if EthType(g) == TYPE_LLDP {
      assert Anim.Parse(g) == Anim.Parse(h);
    } else {
      var inPort := Be16(f, 14);
      DecisionReadsHead(st.hosts, st.switchId, cbench, inPort, g, h);
      DecisionReadsHead(Learn(st.hosts, st.switchId, inPort, g), st.switchId, cbench, inPort, g, h);
    }
  }

  lemma MessageIsLocal(st: State, cbench: bool, s: seq<byte>, pos: nat, f: seq<byte>)
    requires Holds(s, pos, f) && Whole(f)
    ensures MessageState(st, cbench, s, pos) == MessageState(st, cbench, f, 0)
    ensures !Stops(s, pos, |f|) && Be16(s, pos + 2) == |f| && (Fails(s, pos) <==> Fails(f, 0))
  {
    hide PacketInState, FeaturesState, FrameNeeds;
    assert At(s, pos) == At(f, 0) && At(s, pos + 1) == At(f, 1);
    assert Be16(s, pos + 2) == Be16(f, 2);
    if At(f, 1) == FEATURES_REPLY {
      ShortReplyOverruns(f, 0);
      FeaturesAreLocal(st, s, pos, f);
    } else if At(f, 1) == PACKET_IN {
      PacketInIsLocal(st, cbench, s, pos, f);
    } else {
      assert Be32(s, pos + 4) == Be32(f, 4);
    }
  }

  /** Each message handled in a buffer of its own. */
  function OneByOne(st: State, cbench: bool, frames: seq<seq<byte>>): (State, bool)
    decreases |frames|
  {
    if frames == [] then (st, true)
    else
      var (mid, ok) := MessageState(st, cbench, frames[0], 0);
      if ok then OneByOne(mid, cbench, frames[1..]) else (mid, false)
  }

  lemma {:induction false} BatchFrom(st: State, cbench: bool, s: seq<byte>, pos: nat, frames: seq<seq<byte>>)
    requires pos <= |s| && s[pos..] == Concat(frames) && forall f :: f in frames ==> Whole(f)
    ensures Progresses(s, pos, |s| - pos)
    ensures LoopState(st, cbench, s, pos, |s| - pos) == OneByOne(st, cbench, frames)
    decreases |frames|
  {
    hide MessageState, Whole, Be16, Fails;
    if frames == [] {
    } else {
      var f := frames[0];
      assert f in frames;
      WholeFits(s, pos, frames);
      MessageIsLocal(st, cbench, s, pos, f);
      FailsIff(st, cbench, f, 0);
      BatchFrom(MessageState(st, cbench, f, 0).0, cbench, s, pos + |f|, frames[1..]);
    }
  }

  lemma WholeFits(s: seq<byte>, pos: nat, frames: seq<seq<byte>>)
    requires pos <= |s| && s[pos..] == Concat(frames) && frames != [] && Whole(frames[0])
    ensures var f := frames[0];
      8 <= |f| <= |s| - pos && Holds(s, pos, f) && s[pos + |f|..] == Concat(frames[1..])
  {
    var f := frames[0];
    FirstFrame(s, pos, frames);
    forall i: nat | i < |f| ensures At(s, pos + i) == At(f, i) {
      assert s[pos..pos + |f|][i] == f[i];
    }
  }

  /** However TCP batches whole messages into one reception, the cbench loop does what handling
      each alone would do. */
  lemma BatchIsOneByOne(st: State, cbench: bool, frames: seq<seq<byte>>)
    requires forall f :: f in frames ==> Whole(f)
    ensures Progresses(Concat(frames), 0, |Concat(frames)|)
    ensures LoopState(st, cbench, Concat(frames), 0, |Concat(frames)|) == OneByOne(st, cbench, frames)
  {
    var s := Concat(frames);
    assert s[0..] == s;
    BatchFrom(st, cbench, s, 0, frames);
  }
}
