/** What the receive thread does to the controller's state, as functions of the octets received:
    the specification `Controller` is proved against, and the subject of the framing and decoding
    theorems.

    `s` is one `recv` worth of octets and `pos` the offset of a message in it; beyond `s` the
    read buffer is zero. */
module Handlers {
  import opened Bytes
  import opened OpenFlow
  import opened Matching
  import opened Learning
  import opened Protocol
  import opened Anim

  datatype SwitchPort = SwitchPort(datapath: u64, port: u16, mac: Mac)
  datatype Reply = Reply(port: u16, rec: bool)

  datatype State = State(
    xid: u32, switchId: u64, noOfPorts: int, counter: nat, locked: bool, sharers: nat,
    hosts: seq<Host>, ports: seq<SwitchPort>, replys: seq<Reply>, links: seq<Link>,
    sent: seq<seq<byte>>)

  function NextXid(xid: u32): u32 {
    (xid + 1) % 0x1_0000_0000
  }

  function HelloState(st: State, s: seq<byte>, pos: nat): State {
    var xid := Be32(s, pos + 4);
    st.(xid := NextXid(xid),
        sent := st.sent + [HeaderMsg(Header(HELLO, 8, xid)), HeaderMsg(Header(FEATURES_REQUEST, 8, NextXid(xid)))])
  }

  function EchoState(st: State, s: seq<byte>, pos: nat): State {
    var xid := Be32(s, pos + 4);
    st.(xid := xid, sent := st.sent + [HeaderMsg(Header(ECHO_REPLY, 8, xid))])
  }

  // ----- Features reply -----

  lemma CountIs(length: u16)
    ensures var n := (length - 32) % 0x1_0000_0000_0000_0000 / 48 % 0x1_0000_0000;
      if length >= 32 then n == (length - 32) / 48 else n >= 0x5555_5554
  {
    if length >= 32 {
      assert (length - 32) % 0x1_0000_0000_0000_0000 == length - 32;
    } else {
      assert (length - 32) % 0x1_0000_0000_0000_0000 == 0x1_0000_0000_0000_0000 + length - 32;
    }
  }

  /** The source computes in 64-bit unsigned arithmetic and keeps 32 bits. */
  function CountOf(length: u16): (n: nat)
    ensures length >= 32 ==> n == (length - 32) / 48
    ensures length < 32 ==> n >= 0x5555_5554
  {
    CountIs(length);
    (length - 32) % 0x1_0000_0000_0000_0000 / 48 % 0x1_0000_0000
  }

  function PortCount(s: seq<byte>, pos: nat): nat {
    CountOf(Be16(s, pos + 2))
  }

  function PortAt(s: seq<byte>, pos: nat, i: nat): SwitchPort {
    SwitchPort(Be64(s, pos + 8), Be16(s, pos + 32 + 48 * i), MacAt(s, pos + 34 + 48 * i))
  }

  function PortsAt(s: seq<byte>, pos: nat, n: nat): seq<SwitchPort> {
    seq(n, i requires 0 <= i < n => PortAt(s, pos, i))
  }

  function ConfigMsg(xid: u32): seq<byte> {
    SwitchConfigMsg(SwitchConfig(Header(SET_CONFIG, 12, xid), 0, 128))
  }

  /** With no ports the handler fails, and leaves the mutex locked. */
  function FeaturesState(st: State, s: seq<byte>, pos: nat): (State, bool) {
    var xid := Be32(s, pos + 4);
    var n := PortCount(s, pos);
    if n == 0 then (st.(xid := xid, noOfPorts := 0, locked := true), false)
    else
      (st.(xid := NextXid(xid), noOfPorts := n, switchId := Be64(s, pos + 8), sharers := st.sharers + 1,
           ports := st.ports + PortsAt(s, pos, n), sent := st.sent + [ConfigMsg(NextXid(xid))]), true)
  }

  // ----- Packet-in -----

  function PacketInState(st: State, cbench: bool, s: seq<byte>, pos: nat): State {
    var xid, bufferId, inPort, f := Be32(s, pos + 4), Be32(s, pos + 8), Be16(s, pos + 14), From(s, pos + 18);
    if EthType(f) == TYPE_LLDP then
      AnimState(st.(xid := xid), inPort, Parse(f))
    else
      var hosts := Learn(st.hosts, st.switchId, inPort, f);
      st.(xid := xid, hosts := hosts, sent := st.sent + Emit(Decide(hosts, cbench, inPort, f), xid, bufferId, inPort))
  }

  /** The four effects of a discovery message: an answer, an entry in either table, a reset. */
  function Answers(inPort: u16, m: Option<Msg>): seq<seq<byte>> {
    if m == Some(EchoRequest) then [AnimMsg(inPort, EchoReply)] else []
  }

  function NewReplys(inPort: u16, m: Option<Msg>): seq<Reply> {
    if m == Some(EchoReply) then [Reply(inPort, true)] else []
  }

  function NewLinks(switchId: u64, inPort: u16, m: Option<Msg>): seq<Link> {
    if m.Some? && m.value.Node? then [Link(NodeId(switchId, inPort), m.value.id)] else []
  }

  function CounterAfter(counter: nat, m: Option<Msg>): nat {
    if m.Some? && m.value.Node? then 0 else counter
  }

  function AnimState(st: State, inPort: u16, m: Option<Msg>): State {
    st.(sent := st.sent + Answers(inPort, m), replys := st.replys + NewReplys(inPort, m),
        links := st.links + NewLinks(st.switchId, inPort, m), counter := CounterAfter(st.counter, m))
  }

  // ----- One message, and the loop over the buffer -----

  function MessageState(st: State, cbench: bool, s: seq<byte>, pos: nat): (State, bool) {
    var kind := At(s, pos + 1);
    if kind == HELLO then (HelloState(st, s, pos), true)
    else if kind == FEATURES_REPLY then FeaturesState(st, s, pos)
    else if kind == PACKET_IN then (PacketInState(st, cbench, s, pos), true)
    else if kind == ECHO_REQUEST then (EchoState(st, s, pos), true)
    else (st, true)
  }

  /** The loop guard fails or the version is not 1. */
  predicate Stops(s: seq<byte>, pos: nat, counter: int) {
    counter <= 0 || At(s, pos) != VERSION
  }

  /** The one handler that fails: a features reply without ports. */
  predicate Fails(s: seq<byte>, pos: nat) {
    At(s, pos + 1) == FEATURES_REPLY && PortCount(s, pos) == 0
  }

  lemma FailsIff(st: State, cbench: bool, s: seq<byte>, pos: nat)
    ensures MessageState(st, cbench, s, pos).1 <==> !Fails(s, pos)
  {
    hide PortCount, PacketInState, HelloState, EchoState;
  }

  /** The loop by its own steps: `Running` at the head of a pass, `Ended` once it returned. */
  datatype Loop =
    | Running(st: State, pos: nat, counter: int)
    | Ended(st: State, ok: bool)

  function Pass(l: Loop, cbench: bool, s: seq<byte>): Loop {
    match l
    case Ended(_, _) => l
    case Running(st, pos, counter) =>
      if Stops(s, pos, counter) then Ended(st, true)
      else
        var (mid, ok) := MessageState(st, cbench, s, pos);
        if ok then Running(mid, pos + Be16(s, pos + 2), counter - Be16(s, pos + 2)) else Ended(mid, false)
  }

  function Passes(l: Loop, cbench: bool, s: seq<byte>, n: nat): Loop
    decreases n
  {
    if n == 0 then l else Passes(Pass(l, cbench, s), cbench, s, n - 1)
  }

  /** From here the loop ends: before a length field of 0 it stops, or a handler fails. */
  predicate Progresses(s: seq<byte>, pos: nat, counter: int)
    decreases counter
  {
    || Stops(s, pos, counter)
    || Fails(s, pos)
    || (Be16(s, pos + 2) > 0 && Progresses(s, pos + Be16(s, pos + 2), counter - Be16(s, pos + 2)))
  }

  /** The offsets the loop dispatches, that of a failing message included. */
  function Visits(s: seq<byte>, pos: nat, counter: int): seq<nat>
    requires Progresses(s, pos, counter)
    decreases counter
  {
    if Stops(s, pos, counter) then []
    else if Fails(s, pos) then [pos]
    else [pos] + Visits(s, pos + Be16(s, pos + 2), counter - Be16(s, pos + 2))
  }

  /** Messages handled in order until one fails. */
  function Dispatch(st: State, cbench: bool, s: seq<byte>, visits: seq<nat>): (State, bool)
    decreases |visits|
  {
    if visits == [] then (st, true)
    else
      var (mid, ok) := MessageState(st, cbench, s, visits[0]);
      if ok then Dispatch(mid, cbench, s, visits[1..]) else (mid, false)
  }

  /** The state the loop leaves, and whether every handler succeeded. */
  function LoopState(st: State, cbench: bool, s: seq<byte>, pos: nat, counter: int): (State, bool)
    requires Progresses(s, pos, counter)
    decreases counter
  {
    if Stops(s, pos, counter) then (st, true)
    else if Fails(s, pos) then MessageState(st, cbench, s, pos)
    else LoopState(MessageState(st, cbench, s, pos).0, cbench, s,
                   pos + Be16(s, pos + 2), counter - Be16(s, pos + 2))
  }

  /** The loop is the dispatch of the offsets it visits. */
  lemma {:induction false} LoopIsDispatch(st: State, cbench: bool, s: seq<byte>, pos: nat, counter: int)
    requires Progresses(s, pos, counter)
    ensures LoopState(st, cbench, s, pos, counter) == Dispatch(st, cbench, s, Visits(s, pos, counter))
    decreases counter
  {
    hide MessageState, Be16, At, Fails;
    if Stops(s, pos, counter) {
    } else if Fails(s, pos) {
      FailsIff(st, cbench, s, pos);
      DispatchFirst(st, cbench, s, pos, []);
      assert [pos] + [] == [pos];
    } else {
      var len := Be16(s, pos + 2);
      FailsIff(st, cbench, s, pos);
      LoopIsDispatch(MessageState(st, cbench, s, pos).0, cbench, s, pos + len, counter - len);
      DispatchFirst(st, cbench, s, pos, Visits(s, pos + len, counter - len));
    }
  }

  lemma DispatchFirst(st: State, cbench: bool, s: seq<byte>, pos: nat, rest: seq<nat>)
    ensures Dispatch(st, cbench, s, [pos] + rest) ==
      var (mid, ok) := MessageState(st, cbench, s, pos);
      if ok then Dispatch(mid, cbench, s, rest) else (mid, false)
  {
    hide MessageState;
    assert ([pos] + rest)[1..] == rest;
  }

  // ----- What the handlers read -----

  const READ_BUFFER_SIZE: nat := 3072000

  /** Octets of a packet-in's frame that are read. */
  function FrameNeeds(f: seq<byte>): (n: nat)
    ensures 14 <= n <= 42
  {
    if EthType(f) == TYPE_LLDP then
      if At(f, 14) == ANIM_NODE then 28 else 15
    else HeadNeeds(f)
  }

  /** Octets read from the start of a message. */
  function Needs(s: seq<byte>, pos: nat): (n: nat)
    ensures n >= 4
  {
    var kind := At(s, pos + 1);
    if kind == HELLO || kind == ECHO_REQUEST then 8
    else if kind == FEATURES_REPLY then
      if PortCount(s, pos) == 0 then 8 else 48 * PortCount(s, pos) - 8
    else if kind == PACKET_IN then 18 + FrameNeeds(From(s, pos + 18))
    else 4
  }

  /** Handling the message at `pos` reads inside the buffer.  The source does not check. */
  predicate Readable(s: seq<byte>, pos: nat) {
    pos + Needs(s, pos) <= READ_BUFFER_SIZE
  }

  /** A features reply that says it is shorter than its fixed part wraps the port count, and the
      source reads on past the end of the buffer, wherever the message stands. */
  lemma ShortReplyOverruns(s: seq<byte>, pos: nat)
    requires At(s, pos + 1) == FEATURES_REPLY
    ensures Be16(s, pos + 2) < 32 ==> !Readable(s, pos)
    ensures 32 <= Be16(s, pos + 2) ==> Needs(s, pos) <= Be16(s, pos + 2)
  {
    hide CountOf;
  }

  /** Every message the loop handles is readable, and it ends. */
  predicate Runs(s: seq<byte>, pos: nat, counter: int): (r: bool)
    ensures r ==> Progresses(s, pos, counter)
    decreases counter
  {
    || Stops(s, pos, counter)
    || (Readable(s, pos)
        && (|| Fails(s, pos)
            || (Be16(s, pos + 2) > 0 && Runs(s, pos + Be16(s, pos + 2), counter - Be16(s, pos + 2)))))
  }

  lemma {:induction false} RunsIff(s: seq<byte>, pos: nat, counter: int)
    ensures Runs(s, pos, counter) <==>
      Progresses(s, pos, counter) && forall v :: v in Visits(s, pos, counter) ==> Readable(s, v)
    decreases counter
  {
    hide Readable, Be16, At, Fails;
    if Stops(s, pos, counter) {
    } else if Fails(s, pos) {
      assert pos in Visits(s, pos, counter);
    } else if Be16(s, pos + 2) > 0 && Progresses(s, pos, counter) {
      var rest := Visits(s, pos + Be16(s, pos + 2), counter - Be16(s, pos + 2));
      RunsIff(s, pos + Be16(s, pos + 2), counter - Be16(s, pos + 2));
      var v := Visits(s, pos, counter);
      assert v == [pos] + rest && v[0] in v && forall w :: w in rest ==> w in v;
    } else if Be16(s, pos + 2) > 0 {
      RunsIff(s, pos + Be16(s, pos + 2), counter - Be16(s, pos + 2));
    }
  }

  /** Outside cbench mode only the first message of the buffer is looked at, and a HELLO is
      answered whatever its version. */
  function SingleState(st: State, cbench: bool, s: seq<byte>): (State, bool) {
    if At(s, 0) == VERSION then MessageState(st, cbench, s, 0)
    else if At(s, 1) == HELLO then (HelloState(st, s, 0), true)
    else (st, true)
  }

  /** A message of type 2 is answered with its transaction id, and the two messages one of type 0
      draws carry its id and the next. */
  lemma RepliesPairWithRequests(st: State, cbench: bool, s: seq<byte>, pos: nat)
    ensures var sent, n, xid := MessageState(st, cbench, s, pos).0.sent, |st.sent|, DecodeHeader(From(s, pos)).xid;
      && (At(s, pos + 1) == 2 ==> |sent| == n + 1 && DecodeHeader(sent[n]) == Header(3, 8, xid))
      && (At(s, pos + 1) == 0 ==>
            && |sent| == n + 2 && DecodeHeader(sent[n]) == Header(0, 8, xid)
            && DecodeHeader(sent[n + 1]) == Header(5, 8, NextXid(xid)))
  {
    var xid := Be32(s, pos + 4);
    assert DecodeHeader(From(s, pos)).xid == xid;
    HeaderRoundTrip(Header(ECHO_REPLY, 8, xid));
    HeaderRoundTrip(Header(HELLO, 8, xid));
    HeaderRoundTrip(Header(FEATURES_REQUEST, 8, NextXid(xid)));
    hide HeaderMsg, PacketInState, FeaturesState, DecodeHeader;
  }

  // ----- Termination of the cbench loop -----

  ghost predicate EndsAfter(l: Loop, cbench: bool, s: seq<byte>, n: nat) {
    Passes(l, cbench, s, n).Ended?
  }

  /** Whatever the state, the loop ends exactly when the octets say so: when it meets no length
      field of 0 before it stops or a handler fails. */
  lemma {:induction false} LoopEndsIff(st: State, cbench: bool, s: seq<byte>, pos: nat, counter: int)
    ensures (exists n: nat :: EndsAfter(Running(st, pos, counter), cbench, s, n)) <==> Progresses(s, pos, counter)
    decreases counter
  {
    hide MessageState, Be16, At, Fails;
    var l := Running(st, pos, counter);
    var len, next := Be16(s, pos + 2), Pass(l, cbench, s);
    FailsIff(st, cbench, s, pos);
    if Stops(s, pos, counter) || Fails(s, pos) {
      assert Passes(next, cbench, s, 0) == next && EndsAfter(l, cbench, s, 1);
    } else if len == 0 {
      forall n: nat ensures !EndsAfter(l, cbench, s, n) {
        StuckAtZero(st, cbench, s, pos, counter, n);
      }
    } else {
      LoopEndsIff(next.st, cbench, s, next.pos, next.counter);
      if n: nat :| EndsAfter(l, cbench, s, n) {
        assert n > 0 && EndsAfter(next, cbench, s, n - 1);
      }
      if n: nat :| EndsAfter(next, cbench, s, n) {
        assert EndsAfter(l, cbench, s, n + 1);
      }
    }
  }

  /** A length of 0 makes every later pass handle the same message again. */
  lemma {:induction false} StuckAtZero(st: State, cbench: bool, s: seq<byte>, pos: nat, counter: int, n: nat)
    requires !Stops(s, pos, counter) && !Fails(s, pos) && Be16(s, pos + 2) == 0
    ensures var l := Passes(Running(st, pos, counter), cbench, s, n);
      l.Running? && l.pos == pos && l.counter == counter
    decreases n
  {
    hide MessageState, Stops, Fails;
    if n == 0 {
    } else {
      FailsIff(st, cbench, s, pos);
      StuckAtZero(MessageState(st, cbench, s, pos).0, cbench, s, pos, counter, n - 1);
    }
  }

  /** When it ends, it ends in `LoopState`. */
  lemma {:induction false} EndsInLoopState(st: State, cbench: bool, s: seq<byte>, pos: nat, counter: int, n: nat)
    requires EndsAfter(Running(st, pos, counter), cbench, s, n)
    ensures Progresses(s, pos, counter)
    ensures var (end, ok) := LoopState(st, cbench, s, pos, counter);
      Passes(Running(st, pos, counter), cbench, s, n) == Ended(end, ok)
    decreases n
  {
    hide MessageState, Be16, At, Fails;
    LoopEndsIff(st, cbench, s, pos, counter);
    FailsIff(st, cbench, s, pos);
    var next := Pass(Running(st, pos, counter), cbench, s);
    if Stops(s, pos, counter) || Fails(s, pos) {
      EndedStays(next, cbench, s, n - 1);
    } else {
      EndsInLoopState(next.st, cbench, s, next.pos, next.counter, n - 1);
    }
  }

  lemma {:induction false} EndedStays(l: Loop, cbench: bool, s: seq<byte>, n: nat)
    requires l.Ended?
    ensures Passes(l, cbench, s, n) == l
  {
    if n == 0 {
    } else {
      EndedStays(l, cbench, s, n - 1);
    }
  }

  /** Four octets that keep the loop busy for ever: an unhandled message of length 0. */
  lemma LoopsForever(st: State, cbench: bool) returns (s: seq<byte>)
    ensures |s| == 4 && forall n: nat :: !EndsAfter(Running(st, 0, |s|), cbench, s, n)
  {
    s := [VERSION, 4, 0, 0];
    assert !Progresses(s, 0, 4);
    LoopEndsIff(st, cbench, s, 0, 4);
  }

  /** The same four octets behind a features reply without ports: the loop ends, unsuccessfully. */
  lemma FailureEndsIt(st: State, cbench: bool, reply: seq<byte>) returns (s: seq<byte>)
    requires |reply| == 32 && At(reply, 0) == VERSION && At(reply, 1) == FEATURES_REPLY && Be16(reply, 2) == 32
    ensures s == reply + [VERSION, 4, 0, 0] && Progresses(s, 0, |s|) && !LoopState(st, cbench, s, 0, |s|).1
  {
    s := reply + [VERSION, 4, 0, 0];
    assert At(s, 0) == At(reply, 0) && At(s, 1) == At(reply, 1) && Be16(s, 2) == Be16(reply, 2);
    FailsIff(st, cbench, s, 0);
  }

  // ----- Framing inverts concatenation -----

  predicate WellSized(f: seq<byte>) {
    |f| >= 8 && Be16(f, 2) == |f|
  }

  function Concat(frames: seq<seq<byte>>): seq<byte> {
    if frames == [] then [] else frames[0] + Concat(frames[1..])
  }

  /** How many frames are dispatched: the longest prefix of version 1, cut behind a frame whose
      handler fails. */
  function Handled(frames: seq<seq<byte>>): nat {
    if frames == [] || At(frames[0], 0) != VERSION then 0
    else if Fails(frames[0], 0) then 1
    else 1 + Handled(frames[1..])
  }

  function Offset(frames: seq<seq<byte>>, k: nat): nat
    requires k <= |frames|
  {
    if k == 0 then 0 else |frames[0]| + Offset(frames[1..], k - 1)
  }

  lemma FirstFrame(s: seq<byte>, pos: nat, frames: seq<seq<byte>>)
    requires pos <= |s| && s[pos..] == Concat(frames) && frames != [] && WellSized(frames[0])
    ensures pos + |frames[0]| <= |s| && s[pos..pos + |frames[0]|] == frames[0]
    ensures At(s, pos) == At(frames[0], 0) && Be16(s, pos + 2) == |frames[0]|
    ensures Fails(s, pos) <==> Fails(frames[0], 0)
    ensures s[pos + |frames[0]|..] == Concat(frames[1..])
  {
    var f, rest := frames[0], Concat(frames[1..]);
    assert (f + rest)[..|f|] == f && (f + rest)[|f|..] == rest;
    assert s[pos..][..|f|] == f && s[pos..][|f|..] == rest;
    assert s[pos] == f[0] && s[pos + 1] == f[1] && s[pos + 2] == f[2] && s[pos + 3] == f[3];
  }

  lemma {:induction false} FrameAtOffset(s: seq<byte>, pos: nat, frames: seq<seq<byte>>, k: nat)
    requires pos <= |s| && s[pos..] == Concat(frames) && k < |frames|
    requires forall f :: f in frames ==> WellSized(f)
    ensures var at := pos + Offset(frames, k);
      at + |frames[k]| <= |s| && s[at..at + |frames[k]|] == frames[k]
    decreases k
  {
    assert frames[0] in frames;
    FirstFrame(s, pos, frames);
    if k == 0 {
    } else {
      FrameAtOffset(s, pos + |frames[0]|, frames[1..], k - 1);
    }
  }

  function Offsets(frames: seq<seq<byte>>, pos: nat, n: nat): seq<nat>
    requires n <= |frames|
  {
    seq(n, k requires 0 <= k < n => pos + Offset(frames, k))
  }

  lemma OffsetsStep(frames: seq<seq<byte>>, pos: nat, n: nat)
    requires 0 < n <= |frames|
    ensures Offsets(frames, pos, n) == [pos] + Offsets(frames[1..], pos + |frames[0]|, n - 1)
  {
  }

  lemma {:induction false} VisitsOffsets(s: seq<byte>, pos: nat, frames: seq<seq<byte>>)
    requires pos <= |s| && s[pos..] == Concat(frames)
    requires forall f :: f in frames ==> WellSized(f)
    ensures Handled(frames) <= |frames| && Progresses(s, pos, |s| - pos)
    ensures Visits(s, pos, |s| - pos) == Offsets(frames, pos, Handled(frames))
    decreases |frames|
  {
    hide Fails, Be16, At;
    if frames == [] {
    } else {
      assert frames[0] in frames;
      FirstFrame(s, pos, frames);
      VisitsOffsets(s, pos + |frames[0]|, frames[1..]);
      if At(s, pos) == VERSION && !Fails(s, pos) {
        OffsetsStep(frames, pos, Handled(frames));
      }
    }
  }

  /** On a buffer of well-sized frames the loop ends, and dispatches exactly the longest prefix
      of version-1 frames (up to a failing one), in order, each at its own first octet. */
  lemma FramingInvertsConcat(frames: seq<seq<byte>>)
    requires forall f :: f in frames ==> WellSized(f)
    ensures Progresses(Concat(frames), 0, |Concat(frames)|)
    ensures var s := Concat(frames);
      var visits := Visits(s, 0, |s|);
      && |visits| == Handled(frames) <= |frames|
      && forall k :: 0 <= k < |visits| ==>
           visits[k] + |frames[k]| <= |s| && s[visits[k]..visits[k] + |frames[k]|] == frames[k]
  {
    hide Progresses, Visits, Handled, WellSized, Concat;
    var s := Concat(frames);
    assert s[0..] == s;
    VisitsOffsets(s, 0, frames);
    forall k | 0 <= k < Handled(frames)
      ensures Offset(frames, k) + |frames[k]| <= |s|
      ensures s[Offset(frames, k)..Offset(frames, k) + |frames[k]|] == frames[k]
    {
      FrameAtOffset(s, 0, frames, k);
    }
  }

  // ----- Features reply: the decoder recovers what was encoded -----

  datatype PhyPort = PhyPort(port: u16, mac: Mac, rest: seq<byte>)

  function PhyPortBytes(p: PhyPort): seq<byte> {
    [p.port / 0x100, p.port % 0x100] + p.mac + p.rest
  }

  function PhyPortsBytes(ps: seq<PhyPort>): seq<byte> {
    if ps == [] then [] else PhyPortBytes(ps[0]) + PhyPortsBytes(ps[1..])
  }

  lemma {:induction false} PhyPortsAt(head: seq<byte>, ps: seq<PhyPort>, i: nat)
    requires i < |ps| && forall p :: p in ps ==> |p.rest| == 40
    ensures var s := head + PhyPortsBytes(ps);
      Be16(s, |head| + 48 * i) == ps[i].port && MacAt(s, |head| + 2 + 48 * i) == ps[i].mac
    decreases |ps|
  {
    var b, rest := PhyPortBytes(ps[0]), PhyPortsBytes(ps[1..]);
    assert ps[0] in ps && |b| == 48;
    assert head + (b + rest) == (head + b) + rest;
    if i == 0 {
      FirstPortAt(head, ps[0], rest);
    } else {
      PhyPortsAt(head + b, ps[1..], i - 1);
    }
  }

  lemma FirstPortAt(head: seq<byte>, p: PhyPort, rest: seq<byte>)
    requires |p.rest| == 40
    ensures var s := head + (PhyPortBytes(p) + rest);
      Be16(s, |head|) == p.port && MacAt(s, |head| + 2) == p.mac
  {
    var b := PhyPortBytes(p);
    var s := head + (b + rest);
    assert forall k: nat :: k < 8 ==> At(s, |head| + k) == b[k];
    assert forall k: nat :: k < 6 ==> b[2 + k] == p.mac[k];
  }

  function Described(datapath: u64, ps: seq<PhyPort>): seq<SwitchPort> {
    seq(|ps|, i requires 0 <= i < |ps| => SwitchPort(datapath, ps[i].port, ps[i].mac))
  }

  /** For every reply a switch can frame (1 to 1364 ports), the count is recovered from the
      length field and exactly the encoded ports are appended, in order. */
  lemma FeaturesReplyDecodes(st: State, head: seq<byte>, ps: seq<PhyPort>)
    requires |head| == 32 && 1 <= |ps| <= 1364 && forall p :: p in ps ==> |p.rest| == 40
    requires Be16(head, 2) == 32 + 48 * |ps|
    ensures FeaturesState(st, head + PhyPortsBytes(ps), 0).1
    ensures var after := FeaturesState(st, head + PhyPortsBytes(ps), 0).0;
      && after.noOfPorts == |ps| && after.switchId == Be64(head, 8)
      && after.ports == st.ports + Described(Be64(head, 8), ps)
  {
    HeadDecodes(head, PhyPortsBytes(ps));
    PortsDecode(head, ps);
  }

  lemma HeadDecodes(head: seq<byte>, tail: seq<byte>)
    requires |head| == 32
    ensures Be16(head + tail, 2) == Be16(head, 2) && Be64(head + tail, 8) == Be64(head, 8)
  {
    assert forall j: nat :: j < 32 ==> At(head + tail, j) == At(head, j);
  }

  lemma PortsDecode(head: seq<byte>, ps: seq<PhyPort>)
    requires |head| == 32 && forall p :: p in ps ==> |p.rest| == 40
    ensures PortsAt(head + PhyPortsBytes(ps), 0, |ps|) == Described(Be64(head, 8), ps)
  {
    HeadDecodes(head, PhyPortsBytes(ps));
    forall i | 0 <= i < |ps|
      ensures PortAt(head + PhyPortsBytes(ps), 0, i) == SwitchPort(Be64(head, 8), ps[i].port, ps[i].mac)
    {
      PhyPortsAt(head, ps, i);
    }
  }

  // ----- The handler and the protocol agree -----

  /** Handling a packet-in that begins with the frame of a discovery message, whatever padding or
      message follows, is `Protocol`'s atomic step on that message, and the octets it sends are
      that step's message. */
  lemma AnimHandlerIsProtocolStep(st: State, c: Ctl, cbench: bool, s: seq<byte>, pos: nat, m: Msg)
    requires forall i: nat :: i < FrameLength(m) ==> At(s, pos + 18 + i) == FrameByte(m, i)
    requires c.switchId == st.switchId && c.counter == st.counter && c.links == st.links
    requires |c.replys| == |st.replys| && forall i :: 0 <= i < |c.replys| ==> st.replys[i].port == c.replys[i]
    ensures var inPort := Be16(s, pos + 14);
      var after := PacketInState(st, cbench, s, pos);
      var (d, send) := HandleAnim(c, inPort, m);
      && after.counter == d.counter && after.links == d.links && after.switchId == d.switchId
      && |d.replys| == |after.replys| && (forall i :: 0 <= i < |d.replys| ==> after.replys[i].port == d.replys[i])
      && after.sent == st.sent + (if send.Some? then [AnimMsg(send.value.port, send.value.msg)] else [])
      && after.hosts == st.hosts && after.ports == st.ports
      && (At(s, pos + 1) == 10 ==> MessageState(st, cbench, s, pos) == (after, true))
  {
    hide Parse, FrameByte, EthType;
    var f := From(s, pos + 18);
    forall i: nat | i < FrameLength(m) ensures At(f, i) == FrameByte(m, i) {
      assert At(f, i) == At(s, pos + 18 + i);
    }
    ParsesPrefix(f, m);
  }
}
