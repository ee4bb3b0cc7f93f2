/** The sharing thread, `node_share_func`: the bodies of its critical sections and loops, in the
    source's form, and the proof that the octets they send are the messages `Protocol`'s sharing
    thread sends. */
module Sharing {
  import opened Bytes
  import opened ObjectLists
  import opened Protocol
  import opened Handlers
  import opened Peer
  import opened Connection
  import opened Controllers
  import Anim

  /** A request on every port from 1 to the count, truncated to 16 bits on its way out. */
  function Requests(n: int): seq<Send> {
    if n <= 0 then [] else Requests(n - 1) + [Send(n % 0x1_0000, EchoRequest)]
  }

  /** One NODE for each reply, in table order, on that reply's own port. */
  function Announcements(switchId: u64, ports: seq<u16>): seq<Send> {
    seq(|ports|, i requires 0 <= i < |ports| => Send(ports[i], Node(NodeId(switchId, ports[i]))))
  }

  function PortsOf(replys: seq<Reply>): seq<u16> {
    seq(|replys|, i requires 0 <= i < |replys| => replys[i].port)
  }

  function Octets(sends: seq<Send>): seq<seq<byte>> {
    seq(|sends|, i requires 0 <= i < |sends| => Anim.AnimMsg(sends[i].port, sends[i].msg))
  }

  // ----- What the switch hears of them -----

  /** An emission of `frame` to `port`, as from the controller. */
  function Emitted(port: u16, frame: seq<byte>): Heard {
    Emission(0, 0xffff_ffff, 0xfffd, port, frame)
  }

  /** An LLDP frame 01:23:20:00:00:01 <- 00:00:00:00:00:01 of kind 0. */
  function Ping(): seq<byte> {
    [1, 0x23, 0x20, 0, 0, 1, 0, 0, 0, 0, 0, 1, 0x88, 0xcc, 0, 0, 0, 4]
  }

  /** The same of kind 2, with an identifier and a port in network order. */
  function Announcement(switchId: u64, port: u16): seq<byte> {
    [1, 0x23, 0x20, 0, 0, 1, 0, 0, 0, 0, 0, 1, 0x88, 0xcc, 2, 0, 0, 20] + Anim.BigEndian64(switchId) +
    [port / 0x100, port % 0x100, 0, 0, 0, 0, 0, 0]
  }

  lemma {:induction false} RequestsAre(n: nat)
    ensures |Requests(n)| == n && forall i :: 0 <= i < n ==> Requests(n)[i] == Send((i + 1) % 0x1_0000, EchoRequest)
  {
    if n == 0 {
    } else {
      RequestsAre(n - 1);
    }
  }

  /** The switch hears one request for each port from 1 to `n`, in order. */
  lemma RequestsSay(n: nat)
    ensures |Octets(Requests(n))| == n
    ensures forall i :: 0 <= i < n ==> Hear(Octets(Requests(n))[i]) == Emitted((i + 1) % 0x1_0000, Ping())
  {
    hide Hear;
    RequestsAre(n);
    forall i | 0 <= i < n ensures Hear(Octets(Requests(n))[i]) == Emitted((i + 1) % 0x1_0000, Ping()) {
      Anim.AnimRoundTrip((i + 1) % 0x1_0000, EchoRequest);
    }
  }

  /** And one NODE for each reply, in order, on the reply's port and naming it. */
  lemma AnnouncementsSay(switchId: u64, ports: seq<u16>)
    ensures var octets := Octets(Announcements(switchId, ports));
      |octets| == |ports|
      && forall i :: 0 <= i < |ports| ==> Hear(octets[i]) == Emitted(ports[i], Announcement(switchId, ports[i]))
  {
    hide Hear;
    forall i | 0 <= i < |ports|
      ensures Hear(Octets(Announcements(switchId, ports))[i]) == Emitted(ports[i], Announcement(switchId, ports[i]))
    {
      NodeFrameIs(switchId, ports[i]);
      Anim.AnimRoundTrip(ports[i], Node(NodeId(switchId, ports[i])));
    }
  }

  lemma NodeFrameIs(switchId: u64, port: u16)
    ensures Anim.FrameOctets(Node(NodeId(switchId, port))) == Announcement(switchId, port)
  {
    hide Anim.BigEndian64;
  }

  /** The first critical section of a round. */
  method ResetRound(c: Controller) returns (portsCount: int)
    modifies c`counter
    ensures portsCount == c.noOfPorts && c.counter == 0
  {
    portsCount := c.noOfPorts;
    c.counter := 0;
  }

  method SendRequests(c: Controller, portsCount: int)
    modifies c`sent
    ensures c.sent == old(c.sent) + Octets(Requests(portsCount))
  {
    ghost var before := c.sent;
    var port := 1;
    while port < portsCount + 1
      invariant 1 <= port && (port <= portsCount + 1 || port == 1)
      invariant c.sent == before + Octets(Requests(port - 1))
    {
      c.SendAnim(port % 0x1_0000, EchoRequest);
      port := port + 1;
    }
    assert Requests(port - 1) == Requests(portsCount);
  }

  /** The second critical section: a scan of the reply table from its first entry. */
  method AnnounceReplies(c: Controller)
    requires c.replys.Valid() && c.replys.current == null
    modifies c`sent, c.replys`current
    ensures c.sent == old(c.sent) + Octets(Announcements(c.switchId, PortsOf(c.replys.contents)))
    ensures c.replys.current == null
  {
    ghost var before, ports := c.sent, PortsOf(c.replys.contents);
    ghost var i := 0;
    assert c.replys.CursorAt(-1);
    var p := c.replys.GetObject();
    while p != null
      invariant 0 <= i <= |ports| && c.replys.CursorLive() && p == c.replys.current
      invariant p == c.replys.NodeAt(i) && (p == null ==> i == |ports|)
      invariant c.sent == before + Octets(Announcements(c.switchId, ports[..i]))
      decreases |ports| - i
    {
      assert ports[..i + 1] == ports[..i] + [p.p.port];
      c.SendAnim(p.p.port, Node(NodeId(c.switchId, p.p.port)));
      assert c.replys.CursorAt(i);
      p := c.replys.GetObject();
      i := i + 1;
    }
    assert ports[..i] == ports;
    c.replys.ListRewind();
  }

  /** The wait loop's critical section; true when it breaks, leaving the mutex held. */
  method WaitPass(c: Controller) returns (quiet: bool)
    modifies c`counter
    ensures quiet == (old(c.counter) > WAIT_LIMIT)
    ensures c.counter == if quiet then old(c.counter) else old(c.counter) + 1
  {
    if c.counter > WAIT_LIMIT {
      return true;
    }
    c.counter := c.counter + 1;
    return false;
  }

  /** The wait loop when no NODE arrives meanwhile: 21 ticks and the pass that breaks. */
  method WaitAlone(c: Controller) returns (ghost passes: nat)
    modifies c`counter
    ensures c.counter > WAIT_LIMIT
    ensures old(c.counter) == 0 ==> passes == 22 && c.counter == 21
  {
    passes := 0;
    ghost var before := c.counter;
    while true
      invariant c.counter == before + passes && (before <= 21 ==> c.counter <= 21)
      decreases 21 - c.counter
    {
      var quiet := WaitPass(c);
      passes := passes + 1;
      if quiet {
        break;
      }
    }
  }

  /** The last critical section: the links are shown, from the first, and both tables freed. */
  method PrintAndClear(c: Controller) returns (shown: seq<Link>)
    requires c.links.Valid() && c.replys.Valid() && c.links.current == null
    modifies c.links, c.links.nodes, c.replys, c.replys.nodes
    ensures shown == old(c.links.contents)
    ensures c.links.Valid() && c.links.nodes == [] && c.links.current == null
    ensures c.replys.Valid() && c.replys.nodes == [] && c.replys.current == old(c.replys.current)
  {
    shown := Controller.Show(c.links);
    var _ := c.replys.FreeList();
    var _ := c.links.FreeList();
  }

  // ----- Both threads, in any order -----

  /** One section of the sharing thread, or one reception handled by the receive thread. */
  datatype Turn = Reset | Request(port: u16) | Announce | Wait | Print | Receive(received: seq<byte>)

  predicate TurnEnds(cbench: bool, t: Turn) {
    t.Receive? ==> Terminates(cbench, t.received)
  }

  predicate TurnAccepted(cbench: bool, t: Turn): (r: bool)
    ensures r ==> TurnEnds(cbench, t)
  {
    t.Receive? ==> Accepts(cbench, t.received)
  }

  predicate AllTurnsEnd(cbench: bool, turns: seq<Turn>) {
    forall i :: 0 <= i < |turns| ==> TurnEnds(cbench, turns[i])
  }

  predicate AllTurnsAccepted(cbench: bool, turns: seq<Turn>): (r: bool)
    ensures r ==> AllTurnsEnd(cbench, turns)
  {
    forall i :: 0 <= i < |turns| ==> TurnAccepted(cbench, turns[i])
  }

  function TurnState(st: State, cbench: bool, t: Turn): (State, bool)
    requires TurnEnds(cbench, t)
  {
    match t
    case Reset => (st.(counter := 0), true)
    case Request(port) => (st.(sent := st.sent + [Anim.AnimMsg(port, EchoRequest)]), true)
    case Announce => (st.(sent := st.sent + Octets(Announcements(st.switchId, PortsOf(st.replys)))), true)
    case Wait => (st.(counter := if st.counter > WAIT_LIMIT then st.counter else st.counter + 1), true)
    case Print => (st.(links := [], replys := []), true)
    case Receive(received) => CommunicateState(st, cbench, received)
  }

  /** Any sequence of turns, until a handler fails and the process exits. */
  function TurnsState(st: State, cbench: bool, turns: seq<Turn>): (State, bool)
    requires AllTurnsEnd(cbench, turns)
    decreases |turns|
  {
    if turns == [] then (st, true)
    else
      var (mid, ok) := TurnState(st, cbench, turns[0]);
      if ok then TurnsState(mid, cbench, turns[1..]) else (mid, false)
  }

  /** The link tables printed on the way. */
  function Shown(st: State, cbench: bool, turns: seq<Turn>): seq<seq<Link>>
    requires AllTurnsEnd(cbench, turns)
    decreases |turns|
  {
    if turns == [] then []
    else
      var (mid, ok) := TurnState(st, cbench, turns[0]);
      (if turns[0].Print? then [st.links] else []) + if ok then Shown(mid, cbench, turns[1..]) else []
  }

  lemma ShownFirst(before: seq<seq<Link>>, st: State, cbench: bool, turns: seq<Turn>)
    requires AllTurnsEnd(cbench, turns) && turns != []
    ensures AllTurnsEnd(cbench, turns[1..])
    ensures var (mid, ok) := TurnState(st, cbench, turns[0]);
      before + Shown(st, cbench, turns) ==
        before + (if turns[0].Print? then [st.links] else []) + if ok then Shown(mid, cbench, turns[1..]) else []
  {
    hide TurnState, TurnEnds;
    var (mid, ok) := TurnState(st, cbench, turns[0]);
    Associative(before, if turns[0].Print? then [st.links] else [], if ok then Shown(mid, cbench, turns[1..]) else []);
  }

  lemma Associative<T>(a: seq<T>, b: seq<T>, c: seq<T>)
    ensures a + (b + c) == a + b + c
  {
  }

  method TakeAnnounce(c: Controller)
    requires c.Valid()
    modifies c`sent, c.replys`current
    ensures c.Valid() && (c.Abs(), true) == TurnState(old(c.Abs()), c.cbench, Announce)
  {
    hide Octets, Announcements, PortsOf, ObjectList.Valid;
    AnnounceReplies(c);
  }

  method TakePrint(c: Controller) returns (shown: seq<Link>)
    requires c.Valid()
    modifies c.links, c.links.nodes, c.replys, c.replys.nodes
    ensures c.Valid() && (c.Abs(), true) == TurnState(old(c.Abs()), c.cbench, Print)
    ensures shown == old(c.Abs()).links && c.links.nodes == [] && c.replys.nodes == []
  {
    hide ObjectList.Valid;
    shown := PrintAndClear(c);
  }

  /** A turn that leaves every table alone. */
  method TakeSmall(c: Controller, t: Turn)
    requires c.Valid() && (t.Reset? || t.Request? || t.Wait?)
    modifies c`counter, c`sent
    ensures c.Valid() && (c.Abs(), true) == TurnState(old(c.Abs()), c.cbench, t)
  {
    hide ObjectList.Valid;
    match t
    case Reset => var _ := ResetRound(c);
    case Request(port) => c.SendAnim(port, EchoRequest);
    case Wait => var _ := WaitPass(c);
  }

  method TakeReception(c: Controller, received: seq<byte>)
    requires c.Valid() && !c.locked && Accepts(c.cbench, received)
    modifies c`readLen, c`input, c.readBuffer
    modifies c`xid, c`locked, c`noOfPorts, c`switchId, c`sharers, c`counter, c`sent, c.writeBuffer
    modifies c.hosts, c.hosts.nodes, c.ports, c.ports.nodes, c.replys, c.replys.nodes, c.links, c.links.nodes
    ensures c.Valid() && (c.Abs(), !c.locked) == TurnState(old(c.Abs()), c.cbench, Receive(received))
    ensures c.hosts.Grown() && c.ports.Grown() && c.replys.Grown() && c.links.Grown()
  {
    hide Controller.Valid, Controller.Abs, CommunicateState, Accepts;
    var _ := c.CommunicateWithSwitch(received);
  }

  method TakeTurn(c: Controller, t: Turn) returns (shown: seq<seq<Link>>)
    requires c.Valid() && !c.locked && TurnAccepted(c.cbench, t)
    modifies c`readLen, c`input, c.readBuffer
    modifies c`xid, c`locked, c`noOfPorts, c`switchId, c`sharers, c`counter, c`sent, c.writeBuffer
    modifies c.hosts, c.hosts.nodes, c.ports, c.ports.nodes, c.replys, c.replys.nodes, c.links, c.links.nodes
    ensures c.Valid() && (c.Abs(), !c.locked) == TurnState(old(c.Abs()), c.cbench, t)
    ensures shown == if t.Print? then [old(c.Abs()).links] else []
    ensures c.hosts.Grown() && c.ports.Grown() && c.replys.Grown() && c.links.Grown()
  {
    hide Controller.Valid, Controller.Abs, TurnState, Terminates, Accepts;
    shown := [];
    match t
    case Announce => TakeAnnounce(c);
    case Print =>
      var links := TakePrint(c);
      shown := [links];
    case Receive(received) => TakeReception(c, received);
    case _ => TakeSmall(c, t);
  }

  /** Whatever the order of turns, appends between sections and rounds after `FreeList` included,
      the controller stays valid: no call ever steps from a freed node, and every announcement and
      every print covers its table from the first entry. */
  method TakeTurns(c: Controller, turns: seq<Turn>) returns (shown: seq<seq<Link>>)
    requires c.Valid() && !c.locked && AllTurnsAccepted(c.cbench, turns)
    modifies c`readLen, c`input, c.readBuffer
    modifies c`xid, c`locked, c`noOfPorts, c`switchId, c`sharers, c`counter, c`sent, c.writeBuffer
    modifies c.hosts, c.hosts.nodes, c.ports, c.ports.nodes, c.replys, c.replys.nodes, c.links, c.links.nodes
    ensures c.Valid() && (c.Abs(), !c.locked) == TurnsState(old(c.Abs()), c.cbench, turns)
    ensures shown == Shown(old(c.Abs()), c.cbench, turns)
  {
    hide Controller.Valid, Controller.Abs, TurnState, Terminates, Accepts, Shown;
    shown := [];
    ghost var all, prints := TurnsState(c.Abs(), c.cbench, turns), Shown(c.Abs(), c.cbench, turns);
    for i := 0 to |turns|
      invariant c.Valid() && !c.locked && AllTurnsAccepted(c.cbench, turns[i..])
      invariant all == TurnsState(c.Abs(), c.cbench, turns[i..])
      invariant prints == shown + Shown(c.Abs(), c.cbench, turns[i..])
      invariant c.hosts.Grown() && c.ports.Grown() && c.replys.Grown() && c.links.Grown()
    {
      assert turns[i..][0] == turns[i] && turns[i..][1..] == turns[i + 1..];
      ShownFirst(shown, c.Abs(), c.cbench, turns[i..]);
      var more := TakeTurn(c, turns[i]);
      shown := shown + more;
      if c.locked {
        return;
      }
    }
    NoneShown(c.Abs(), c.cbench, turns[|turns|..]);
  }

  lemma NoneShown(st: State, cbench: bool, turns: seq<Turn>)
    requires turns == []
    ensures AllTurnsEnd(cbench, turns) && Shown(st, cbench, turns) == []
  {
  }

  // ----- One undisturbed round -----

  function RequestTurns(n: int): seq<Turn> {
    if n <= 0 then [] else RequestTurns(n - 1) + [Request(n % 0x1_0000)]
  }

  function WaitTurns(n: nat): seq<Turn> {
    if n == 0 then [] else WaitTurns(n - 1) + [Wait]
  }

  function RoundTurns(n: int): seq<Turn> {
    [Turn.Reset] + RequestTurns(n) + [Announce] + WaitTurns(22) + [Print]
  }

  /** What a sequence of turns brings about and prints. */
  ghost predicate Brings(st: State, cbench: bool, turns: seq<Turn>, after: State, prints: seq<seq<Link>>) {
    && AllTurnsAccepted(cbench, turns)
    && TurnsState(st, cbench, turns) == (after, true) && Shown(st, cbench, turns) == prints
  }

  lemma BringsOne(st: State, cbench: bool, t: Turn)
    requires !t.Receive?
    ensures Brings(st, cbench, [t], TurnState(st, cbench, t).0, if t.Print? then [st.links] else [])
  {
    var mid := TurnState(st, cbench, t).0;
    assert [t][1..] == [];
    assert TurnsState(mid, cbench, []) == (mid, true) && Shown(mid, cbench, []) == [];
  }

  lemma {:induction false} BringsBoth(st: State, cbench: bool, a: seq<Turn>, mid: State,
                                      b: seq<Turn>, end: State, prints: seq<seq<Link>>)
    requires Brings(st, cbench, a, mid, []) && Brings(mid, cbench, b, end, prints)
    ensures Brings(st, cbench, a + b, end, prints)
    decreases |a|
  {
    hide TurnState, TurnAccepted;
    if a == [] {
      assert a + b == b;
    } else {
      var next := TurnState(st, cbench, a[0]).0;
      assert a == [a[0]] + a[1..] && (a + b)[1..] == a[1..] + b;
      assert !a[0].Print? && Shown(next, cbench, a[1..]) == [];
      BringsBoth(next, cbench, a[1..], mid, b, end, prints);
      assert [] + prints == prints;
    }
  }

  lemma {:induction false} RequestsBring(st: State, cbench: bool, n: int)
    ensures Brings(st, cbench, RequestTurns(n), st.(sent := st.sent + Octets(Requests(n))), [])
    decreases n
  {
    hide Brings;
    if n <= 0 {
      BringsNothing(st, cbench);
      assert st.sent + Octets(Requests(n)) == st.sent;
    } else {
      var mid := st.(sent := st.sent + Octets(Requests(n - 1)));
      var t := Request(n % 0x1_0000);
      RequestsBring(st, cbench, n - 1);
      BringsOne(mid, cbench, t);
      BringsBoth(st, cbench, RequestTurns(n - 1), mid, [t], TurnState(mid, cbench, t).0, []);
      var msg := [Anim.AnimMsg(n % 0x1_0000, EchoRequest)];
      assert Octets(Requests(n)) == Octets(Requests(n - 1)) + msg;
      Associative(st.sent, Octets(Requests(n - 1)), msg);
    }
  }

  lemma BringsNothing(st: State, cbench: bool)
    ensures Brings(st, cbench, [], st, [])
  {
  }

  lemma {:induction false} WaitsBring(st: State, cbench: bool, n: nat)
    requires st.counter == 0
    ensures Brings(st, cbench, WaitTurns(n), st.(counter := if n <= 21 then n else 21), [])
  {
    hide Brings;
    if n == 0 {
      BringsNothing(st, cbench);
    } else {
      var mid := st.(counter := if n <= 22 then n - 1 else 21);
      WaitsBring(st, cbench, n - 1);
      BringsOne(mid, cbench, Wait);
      BringsBoth(st, cbench, WaitTurns(n - 1), mid, [Wait], TurnState(mid, cbench, Wait).0, []);
    }
  }

  /** The state after a round in which no message is handled. */
  function RoundState(st: State): State {
    st.(counter := 21, links := [], replys := [],
        sent := st.sent + Octets(Requests(st.noOfPorts)) + Octets(Announcements(st.switchId, PortsOf(st.replys))))
  }

  lemma RoundBrings(st: State, cbench: bool)
    ensures Brings(st, cbench, RoundTurns(st.noOfPorts), RoundState(st), [st.links])
  {
    hide Brings, Requests, Announcements, PortsOf, Octets, RequestTurns, WaitTurns;
    var n := st.noOfPorts;
    var s1 := st.(counter := 0);
    var s2 := s1.(sent := s1.sent + Octets(Requests(n)));
    var s3 := s2.(sent := s2.sent + Octets(Announcements(s2.switchId, PortsOf(s2.replys))));
    var s4 := s3.(counter := 21);
    BringsOne(st, cbench, Turn.Reset);
    RequestsBring(s1, cbench, n);
    BringsBoth(st, cbench, [Turn.Reset], s1, RequestTurns(n), s2, []);
    BringsOne(s2, cbench, Announce);
    BringsBoth(st, cbench, [Turn.Reset] + RequestTurns(n), s2, [Announce], s3, []);
    WaitsBring(s3, cbench, 22);
    BringsBoth(st, cbench, [Turn.Reset] + RequestTurns(n) + [Announce], s3, WaitTurns(22), s4, []);
    BringsOne(s4, cbench, Print);
    var waited := [Turn.Reset] + RequestTurns(n) + [Announce] + WaitTurns(22);
    BringsBoth(st, cbench, waited, s4, [Print], RoundState(st), [st.links]);
  }

  /** One round with no message handled meanwhile: what it sends, in order, shows and leaves. */
  method RoundAlone(c: Controller) returns (shown: seq<seq<Link>>)
    requires c.Valid() && !c.locked
    modifies c`readLen, c`input, c.readBuffer
    modifies c`xid, c`locked, c`noOfPorts, c`switchId, c`sharers, c`counter, c`sent, c.writeBuffer
    modifies c.hosts, c.hosts.nodes, c.ports, c.ports.nodes, c.replys, c.replys.nodes, c.links, c.links.nodes
    ensures c.Valid() && !c.locked && c.Abs() == RoundState(old(c.Abs())) && shown == [old(c.Abs()).links]
  {
    hide Controller.Valid, RoundState, RoundTurns, TurnsState, Shown, AllTurnsAccepted;
    RoundBrings(c.Abs(), c.cbench);
    shown := TakeTurns(c, RoundTurns(c.noOfPorts));
  }

  // ----- The same messages, in the same order, as the protocol's sharing thread -----

  /** `n` steps of the sharing thread with no other thread in between. */
  function RunSharer(c: Ctl, n: nat): (Ctl, seq<Send>) {
    if n == 0 then (c, [])
    else
      var (mid, sent) := RunSharer(c, n - 1);
      var (after, send) := SharerStep(mid);
      (after, sent + if send.Some? then [send.value] else [])
  }

  lemma RequestStep(c: Ctl, n: nat)
    requires c.sharer == Echoing(n) && n < c.portsCount + 1
    ensures var (d, send) := SharerStep(c);
      send == Some(Send(n % 0x1_0000, EchoRequest)) && d.sharer == Echoing(n + 1) && d.portsCount == c.portsCount
  {
  }

  lemma {:induction false} RequestSteps(c: Ctl, n: nat)
    requires c.sharer == Echoing(1) && n <= c.portsCount
    ensures RunSharer(c, n).1 == Requests(n)
    ensures RunSharer(c, n).0.sharer == Echoing(n + 1) && RunSharer(c, n).0.portsCount == c.portsCount
  {
    hide SharerStep;
    if n == 0 {
    } else {
      RequestSteps(c, n - 1);
      RequestStep(RunSharer(c, n - 1).0, n);
    }
  }

  lemma AnnounceStep(c: Ctl, at: nat)
    requires c.sharer == InAnnounce(at) && at < |c.replys|
    ensures var (d, send) := SharerStep(c);
      && send == Some(Send(c.replys[at], Node(NodeId(c.switchId, c.replys[at]))))
      && d.sharer == InAnnounce(at + 1) && SameTables(c, d) && d.owner == c.owner
  {
  }

  predicate SameTables(c: Ctl, d: Ctl) {
    && d.replys == c.replys && d.links == c.links && d.counter == c.counter
    && d.noOfPorts == c.noOfPorts && d.switchId == c.switchId
  }

  lemma {:induction false} AnnounceSteps(c: Ctl, n: nat)
    requires c.sharer == InAnnounce(0) && n <= |c.replys|
    ensures RunSharer(c, n).1 == Announcements(c.switchId, c.replys[..n])
    ensures var d := RunSharer(c, n).0;
      d.sharer == InAnnounce(n) && SameTables(c, d) && d.owner == c.owner
  {
    hide SharerStep;
    if n == 0 {
    } else {
      AnnounceSteps(c, n - 1);
      AnnounceStep(RunSharer(c, n - 1).0, n - 1);
      assert c.replys[..n] == c.replys[..n - 1] + [c.replys[n - 1]];
    }
  }

  // ----- Each section, lock to unlock, is steps of the state machine -----

  /** The class's state and the state machine's, on what both have. */
  predicate Agrees(c: Ctl, st: State) {
    && c.switchId == st.switchId && c.noOfPorts == st.noOfPorts && c.counter == st.counter
    && c.links == st.links && c.replys == PortsOf(st.replys)
  }

  /** From `c`, `n` steps of the sharing thread alone end at `pc` with the mutex free, having sent
      `sends`, and do to the tables and the timer what the turn does to the class. */
  ghost predicate SectionIs(c: Ctl, st: State, cbench: bool, t: Turn, n: nat, pc: SharerPc, sends: seq<Send>)
    requires TurnEnds(cbench, t)
  {
    var (d, sent) := RunSharer(c, n);
    && d.sharer == pc && d.owner == Free && sent == sends && Agrees(d, TurnState(st, cbench, t).0)
    && TurnState(st, cbench, t).0.sent == st.sent + Octets(sends)
  }

  function Sent(send: Option<Send>): seq<Send> {
    if send.Some? then [send.value] else []
  }

  lemma {:induction false} RunFirst(c: Ctl, n: nat)
    requires n > 0
    ensures var (c1, s1) := SharerStep(c);
      && RunSharer(c, n).0 == RunSharer(c1, n - 1).0
      && RunSharer(c, n).1 == Sent(s1) + RunSharer(c1, n - 1).1
  {
    hide SharerStep;
    var (c1, s1) := SharerStep(c);
    assert RunSharer(c, 0) == (c, []) && RunSharer(c1, 0) == (c1, []);
    if n == 1 {
    } else {
      RunFirst(c, n - 1);
    }
  }

  lemma ThreeSteps(c: Ctl)
    ensures var (c1, s1) := SharerStep(c);
      var (c2, s2) := SharerStep(c1);
      var (c3, s3) := SharerStep(c2);
      RunSharer(c, 3).0 == c3 && RunSharer(c, 3).1 == Sent(s1) + Sent(s2) + Sent(s3)
  {
    hide SharerStep;
    var c1 := SharerStep(c).0;
    var c2 := SharerStep(c1).0;
    RunFirst(c, 3);
    RunFirst(c1, 2);
    RunFirst(c2, 1);
  }

  lemma ResetSection(c: Ctl, st: State, cbench: bool)
    requires c.owner == Free && c.sharer.WantReset? && Agrees(c, st)
    ensures SectionIs(c, st, cbench, Turn.Reset, 3, Echoing(1), []) && RunSharer(c, 3).0.portsCount == st.noOfPorts
  {
    hide RunSharer;
    ThreeSteps(c);
  }

  lemma RequestSection(c: Ctl, st: State, cbench: bool, n: nat)
    requires c.owner == Free && c.sharer == Echoing(n) && n < c.portsCount + 1 && Agrees(c, st)
    ensures SectionIs(c, st, cbench, Request(n % 0x1_0000), 1, Echoing(n + 1), [Send(n % 0x1_0000, EchoRequest)])
  {
    hide RunSharer;
    RunFirst(c, 1);
    RunNone(SharerStep(c).0);
  }

  /** Below the limit a pass ticks; above it the loop is left, and the mutex it was left with is
      released by the `threadl` test. */
  lemma WaitSection(c: Ctl, st: State, cbench: bool)
    requires c.owner == Free && c.sharer.WantWait? && Agrees(c, st)
    ensures SectionIs(c, st, cbench, Wait, 3, if st.counter > WAIT_LIMIT then WantPrint else Asleep, [])
  {
    hide RunSharer;
    ThreeSteps(c);
  }

  lemma PrintSection(c: Ctl, st: State, cbench: bool)
    requires c.owner == Free && c.sharer.WantPrint? && Agrees(c, st)
    ensures SectionIs(c, st, cbench, Print, 3, WantReset, [])
    ensures RunSharer(c, 3).0.log == c.log + [Printed(st.links)]
  {
    hide RunSharer;
    ThreeSteps(c);
  }

  lemma RunNone(c: Ctl)
    ensures RunSharer(c, 0) == (c, [])
  {
  }

  lemma AnnounceEnds(c: Ctl)
    ensures c.owner == Free && c.sharer.WantAnnounce? ==>
      var (d, send) := SharerStep(c); send == None && d.sharer == InAnnounce(0) && SameTables(c, d)
    ensures c.sharer == InAnnounce(|c.replys|) ==>
      var (d, send) := SharerStep(c); send == None && d.sharer == WantWait && d.owner == Free && SameTables(c, d)
  {
  }

  lemma RunLast(c: Ctl, n: nat)
    ensures var (d, sent) := RunSharer(c, n);
      RunSharer(c, n + 1).0 == SharerStep(d).0 && RunSharer(c, n + 1).1 == sent + Sent(SharerStep(d).1)
  {
    hide SharerStep;
  }

  /** Lock and snapshot, one step for each reply, unlock. */
  lemma AnnounceSection(c: Ctl, st: State, cbench: bool)
    requires c.owner == Free && c.sharer.WantAnnounce? && Agrees(c, st)
    ensures SectionIs(c, st, cbench, Announce, |c.replys| + 2, WantWait, Announcements(st.switchId, PortsOf(st.replys)))
  {
    hide SharerStep, RunSharer, Announcements, PortsOf, Octets;
    var n, c1 := |c.replys|, SharerStep(c).0;
    AnnounceEnds(c);
    RunFirst(c, n + 2);
    AnnounceSteps(c1, n);
    assert c.replys[..n] == c.replys;
    RunLast(c1, n);
    AnnounceEnds(RunSharer(c1, n).0);
  }

  /** The features handler, lock to unlock, and the state machine's three steps. */
  lemma FeaturesSection(c: Ctl, st: State, s: seq<byte>, pos: nat)
    requires c.owner == Free && Agrees(c, st) && PortCount(s, pos) > 0
    requires c.receiver == WantFeatures(Be64(s, pos + 8), PortCount(s, pos))
    ensures var d := ReceiverStep(ReceiverStep(ReceiverStep(c).0).0).0;
      && d.receiver.Idle? && d.owner == Free && d.sharer.Napping?
      && FeaturesState(st, s, pos).1 && Agrees(d, FeaturesState(st, s, pos).0)
  {
    hide CountOf, PortsAt;
  }
}
