/** Link discovery by N controllers over port-to-port wires.  A world step is one step of one
    thread of one controller, or the network delivering, losing or duplicating one message; any
    interleaving is a run.  A message in flight may be overtaken without limit. */
module Discovery {
  import opened Bytes
  import opened Protocol

  datatype Endpoint = Endpoint(ctl: nat, port: u16)

  datatype Packet = Packet(dst: Endpoint, msg: Msg)

  /** One datapath identifier and port count for each controller's switch; `wire` joins ports. */
  datatype Net = Net(datapaths: seq<u64>, ports: seq<nat>, wire: map<Endpoint, Endpoint>)

  datatype World = World(ctls: seq<Ctl>, flight: multiset<Packet>, lost: multiset<Packet>)

  datatype Act =
    | Features(ctl: nat)
    | Receive(ctl: nat)
    | Share(ctl: nat)
    | Deliver(packet: Packet)
    | Lose(packet: Packet)
    | Duplicate(packet: Packet)

  /** Datapath identifiers are distinct and non-zero, every switch has a port, and wires are
      symmetric and never join a port to itself.  Unwired ports face hosts. */
  ghost predicate NetOk(net: Net) {
    && |net.ports| == |net.datapaths|
    && (forall i :: 0 <= i < |net.datapaths| ==> net.datapaths[i] != 0 && net.ports[i] >= 1)
    && (forall i, j :: 0 <= i < j < |net.datapaths| ==> net.datapaths[i] != net.datapaths[j])
    && (forall e :: e in net.wire ==> e.ctl < |net.datapaths|)
    && (forall e :: e in net.wire ==> net.wire[e] in net.wire && net.wire[net.wire[e]] == e && net.wire[e] != e)
  }

  function Init(net: Net): World {
    World(seq(|net.datapaths|, _ => Start()), multiset{}, multiset{})
  }

  /** A message sent on a port crosses its wire; on an unwired port it vanishes. */
  function Post(net: Net, flight: multiset<Packet>, ctl: nat, send: Option<Send>): multiset<Packet> {
    if send.Some? && Endpoint(ctl, send.value.port) in net.wire then
      flight + multiset{Packet(net.wire[Endpoint(ctl, send.value.port)], send.value.msg)}
    else flight
  }

  predicate Enabled(net: Net, w: World, a: Act) {
    match a
    case Features(c) =>
      c < |w.ctls| && c < |net.datapaths| == |net.ports| && w.ctls[c].receiver.Idle? && w.ctls[c].sharer.NotStarted?
    case Receive(c) => c < |w.ctls| && ReceiverEnabled(w.ctls[c])
    case Share(c) => c < |w.ctls| && SharerEnabled(w.ctls[c])
    case Deliver(p) => p in w.flight && p.dst.ctl < |w.ctls| && w.ctls[p.dst.ctl].receiver.Idle?
    case Lose(p) => p in w.flight
    case Duplicate(p) => p in w.flight
  }

  /** A step that is not enabled does nothing. */
  function Step(net: Net, w: World, a: Act): World {
    if !Enabled(net, w, a) then w
    else
      match a
      case Features(c) =>
        w.(ctls := w.ctls[c := Arrive(w.ctls[c], WantFeatures(net.datapaths[c], net.ports[c]))])
      case Receive(c) =>
        var (after, send) := ReceiverStep(w.ctls[c]);
        w.(ctls := w.ctls[c := after], flight := Post(net, w.flight, c, send))
      case Share(c) =>
        var (after, send) := SharerStep(w.ctls[c]);
        w.(ctls := w.ctls[c := after], flight := Post(net, w.flight, c, send))
      case Deliver(p) =>
        w.(ctls := w.ctls[p.dst.ctl := Arrive(w.ctls[p.dst.ctl], WantAnim(p.dst.port, p.msg))],
           flight := w.flight - multiset{p})
      case Lose(p) => w.(flight := w.flight - multiset{p}, lost := w.lost + multiset{p})
      case Duplicate(p) => w.(flight := w.flight + multiset{p})
  }

  function Run(net: Net, w: World, acts: seq<Act>): World
    decreases |acts|
  {
    if acts == [] then w else Run(net, Step(net, w, acts[0]), acts[1..])
  }

  // ----- What is true of messages, tables and logs -----

  function IdAt(net: Net, e: Endpoint): NodeId
    requires e.ctl < |net.datapaths|
  {
    NodeId(net.datapaths[e.ctl], e.port)
  }

  /** A message that arrives at `e` came over a wire, and a NODE names that wire's other end. */
  ghost predicate Truthful(net: Net, e: Endpoint, m: Msg)
    requires NetOk(net)
  {
    e in net.wire && (m.Node? ==> m.id == IdAt(net, net.wire[e]))
  }

  ghost predicate LinkTrue(net: Net, c: nat, l: Link)
    requires NetOk(net) && c < |net.datapaths|
  {
    && Truthful(net, Endpoint(c, l.a.port), Node(l.b))
    && (l.a.datapath == net.datapaths[c] || l.a.datapath == 0)
  }

  ghost predicate CtlTrue(net: Net, c: nat, ctl: Ctl)
    requires NetOk(net) && c < |net.datapaths|
  {
    && (ctl.receiver.WantAnim? || ctl.receiver.InAnim? ==>
          Truthful(net, Endpoint(c, ctl.receiver.port), ctl.receiver.msg))
    && (forall p :: p in ctl.replys ==> Endpoint(c, p) in net.wire)
    && (forall l :: l in ctl.links ==> LinkTrue(net, c, l))
    && (forall p :: GotReply(p) in ctl.log ==> Endpoint(c, p) in net.wire)
    && (forall p, id :: GotNode(p, id) in ctl.log ==> Truthful(net, Endpoint(c, p), Node(id)))
  }

  ghost predicate Inv(net: Net, w: World)
    requires NetOk(net)
  {
    && |w.ctls| == |net.datapaths|
    && (forall c :: 0 <= c < |w.ctls| ==>
          CtlInv(w.ctls[c], net.datapaths[c], net.ports[c]) && CtlTrue(net, c, w.ctls[c]))
    && (forall p :: p in w.flight ==> Truthful(net, p.dst, p.msg))
  }

  lemma SharerKeepsTrue(net: Net, c: nat, ctl: Ctl)
    requires NetOk(net) && c < |net.datapaths| && CtlTrue(net, c, ctl)
    requires !ctl.sharer.NotStarted? ==> ctl.switchId == net.datapaths[c]
    ensures CtlTrue(net, c, SharerStep(ctl).0)
    ensures var send := SharerStep(ctl).1;
      send.Some? && send.value.msg.Node? ==> send.value.msg.id == IdAt(net, Endpoint(c, send.value.port))
  {
    SharerClears(ctl);
    SharerLogIs(ctl);
    SharerOnlySends(ctl);
    SharerNames(ctl);
  }

  lemma ReceiverKeepsTrue(net: Net, c: nat, ctl: Ctl)
    requires NetOk(net) && c < |net.datapaths| && CtlTrue(net, c, ctl)
    requires ctl.switchId == net.datapaths[c] || ctl.switchId == 0
    ensures CtlTrue(net, c, ReceiverStep(ctl).0)
    ensures var send := ReceiverStep(ctl).1; send.Some? ==> !send.value.msg.Node?
  {
    ReceiverRecords(ctl);
    ReceiverLogIs(ctl);
    ReceiverHandles(ctl);
  }

  lemma ArriveKeeps(net: Net, c: nat, ctl: Ctl, pc: ReceiverPc)
    requires NetOk(net) && c < |net.datapaths|
    requires CtlInv(ctl, net.datapaths[c], net.ports[c]) && CtlTrue(net, c, ctl) && ctl.receiver.Idle?
    requires || (pc == WantFeatures(net.datapaths[c], net.ports[c]) && ctl.sharer.NotStarted?)
             || (pc.WantAnim? && Truthful(net, Endpoint(c, pc.port), pc.msg))
    ensures CtlInv(Arrive(ctl, pc), net.datapaths[c], net.ports[c]) && CtlTrue(net, c, Arrive(ctl, pc))
  {
  }

  lemma PostKeepsTruth(net: Net, flight: multiset<Packet>, c: nat, send: Option<Send>)
    requires NetOk(net) && c < |net.datapaths|
    requires forall p :: p in flight ==> Truthful(net, p.dst, p.msg)
    requires send.Some? && send.value.msg.Node? ==> send.value.msg.id == IdAt(net, Endpoint(c, send.value.port))
    ensures forall p :: p in Post(net, flight, c, send) ==> Truthful(net, p.dst, p.msg)
  {
  }

  lemma StepKeepsCtl(net: Net, w: World, a: Act, c: nat)
    requires NetOk(net) && Inv(net, w) && c < |w.ctls|
    ensures var ctl := Step(net, w, a).ctls[c];
      CtlInv(ctl, net.datapaths[c], net.ports[c]) && CtlTrue(net, c, ctl)
  {
    if Enabled(net, w, a) {
      match a
      case Features(d) => if c == d { ArriveKeeps(net, c, w.ctls[c], WantFeatures(net.datapaths[c], net.ports[c])); }
      case Receive(d) =>
        if c == d {
          ReceiverKeepsInv(w.ctls[c], net.datapaths[c], net.ports[c]);
          ReceiverKeepsTrue(net, c, w.ctls[c]);
        }
      case Share(d) =>
        if c == d {
          SharerKeepsInv(w.ctls[c], net.datapaths[c], net.ports[c]);
          SharerKeepsTrue(net, c, w.ctls[c]);
        }
      case Deliver(p) => if c == p.dst.ctl { ArriveKeeps(net, c, w.ctls[c], WantAnim(p.dst.port, p.msg)); }
      case Lose(_) =>
      case Duplicate(_) =>
    }
  }

  lemma StepKeepsFlight(net: Net, w: World, a: Act)
    requires NetOk(net) && Inv(net, w)
    ensures forall p :: p in Step(net, w, a).flight ==> Truthful(net, p.dst, p.msg)
  {
    if Enabled(net, w, a) {
      match a
      case Receive(c) =>
        ReceiverKeepsTrue(net, c, w.ctls[c]);
        PostKeepsTruth(net, w.flight, c, ReceiverStep(w.ctls[c]).1);
      case Share(c) =>
        SharerKeepsTrue(net, c, w.ctls[c]);
        PostKeepsTruth(net, w.flight, c, SharerStep(w.ctls[c]).1);
      case _ =>
    }
  }

  lemma StepKeepsInv(net: Net, w: World, a: Act)
    requires NetOk(net) && Inv(net, w)
    ensures Inv(net, Step(net, w, a))
  {
    StepKeepsFlight(net, w, a);
    forall c | 0 <= c < |w.ctls|
      ensures var ctl := Step(net, w, a).ctls[c];
        CtlInv(ctl, net.datapaths[c], net.ports[c]) && CtlTrue(net, c, ctl)
    {
      StepKeepsCtl(net, w, a, c);
    }
  }

  lemma {:induction false} RunKeepsInv(net: Net, w: World, acts: seq<Act>)
    requires NetOk(net) && Inv(net, w)
    ensures Inv(net, Run(net, w, acts))
    decreases |acts|
  {
    if acts == [] {
    } else {
      StepKeepsInv(net, w, acts[0]);
      RunKeepsInv(net, Step(net, w, acts[0]), acts[1..]);
    }
  }

  lemma InitInv(net: Net)
    requires NetOk(net)
    ensures Inv(net, Init(net))
  {
    assert CtlInv(Start(), 1, 1);
  }

  // ----- Soundness over every run, duplication included -----

  /** Every entry of every `links` table names the two ends of one wire, this controller's own
      end first; the own datapath may only be wrong by being 0. */
  lemma LinkSoundness(net: Net, acts: seq<Act>, c: nat, l: Link)
    requires NetOk(net) && c < |net.datapaths|
    requires c < |Run(net, Init(net), acts).ctls| && l in Run(net, Init(net), acts).ctls[c].links
    ensures Endpoint(c, l.a.port) in net.wire && l.b == IdAt(net, net.wire[Endpoint(c, l.a.port)])
    ensures l.a == IdAt(net, Endpoint(c, l.a.port)) || l.a == NodeId(0, l.a.port)
  {
    InitInv(net);
    RunKeepsInv(net, Init(net), acts);
  }

  // ----- When the own datapath is missing -----

  /** A NODE still in the table was handled before the features reply. */
  ghost predicate EarlyNode(log: seq<Event>) {
    exists j :: 0 <= j < |log| && EarlyAt(log, j)
  }

  ghost predicate EarlyAt(log: seq<Event>, j: nat)
    requires j < |log|
  {
    && log[j].GotNode? && PastOf(log[..j]).id == 0
    && forall i :: j < i < |log| ==> !log[i].Printed?
  }

  predicate HasZero(links: seq<Link>) {
    exists i :: 0 <= i < |links| && links[i].a.datapath == 0
  }

  lemma HasZeroStep(p: Past, e: Event)
    ensures HasZero(Advance(p, e).links) <==> !e.Printed? && (HasZero(p.links) || (e.GotNode? && p.id == 0))
  {
    var after := Advance(p, e).links;
    Records(p, e);
    if e.GotNode? {
      assert after[|p.links|].a.datapath == p.id;
      assert forall i :: 0 <= i < |p.links| ==> after[i] == p.links[i];
    }
  }

  lemma EarlyAtStep(log: seq<Event>, e: Event, j: nat)
    requires j <= |log|
    ensures EarlyAt(log + [e], j) <==>
      if j == |log| then e.GotNode? && PastOf(log).id == 0 else EarlyAt(log, j) && !e.Printed?
  {
    hide PastOf;
    var after := log + [e];
    assert after[..j] == log[..j] && log[..|log|] == log;
    assert forall i :: 0 <= i < |log| ==> after[i] == log[i];
    assert j < |log| && EarlyAt(after, j) ==> !after[|log|].Printed?;
  }

  lemma {:induction false} EarlyIff(log: seq<Event>)
    ensures HasZero(PastOf(log).links) <==> EarlyNode(log)
  {
    if log == [] {
    } else {
      hide PastOf, EarlyAt, HasZero;
      var n := |log| - 1;
      var before, e := log[..n], log[n];
      SplitLast(log, n);
      Appended(before, e);
      HasZeroStep(PastOf(before), e);
      EarlyIff(before);
      if j: nat :| j < |before| && EarlyAt(before, j) {
        EarlyAtStep(before, e, j);
      }
      EarlyAtStep(before, e, n);
      if j: nat :| j < |log| && EarlyAt(log, j) {
        EarlyAtStep(before, e, j);
      }
    }
  }

  /** Every entry names the controller's own port exactly when no NODE now in the table was
      handled before the features reply gave the controller its datapath identifier. */
  lemma OwnEndIff(net: Net, acts: seq<Act>, c: nat)
    requires NetOk(net) && c < |Run(net, Init(net), acts).ctls|
    ensures var ctl := Run(net, Init(net), acts).ctls[c];
      c < |net.datapaths|
      && ((forall l :: l in ctl.links ==> l.a == IdAt(net, Endpoint(c, l.a.port))) <==> !EarlyNode(ctl.log))
  {
    InitInv(net);
    RunKeepsInv(net, Init(net), acts);
    var ctl := Run(net, Init(net), acts).ctls[c];
    assert CtlTrue(net, c, ctl) && ctl.links == PastOf(ctl.log).links;
    EarlyIff(ctl.log);
    forall l | l in ctl.links ensures LinkTrue(net, c, l) {
    }
    if HasZero(ctl.links) {
      var i :| 0 <= i < |ctl.links| && ctl.links[i].a.datapath == 0;
      assert ctl.links[i] in ctl.links;
    }
  }

  // ----- Consistency between controllers -----

  lemma SameNode(net: Net, e: Endpoint, f: Endpoint)
    requires NetOk(net) && e.ctl < |net.datapaths| && f.ctl < |net.datapaths| && IdAt(net, e) == IdAt(net, f)
    ensures e == f
  {
  }

  /** Two records anywhere in the network, made after configuration: equal near ends have equal
      far ends and conversely, and records made at both ends of a wire are mirror images. */
  lemma GlobalConsistency(net: Net, acts: seq<Act>, c: nat, l: Link, d: nat, m: Link)
    requires NetOk(net) && c < |Run(net, Init(net), acts).ctls| && d < |Run(net, Init(net), acts).ctls|
    requires l in Run(net, Init(net), acts).ctls[c].links && l.a.datapath != 0
    requires m in Run(net, Init(net), acts).ctls[d].links && m.a.datapath != 0
    ensures l.a == m.a <==> l.b == m.b
    ensures l.a == m.b <==> l.b == m.a
  {
    InitInv(net);
    RunKeepsInv(net, Init(net), acts);
    LinkSoundness(net, acts, c, l);
    LinkSoundness(net, acts, d, m);
    var e, f := Endpoint(c, l.a.port), Endpoint(d, m.a.port);
    if l.a == m.a { SameNode(net, e, f); }
    if l.b == m.b { SameNode(net, net.wire[e], net.wire[f]); }
    if l.a == m.b { SameNode(net, e, net.wire[f]); }
    if l.b == m.a { SameNode(net, net.wire[e], f); }
  }

  // ----- Every reachable controller -----

  lemma Reachable(net: Net, acts: seq<Act>, c: nat)
    requires NetOk(net) && c < |net.datapaths|
    ensures var w := Run(net, Init(net), acts);
      |w.ctls| == |net.datapaths| && CtlInv(w.ctls[c], net.datapaths[c], net.ports[c])
  {
    InitInv(net);
    RunKeepsInv(net, Init(net), acts);
  }

  /** In every reachable state the two threads of a controller are not both at its tables, and a
      controller with a thread under way can take a step. */
  lemma ExclusiveAndLive(net: Net, acts: seq<Act>, c: nat)
    requires NetOk(net) && c < |net.datapaths|
    ensures var w := Run(net, Init(net), acts);
      && |w.ctls| == |net.datapaths|
      && !(SharerTouches(w.ctls[c].sharer) && ReceiverTouches(w.ctls[c].receiver))
      && (w.ctls[c].sharer != NotStarted || w.ctls[c].receiver != Idle ==>
            Enabled(net, w, Share(c)) || Enabled(net, w, Receive(c)))
  {
    hide PastOf, LogOk, Answered;
    Reachable(net, acts, c);
    TablesOnlyUnderMutex(Run(net, Init(net), acts).ctls[c]);
    NoDeadlock(Run(net, Init(net), acts).ctls[c]);
  }

  /** Snapshot and announcement of `ports`, and nothing else, stand in `log[i..j]`. */
  predicate Announces(log: seq<Event>, i: nat, j: nat, ports: seq<u16>) {
    i <= j <= |log| && log[i..j] == [Snapshot(ports)] + SentNodes(ports)
  }

  ghost predicate RoundExact(log: seq<Event>, j: nat)
    requires j < |log|
  {
    match log[j]
    case WaitBegin =>
      exists k: nat, i: nat :: SincePrint(log, k, i) && i < j && Announces(log, i, j, PortsGot(log[k..i]))
    case Printed(links) =>
      exists k: nat :: SincePrint(log, k, j) && Ends(links) == NodesIn(log[k..j])
    case _ => true
  }

  lemma AnnouncedAt(log: seq<Event>, j: nat) returns (i: nat, ports: seq<u16>)
    requires j < |log| && log[j].WaitBegin? && EventOk(log[..j], log[j])
    ensures i < j && Announces(log, i, j, ports) && log[i] == Snapshot(ports)
  {
    ports :| EndsAnnouncing(log[..j], ports, |ports|);
    i := j - |ports| - 1;
    assert ports[..|ports|] == ports && log[..j][i..] == log[i..j];
    assert log[i] == log[i..j][0];
  }

  lemma SnapshotIsGot(log: seq<Event>, i: nat) returns (k: nat)
    requires i < |log| && log[i].Snapshot? && EventOk(log[..i], log[i])
    ensures SincePrint(log, k, i) && log[i].ports == PortsGot(log[k..i])
  {
    hide PastOf, PortsGot;
    k := ReplysAreGot(log[..i]);
    assert log[..i][k..] == log[k..i];
    assert forall m :: 0 <= m < i ==> log[..i][m] == log[m];
  }

  lemma RoundIsAnnounced(log: seq<Event>, j: nat)
    requires LogOk(log) && j < |log| && log[j].WaitBegin?
    ensures RoundExact(log, j)
  {
    hide EventOk, Announces, PortsGot;
    var i, ports := AnnouncedAt(log, j);
    var k := SnapshotIsGot(log, i);
    assert SincePrint(log, k, i) && Announces(log, i, j, PortsGot(log[k..i]));
  }

  lemma RoundIsPrinted(log: seq<Event>, j: nat)
    requires LogOk(log) && j < |log| && log[j].Printed?
    ensures RoundExact(log, j)
  {
    hide PastOf, NodesIn, Ends;
    assert EventOk(log[..j], log[j]);
    var k := LinksAreNodes(log[..j]);
    assert log[..j][k..] == log[k..j];
    assert SincePrint(log, k, j);
  }

  /** In every run each round announces exactly the replies handled since the last print, each
      once, in order and on its own port, before it begins to wait; and each print shows exactly
      the NODEs handled since the last, in order. */
  lemma RoundsAreExact(net: Net, acts: seq<Act>, c: nat, j: nat)
    requires NetOk(net) && c < |net.datapaths|
    ensures var w := Run(net, Init(net), acts);
      |w.ctls| == |net.datapaths| && (j < |w.ctls[c].log| ==> RoundExact(w.ctls[c].log, j))
  {
    Reachable(net, acts, c);
    var log := Run(net, Init(net), acts).ctls[c].log;
    if j < |log| && log[j].WaitBegin? {
      RoundIsAnnounced(log, j);
    } else if j < |log| && log[j].Printed? {
      RoundIsPrinted(log, j);
    }
  }

  /** In every run a NODE has been sent, or is still to be sent in the announcement under way or
      the next, for exactly the replies recorded before their round's snapshot; from the end of an
      announcement to the next print none is still to be sent. */
  lemma AnnouncedIffOnTime(net: Net, acts: seq<Act>, c: nat, p: u16)
    requires NetOk(net) && c < |net.datapaths|
    ensures var w := Run(net, Init(net), acts);
      && |w.ctls| == |net.datapaths|
      && Count(w.ctls[c].log, SentNode(p)) + multiset(Unannounced(w.ctls[c]))[p] == OnTime(w.ctls[c].log, p)
      && (Waiting(w.ctls[c].sharer) ==> Count(w.ctls[c].log, SentNode(p)) == OnTime(w.ctls[c].log, p))
  {
    Reachable(net, acts, c);
    assert Answered(Run(net, Init(net), acts).ctls[c].log, Unannounced(Run(net, Init(net), acts).ctls[c]));
  }

  /** In every reachable state of a wait, the timer counts its quiet ticks, never exceeds 21, and
      the wait has lasted at most 21 ticks for each NODE handled in it and 21 more. */
  lemma WaitsAreBounded(net: Net, acts: seq<Act>, c: nat) returns (k: nat)
    requires NetOk(net) && c < |Run(net, Init(net), acts).ctls|
    ensures var ctl := Run(net, Init(net), acts).ctls[c];
      && ctl.counter == PastOf(ctl.log).sinceReset <= 21 && SinceWait(ctl.log, k, |ctl.log|)
      && (Waiting(ctl.sharer) ==> multiset(ctl.log[k..])[Tick] <= 21 * (|NodesIn(ctl.log[k..])| + 1))
  {
    InitInv(net);
    RunKeepsInv(net, Init(net), acts);
    k := WaitCounts(Run(net, Init(net), acts).ctls[c].log);
  }

  /** In every run a wait is left only after 21 ticks with no NODE among them, and within
      21 * (NODEs + 1) + 1 passes. */
  lemma WaitsAreQuiet(net: Net, acts: seq<Act>, c: nat, j: nat) returns (k: nat, begun: nat)
    requires NetOk(net) && c < |Run(net, Init(net), acts).ctls| && j < |Run(net, Init(net), acts).ctls[c].log|
    requires Run(net, Init(net), acts).ctls[c].log[j] == Break
    ensures var log := Run(net, Init(net), acts).ctls[c].log;
      && k <= j && multiset(log[k..j])[Tick] == 21 && (forall i :: k <= i < j ==> !log[i].Reset? && !log[i].GotNode?)
      && SinceWait(log, begun, j)
      && multiset(log[begun..j])[Tick] + 1 <= 21 * (|NodesIn(log[begun..j])| + 1) + 1
  {
    hide PastOf, NodesIn, SinceWait, CtlTrue;
    InitInv(net);
    RunKeepsInv(net, Init(net), acts);
    var log := Run(net, Init(net), acts).ctls[c].log;
    k := BreakIsQuiet(log, j);
    begun := WaitBegun(log, j);
  }

  lemma WaitBegun(log: seq<Event>, j: nat) returns (k: nat)
    requires j <= |log|
    ensures SinceWait(log, k, j)
    ensures PastOf(log[..j]).thisWait == multiset(log[k..j])[Tick] && PastOf(log[..j]).nodes == |NodesIn(log[k..j])|
  {
    hide PastOf, NodesIn;
    k := WaitCounts(log[..j]);
    assert log[..j][k..] == log[k..j];
    assert forall m :: 0 <= m < j ==> log[..j][m] == log[m];
  }

  /** No NODE is ever announced on a port with no wire, because no reply ever comes from one. */
  lemma HostPortsStaySilent(net: Net, acts: seq<Act>, c: nat, p: u16)
    requires NetOk(net) && c < |Run(net, Init(net), acts).ctls| && Endpoint(c, p) !in net.wire
    ensures var log := Run(net, Init(net), acts).ctls[c].log;
      Count(log, SentNode(p)) == 0 && Count(log, GotReply(p)) == 0
  {
    InitInv(net);
    RunKeepsInv(net, Init(net), acts);
    var ctl := Run(net, Init(net), acts).ctls[c];
    assert CtlTrue(net, c, ctl) && Answered(ctl.log, Unannounced(ctl));
    OnTimeAtMost(ctl.log, p);
    assert GotReply(p) !in ctl.log;
  }
}
