/** Where every discovery message went: sent, in flight, lost, held by a receive thread, or
    handled.  Exact for every run in which the network duplicates nothing. */
module Conservation {
  import opened Bytes
  import opened Protocol
  import opened Discovery

  function SentEvent(m: Msg, port: u16): Event {
    match m
    case EchoRequest => SentRequest(port)
    case EchoReply => SentReply(port)
    case Node(_) => SentNode(port)
  }

  /** Handling a request is answering it. */
  function TookEvent(m: Msg, port: u16): Event {
    match m
    case EchoRequest => SentReply(port)
    case EchoReply => GotReply(port)
    case Node(id) => GotNode(port, id)
  }

  function Held(ctl: Ctl, port: u16, m: Msg): nat {
    if ctl.receiver == WantAnim(port, m) || ctl.receiver == InAnim(port, m) then 1 else 0
  }

  function Indicator(b: bool): nat {
    if b then 1 else 0
  }

  /** Every `m` sent on `e` is accounted for at the other end of the wire. */
  predicate Balanced(net: Net, w: World, e: Endpoint, m: Msg)
    requires e in net.wire && e.ctl < |w.ctls| && net.wire[e].ctl < |w.ctls|
  {
    var f := net.wire[e];
    Count(w.ctls[e.ctl].log, SentEvent(m, e.port)) ==
      w.flight[Packet(f, m)] + w.lost[Packet(f, m)] + Held(w.ctls[f.ctl], f.port, m)
      + Count(w.ctls[f.ctl].log, TookEvent(m, f.port))
  }

  /** A NODE that may be sent on `e` names `e`. */
  predicate MayBeSent(net: Net, e: Endpoint, m: Msg) {
    e.ctl < |net.datapaths| && (m.Node? ==> m.id == IdAt(net, e))
  }

  lemma CountAppend(log: seq<Event>, e: Option<Event>, f: Event)
    ensures Count(Append(log, e), f) == Count(log, f) + Indicator(e == Some(f))
  {
  }

  lemma SharerSends(c: Ctl, port: u16, m: Msg)
    requires m.Node? ==> m.id == NodeId(c.switchId, port)
    ensures SharerEvent(c) == Some(SentEvent(m, port)) <==> SharerStep(c).1 == Some(Send(port, m))
  {
  }

  lemma SharerBalance(c: Ctl, port: u16, m: Msg)
    requires m.Node? ==> m.id == NodeId(c.switchId, port)
    ensures var (d, send) := SharerStep(c);
      Count(d.log, SentEvent(m, port)) == Count(c.log, SentEvent(m, port)) + Indicator(send == Some(Send(port, m)))
  {
    SharerLogIs(c);
    SharerSends(c, port, m);
    CountAppend(c.log, SharerEvent(c), SentEvent(m, port));
  }

  lemma SharerTakesNothing(c: Ctl, port: u16, m: Msg)
    ensures var d := SharerStep(c).0;
      Count(d.log, TookEvent(m, port)) == Count(c.log, TookEvent(m, port)) && d.receiver == c.receiver
  {
    SharerLogIs(c);
    SharerOnlySends(c);
    SharerClears(c);
    CountAppend(c.log, SharerEvent(c), TookEvent(m, port));
  }

  lemma ReceiverSends(c: Ctl, port: u16, m: Msg)
    ensures ReceiverEvent(c) == Some(SentEvent(m, port)) <==> ReceiverStep(c).1 == Some(Send(port, m))
    ensures ReceiverEvent(c) == Some(TookEvent(m, port)) <==> c.receiver == InAnim(port, m)
  {
  }

  lemma ReceiverBalance(c: Ctl, port: u16, m: Msg)
    requires ReceiverEnabled(c)
    ensures var (d, send) := ReceiverStep(c);
      && Count(d.log, SentEvent(m, port)) == Count(c.log, SentEvent(m, port)) + Indicator(send == Some(Send(port, m)))
      && Held(d, port, m) + Count(d.log, TookEvent(m, port)) == Held(c, port, m) + Count(c.log, TookEvent(m, port))
  {
    ReceiverLogIs(c);
    ReceiverSends(c, port, m);
    CountAppend(c.log, ReceiverEvent(c), SentEvent(m, port));
    CountAppend(c.log, ReceiverEvent(c), TookEvent(m, port));
    ReceiverHeld(c, port, m);
  }

  lemma ReceiverHeld(c: Ctl, port: u16, m: Msg)
    requires ReceiverEnabled(c)
    ensures Held(ReceiverStep(c).0, port, m) + Indicator(c.receiver == InAnim(port, m)) == Held(c, port, m)
  {
  }

  lemma PostCount(net: Net, flight: multiset<Packet>, c: nat, send: Option<Send>, e: Endpoint, m: Msg)
    requires NetOk(net) && e in net.wire
    ensures Post(net, flight, c, send)[Packet(net.wire[e], m)] ==
      flight[Packet(net.wire[e], m)] + Indicator(e.ctl == c && send == Some(Send(e.port, m)))
  {
    if send.Some? {
      var s := Endpoint(c, send.value.port);
      if s in net.wire && net.wire[s] == net.wire[e] {
        assert s == e;
      }
    }
  }

  lemma ReceiveKeepsBalance(net: Net, w: World, c: nat, e: Endpoint, m: Msg)
    requires NetOk(net) && c < |w.ctls| && ReceiverEnabled(w.ctls[c])
    requires e in net.wire && e.ctl < |w.ctls| && net.wire[e].ctl < |w.ctls| && Balanced(net, w, e, m)
    ensures Balanced(net, Step(net, w, Receive(c)), e, m)
  {
    PostCount(net, w.flight, c, ReceiverStep(w.ctls[c]).1, e, m);
    ReceiverBalance(w.ctls[c], e.port, m);
    ReceiverBalance(w.ctls[c], net.wire[e].port, m);
  }

  lemma ShareKeepsBalance(net: Net, w: World, c: nat, e: Endpoint, m: Msg)
    requires NetOk(net) && c < |w.ctls| && SharerEnabled(w.ctls[c])
    requires e in net.wire && e.ctl < |w.ctls| && net.wire[e].ctl < |w.ctls| && Balanced(net, w, e, m)
    requires e.ctl == c && m.Node? ==> m.id == NodeId(w.ctls[c].switchId, e.port)
    ensures Balanced(net, Step(net, w, Share(c)), e, m)
  {
    PostCount(net, w.flight, c, SharerStep(w.ctls[c]).1, e, m);
    if c == e.ctl {
      SharerBalance(w.ctls[c], e.port, m);
    }
    SharerTakesNothing(w.ctls[c], net.wire[e].port, m);
  }

  lemma NetworkKeepsBalance(net: Net, w: World, a: Act, e: Endpoint, m: Msg)
    requires a.Features? || a.Deliver? || a.Lose?
    requires Enabled(net, w, a)
    requires e in net.wire && e.ctl < |w.ctls| && net.wire[e].ctl < |w.ctls| && Balanced(net, w, e, m)
    ensures Balanced(net, Step(net, w, a), e, m)
  {
  }

  /** A configured sharing thread names its own datapath. */
  lemma OwnName(net: Net, w: World, c: nat)
    requires NetOk(net) && Inv(net, w) && c < |w.ctls| && SharerEnabled(w.ctls[c])
    ensures w.ctls[c].switchId == net.datapaths[c]
  {
    assert CtlInv(w.ctls[c], net.datapaths[c], net.ports[c]);
  }

  lemma StepKeepsBalance(net: Net, w: World, a: Act, e: Endpoint, m: Msg)
    requires NetOk(net) && Inv(net, w) && e in net.wire && MayBeSent(net, e, m)
    requires Balanced(net, w, e, m) && !a.Duplicate?
    ensures |Step(net, w, a).ctls| == |w.ctls| && Balanced(net, Step(net, w, a), e, m)
  {
    if Enabled(net, w, a) {
      match a
      case Receive(c) => ReceiveKeepsBalance(net, w, c, e, m);
      case Share(c) =>
        OwnName(net, w, c);
        ShareKeepsBalance(net, w, c, e, m);
      case _ => NetworkKeepsBalance(net, w, a, e, m);
    }
  }

  lemma {:induction false} RunKeepsBalance(net: Net, w: World, acts: seq<Act>, e: Endpoint, m: Msg)
    requires NetOk(net) && Inv(net, w) && e in net.wire && MayBeSent(net, e, m)
    requires Balanced(net, w, e, m) && forall a :: a in acts ==> !a.Duplicate?
    ensures |Run(net, w, acts).ctls| == |w.ctls| && Balanced(net, Run(net, w, acts), e, m)
    decreases |acts|
  {
    if acts == [] {
    } else {
      StepKeepsInv(net, w, acts[0]);
      StepKeepsBalance(net, w, acts[0], e, m);
      RunKeepsBalance(net, Step(net, w, acts[0]), acts[1..], e, m);
    }
  }

  /** In every run without duplication, at every moment, what was sent on `e` equals what is in
      flight, lost, held and handled at the other end. */
  lemma EveryMessageAccountedFor(net: Net, acts: seq<Act>, e: Endpoint, m: Msg)
    requires NetOk(net) && e in net.wire && MayBeSent(net, e, m) && forall a :: a in acts ==> !a.Duplicate?
    ensures var w := Run(net, Init(net), acts);
      |w.ctls| == |net.datapaths| && Balanced(net, w, e, m)
  {
    InitInv(net);
    RunKeepsBalance(net, Init(net), acts, e, m);
  }

  /** The handshake chain on one wire: NODEs recorded at the far end, NODEs sent, replies
      received, replies sent, requests sent. */
  lemma HandshakeChain(net: Net, acts: seq<Act>, e: Endpoint)
    requires NetOk(net) && e in net.wire && forall a :: a in acts ==> !a.Duplicate?
    ensures var w := Run(net, Init(net), acts);
      var f := net.wire[e];
      && |w.ctls| == |net.datapaths|
      && Count(w.ctls[f.ctl].log, GotNode(f.port, IdAt(net, e)))
         <= Count(w.ctls[e.ctl].log, SentNode(e.port))
         <= Count(w.ctls[e.ctl].log, GotReply(e.port))
         <= Count(w.ctls[f.ctl].log, SentReply(f.port))
         <= Count(w.ctls[e.ctl].log, SentRequest(e.port))
  {
    var f := net.wire[e];
    EveryMessageAccountedFor(net, acts, e, EchoRequest);
    EveryMessageAccountedFor(net, acts, f, EchoReply);
    EveryMessageAccountedFor(net, acts, e, Node(IdAt(net, e)));
    Reachable(net, acts, e.ctl);
    var ctl := Run(net, Init(net), acts).ctls[e.ctl];
    assert Answered(ctl.log, Unannounced(ctl));
    OnTimeAtMost(ctl.log, e.port);
  }

  // ----- When nothing is lost and nothing is left to deliver -----

  lemma {:induction false} NothingLost(net: Net, w: World, acts: seq<Act>)
    requires w.lost == multiset{} && forall a :: a in acts ==> !a.Lose?
    ensures Run(net, w, acts).lost == multiset{}
    decreases |acts|
  {
    if acts == [] {
    } else {
      NothingLost(net, Step(net, w, acts[0]), acts[1..]);
    }
  }

  /** No message is in flight or held by a receive thread. */
  predicate Drained(w: World) {
    && w.flight == multiset{}
    && forall c :: 0 <= c < |w.ctls| ==> !w.ctls[c].receiver.WantAnim? && !w.ctls[c].receiver.InAnim?
  }

  /** In every lossless run, once the network is drained, requests, replies and NODEs balance at
      the two ends of every wire; and the far end has handled exactly the NODEs for the replies
      recorded in time, less those still to be announced. */
  lemma DrainedBalances(net: Net, acts: seq<Act>, e: Endpoint)
    requires NetOk(net) && e in net.wire && forall a :: a in acts ==> !a.Duplicate? && !a.Lose?
    requires Drained(Run(net, Init(net), acts))
    ensures var w := Run(net, Init(net), acts);
      var f := net.wire[e];
      && |w.ctls| == |net.datapaths|
      && Count(w.ctls[e.ctl].log, SentRequest(e.port)) == Count(w.ctls[f.ctl].log, SentReply(f.port))
      && Count(w.ctls[f.ctl].log, SentReply(f.port)) == Count(w.ctls[e.ctl].log, GotReply(e.port))
      && Count(w.ctls[e.ctl].log, SentNode(e.port)) == Count(w.ctls[f.ctl].log, GotNode(f.port, IdAt(net, e)))
      && Count(w.ctls[f.ctl].log, GotNode(f.port, IdAt(net, e))) + multiset(Unannounced(w.ctls[e.ctl]))[e.port]
         == OnTime(w.ctls[e.ctl].log, e.port)
  {
    var f := net.wire[e];
    NothingLost(net, Init(net), acts);
    EveryMessageAccountedFor(net, acts, e, EchoRequest);
    EveryMessageAccountedFor(net, acts, f, EchoReply);
    EveryMessageAccountedFor(net, acts, e, Node(IdAt(net, e)));
    AnnouncedIffOnTime(net, acts, e.ctl, e.port);
  }

  // ----- From NODEs handled to entries in the table -----

  lemma {:induction false} EntriesAreHandled(log: seq<Event>, p: u16, id: NodeId)
    ensures multiset(Ends(PastOf(log).links))[(p, id)] <= Count(log, GotNode(p, id))
  {
    if log == [] {
    } else {
      var n := |log| - 1;
      EntriesAreHandled(log[..n], p, id);
      assert log == log[..n] + [log[n]];
      var before, after := PastOf(log[..n]).links, PastOf(log).links;
      if log[n].GotNode? {
        assert Ends(after) == Ends(before) + [(log[n].port, log[n].from)];
      }
    }
  }

  /** Table entries at one end of a wire never outnumber the NODEs sent from the other. */
  lemma EntriesWereSent(net: Net, acts: seq<Act>, e: Endpoint)
    requires NetOk(net) && e in net.wire && forall a :: a in acts ==> !a.Duplicate?
    ensures var w := Run(net, Init(net), acts);
      var f := net.wire[e];
      && |w.ctls| == |net.datapaths|
      && multiset(Ends(w.ctls[f.ctl].links))[(f.port, IdAt(net, e))] <= Count(w.ctls[e.ctl].log, SentNode(e.port))
      && forall end :: end in Ends(w.ctls[f.ctl].links) && end.0 == f.port ==> end.1 == IdAt(net, e)
  {
    var f := net.wire[e];
    HandshakeChain(net, acts, e);
    Reachable(net, acts, f.ctl);
    var ctl := Run(net, Init(net), acts).ctls[f.ctl];
    EntriesAreHandled(ctl.log, f.port, IdAt(net, e));
    forall end | end in Ends(ctl.links) && end.0 == f.port
      ensures end.1 == IdAt(net, e)
    {
      var i :| 0 <= i < |ctl.links| && Ends(ctl.links)[i] == end;
      LinkSoundness(net, acts, f.ctl, ctl.links[i]);
    }
  }
}
