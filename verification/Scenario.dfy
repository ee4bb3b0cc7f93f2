/** A concrete run of two switches joined by one wire, port 1 to port 1: the handshake records a
    link, and when the receiving controller has not yet had its features reply the recorded near
    end names datapath 0. */
module Scenario {
  import opened Bytes
  import opened Protocol
  import opened Discovery

  const A: nat := 0
  const B: nat := 1

  predicate TwoSwitches(net: Net) {
    && |net.datapaths| == 2 && net.ports == [1, 1]
    && net.datapaths[0] != 0 && net.datapaths[1] != 0 && net.datapaths[0] != net.datapaths[1]
    && net.wire == map[Endpoint(A, 1) := Endpoint(B, 1), Endpoint(B, 1) := Endpoint(A, 1)]
  }

  lemma {:induction false} Then(net: Net, w: World, acts: seq<Act>, a: Act) returns (more: seq<Act>)
    ensures more == acts + [a] && Run(net, w, more) == Step(net, Run(net, w, acts), a)
    decreases |acts|
  {
    more := acts + [a];
    if acts != [] {
      var rest := Then(net, Step(net, w, acts[0]), acts[1..], a);
      assert more[1..] == rest;
    } else {
      assert more[1..] == [];
    }
  }

  /** One step of a sharing thread that can run. */
  lemma Shares(net: Net, init: World, acts: seq<Act>, c: nat) returns (more: seq<Act>)
    requires c < 2 && |Run(net, init, acts).ctls| == 2 && SharerEnabled(Run(net, init, acts).ctls[c])
    ensures var w, v := Run(net, init, acts), Run(net, init, more);
      && |v.ctls| == 2 && v.ctls[1 - c] == w.ctls[1 - c] && v.ctls[c] == SharerStep(w.ctls[c]).0
      && v.flight == Post(net, w.flight, c, SharerStep(w.ctls[c]).1)
  {
    hide SharerStep, Post, SharerEnabled;
    more := Then(net, init, acts, Share(c));
  }

  lemma Receives(net: Net, init: World, acts: seq<Act>, c: nat) returns (more: seq<Act>)
    requires c < 2 && |Run(net, init, acts).ctls| == 2 && ReceiverEnabled(Run(net, init, acts).ctls[c])
    ensures var w, v := Run(net, init, acts), Run(net, init, more);
      && |v.ctls| == 2 && v.ctls[1 - c] == w.ctls[1 - c] && v.ctls[c] == ReceiverStep(w.ctls[c]).0
      && v.flight == Post(net, w.flight, c, ReceiverStep(w.ctls[c]).1)
  {
    hide ReceiverStep, Post, ReceiverEnabled;
    more := Then(net, init, acts, Receive(c));
  }

  /** From the arrival of the features reply to the unlock. */
  lemma ConfigureSteps(c: Ctl, datapath: u64)
    requires c == Arrive(Start(), WantFeatures(datapath, 1))
    ensures var c1 := ReceiverStep(c);
      var c2 := ReceiverStep(c1.0);
      var c3 := ReceiverStep(c2.0);
      && ReceiverEnabled(c) && ReceiverEnabled(c1.0) && ReceiverEnabled(c2.0)
      && c1.1 == None && c2.1 == None && c3.1 == None
      && c3.0 == Start().(sharer := Napping, switchId := datapath, noOfPorts := 1, log := [Configured(datapath)])
  {
  }

  /** A features reply is delivered and handled. */
  lemma Configure(net: Net, init: World, acts: seq<Act>, c: nat) returns (more: seq<Act>)
    requires TwoSwitches(net) && c < 2 && |Run(net, init, acts).ctls| == 2 && Run(net, init, acts).ctls[c] == Start()
    ensures var w, v := Run(net, init, acts), Run(net, init, more);
      && |v.ctls| == 2 && v.ctls[1 - c] == w.ctls[1 - c] && v.flight == w.flight
      && v.ctls[c] == Start().(
           sharer := Napping, switchId := net.datapaths[c], noOfPorts := 1, log := [Configured(net.datapaths[c])])
  {
    more := Then(net, init, acts, Features(c));
    ConfigureSteps(Run(net, init, more).ctls[c], net.datapaths[c]);
    hide ReceiverStep, ReceiverEnabled, Run, Step;
    more := Receives(net, init, more, c);
    more := Receives(net, init, more, c);
    more := Receives(net, init, more, c);
  }

  /** From the lock to the handled message. */
  lemma LockAndHandle(net: Net, w: World, c: nat, p: u16, m: Msg)
    requires TwoSwitches(net) && |w.ctls| == 2 && c < 2
    requires w.ctls[c].receiver == WantAnim(p, m) && w.ctls[c].owner == Free
    ensures var v := Step(net, Step(net, w, Receive(c)), Receive(c));
      var (after, send) := HandleAnim(w.ctls[c], p, m);
      && |v.ctls| == 2 && v.ctls[1 - c] == w.ctls[1 - c]
      && v.ctls[c] == after.(receiver := DoneAnim, owner := ByReceiver)
      && v.flight == Post(net, w.flight, c, send)
  {
    var v := Step(net, w, Receive(c));
    assert v.ctls[c] == w.ctls[c].(receiver := InAnim(p, m), owner := ByReceiver) && v.flight == w.flight;
  }

  lemma DeliverTo(net: Net, w: World, p: Packet)
    requires |w.ctls| == 2 && p in w.flight && p.dst.ctl < 2 && w.ctls[p.dst.ctl].receiver.Idle?
    ensures var v, c := Step(net, w, Deliver(p)), p.dst.ctl;
      && |v.ctls| == 2 && v.ctls[1 - c] == w.ctls[1 - c]
      && v.ctls[c] == w.ctls[c].(receiver := WantAnim(p.dst.port, p.msg)) && v.flight == w.flight - multiset{p}
  {
  }

  lemma Unlock(net: Net, w: World, c: nat)
    requires |w.ctls| == 2 && c < 2 && w.ctls[c].receiver.DoneAnim?
    ensures var v := Step(net, w, Receive(c));
      && |v.ctls| == 2 && v.ctls[1 - c] == w.ctls[1 - c]
      && v.ctls[c] == w.ctls[c].(receiver := Idle, owner := Free) && v.flight == w.flight
  {
  }

  lemma HandleIgnoresPc(c: Ctl, pc: ReceiverPc, p: u16, m: Msg)
    ensures HandleAnim(c.(receiver := pc), p, m) == (HandleAnim(c, p, m).0.(receiver := pc), HandleAnim(c, p, m).1)
  {
  }

  /** A packet is delivered and its packet-in handled, lock to unlock. */
  lemma Handle(net: Net, init: World, acts: seq<Act>, p: Packet) returns (more: seq<Act>)
    requires TwoSwitches(net) && |Run(net, init, acts).ctls| == 2 && p.dst.ctl < 2
    requires p in Run(net, init, acts).flight
    requires var ctl := Run(net, init, acts).ctls[p.dst.ctl]; ctl.receiver.Idle? && ctl.owner == Free
    ensures var w, v, c := Run(net, init, acts), Run(net, init, more), p.dst.ctl;
      var (after, send) := HandleAnim(w.ctls[c], p.dst.port, p.msg);
      && |v.ctls| == 2 && v.ctls[1 - c] == w.ctls[1 - c] && v.ctls[c] == after
      && v.flight == Post(net, w.flight - multiset{p}, c, send)
  {
    var w, c := Run(net, init, acts), p.dst.ctl;
    DeliverTo(net, w, p);
    HandleIgnoresPc(w.ctls[c], WantAnim(p.dst.port, p.msg), p.dst.port, p.msg);
    LockAndHandle(net, Step(net, w, Deliver(p)), c, p.dst.port, p.msg);
    more := Then(net, init, acts, Deliver(p));
    more := Then(net, init, more, Receive(c));
    more := Then(net, init, more, Receive(c));
    Unlock(net, Run(net, init, more), c);
    more := Then(net, init, more, Receive(c));
  }

  /** Wake, lock, reset, unlock, ask. */
  lemma AskSteps(b: Ctl)
    requires b.owner == Free && b.sharer.Napping? && b.noOfPorts == 1
    ensures var b1 := SharerStep(b);
      var b2 := SharerStep(b1.0);
      var b3 := SharerStep(b2.0);
      var b4 := SharerStep(b3.0);
      var b5 := SharerStep(b4.0);
      && SharerEnabled(b) && SharerEnabled(b1.0) && SharerEnabled(b2.0) && SharerEnabled(b3.0) && SharerEnabled(b4.0)
      && b1.1 == None && b2.1 == None && b3.1 == None && b4.1 == None && b5.1 == Some(Send(1, EchoRequest))
      && b5.0.owner == Free && b5.0.sharer == Echoing(2) && b5.0.portsCount == 1
      && b5.0.receiver == b.receiver && b5.0.replys == b.replys && b5.0.switchId == b.switchId
  {
  }

  /** B's sharing thread asks on port 1, from its start to the request in flight. */
  lemma Ask(net: Net, init: World, acts: seq<Act>) returns (more: seq<Act>)
    requires TwoSwitches(net) && |Run(net, init, acts).ctls| == 2 && Run(net, init, acts).flight == multiset{}
    requires var b := Run(net, init, acts).ctls[B];
      b.owner == Free && b.sharer.Napping? && b.noOfPorts == 1 && b.replys == [] && b.receiver.Idle?
    ensures var w, v := Run(net, init, acts), Run(net, init, more);
      && |v.ctls| == 2 && v.ctls[A] == w.ctls[A] && v.flight == multiset{Packet(Endpoint(A, 1), EchoRequest)}
      && v.ctls[B].owner == Free && v.ctls[B].sharer == Echoing(2) && v.ctls[B].portsCount == 1
      && v.ctls[B].receiver.Idle? && v.ctls[B].replys == [] && v.ctls[B].switchId == w.ctls[B].switchId
  {
    hide SharerStep, SharerEnabled, Run, Step;
    AskSteps(Run(net, init, acts).ctls[B]);
    more := Shares(net, init, acts, B);
    more := Shares(net, init, more, B);
    more := Shares(net, init, more, B);
    more := Shares(net, init, more, B);
    more := Shares(net, init, more, B);
  }

  /** Past the last port, lock, announce. */
  lemma AnnounceSteps(b: Ctl)
    requires b.owner == Free && b.sharer == Echoing(2) && b.portsCount == 1 && b.replys == [1]
    ensures var b1 := SharerStep(b);
      var b2 := SharerStep(b1.0);
      var b3 := SharerStep(b2.0);
      && SharerEnabled(b) && SharerEnabled(b1.0) && SharerEnabled(b2.0)
      && b1.1 == None && b2.1 == None && b3.1 == Some(Send(1, Node(NodeId(b.switchId, 1))))
  {
  }

  /** B announces its one reply, up to the NODE in flight. */
  lemma Announce(net: Net, init: World, acts: seq<Act>) returns (more: seq<Act>)
    requires TwoSwitches(net) && |Run(net, init, acts).ctls| == 2 && Run(net, init, acts).flight == multiset{}
    requires var b := Run(net, init, acts).ctls[B];
      b.owner == Free && b.sharer == Echoing(2) && b.portsCount == 1 && b.replys == [1]
    ensures var w, v := Run(net, init, acts), Run(net, init, more);
      && |v.ctls| == 2 && v.ctls[A] == w.ctls[A]
      && v.flight == multiset{Packet(Endpoint(A, 1), Node(NodeId(w.ctls[B].switchId, 1)))}
  {
    hide SharerStep, SharerEnabled, Run, Step;
    AnnounceSteps(Run(net, init, acts).ctls[B]);
    more := Shares(net, init, acts, B);
    more := Shares(net, init, more, B);
    more := Shares(net, init, more, B);
  }

  /** B asks A, A answers, and the reply is in B's table. */
  lemma Handshake(net: Net, init: World, acts: seq<Act>) returns (more: seq<Act>)
    requires TwoSwitches(net) && |Run(net, init, acts).ctls| == 2 && Run(net, init, acts).flight == multiset{}
    requires var b := Run(net, init, acts).ctls[B];
      b.owner == Free && b.sharer.Napping? && b.noOfPorts == 1 && b.replys == [] && b.receiver.Idle?
    requires var a := Run(net, init, acts).ctls[A]; a.owner == Free && a.receiver.Idle? && a.links == []
    ensures var w, v := Run(net, init, acts), Run(net, init, more);
      && |v.ctls| == 2 && v.flight == multiset{}
      && v.ctls[A].owner == Free && v.ctls[A].receiver.Idle? && v.ctls[A].links == []
      && v.ctls[A].switchId == w.ctls[A].switchId && v.ctls[B].switchId == w.ctls[B].switchId
      && v.ctls[B].owner == Free && v.ctls[B].sharer == Echoing(2) && v.ctls[B].portsCount == 1
      && v.ctls[B].replys == [1]
  {
    more := Ask(net, init, acts);
    more := Handle(net, init, more, Packet(Endpoint(A, 1), EchoRequest));
    assert Run(net, init, more).flight == multiset{Packet(Endpoint(B, 1), EchoReply)};
    more := Handle(net, init, more, Packet(Endpoint(B, 1), EchoReply));
  }

  /** The handshake completes; `early` leaves A without its features reply. */
  lemma LinkIsRecorded(net: Net, early: bool) returns (acts: seq<Act>)
    requires TwoSwitches(net)
    ensures |Run(net, Init(net), acts).ctls| == 2
    ensures Run(net, Init(net), acts).ctls[A].links ==
      [Link(NodeId(if early then 0 else net.datapaths[A], 1), IdAt(net, Endpoint(B, 1)))]
  {
    var init := Init(net);
    acts := [];
    if !early {
      acts := Configure(net, init, acts, A);
    }
    acts := Configure(net, init, acts, B);
    acts := Handshake(net, init, acts);
    acts := Announce(net, init, acts);
    acts := Handle(net, init, acts, Packet(Endpoint(A, 1), Node(NodeId(net.datapaths[B], 1))));
  }

  // ----- A reply that comes too late -----

  /** Past the last port, lock, announce nothing, unlock. */
  lemma EmptyRoundSteps(b: Ctl)
    requires b.owner == Free && b.sharer == Echoing(2) && b.portsCount == 1 && b.replys == []
    ensures var b1 := SharerStep(b);
      var b2 := SharerStep(b1.0);
      var b3 := SharerStep(b2.0);
      && SharerEnabled(b) && SharerEnabled(b1.0) && SharerEnabled(b2.0)
      && b1.1 == None && b2.1 == None && b3.1 == None
      && b3.0.owner == Free && b3.0.sharer == WantWait && b3.0.receiver == b.receiver
  {
  }

  /** B announces an empty table and is about to wait. */
  lemma EmptyRound(net: Net, init: World, acts: seq<Act>) returns (more: seq<Act>)
    requires |Run(net, init, acts).ctls| == 2
    requires var b := Run(net, init, acts).ctls[B];
      b.owner == Free && b.sharer == Echoing(2) && b.portsCount == 1 && b.replys == []
    ensures var w, v := Run(net, init, acts), Run(net, init, more);
      && |v.ctls| == 2 && v.ctls[A] == w.ctls[A] && v.flight == w.flight
      && v.ctls[B].owner == Free && v.ctls[B].sharer == WantWait && v.ctls[B].receiver == w.ctls[B].receiver
  {
    hide SharerStep, SharerEnabled, Run, Step;
    EmptyRoundSteps(Run(net, init, acts).ctls[B]);
    more := Shares(net, init, acts, B);
    more := Shares(net, init, more, B);
    more := Shares(net, init, more, B);
  }

  /** A reply handled during the wait is one of those received and none of those in time. */
  lemma LateReply(b: Ctl, p: u16)
    requires PastOf(b.log).snapped
    ensures var after := HandleAnim(b, p, EchoReply).0;
      && after.sharer == b.sharer && Count(after.log, GotReply(p)) == Count(b.log, GotReply(p)) + 1
      && OnTime(after.log, p) == OnTime(b.log, p)
  {
    hide PastOf, OnTime;
    OnTimeAppend(b.log, GotReply(p), p);
  }

  lemma TwoIsNet(net: Net)
    requires TwoSwitches(net)
    ensures NetOk(net)
  {
  }

  /** A run in which B asks, takes its snapshot, and only then gets A's reply: during the wait one
      reply more has been received than NODEs have been sent, and the print will free it. */
  lemma LateReplyIsNotAnnounced(net: Net) returns (acts: seq<Act>)
    requires TwoSwitches(net)
    ensures |Run(net, Init(net), acts).ctls| == 2
    ensures var b := Run(net, Init(net), acts).ctls[B];
      Waiting(b.sharer) && Unannounced(b) == [] && Count(b.log, SentNode(1)) < Count(b.log, GotReply(1))
  {
    TwoIsNet(net);
    var init := Init(net);
    acts := Configure(net, init, [], B);
    acts := Ask(net, init, acts);
    acts := Handle(net, init, acts, Packet(Endpoint(A, 1), EchoRequest));
    assert Run(net, init, acts).flight == multiset{Packet(Endpoint(B, 1), EchoReply)};
    acts := EmptyRound(net, init, acts);
    var b := Run(net, init, acts).ctls[B];
    assert PastOf(b.log).snapped by {
      Reachable(net, acts, B);
    }
    LateReply(b, 1);
    OnTimeAtMost(b.log, 1);
    acts := Handle(net, init, acts, Packet(Endpoint(B, 1), EchoReply));
    AnnouncedIffOnTime(net, acts, B, 1);
  }
}
