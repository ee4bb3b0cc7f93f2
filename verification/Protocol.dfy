/** One controller's part in link discovery: a receive thread (`action_features_reply` and the
    LLDP branch of `action_packout`), a sharing thread (`node_share_func`) and `links_mutex`.

    A step is one lock, one unlock, one pass through a critical section or loop body, or one
    sleep.  `log` is a history variable: it records what the controller did and is never read
    by a step. */
module Protocol {
  import opened Bytes

  datatype Option<+T> = None | Some(value: T)

  datatype NodeId = NodeId(datapath: u64, port: u16)
  datatype Link = Link(a: NodeId, b: NodeId)
  datatype Msg = EchoRequest | EchoReply | Node(id: NodeId)
  datatype Send = Send(port: u16, msg: Msg)

  datatype Owner = Free | ByReceiver | BySharer

  datatype ReceiverPc =
    | Idle
    | WantFeatures(datapath: u64, ports: nat)
    | InFeatures(datapath: u64, ports: nat)
    | DoneFeatures
    | WantAnim(port: u16, msg: Msg)
    | InAnim(port: u16, msg: Msg)
    | DoneAnim

  datatype SharerPc =
    | NotStarted
    | Napping
    | WantReset | InReset | DoneReset
    | Echoing(next: nat)
    | WantAnnounce | InAnnounce(at: nat)
    | WantWait | InWait | DoneTick | Asleep
    | BrokeOut
    | WantPrint | InPrint | DonePrint

  datatype Event =
    | Configured(datapath: u64)
    | SentRequest(port: u16) | SentReply(port: u16) | SentNode(port: u16)
    | GotReply(port: u16) | GotNode(port: u16, from: NodeId)
    | Reset | Snapshot(ports: seq<u16>) | WaitBegin | Tick | Break | Printed(links: seq<Link>)

  datatype Ctl = Ctl(
    owner: Owner, receiver: ReceiverPc, sharer: SharerPc, threadl: bool,
    switchId: u64, noOfPorts: nat, portsCount: nat, counter: nat,
    replys: seq<u16>, links: seq<Link>,
    log: seq<Event>)

  const WAIT_LIMIT: nat := 20

  function Start(): Ctl {
    Ctl(Free, Idle, NotStarted, false, 0, 0, 0, 0, [], [], [])
  }

  // ----- The sharing thread -----

  predicate SharerLocks(pc: SharerPc) {
    pc.WantReset? || pc.WantAnnounce? || pc.WantWait? || pc.WantPrint?
  }

  predicate SharerEnabled(c: Ctl) {
    && !c.sharer.NotStarted?
    && (SharerLocks(c.sharer) ==> c.owner == Free)
  }

  function Did(c: Ctl, e: Event): Ctl {
    c.(log := c.log + [e])
  }

  function SharerStep(c: Ctl): (Ctl, Option<Send>) {
    match c.sharer
    case NotStarted => (c, None)
    case Napping => (c.(sharer := WantReset), None)
    case WantReset => (c.(owner := BySharer, sharer := InReset), None)
    case InReset => (Did(c.(portsCount := c.noOfPorts, counter := 0, sharer := DoneReset), Reset), None)
    case DoneReset => (c.(owner := Free, sharer := Echoing(1)), None)
    case Echoing(next) =>
      if next < c.portsCount + 1 then
        var port := next % 0x1_0000;
        (Did(c.(sharer := Echoing(next + 1)), SentRequest(port)), Some(Send(port, EchoRequest)))
      else (c.(sharer := WantAnnounce), None)
    case WantAnnounce => (Did(c.(owner := BySharer, sharer := InAnnounce(0)), Snapshot(c.replys)), None)
    case InAnnounce(at) =>
      if at < |c.replys| then
        var port := c.replys[at];
        (Did(c.(sharer := InAnnounce(at + 1)), SentNode(port)), Some(Send(port, Node(NodeId(c.switchId, port)))))
      else (Did(c.(owner := Free, sharer := WantWait), WaitBegin), None)
    case WantWait => (c.(owner := BySharer, sharer := InWait, threadl := true), None)
    case InWait =>
      if c.counter > WAIT_LIMIT then (Did(c.(sharer := BrokeOut), Break), None)
      else (Did(c.(counter := c.counter + 1, sharer := DoneTick), Tick), None)
    case DoneTick => (c.(owner := Free, threadl := false, sharer := Asleep), None)
    case Asleep => (c.(sharer := WantWait), None)
    case BrokeOut =>
      if c.threadl then (c.(owner := Free, threadl := false, sharer := WantPrint), None)
      else (c.(sharer := WantPrint), None)
    case WantPrint => (c.(owner := BySharer, sharer := InPrint), None)
    case InPrint => (Did(c.(replys := [], links := [], sharer := DonePrint), Printed(c.links)), None)
    case DonePrint => (c.(owner := Free, sharer := WantReset), None)
  }

  // ----- The receive thread -----

  predicate ReceiverEnabled(c: Ctl) {
    c.receiver != Idle && (c.receiver.WantFeatures? || c.receiver.WantAnim? ==> c.owner == Free)
  }

  function ReceiverStep(c: Ctl): (Ctl, Option<Send>) {
    match c.receiver
    case Idle => (c, None)
    case WantFeatures(d, n) => (c.(owner := ByReceiver, receiver := InFeatures(d, n)), None)
    case InFeatures(d, n) =>
      (Did(c.(noOfPorts := n, switchId := d, sharer := Napping, receiver := DoneFeatures), Configured(d)), None)
    case DoneFeatures => (c.(owner := Free, receiver := Idle), None)
    case WantAnim(p, m) => (c.(owner := ByReceiver, receiver := InAnim(p, m)), None)
    case InAnim(p, m) => HandleAnim(c.(receiver := DoneAnim), p, m)
    case DoneAnim => (c.(owner := Free, receiver := Idle), None)
  }

  /** The body of the LLDP branch. */
  function HandleAnim(c: Ctl, p: u16, m: Msg): (Ctl, Option<Send>) {
    match m
    case EchoRequest => (Did(c, SentReply(p)), Some(Send(p, EchoReply)))
    case EchoReply => (Did(c.(replys := c.replys + [p]), GotReply(p)), None)
    case Node(id) =>
      (Did(c.(links := c.links + [Link(NodeId(c.switchId, p), id)], counter := 0), GotNode(p, id)), None)
  }

  /** A message from the switch reaches the idle receive thread. */
  function Arrive(c: Ctl, pc: ReceiverPc): Ctl {
    c.(receiver := pc)
  }

  // ----- What a log says -----

  /** `links` and `replys` are what was recorded since the tables were last printed and cleared;
      `sinceReset` counts wait-loop ticks since a round began or a NODE was handled; `thisWait`
      and `nodes` count ticks and NODEs since the present wait began; `snapped` says that the reply
      table was snapshotted since the last print. */
  datatype Past = Past(
    id: u64, links: seq<Link>, replys: seq<u16>, sinceReset: nat, thisWait: nat, nodes: nat, snapped: bool)

  function Advance(p: Past, e: Event): Past {
    match e
    case Configured(d) => p.(id := d)
    case GotReply(port) => p.(replys := p.replys + [port])
    case GotNode(port, from) =>
      p.(links := p.links + [Link(NodeId(p.id, port), from)], sinceReset := 0, nodes := p.nodes + 1)
    case Reset => p.(sinceReset := 0)
    case WaitBegin => p.(thisWait := 0, nodes := 0)
    case Tick => p.(sinceReset := p.sinceReset + 1, thisWait := p.thisWait + 1)
    case Snapshot(_) => p.(snapped := true)
    case Printed(_) => p.(links := [], replys := [], snapped := false)
    case _ => p
  }

  function PastOf(log: seq<Event>): Past {
    if log == [] then Past(0, [], [], 0, 0, 0, false) else Advance(PastOf(log[..|log| - 1]), log[|log| - 1])
  }

  function SentNodes(ports: seq<u16>): seq<Event> {
    seq(|ports|, i requires 0 <= i < |ports| => SentNode(ports[i]))
  }

  /** The log ends with a snapshot of `ports` and NODEs for its first `n` entries, in order,
      with nothing between. */
  predicate EndsAnnouncing(log: seq<Event>, ports: seq<u16>, n: nat)
    requires n <= |ports|
  {
    |log| >= n + 1 && log[|log| - n - 1..] == [Snapshot(ports)] + SentNodes(ports[..n])
  }

  function Count(log: seq<Event>, e: Event): nat {
    multiset(log)[e]
  }

  /** What must have come before an event for it to be logged. */
  ghost predicate EventOk(before: seq<Event>, e: Event) {
    match e
    case Break =>
      && PastOf(before).sinceReset == WAIT_LIMIT + 1
      && PastOf(before).thisWait <= 21 * (PastOf(before).nodes + 1)
    case Snapshot(ports) => ports == PastOf(before).replys
    case SentNode(p) => exists ports, n: nat :: n < |ports| && ports[n] == p && EndsAnnouncing(before, ports, n)
    case WaitBegin => exists ports :: EndsAnnouncing(before, ports, |ports|)
    case Printed(links) => links == PastOf(before).links
    case _ => true
  }

  ghost predicate LogOk(log: seq<Event>) {
    forall j :: 0 <= j < |log| ==> EventOk(log[..j], log[j])
  }

  // ----- The invariant of one controller -----

  predicate SharerHolds(pc: SharerPc) {
    pc.InReset? || pc.DoneReset? || pc.InAnnounce? || InWaitLock(pc) || pc.InPrint? || pc.DonePrint?
  }

  /** The wait loop's lock, still held after the break until the `threadl` test. */
  predicate InWaitLock(pc: SharerPc) {
    pc.InWait? || pc.DoneTick? || pc.BrokeOut?
  }

  predicate Waiting(pc: SharerPc) {
    pc.WantWait? || pc.InWait? || pc.DoneTick? || pc.Asleep?
  }

  predicate ReceiverHolds(pc: ReceiverPc) {
    pc.InFeatures? || pc.DoneFeatures? || pc.InAnim? || pc.DoneAnim?
  }

  predicate MutexInv(c: Ctl) {
    && (SharerHolds(c.sharer) <==> c.owner == BySharer)
    && (ReceiverHolds(c.receiver) <==> c.owner == ByReceiver)
    && (InWaitLock(c.sharer) <==> c.threadl)
  }

  /** `switch_id` is 0 until the one features reply is handled, then the switch's own. */
  predicate ConfigInv(c: Ctl, p: Past, datapath: u64, ports: nat) {
    && (if c.sharer.NotStarted? then c.switchId == 0 else c.switchId == datapath && c.noOfPorts == ports)
    && (c.receiver.WantFeatures? || c.receiver.InFeatures? ==>
          c.sharer.NotStarted? && c.receiver.datapath == datapath && c.receiver.ports == ports)
    && c.switchId == p.id
  }

  predicate TimerInv(c: Ctl, p: Past) {
    && c.counter == p.sinceReset <= WAIT_LIMIT + 1
    && (Waiting(c.sharer) ==> p.thisWait <= 21 * p.nodes + c.counter)
  }

  /** From a round's snapshot to its print. */
  predicate PastSnapshot(pc: SharerPc) {
    pc.InAnnounce? || Waiting(pc) || pc.BrokeOut? || pc.WantPrint? || pc.InPrint?
  }

  predicate TableInv(c: Ctl, p: Past) {
    c.links == p.links && c.replys == p.replys && (p.snapped <==> PastSnapshot(c.sharer))
  }

  predicate SnapshotInv(c: Ctl) {
    c.sharer.InAnnounce? ==> c.sharer.at <= |c.replys| && EndsAnnouncing(c.log, c.replys, c.sharer.at)
  }

  /** Replies recorded before their round's snapshot and not yet announced. */
  function Unannounced(c: Ctl): seq<u16> {
    if c.sharer.InAnnounce? then
      if c.sharer.at <= |c.replys| then c.replys[c.sharer.at..] else []
    else if PastSnapshot(c.sharer) then []
    else c.replys
  }

  /** Replies from `p` recorded before the snapshot of their round; later ones are freed with the
      table. */
  function OnTime(log: seq<Event>, p: u16): nat {
    if log == [] then 0
    else
      var n := |log| - 1;
      OnTime(log[..n], p) + if log[n] == GotReply(p) && !PastOf(log[..n]).snapped then 1 else 0
  }

  /** NODEs sent and still to be sent are exactly the replies recorded in time. */
  ghost predicate Answered(log: seq<Event>, pending: seq<u16>) {
    forall p: u16 :: Count(log, SentNode(p)) + multiset(pending)[p] == OnTime(log, p)
  }

  ghost predicate CtlInv(c: Ctl, datapath: u64, ports: nat) {
    && MutexInv(c)
    && ConfigInv(c, PastOf(c.log), datapath, ports)
    && TimerInv(c, PastOf(c.log))
    && TableInv(c, PastOf(c.log))
    && SnapshotInv(c)
    && Answered(c.log, Unannounced(c))
    && LogOk(c.log)
  }

  // ----- Every step keeps it -----

  lemma LogOkAppend(log: seq<Event>, e: Event)
    requires LogOk(log) && EventOk(log, e)
    ensures LogOk(log + [e])
  {
    forall j | 0 <= j < |log + [e]| ensures EventOk((log + [e])[..j], (log + [e])[j]) {
      if j < |log| {
        assert (log + [e])[..j] == log[..j];
      } else {
        assert (log + [e])[..j] == log;
      }
    }
  }

  lemma Appended(log: seq<Event>, e: Event)
    ensures PastOf(log + [e]) == Advance(PastOf(log), e)
  {
    assert (log + [e])[..|log|] == log;
  }

  lemma AnnouncesFirst(log: seq<Event>, ports: seq<u16>)
    ensures EndsAnnouncing(log + [Snapshot(ports)], ports, 0)
  {
    var after := log + [Snapshot(ports)];
    assert after[|after| - 1..] == [Snapshot(ports)] + SentNodes(ports[..0]);
  }

  lemma AnnouncesNext(log: seq<Event>, ports: seq<u16>, n: nat)
    requires n < |ports| && EndsAnnouncing(log, ports, n)
    ensures EndsAnnouncing(log + [SentNode(ports[n])], ports, n + 1)
  {
    var after := log + [SentNode(ports[n])];
    assert after[|after| - (n + 1) - 1..] == log[|log| - n - 1..] + [SentNode(ports[n])];
    assert SentNodes(ports[..n + 1]) == SentNodes(ports[..n]) + [SentNode(ports[n])];
  }

  lemma SharerKeepsMutex(c: Ctl)
    requires MutexInv(c) && SharerEnabled(c)
    ensures MutexInv(SharerStep(c).0)
  {
  }

  /** At most one event a step, and which. */
  function SharerEvent(c: Ctl): Option<Event> {
    match c.sharer
    case InReset => Some(Reset)
    case Echoing(next) => if next < c.portsCount + 1 then Some(SentRequest(next % 0x1_0000)) else None
    case WantAnnounce => Some(Snapshot(c.replys))
    case InAnnounce(at) => Some(if at < |c.replys| then SentNode(c.replys[at]) else WaitBegin)
    case InWait => Some(if c.counter > WAIT_LIMIT then Break else Tick)
    case InPrint => Some(Printed(c.links))
    case _ => None
  }

  function Append(log: seq<Event>, e: Option<Event>): seq<Event> {
    if e.Some? then log + [e.value] else log
  }

  function Logged(p: Past, e: Option<Event>): Past {
    if e.Some? then Advance(p, e.value) else p
  }

  lemma SharerLogIs(c: Ctl)
    ensures SharerStep(c).0.log == Append(c.log, SharerEvent(c))
  {
  }

  lemma SharerLogs(c: Ctl)
    ensures SharerStep(c).0.log == Append(c.log, SharerEvent(c))
    ensures PastOf(SharerStep(c).0.log) == Logged(PastOf(c.log), SharerEvent(c))
  {
    SharerLogIs(c);
    if SharerEvent(c).Some? {
      Appended(c.log, SharerEvent(c).value);
    }
  }

  lemma SharerKeepsConfig(c: Ctl, p: Past, datapath: u64, ports: nat)
    requires ConfigInv(c, p, datapath, ports) && SharerEnabled(c)
    ensures ConfigInv(SharerStep(c).0, Logged(p, SharerEvent(c)), datapath, ports)
  {
  }

  lemma SharerKeepsTimer(c: Ctl, p: Past)
    requires TimerInv(c, p) && SharerEnabled(c)
    ensures TimerInv(SharerStep(c).0, Logged(p, SharerEvent(c)))
  {
  }

  lemma SharerKeepsTables(c: Ctl, p: Past)
    requires TableInv(c, p)
    ensures TableInv(SharerStep(c).0, Logged(p, SharerEvent(c)))
  {
    if SharerEvent(c).Some? {
      Records(p, SharerEvent(c).value);
      Collects(p, SharerEvent(c).value);
      Snaps(p, SharerEvent(c).value);
    }
    hide Advance;
  }

  lemma SharerAnnounces(c: Ctl)
    ensures var d := SharerStep(c).0;
      match d.sharer
      case InAnnounce(at) =>
        && d.replys == c.replys
        && if at == 0 then c.sharer.WantAnnounce? && d.log == c.log + [Snapshot(c.replys)]
           else c.sharer == InAnnounce(at - 1) && at <= |c.replys| && d.log == c.log + [SentNode(c.replys[at - 1])]
      case _ => true
  {
  }

  lemma SharerKeepsSnapshot(c: Ctl)
    requires SnapshotInv(c)
    ensures SnapshotInv(SharerStep(c).0)
  {
    SharerAnnounces(c);
    if c.sharer.WantAnnounce? {
      AnnouncesFirst(c.log, c.replys);
    } else if c.sharer.InAnnounce? && c.sharer.at < |c.replys| {
      AnnouncesNext(c.log, c.replys, c.sharer.at);
    }
  }

  lemma SharerEventOk(c: Ctl)
    requires TimerInv(c, PastOf(c.log)) && TableInv(c, PastOf(c.log)) && SnapshotInv(c)
    ensures SharerEvent(c).Some? ==> EventOk(c.log, SharerEvent(c).value)
  {
    if c.sharer.InAnnounce? {
      assert c.sharer.at == |c.replys| || (c.sharer.at < |c.replys| && EndsAnnouncing(c.log, c.replys, c.sharer.at));
    }
  }

  lemma KeepsLog(log: seq<Event>, e: Option<Event>)
    requires LogOk(log) && (e.Some? ==> EventOk(log, e.value))
    ensures LogOk(Append(log, e))
  {
    if e.Some? {
      LogOkAppend(log, e.value);
    }
  }

  lemma SharerUnannounced(c: Ctl)
    requires SnapshotInv(c) && SharerEnabled(c)
    ensures var before, after := Unannounced(c), Unannounced(SharerStep(c).0);
      match SharerEvent(c)
      case Some(SentNode(p)) => before == [p] + after
      case _ => after == before
  {
    if c.sharer.InAnnounce? && c.sharer.at < |c.replys| {
      assert c.replys[c.sharer.at..] == [c.replys[c.sharer.at]] + c.replys[c.sharer.at + 1..];
    }
  }

  lemma OnTimeAppend(log: seq<Event>, e: Event, p: u16)
    ensures OnTime(log + [e], p) == OnTime(log, p) + if e == GotReply(p) && !PastOf(log).snapped then 1 else 0
  {
    assert (log + [e])[..|log|] == log;
  }

  lemma {:induction false} OnTimeAtMost(log: seq<Event>, p: u16)
    ensures OnTime(log, p) <= Count(log, GotReply(p))
  {
    if log == [] {
    } else {
      var n := |log| - 1;
      OnTimeAtMost(log[..n], p);
      assert log == log[..n] + [log[n]];
    }
  }

  lemma KeepsAnswered(log: seq<Event>, e: Event, before: seq<u16>, after: seq<u16>)
    requires Answered(log, before)
    requires if e.SentNode? then before == [e.port] + after
             else if e.GotReply? && !PastOf(log).snapped then after == before + [e.port]
             else after == before
    ensures Answered(log + [e], after)
  {
    hide PastOf, OnTime;
    forall p: u16
      ensures Count(log + [e], SentNode(p)) + multiset(after)[p] == OnTime(log + [e], p)
    {
      OnTimeAppend(log, e, p);
      assert Count(log, SentNode(p)) + multiset(before)[p] == OnTime(log, p);
    }
  }

  lemma SharerKeepsAnswered(c: Ctl)
    requires Answered(c.log, Unannounced(c)) && SnapshotInv(c) && SharerEnabled(c)
    ensures Answered(SharerStep(c).0.log, Unannounced(SharerStep(c).0))
  {
    hide Answered, PastOf;
    SharerLogIs(c);
    SharerUnannounced(c);
    SharerOnlySends(c);
    if SharerEvent(c).Some? {
      KeepsAnswered(c.log, SharerEvent(c).value, Unannounced(c), Unannounced(SharerStep(c).0));
    }
  }

  lemma SharerKeepsInv(c: Ctl, datapath: u64, ports: nat)
    requires CtlInv(c, datapath, ports) && SharerEnabled(c)
    ensures CtlInv(SharerStep(c).0, datapath, ports)
  {
    var p := PastOf(c.log);
    SharerLogs(c);
    SharerKeepsMutex(c);
    SharerKeepsConfig(c, p, datapath, ports);
    SharerKeepsTimer(c, p);
    SharerKeepsTables(c, p);
    SharerKeepsSnapshot(c);
    SharerEventOk(c);
    KeepsLog(c.log, SharerEvent(c));
    SharerKeepsAnswered(c);
  }

  function ReceiverEvent(c: Ctl): Option<Event> {
    match c.receiver
    case InFeatures(d, n) => Some(Configured(d))
    case InAnim(p, m) =>
      Some(match m case EchoRequest => SentReply(p) case EchoReply => GotReply(p) case Node(id) => GotNode(p, id))
    case _ => None
  }

  lemma ReceiverLogIs(c: Ctl)
    ensures ReceiverStep(c).0.log == Append(c.log, ReceiverEvent(c))
  {
  }

  lemma ReceiverLogs(c: Ctl)
    ensures ReceiverStep(c).0.log == Append(c.log, ReceiverEvent(c))
    ensures PastOf(ReceiverStep(c).0.log) == Logged(PastOf(c.log), ReceiverEvent(c))
  {
    ReceiverLogIs(c);
    if ReceiverEvent(c).Some? {
      Appended(c.log, ReceiverEvent(c).value);
    }
  }

  lemma ReceiverKeepsControl(c: Ctl, p: Past, datapath: u64, ports: nat)
    requires MutexInv(c) && ConfigInv(c, p, datapath, ports) && ReceiverEnabled(c)
    ensures MutexInv(ReceiverStep(c).0) && ConfigInv(ReceiverStep(c).0, Logged(p, ReceiverEvent(c)), datapath, ports)
  {
  }

  /** The receive thread records only while the sharing thread is outside its critical sections,
      so an announcement under way is never interrupted. */
  lemma ReceiverKeepsTables(c: Ctl, p: Past)
    requires MutexInv(c) && c.switchId == p.id && ReceiverEnabled(c)
    requires TimerInv(c, p) && TableInv(c, p) && SnapshotInv(c)
    requires c.receiver.InFeatures? ==> c.sharer.NotStarted?
    ensures TimerInv(ReceiverStep(c).0, Logged(p, ReceiverEvent(c)))
    ensures TableInv(ReceiverStep(c).0, Logged(p, ReceiverEvent(c)))
    ensures SnapshotInv(ReceiverStep(c).0)
  {
  }

  lemma ReceiverUnannounced(c: Ctl)
    requires MutexInv(c) && ReceiverEnabled(c) && (c.receiver.InFeatures? ==> c.sharer.NotStarted?)
    ensures var before, after := Unannounced(c), Unannounced(ReceiverStep(c).0);
      match ReceiverEvent(c)
      case Some(GotReply(p)) => after == if PastSnapshot(c.sharer) then before else before + [p]
      case _ => after == before
  {
  }

  lemma ReceiverKeepsAnswered(c: Ctl)
    requires MutexInv(c) && ReceiverEnabled(c) && (c.receiver.InFeatures? ==> c.sharer.NotStarted?)
    requires TableInv(c, PastOf(c.log)) && Answered(c.log, Unannounced(c))
    ensures Answered(ReceiverStep(c).0.log, Unannounced(ReceiverStep(c).0))
  {
    hide Answered, PastOf;
    ReceiverLogIs(c);
    ReceiverUnannounced(c);
    ReceiverNeverSendsNode(c);
    if ReceiverEvent(c).Some? {
      KeepsAnswered(c.log, ReceiverEvent(c).value, Unannounced(c), Unannounced(ReceiverStep(c).0));
    }
  }

  lemma ReceiverNeverSendsNode(c: Ctl)
    ensures ReceiverEvent(c).Some? ==> !ReceiverEvent(c).value.SentNode?
  {
  }

  lemma ReceiverEventOk(c: Ctl)
    ensures ReceiverEvent(c).Some? ==> EventOk(c.log, ReceiverEvent(c).value)
  {
  }

  lemma ReceiverKeepsInv(c: Ctl, datapath: u64, ports: nat)
    requires CtlInv(c, datapath, ports) && ReceiverEnabled(c)
    ensures CtlInv(ReceiverStep(c).0, datapath, ports)
  {
    var p := PastOf(c.log);
    ReceiverLogs(c);
    ReceiverKeepsControl(c, p, datapath, ports);
    ReceiverKeepsTables(c, p);
    ReceiverEventOk(c);
    KeepsLog(c.log, ReceiverEvent(c));
    ReceiverKeepsAnswered(c);
  }

  // ----- What a step can change -----

  lemma SharerClears(c: Ctl)
    ensures var d := SharerStep(c).0;
      && d.receiver == c.receiver
      && (d.replys == c.replys || d.replys == []) && (d.links == c.links || d.links == [])
  {
  }

  /** The sharing thread never handles a message. */
  lemma SharerOnlySends(c: Ctl)
    ensures SharerEvent(c).Some? ==>
      !SharerEvent(c).value.GotReply? && !SharerEvent(c).value.GotNode? && !SharerEvent(c).value.SentReply?
  {
  }

  lemma SharerNames(c: Ctl)
    ensures var send := SharerStep(c).1;
      send.Some? && send.value.msg.Node? ==>
        !c.sharer.NotStarted? && send.value.msg.id == NodeId(c.switchId, send.value.port)
  {
  }

  lemma ReceiverRecords(c: Ctl)
    ensures var (d, send) := ReceiverStep(c);
      var pc := c.receiver;
      && (d.receiver.InAnim? ==> pc == WantAnim(d.receiver.port, d.receiver.msg)) && !d.receiver.WantAnim?
      && d.replys == c.replys + (if pc.InAnim? && pc.msg.EchoReply? then [pc.port] else [])
      && d.links == c.links +
           (if pc.InAnim? && pc.msg.Node? then [Link(NodeId(c.switchId, pc.port), pc.msg.id)] else [])
      && (send.Some? ==> !send.value.msg.Node?)
  {
  }

  lemma ReceiverHandles(c: Ctl)
    ensures ReceiverEvent(c).Some? ==>
      && (ReceiverEvent(c).value.GotReply? ==> c.receiver == InAnim(ReceiverEvent(c).value.port, EchoReply))
      && (ReceiverEvent(c).value.GotNode? ==>
            c.receiver == InAnim(ReceiverEvent(c).value.port, Node(ReceiverEvent(c).value.from)))
  {
  }

  // ----- Mutual exclusion and progress -----

  /** The sharing thread is about to read or write `sw_replys`, `links` or the counter. */
  predicate SharerTouches(pc: SharerPc) {
    pc.InReset? || pc.InAnnounce? || pc.InWait? || pc.InPrint?
  }

  predicate ReceiverTouches(pc: ReceiverPc) {
    pc.InFeatures? || pc.InAnim?
  }

  lemma TablesOnlyUnderMutex(c: Ctl)
    requires MutexInv(c)
    ensures SharerTouches(c.sharer) ==> c.owner == BySharer && !ReceiverTouches(c.receiver)
    ensures ReceiverTouches(c.receiver) ==> c.owner == ByReceiver && !SharerTouches(c.sharer)
    ensures var d := SharerStep(c).0;
      (d.replys, d.links, d.counter) != (c.replys, c.links, c.counter) ==> SharerTouches(c.sharer)
    ensures var d := ReceiverStep(c).0;
      (d.replys, d.links, d.counter) != (c.replys, c.links, c.counter) ==> ReceiverTouches(c.receiver)
  {
  }

  /** How many more of its own steps the holder takes to release the mutex, at most. */
  function StepsHeld(c: Ctl): nat {
    if c.owner == BySharer then
      if c.sharer.InAnnounce? then (if c.sharer.at <= |c.replys| then |c.replys| - c.sharer.at + 1 else 0)
      else if c.sharer.InReset? || c.sharer.InWait? || c.sharer.InPrint? then 2
      else 1
    else if c.receiver.InFeatures? || c.receiver.InAnim? then 2
    else 1
  }

  /** Whoever holds the mutex can run and releases it within `StepsHeld` of its own steps, each
      of which releases or gets strictly closer; what the other thread may do meanwhile does not
      touch it. */
  lemma HolderReleases(c: Ctl)
    requires MutexInv(c) && SnapshotInv(c) && c.owner != Free
    ensures c.owner == BySharer ==> SharerEnabled(c) && !ReceiverEnabled(c) && Nearer(c, SharerStep(c).0)
    ensures c.owner == ByReceiver ==> ReceiverEnabled(c) && Nearer(c, ReceiverStep(c).0)
    ensures c.owner == ByReceiver && SharerEnabled(c) ==>
      SharerStep(c).0.owner == ByReceiver && StepsHeld(SharerStep(c).0) == StepsHeld(c)
  {
  }

  predicate Nearer(c: Ctl, d: Ctl) {
    d.owner == Free || (d.owner == c.owner && StepsHeld(d) < StepsHeld(c))
  }

  /** No reachable state is stuck: a started sharing thread can run, or the mutex's holder can. */
  lemma NoDeadlock(c: Ctl)
    requires MutexInv(c)
    ensures c.sharer != NotStarted ==> SharerEnabled(c) || ReceiverEnabled(c)
    ensures c.receiver != Idle ==> SharerEnabled(c) || ReceiverEnabled(c)
  {
  }

  // ----- What the log's summaries mean -----

  /** `log[k..i]` is what happened since the last print before `i`. */
  predicate SincePrint(log: seq<Event>, k: nat, i: nat) {
    && k <= i <= |log| && (k > 0 ==> log[k - 1].Printed?)
    && forall m :: k <= m < i ==> !log[m].Printed?
  }

  predicate SinceWait(log: seq<Event>, k: nat, i: nat) {
    && k <= i <= |log| && (k > 0 ==> log[k - 1].WaitBegin?)
    && forall m :: k <= m < i ==> !log[m].WaitBegin?
  }

  /** No round began and no NODE was handled in `log[k..i]`. */
  predicate Undisturbed(log: seq<Event>, k: nat, i: nat) {
    k <= i <= |log| && forall m :: k <= m < i ==> !log[m].Reset? && !log[m].GotNode?
  }

  lemma SinceSteps(log: seq<Event>, e: Event, k: nat)
    ensures var after, n := log + [e], |log|;
      && (SincePrint(log, k, n) && !e.Printed? ==> SincePrint(after, k, n + 1))
      && (SinceWait(log, k, n) && !e.WaitBegin? ==> SinceWait(after, k, n + 1))
      && (Undisturbed(log, k, n) && !e.Reset? && !e.GotNode? ==> Undisturbed(after, k, n + 1))
  {
    assert forall m :: 0 <= m < |log| ==> (log + [e])[m] == log[m];
  }

  lemma SinceHere(log: seq<Event>, e: Event)
    ensures var after, n := log + [e], |log| + 1;
      && (e.Printed? ==> SincePrint(after, n, n)) && (e.WaitBegin? ==> SinceWait(after, n, n))
      && Undisturbed(after, n, n)
  {
  }

  /** The log but its last event, and that event. */
  lemma SplitLast(log: seq<Event>, k: nat)
    requires k < |log|
    ensures var n := |log| - 1;
      log == log[..n] + [log[n]] && log[k..] == log[..n][k..] + [log[n]]
  {
  }

  lemma CountsStep(part: seq<Event>, e: Event)
    ensures multiset(part + [e])[Tick] == multiset(part)[Tick] + if e.Tick? then 1 else 0
    ensures NodesIn(part + [e]) == NodesIn(part) + if e.GotNode? then [(e.port, e.from)] else []
    ensures PortsGot(part + [e]) == PortsGot(part) + if e.GotReply? then [e.port] else []
  {
    assert (part + [e])[..|part|] == part;
  }

  lemma NoCounts(none: seq<Event>)
    requires none == []
    ensures multiset(none)[Tick] == 0 && NodesIn(none) == [] && PortsGot(none) == []
  {
  }

  lemma SinceReset(p: Past, e: Event)
    ensures Advance(p, e).sinceReset ==
      if e.Reset? || e.GotNode? then 0 else if e.Tick? then p.sinceReset + 1 else p.sinceReset
  {
  }

  /** Since some point the log holds `sinceReset` ticks and neither a new round nor a NODE. */
  lemma {:induction false} QuietTicks(log: seq<Event>) returns (k: nat)
    ensures Undisturbed(log, k, |log|) && multiset(log[k..])[Tick] == PastOf(log).sinceReset
  {
    if log == [] {
      return 0;
    }
    hide PastOf, NodesIn, PortsGot, Undisturbed;
    var n := |log| - 1;
    var before, e := log[..n], log[n];
    SplitLast(log, n);
    Appended(before, e);
    SinceReset(PastOf(before), e);
    if e.Reset? || e.GotNode? {
      SinceHere(before, e);
      NoCounts(log[|log|..]);
      return |log|;
    }
    k := QuietTicks(before);
    WithinQuiet(before, k);
    SinceSteps(before, e, k);
    SplitLast(log, k);
    CountsStep(before[k..], e);
  }

  lemma WithinQuiet(log: seq<Event>, k: nat)
    requires Undisturbed(log, k, |log|)
    ensures k <= |log|
  {
  }

  /** Leaving the wait loop takes 21 ticks in a row with no NODE among them, and at most
      21 * (NODEs + 1) + 1 passes through the loop, the one that breaks included. */
  lemma BreakIsQuiet(log: seq<Event>, j: nat) returns (k: nat)
    requires LogOk(log) && j < |log| && log[j] == Break
    ensures k <= j && multiset(log[k..j])[Tick] == 21
    ensures forall i :: k <= i < j ==> !log[i].Reset? && !log[i].GotNode?
    ensures PastOf(log[..j]).thisWait + 1 <= 21 * (PastOf(log[..j]).nodes + 1) + 1
  {
    assert EventOk(log[..j], log[j]);
    k := QuietTicks(log[..j]);
    assert log[..j][k..] == log[k..j];
  }

  function PortsGot(log: seq<Event>): seq<u16> {
    if log == [] then []
    else
      var last := log[|log| - 1];
      PortsGot(log[..|log| - 1]) + if last.GotReply? then [last.port] else []
  }

  function NodesIn(log: seq<Event>): seq<(u16, NodeId)> {
    if log == [] then []
    else
      var last := log[|log| - 1];
      NodesIn(log[..|log| - 1]) + if last.GotNode? then [(last.port, last.from)] else []
  }

  function Ends(links: seq<Link>): seq<(u16, NodeId)> {
    seq(|links|, i requires 0 <= i < |links| => (links[i].a.port, links[i].b))
  }

  lemma Records(p: Past, e: Event)
    ensures Advance(p, e).links == if e.Printed? then []
      else if e.GotNode? then p.links + [Link(NodeId(p.id, e.port), e.from)] else p.links
  {
  }

  /** The links table is the NODE messages handled since it was last cleared, in order. */
  lemma {:induction false} LinksAreNodes(log: seq<Event>) returns (k: nat)
    ensures SincePrint(log, k, |log|) && Ends(PastOf(log).links) == NodesIn(log[k..])
  {
    if log == [] {
      return 0;
    }
    hide PastOf, NodesIn, PortsGot, SincePrint;
    var n := |log| - 1;
    var before, e := log[..n], log[n];
    SplitLast(log, n);
    Appended(before, e);
    Records(PastOf(before), e);
    if e.Printed? {
      SinceHere(before, e);
      NoCounts(log[|log|..]);
      return |log|;
    }
    k := LinksAreNodes(before);
    WithinPrint(before, k);
    SinceSteps(before, e, k);
    SplitLast(log, k);
    CountsStep(before[k..], e);
    if e.GotNode? {
      EndsStep(PastOf(before).links, NodeId(PastOf(before).id, e.port), e.from);
    }
  }

  lemma WithinPrint(log: seq<Event>, k: nat)
    requires SincePrint(log, k, |log|)
    ensures k <= |log|
  {
  }

  lemma EndsStep(links: seq<Link>, a: NodeId, b: NodeId)
    ensures Ends(links + [Link(a, b)]) == Ends(links) + [(a.port, b)]
  {
  }

  lemma Collects(p: Past, e: Event)
    ensures Advance(p, e).replys == if e.Printed? then []
      else if e.GotReply? then p.replys + [e.port] else p.replys
  {
  }

  /** The reply table is the ports of the replies handled since it was last cleared, in order. */
  lemma {:induction false} ReplysAreGot(log: seq<Event>) returns (k: nat)
    ensures SincePrint(log, k, |log|) && PastOf(log).replys == PortsGot(log[k..])
  {
    if log == [] {
      return 0;
    }
    hide PastOf, NodesIn, PortsGot, SincePrint;
    var n := |log| - 1;
    var before, e := log[..n], log[n];
    SplitLast(log, n);
    Appended(before, e);
    Collects(PastOf(before), e);
    if e.Printed? {
      SinceHere(before, e);
      NoCounts(log[|log|..]);
      return |log|;
    }
    k := ReplysAreGot(before);
    WithinPrint(before, k);
    SinceSteps(before, e, k);
    SplitLast(log, k);
    CountsStep(before[k..], e);
  }

  lemma Waits(p: Past, e: Event)
    ensures Advance(p, e).thisWait == if e.WaitBegin? then 0 else if e.Tick? then p.thisWait + 1 else p.thisWait
    ensures Advance(p, e).nodes == if e.WaitBegin? then 0 else if e.GotNode? then p.nodes + 1 else p.nodes
  {
  }

  /** `thisWait` and `nodes` count the ticks and NODEs since the last wait began. */
  lemma {:induction false} WaitCounts(log: seq<Event>) returns (k: nat)
    ensures SinceWait(log, k, |log|)
    ensures PastOf(log).thisWait == multiset(log[k..])[Tick] && PastOf(log).nodes == |NodesIn(log[k..])|
  {
    if log == [] {
      return 0;
    }
    hide PastOf, NodesIn, PortsGot, SinceWait;
    var n := |log| - 1;
    var before, e := log[..n], log[n];
    SplitLast(log, n);
    Appended(before, e);
    Waits(PastOf(before), e);
    if e.WaitBegin? {
      SinceHere(before, e);
      NoCounts(log[|log|..]);
      return |log|;
    }
    k := WaitCounts(before);
    WithinWait(before, k);
    SinceSteps(before, e, k);
    SplitLast(log, k);
    CountsStep(before[k..], e);
  }

  lemma WithinWait(log: seq<Event>, k: nat)
    requires SinceWait(log, k, |log|)
    ensures k <= |log|
  {
  }

  lemma Snaps(p: Past, e: Event)
    ensures Advance(p, e).snapped <==> e.Snapshot? || (p.snapped && !e.Printed?)
  {
  }

  /** A snapshot at `k`, and nothing printed since. */
  predicate SnapAt(log: seq<Event>, k: nat) {
    k < |log| && log[k].Snapshot? && forall j :: k < j < |log| ==> !log[j].Printed?
  }

  lemma SnapAtStep(log: seq<Event>, e: Event, k: nat)
    ensures SnapAt(log + [e], k) <==> if k == |log| then e.Snapshot? else SnapAt(log, k) && !e.Printed?
  {
    var after := log + [e];
    assert forall j :: 0 <= j < |log| ==> after[j] == log[j];
    assert k < |log| && SnapAt(after, k) ==> !after[|log|].Printed?;
  }

  /** `snapped` says that a snapshot was taken and nothing printed since. */
  lemma {:induction false} SnappedIff(log: seq<Event>)
    ensures PastOf(log).snapped <==> exists k: nat :: SnapAt(log, k)
  {
    if log == [] {
    } else {
      hide PastOf, SnapAt;
      var n := |log| - 1;
      var before, e := log[..n], log[n];
      SplitLast(log, n);
      Appended(before, e);
      Snaps(PastOf(before), e);
      SnappedIff(before);
      if k: nat :| SnapAt(before, k) {
        SnapAtStep(before, e, k);
        SnapAtInside(before, k);
      }
      SnapAtStep(before, e, n);
      if k: nat :| SnapAt(log, k) {
        SnapAtStep(before, e, k);
      }
    }
  }

  lemma SnapAtInside(log: seq<Event>, k: nat)
    requires SnapAt(log, k)
    ensures k < |log|
  {
  }
}
