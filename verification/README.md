# A verified model of the ANI controller

The repository holds several versions of one program: a per-switch OpenFlow 1.0 controller that
is a learning switch and, from version 41 on, discovers the links between switches together with
the controllers of the neighbouring switches. This project models `ANIv41` and proves what its
three interacting parts keep: the learning switch with the switch's flow table as its cache, the
distributed link discovery, and the octet-level framing and encoding. It also relates `ANIv41` to the older
`ANIv1`.

`dafny verify dfyconfig.toml` checks everything.

## How it is laid out

| file | what it holds |
|---|---|
| `Bytes.dfy`, `OpenFlow.dfy`, `Com.dfy` | octets and byte order, message layouts and decoders, the encoders of `com.cpp` as stores into an array |
| `Matching.dfy` | how a switch extracts the twelve match fields: section 3.4 of the OpenFlow Switch Specification 1.0.0 |
| `Peer.dfy` | what a switch hears in the octets sent to it, written from the standard's numbers and not from the encoders |
| `Learning.dfy`, `FlowCache.dfy` | the learning switch; the switch's flow table as a cache of it |
| `ObjectList.dfy` | the doubly linked list with a cursor, as a class on nodes |
| `Anim.dfy`, `Protocol.dfy`, `Discovery.dfy`, `Conservation.dfy`, `Scenario.dfy` | the discovery messages, one controller's two threads and mutex, N controllers over wires, message accounting, a concrete run |
| `Handlers.dfy`, `Connection.dfy` | what each message, each reception and each whole run does to the controller's state, as functions, with the theorems about them |
| `Exchange.dfy` | the effect of each type of message and of a reception in either mode, in literal octets and in what the switch hears back |
| `Controller.dfy`, `Sharing.dfy` | the same as imperative code: a class with tables, buffers and handlers, and the sharing thread's critical sections, each method proved equal to its function |
| `Legacy.dfy` | ANIv1's packet-in handler with its inline field writes, and its decisions |

The concurrent part is a state machine. A step is one lock, one unlock, one pass through a
critical section or loop body, one sleep, or the network delivering, losing or duplicating a
message; runs are arbitrary step sequences, and a message in flight may be overtaken without
limit. `log` is a history variable that no step reads. The class `Controller` is the sequential
part: its handlers and sections hold the mutex over their whole access to the shared tables, and
are proved to be the state machine's steps: the LLDP branch its one step under the mutex
(`Handlers.AnimHandlerIsProtocolStep`), every other section from lock to unlock (the `Section`
lemmas of `Sharing`).

## What the proofs found

* The cache shows in two ways. A hit forwards a frame that arrived unbuffered, which the
  controller's own answer cannot (it sends no data back); and an 802.3/SNAP frame can hit a rule
  made for an Ethernet II frame, while the controller ignores it. `FlowCache.CacheInvisibleIff`
  shows that these are the only two, `FlowCache.CacheShows` gives a run for each.
* An ARP rule matches its own frame only when the low octet of the operation is 0, which no ARP
  request or reply has: the operation is swapped as 16 bits and then narrowed to 8
  (`ANIv41/_con.cpp:488`), as `ANIv41/results_2_6_2015:32` shows; `Learning.ArpReplyMisses` gives a
  frame. ANIv1 does it right. Nor does a rule for an ICMP echo request match its own frame: the
  rule has ports 0, and a switch takes the ICMP type, 8, for one (`Learning.PingRequestMisses`). The TCP
  rules in lines 30 and 31 of the same file have ports 0; the code as it stands emits the frame's ports
  (`Learning.TransportRuleFidelity`), and the model follows the code.
* A NODE handled before the features reply is recorded with datapath 0 as its near end.
  `Discovery.OwnEndIff` says exactly when, `Scenario.LinkIsRecorded` gives the run.
* In cbench mode the loop is endless exactly when it meets a length field of 0 before it stops or
  a handler fails (`Handlers.LoopEndsIff`); `Handlers.LoopsForever` gives four octets that do it.
* A features reply that claims fewer than 32 octets wraps the port count to more than a thousand
  million, and the code reads on past the read buffer (`Handlers.ShortReplyOverruns`).
* A reply to an echo request that arrives after its round's snapshot is freed without having been
  announced; all others are announced (`Discovery.AnnouncedIffOnTime`).
  `Scenario.LateReplyIsNotAnnounced` gives a run with such a reply.
* Outside cbench mode, reconnecting greets the new connection at once with transaction id 0,
  because the cleared buffer passes for a HELLO (`Connection.ReconnectGreets`).
* A features reply without ports leaves the mutex locked (`ANIv41/_con.cpp:304`).
* Freeing a list does not reset its cursor. No sequence of receptions and sharing-thread sections,
  in any order, steps from a freed node all the same, because every scan starts from a rewound
  cursor (`Sharing.TakeTurns`).

## Model

| member | source | states |
|---|---|---|
| FlowCache.StepKeepsCacheSound | ANIv41/_con.cpp:407-569 | whatever arrives or expires, every rule in the switch still names the port the current host table gives for its destination, and an ARP rule's source is in the table |
| FlowCache.HitIsTransparentIff | ANIv41/_con.cpp:397-569 | on a hit the controller would have left its table alone, and would have produced the same output exactly when the frame is buffered and Ethernet II |
| FlowCache.CacheInvisibleIff | ANIv41/_con.cpp:397-569 | over every run and expiry schedule the cached switch ends with the same host table as one sending every frame to the controller, and with the same outputs exactly when every frame that hits is buffered and Ethernet II |
| FlowCache.CacheInvisible | ANIv41/_con.cpp:397-569 | buffered Ethernet II traffic never shows the cache, from an empty connection, for any expiry |
| FlowCache.CacheShows | ANIv41/_con.cpp:397-569 | two concrete three-frame runs, one unbuffered and one SNAP, where cached and direct outputs differ |
| FlowCache.MissIs | ANIv41/_con.cpp:357-569 | the octets sent for a packet-in, cut to what the controller configured, make the switch do what the decision on the whole frame says, a flood leaving out the ingress port |
| FlowCache.MissSendLenIs | ANIv41/_con.cpp:340-345 | the switch was told to send 128 octets of a buffered frame, as it hears the message sent to it |
| FlowCache.MissIsPacketIn | ANIv41/_con.cpp:357-569 | on any octets that carry the packet-in, whatever follows its head, the handler ends with the table and sends the messages that the switch-and-controller model takes for a miss |
| Learning.LearnKeepsAnswers | ANIv41/_con.cpp:411-454 | learning never changes a known destination's port and never forgets; an ARP source is known afterwards |
| Learning.HostTableIsFirstArps | ANIv41/_con.cpp:411-454 | after any history the table is, in first-seen order, one entry for the first ARP frame of each source, with its ingress port and the addresses at octets 6 and 28; addresses distinct |
| Learning.FirstArpsExact | ANIv41/_con.cpp:416-426 | the reference list of positions is ascending and holds exactly the frames that are first from their source |
| Learning.FirstArpMeans | ANIv41/_con.cpp:407-426 | first from its source means: type 0x0806, and no earlier such frame has the same octets 6 to 11 |
| Learning.KnownIffArp | ANIv41/_con.cpp:416-426 | an address is in the table exactly when an ARP frame came from it |
| Learning.LookupIsFirstArp | ANIv41/_con.cpp:467-479 | a lookup answers the ingress port of the first ARP frame from that address, 0 when there was none |
| Learning.TransportRuleFidelity | ANIv41/_con.cpp:511-560 | for an unfragmented, ToS-0 TCP or UDP frame with a 20-octet IP header and known destination, the switch hears one exact-match rule with the frame's own twelve fields, 60 s idle, the packet-in's buffer and an output to the learned port |
| Learning.RuleMatchesOwnFrameIff | ANIv41/_con.cpp:481-560 | an installed rule matches the frame it was made for exactly when: for ARP, the low octet of the operation is 0; for IP, ToS is 0 and the transport fields are where a 20-octet unfragmented header puts them or carry equal values |
| Learning.ArpRuleMisses | ANIv41/_con.cpp:481-491 | no rule made for an ARP request or reply matches the frame it was made for |
| Learning.ArpReplyMisses | ANIv41/_con.cpp:481-491 | a concrete ARP reply to a known host whose rule does not match it |
| Learning.PingRuleMisses | ANIv41/_con.cpp:518-528 | no rule made for an unfragmented ICMP echo request matches the frame it was made for |
| Learning.PingRequestMisses | ANIv41/_con.cpp:518-528 | a concrete echo request to a known host whose rule does not match it |
| Learning.ArpRuleMatchesIff | ANIv41/_con.cpp:481-491 | an ARP rule matches its own frame exactly when the low octet of the operation is 0 |
| Learning.IpRuleMatchesIff | ANIv41/_con.cpp:497-560 | the IP half of the former, for every ICMP, TCP or UDP frame |
| Learning.DecisionReadsHead | ANIv41/_con.cpp:357-569 | learning and deciding depend on 42 octets of an ARP frame, 38 of TCP or UDP over IP, 34 of other IP, 14 of anything else |
| Learning.RuleMsgDecodes | ANIv41/com.cpp:59-99 | a switch hears an exact-match, 60 s idle ADD with the given key and buffer and one action, an output of length 8 to the given port |
| Learning.FloodMsgDecodes | ANIv41/com.cpp:47-57 | a switch hears a packet-out of the named buffer with the ingress port and one action, an output of length 8 to port 0xfffb |
| OpenFlow.FlowModRoundTrip | ANIv41/openflow.h:520-576 | decoding inverts the flow-mod layout, section 5.3.3, for every field value, version 1 and an output action of type 0 and length 8 included |
| OpenFlow.PacketOutRoundTrip | ANIv41/openflow.h:445-455 | decoding inverts the packet-out layout, section 5.3.6, version 1 and an output action of type 0 and length 8 included |
| OpenFlow.SwitchConfigRoundTrip | ANIv41/openflow.h:168-174 | decoding inverts the switch-config layout |
| OpenFlow.HeaderRoundTrip | ANIv41/openflow.h:141-149 | decoding inverts the header layout, section 5.1 |
| Peer.HearsHeader | ANIv41/com.cpp:9-34 | a switch hears the three header-only messages as what they are, by types 0, 3 and 5 |
| Peer.HearsConfig | ANIv41/com.cpp:36-45 | and the switch configuration, by type 9 and twelve octets |
| Peer.HearsEmission | ANIv41/com.cpp:47-57 | a packet-out that decodes to one output action is heard as such, with the octets behind the action as its data |
| Peer.HearsRule | ANIv41/com.cpp:59-99 | a flow-mod that decodes to an exact-match ADD with one output action is heard as such |
| Com.CreateHeader | ANIv41/com.cpp:9-34 | the eight octets written are the header with the transaction id a peer reads, nothing else is touched |
| Com.CreateSwitchConfig | ANIv41/com.cpp:36-45 | the twelve octets of the message, nothing else touched |
| Com.CreatePacketOut | ANIv41/com.cpp:47-57 | the sixteen octets of the fixed part, length included, nothing else touched |
| Com.CreateFlowMod | ANIv41/com.cpp:59-90 | all 72 octets for every one of the 24 arguments, nothing else touched |
| Com.CreateActionOutput | ANIv41/com.cpp:92-99 | the eight octets of the action where the pointer leads, nothing else touched |
| Com.EncodeRule | ANIv41/_con.cpp:521-523 | the call pattern with swapped arguments leaves the octets of the rule given in host order |
| Com.EncodePacketOut | ANIv41/_con.cpp:400-402 | likewise for the packet-out with one output action |
| Bytes.SwapTwice32 | ANIv41/_con.cpp:246-248 | swapping a 32-bit value to network order and back is the identity on a little-endian host |
| Bytes.Store64 | ANIv41/com.cpp:85 | storing a 64-bit value through a pointer puts down the octets of its swap, big-endian |
| Legacy.DecidesAlikeIff | ANIv1/main.cpp:448-767 | exactly when the learning switches of the two versions decide alike on a frame |
| Legacy.ArpKeysAgreeIff | ANIv1/main.cpp:569-570 | the two versions make the same ARP rule exactly when the low octet of the operation is 0 |
| Legacy.SameOctetsIff | ANIv1/main.cpp:408-767 | for every packet-in whatsoever, link discovery included, exactly when the two handlers send the same octets: a caller can tell from the frame, the table and the mode |
| Legacy.RefactorPreservesRule | ANIv1/main.cpp:619-749 | for ICMP, TCP and UDP with a known destination both handlers send the same one message of 80 octets |
| Legacy.EmitIsInjective | ANIv1/main.cpp:448-767 | different decisions are different octets |
| Legacy.SendOldRule | ANIv1/main.cpp:621-656 | the field-by-field stores, in their order, send the octets of the rule for the given key and port |
| Legacy.SendOldFlood | ANIv1/main.cpp:450-466 | the packet-out stores, length last, send the octets of the flood for the given buffer |
| Legacy.OldActionPackout | ANIv1/main.cpp:408-767 | the whole new state of the ANIv1 handler, from the octets of the packet-in to those it sends, for every packet-in |
| Legacy.OldPacketInEffect | ANIv1/main.cpp:408-767 | that state in literal octets and in what the switch hears: a rule with output port 0 for an unknown destination, a flood for every IPv6 frame |
| Protocol.SharerKeepsInv | ANIv41/_con.cpp:691-857 | every step of the sharing thread keeps the controller's invariant: mutex ownership, configuration, timer, tables equal to the log's summary, announcement order, replies answered, every logged event justified by what came before |
| Protocol.ReceiverKeepsInv | ANIv41/_con.cpp:570-656 | every step of the receive thread keeps the same invariant |
| Protocol.TablesOnlyUnderMutex | ANIv41/_con.cpp:574-655 | whoever is about to touch links, replies or the counter owns the mutex and the other thread is not about to; steps elsewhere change none of them |
| Protocol.HolderReleases | ANIv41/_con.cpp:760-853 | the owner can always run, and each of its steps releases the mutex or comes strictly closer, the break that leaves it held until the `threadl` test included |
| Protocol.NoDeadlock | ANIv41/_con.cpp:691-857 | no state with a running thread is stuck |
| Protocol.BreakIsQuiet | ANIv41/_con.cpp:825-834 | at a break: 21 ticks in a row with no NODE among them, and no more than 21 (NODEs + 1) + 1 passes |
| Protocol.QuietTicks | ANIv41/_con.cpp:825-834 | the timer is the number of ticks since a point after which no round began and no NODE was handled |
| Protocol.LinksAreNodes | ANIv41/_con.cpp:640-653 | the links table is the sequence of NODE messages handled since it was last printed and cleared, in order |
| Protocol.ReplysAreGot | ANIv41/_con.cpp:629-639 | the reply table is the ports of the replies handled since it was last cleared, in order |
| Protocol.WaitCounts | ANIv41/_con.cpp:825-834 | what the invariant calls the length of a wait and its NODEs are the ticks and NODEs since the wait began |
| Protocol.SnappedIff | ANIv41/_con.cpp:760-762 | past the snapshot means that a snapshot was taken and nothing printed since |
| Protocol.SharerKeepsSnapshot | ANIv41/_con.cpp:760-823 | while a round announces, the log ends with the snapshot and its first entries announced in order, each once, with nothing between |
| Protocol.SharerEventOk | ANIv41/_con.cpp:760-853 | a NODE is sent only as the next entry of the snapshot, the wait begins only when all are sent, a print shows exactly the recorded links |
| Protocol.SharerKeepsAnswered | ANIv41/_con.cpp:760-823 | NODEs sent on a port and NODEs still to be sent there number exactly the replies recorded there before the snapshot of their round |
| Discovery.StepKeepsInv | ANIv41/_con.cpp:570-857 | every step of every thread and of the network keeps the invariant of all controllers and of all messages in flight |
| Discovery.RunKeepsInv | ANIv41/_con.cpp:570-857 | so does every run |
| Discovery.LinkSoundness | ANIv41/_con.cpp:640-653 | under delay, loss, reordering and duplication, each recorded link names the two ends of one wire, own end first; the own datapath can only be wrong by being 0 |
| Discovery.EarlyIff | ANIv41/_con.cpp:640-653 | an entry with datapath 0 is in the table exactly when a NODE handled before the features reply has not been cleared since |
| Discovery.OwnEndIff | ANIv41/_con.cpp:640-653 | in every run a controller's entries all name its own port exactly when no such early NODE is in the table |
| Discovery.GlobalConsistency | ANIv41/_con.cpp:804-810 | any two records anywhere have equal near ends exactly when their far ends are equal, and records from both ends of a wire are mirror images |
| Discovery.Reachable | ANIv41/_con.cpp:570-857 | in every run every controller satisfies its invariant, so the results on one controller hold in every reachable state |
| Discovery.ExclusiveAndLive | ANIv41/_con.cpp:574-853 | in every reachable state a controller's two threads are not both at its tables, and a controller with a thread under way can take a step |
| Discovery.RoundsAreExact | ANIv41/_con.cpp:760-853 | in every run each round announces exactly the replies handled since the last print, once each, in order, before it waits; each print shows exactly the NODEs handled since the last, in order |
| Discovery.AnnouncedIffOnTime | ANIv41/_con.cpp:760-853 | in every run exactly the replies recorded before their round's snapshot are announced: NODEs sent plus those of the announcement under way or to come equal them, and during a wait none is outstanding |
| Discovery.WaitsAreQuiet | ANIv41/_con.cpp:825-834 | in every run a wait is left only after 21 ticks with no NODE among them and within 21 (NODEs + 1) + 1 passes, counted from its beginning |
| Discovery.WaitsAreBounded | ANIv41/_con.cpp:825-834 | in every reachable state of a wait, left or not, the timer equals its quiet ticks and is at most 21, and the wait has lasted at most 21 (NODEs + 1) ticks |
| Discovery.HostPortsStaySilent | ANIv41/_con.cpp:760-823 | no reply is received from, and no NODE sent to, a port without a wire |
| Scenario.LinkIsRecorded | ANIv41/_con.cpp:640-653 | a run of two switches that records the link, and one that records it with datapath 0 |
| Scenario.LateReplyIsNotAnnounced | ANIv41/_con.cpp:760-853 | a run in which a reply is handled during the wait, and more replies have been received than NODEs sent or outstanding |
| Conservation.EveryMessageAccountedFor | ANIv41/_con.cpp:570-823 | without duplication, messages of each kind sent on a port equal those in flight, lost, held and handled at the other end |
| Conservation.HandshakeChain | ANIv41/_con.cpp:575-653 | NODEs handled at the far end <= NODEs sent <= replies received <= replies sent <= requests sent, per wire, at every moment |
| Conservation.DrainedBalances | ANIv41/_con.cpp:570-823 | in every lossless run, once nothing is under way, requests, replies and NODEs balance on every wire, and the NODEs handled are those for the replies recorded in time less those still to be announced |
| Conservation.EntriesAreHandled | ANIv41/_con.cpp:640-653 | table entries of a kind never outnumber the NODEs handled |
| Conservation.EntriesWereSent | ANIv41/_con.cpp:640-653 | table entries at one end of a wire never outnumber the NODEs sent from the other, and all name it |
| Anim.FrameRoundTrip | ANIv41/_con.cpp:570-573 | the frame of a discovery message is LLDP-typed and parses back to the message |
| Anim.ParsesPrefix | ANIv41/_con.cpp:570-573 | the same whatever follows the frame, padding included |
| Anim.AnimRoundTrip | ANIv41/_con.cpp:771-814 | the switch hears an emission to exactly the port, as from port 0xfffd and of no buffer, of the frame octet by octet, which parses back to the message |
| Anim.FrameIs | ANIv41/_con.cpp:590-617 | the frame is the octets written out: both addresses, type, kind, length, identifier and port |
| Anim.Build | ANIv41/_con.cpp:784-814 | the inline stores produce those octets for every port and message |
| Handlers.LoopEndsIff | ANIv41/_con.cpp:195-217 | from any state the loop ends exactly when, by the octets, it meets no length field of 0 before it stops or a handler fails |
| Handlers.EndsInLoopState | ANIv41/_con.cpp:195-217 | if it ends, its own passes end in the specified state, with the specified success |
| Handlers.LoopsForever | ANIv41/_con.cpp:195-217 | four octets on which it never ends |
| Handlers.FailureEndsIt | ANIv41/_con.cpp:304 | the same octets behind a features reply without ports, on which it ends with failure |
| Handlers.FailsIff | ANIv41/_con.cpp:201-215 | a handler fails exactly on a features reply without ports, whatever the state |
| Handlers.ShortReplyOverruns | ANIv41/_con.cpp:300-316 | a features reply that claims fewer than 32 octets is read past the end of the buffer, wherever it stands; any other within its own length |
| Handlers.RunsIff | ANIv41/_con.cpp:195-217 | what the loop needs, that each visited message be read inside the buffer and that it end, is what the pass-by-pass check says |
| Handlers.LoopIsDispatch | ANIv41/_con.cpp:195-217 | the loop handles the offsets it visits, in order, until one handler fails |
| Handlers.FramingInvertsConcat | ANIv41/_con.cpp:195-217 | on concatenated frames the offsets visited are those of the longest version-1 prefix, cut behind a frame whose handler fails, each at its frame's first octet |
| Handlers.VisitsOffsets | ANIv1/main.cpp:251-283 | the offsets visited from the middle of a buffer; the same loop in ANIv1 |
| Handlers.FeaturesReplyDecodes | ANIv41/_con.cpp:299-335 | for 1 to 1364 encoded ports the count is recovered from the length and exactly those ports are appended, in order |
| Handlers.RepliesPairWithRequests | ANIv41/_con.cpp:201-212 | a message of type 2 draws one echo reply with its transaction id; one of type 0 draws a HELLO with its id and a features request with the next |
| Handlers.AnimHandlerIsProtocolStep | ANIv41/_con.cpp:570-656 | handling a packet-in (type 10) that begins with a discovery frame, whatever padding or message follows, has exactly the effect, on tables, timer and messages sent, of the state machine's step on that message |
| Connection.ReconnectGreets | ANIv41/_con.cpp:139-160 | a failed reception empties the four tables, keeps identifier and port count, and outside cbench mode sends a HELLO and a features request with ids 0 and 1 |
| Connection.MessageLearns | ANIv41/_con.cpp:397-569 | of all messages only a packet-in changes the host table, and then as the history extended by it says |
| Connection.LoopLearns | ANIv41/_con.cpp:195-217 | the same for everything a cbench reception brings, until a handler fails |
| Connection.ServeLearns | ANIv41/_con.cpp:139-241 | the same over whole runs, the history starting afresh at each reconnect |
| Connection.ServedHostsAreFirstArps | ANIv41/_con.cpp:139-454 | from the octets of any run: the table is the first ARP frame of each source since the last reconnect, in first-seen order, addresses distinct |
| Connection.MessageIsLocal | ANIv41/_con.cpp:192-217 | a whole message has the same effect wherever in a buffer it stands |
| Connection.BatchIsOneByOne | ANIv41/_con.cpp:195-217 | one cbench reception of any number of messages, each holding all its handler reads, leaves the state that handling each in its own buffer leaves |
| Connection.ServeBoth | ANIv41/ani.cpp:86-91 | serving more receptions is serving them after the first, unless a handler failed |
| Connection.ServeOne | ANIv41/ani.cpp:86-91 | serving one reception is handling it |
| Exchange.HelloEffect | ANIv41/_con.cpp:201-203 | a message of type 0: the switch hears a HELLO with its id and a features request with the next; nothing else changes |
| Exchange.EchoEffect | ANIv41/_con.cpp:210-212 | a message of type 2: the switch hears an echo reply with its id; nothing else changes |
| Exchange.FeaturesEffect | ANIv41/_con.cpp:294-355 | a message of type 6 with ports: identifier, count and exactly the described ports are taken over, one sharing thread is started, and the switch hears a configuration with flags 0 and miss_send_len 128; without ports it fails and leaves the mutex locked |
| Exchange.OtherEffect | ANIv41/_con.cpp:213-215 | a message of any type but 0, 2, 6 and 10 changes nothing |
| Exchange.PacketInEffect | ANIv41/_con.cpp:357-569 | a message of type 10, LLDP aside: exactly what is learned, and exactly which floods and rules the switch hears, by Ethernet type, protocol, mode and table |
| Exchange.DiscoveryEffect | ANIv41/_con.cpp:570-656 | a message of type 10 with an LLDP frame: kind 0 is answered on its own port, kind 1 recorded as a reply, kind 2 as a link that resets the timer, any other ignored; nothing else changes |
| Exchange.DefaultMode | ANIv41/_con.cpp:219-240 | outside cbench mode a reception has the effect of its first message when that is of version 1, or a HELLO of any version, and none otherwise |
| Exchange.DefaultIsCbench | ANIv41/_con.cpp:192-241 | one whole message has the same effect in both modes, an IPv6 frame aside |
| Exchange.ReconnectEffect | ANIv41/_con.cpp:139-160 | a failed reception empties the four tables and keeps all else; outside cbench mode the switch hears a HELLO and a features request with ids 0 and 1 |
| ObjectLists.ObjectList.constructor | ANIv41/linked.cpp:1-9 | the empty list with the cursor on null |
| ObjectLists.ObjectList.AddObject | ANIv41/linked.cpp:21-46 | the payload sequence gets the new element at its end, in a well-formed list, cursor kept |
| ObjectLists.ObjectList.GetListSize | ANIv41/linked.cpp:48-58 | the number of nodes in 32 bits, 2^32 - 1 for the empty list |
| ObjectLists.ObjectList.FreeList | ANIv41/linked.cpp:60-77 | the backward walk unlinks every node that `next` reaches, counts each once and leaves the list empty; -1 when it was |
| ObjectLists.ObjectList.RemoveObject | ANIv41/linked.cpp:79-127 | the first equal payload is gone and the order of the rest kept, in a well-formed list; -1 only for the empty list |
| ObjectLists.ObjectList.Unlink | ANIv41/linked.cpp:85-122 | each of the four unlink cases leaves `next` and `prev` inverse, the ends null and all other nodes in order |
| ObjectLists.RemoveFirstAt | ANIv41/linked.cpp:79-127 | removing the first equal element is cutting it out at the position the scan found |
| ObjectLists.ObjectList.GetObject | ANIv41/linked.cpp:129-141 | from a cursor on null or a live node, the cursor moves to the next position and stays live |
| ObjectLists.ObjectList.GetNth | ANIv41/linked.cpp:129-146 | after a rewind the k-th call answers item k mod (n+1), null standing for n |
| ObjectLists.CursorLaw | ANIv41/linked.cpp:129-146 | the same for positions |
| ObjectLists.ObjectList.AppendDuringScan | ANIv41/linked.cpp:21-46 | after an append while the cursor is at an item, or before the first, the remaining calls answer the items behind it, then the new one with its payload, then null |
| ObjectLists.ObjectList.FinishScan | ANIv41/linked.cpp:129-141 | from a cursor at an item the remaining calls answer the items behind it in order, then null |
| Controllers.Controller.constructor | ANIv41/_con.cpp:4-38 | the initial state: empty tables, cleared buffer, port count -1 |
| Controllers.Controller.ScanFor | ANIv41/_con.cpp:416-426 | the scan stops at the first entry with the address or on null with none before it, on a live cursor |
| Controllers.Controller.FindPort | ANIv41/_con.cpp:469-479 | the scan over linked nodes answers what the table's lookup answers |
| Controllers.Controller.Show | ANIv41/_con.cpp:669-689 | from a null cursor the whole table is shown from its first entry, cursor left on null |
| Controllers.Controller.LearnSource | ANIv41/_con.cpp:416-454 | a new source is appended once, a known one changes nothing |
| Controllers.Controller.Send | ANIv41/_con.cpp:404 | what is sent is exactly the message whose own header gives the length |
| Controllers.Controller.HandleArp | ANIv41/_con.cpp:407-496 | the branch learns the source and sends exactly the octets of the decision |
| Controllers.Controller.HandleIp | ANIv41/_con.cpp:497-569 | the branch sends exactly the octets of the decision |
| Controllers.Controller.AnswerAnim | ANIv41/_con.cpp:574-655 | each discovery message has its one effect and no other |
| Controllers.Controller.ActionPackout | ANIv41/_con.cpp:357-667 | the whole new state is the specified one for every packet-in |
| Controllers.Controller.ActionHello | ANIv41/_con.cpp:243-272 | two messages with consecutive ids, nothing else |
| Controllers.Controller.ActionEcho | ANIv41/_con.cpp:274-292 | one bare reply with the request's id |
| Controllers.Controller.AddPorts | ANIv41/_con.cpp:311-333 | exactly the described ports are appended, in order |
| Controllers.Controller.ActionFeaturesReply | ANIv41/_con.cpp:294-355 | the whole new state, and failure with the mutex left locked exactly when there are no ports |
| Controllers.Controller.HandleMessage | ANIv41/_con.cpp:201-215 | the dispatch by type has the specified effect for every message that is read inside the buffer |
| Controllers.Controller.SendInformationLoop | ANIv41/_con.cpp:195-217 | the loop terminates and leaves the state of `Handlers.LoopState`, although handlers overwrite the header pointer; nothing is asked of the octets behind a failing message |
| Controllers.Controller.SendInformationSingle | ANIv41/_con.cpp:219-239 | outside cbench mode the first message is handled, a HELLO whatever its version |
| Controllers.Controller.ReadFromSwitch | ANIv41/_con.cpp:162-176 | the buffer holds what was received and zeros after it; -1 exactly when nothing was |
| Controllers.Controller.FreeTables | ANIv41/_con.cpp:146-149 | the four tables are empty, all else is kept, cursors included |
| Controllers.Controller.CommunicateWithSwitch | ANIv41/_con.cpp:139-160 | one reception, or a reconnect, has the specified effect |
| Controllers.Controller.Serve | ANIv41/ani.cpp:86-91 | any sequence of receptions leaves the state of `Connection.ServeState` and a valid controller |
| Sharing.SendRequests | ANIv41/_con.cpp:706-758 | one request on each port from 1 to the count, in order |
| Sharing.AnnounceReplies | ANIv41/_con.cpp:760-823 | one NODE for each reply in table order, on that reply's own port, naming this switch and that port |
| Sharing.RequestsSay | ANIv41/_con.cpp:706-758 | the switch hears one emission of an 18-octet request for each port from 1 to n, in order |
| Sharing.AnnouncementsSay | ANIv41/_con.cpp:760-823 | and one of a 34-octet NODE for each reply, in order, on the reply's port and naming it and the switch |
| Sharing.WaitPass | ANIv41/_con.cpp:826-831 | breaks exactly above 20, else counts one tick |
| Sharing.WaitAlone | ANIv41/_con.cpp:825-834 | with no NODE meanwhile the wait takes 22 passes and leaves the counter at 21 |
| Sharing.PrintAndClear | ANIv41/_con.cpp:841-853 | all links are shown from the first, both tables end empty with null cursors |
| Sharing.RoundAlone | ANIv41/_con.cpp:698-855 | one round with no message handled meanwhile, as a sequence of turns: what it sends, in order, what it shows and what it leaves |
| Sharing.RoundBrings | ANIv41/_con.cpp:698-855 | the same of the specification, from every state |
| Sharing.TakeTurn | ANIv41/_con.cpp:691-857 | any one section of the sharing thread, or any one reception, has the specified effect on the whole state and keeps the controller valid |
| Sharing.TakeTurns | ANIv41/_con.cpp:691-857 | so does any sequence of them, appends between sections, later rounds and reconnects included: no call steps from a freed node, every announcement and every print covers its whole table, and the prints are the specified ones |
| Sharing.RequestSteps | ANIv41/_con.cpp:706-758 | the state machine's sharing thread sends the same requests, step by step |
| Sharing.AnnounceSteps | ANIv41/_con.cpp:760-823 | and the same NODEs |
| Sharing.ResetSection | ANIv41/_con.cpp:700-704 | the reset, lock to unlock, is three steps of the state machine with the same effect |
| Sharing.RequestSection | ANIv41/_con.cpp:706-758 | one request is one step, with the same message |
| Sharing.AnnounceSection | ANIv41/_con.cpp:760-823 | an announcement of n replies, lock to unlock, is n + 2 steps with the same messages |
| Sharing.WaitSection | ANIv41/_con.cpp:825-839 | a pass of the wait, lock to unlock, is three steps; above 20 it ends at the print with the mutex free |
| Sharing.PrintSection | ANIv41/_con.cpp:841-853 | the print, lock to unlock, is three steps that log the links printed and clear both tables |
| Sharing.FeaturesSection | ANIv41/_con.cpp:299-334 | the features handler, lock to unlock, is three steps of the receive thread with the same effect |

## Left out

What the code demands without checking, and the model therefore assumes:

- Connection.Accepts: a reception fits the read buffer, every message handled is read inside the buffer, and in cbench mode the loop ends. `Handlers.Needs` says how far each handler reads; a features reply of fewer than 32 octets is shut out because it reads past any buffer (`Handlers.ShortReplyOverruns`), where the C++ code has no defined behaviour. The functions and the lemmas about them need only that the loop ends.
- Handlers.FrameNeeds: the two TCP or UDP ports count as read whether or not the destination turns out to be known.
- Discovery.NetOk: one sharing thread and one features reply for each controller, at least one port, distinct non-zero datapath identifiers, wires that never join a port to itself.
- Byte order: the host is little-endian, as the recorded flow table shows.
- Only controllers send frames of the LLDP type (`Discovery`).

What is modelled differently or not at all:

- Sockets, signals, options, console output, `verbose`: `recv` is a parameter, `send` appends to a trace and succeeds; of printing only the list traversals are kept.
- Real time: every `sleep` is a step boundary or a tick.
- Allocation failure in `add_object`.
- ObjectLists.ObjectList.AddObject: the caller fills the payload through a pointer after the call; here it is an argument, and `memcmp` on payloads is equality of `T`.
- ObjectLists.ObjectList.FreeList: the count is unbounded where the source's is an `int`; freed memory is modelled by the node no longer being in `nodes`.
- Controllers.Controller.ActionPackout: the source falls off its end on success; that is taken as 0.
- Controllers.Controller.Serve: receptions alone; `Sharing.TakeTurns` lets the sharing thread run between them.
- Sharing.TakeTurns: a cbench reception of several messages is one turn, and by `Connection.BatchIsOneByOne` the same as a turn for each; a section is one turn because it holds the mutex, and the handlers that do not take it touch neither replies nor links.
- Protocol.SharerStep: reconnects are left out of the state machine because they free the tables outside the mutex.
- Controllers.Controller.ActionFeaturesReply: a lock and unlock within one handler has no net effect on `locked`; the thread it creates is counted in `sharers` only.
- Anim.Build: the discovery frame is written in place where the source stages it in a second buffer and copies it; the 1024-octet buffer and the rest of the 10240 are not modelled.
- Com.CreateHeader: the three header-only encoders differ in the type octet and are one method.
- Connection.BatchIsOneByOne: one direction, for messages that hold all their handler reads; a shorter packet-in makes the handler read into the next message.
- Conservation.EveryMessageAccountedFor: runs in which the network duplicates nothing; with duplication only soundness holds, and is proved.
- FlowCache.CacheInvisibleIff: a rule's output to the port the frame came in on is treated like any other port, cached or not (a flood names the port it leaves out); rule capacity and statistics are not modelled.
- Legacy.SameOctetsIff: packet-ins only; ANIv1's HELLO, echo and features handling is not compared. ANIv1's tables and buffers are globals of the same types, so its handler is written over the class `Controller`.
- ANIv1's own flow cache: it installs rules with output port 0 for unknown destinations.
- `ANIv21` and `ANIv1/linked.cpp`, which repeat what is modelled, `DAIM_stage1`, the Mininet scripts, and the vendor, queue and statistics structures.
