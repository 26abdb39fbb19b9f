# Verified model of the simpleSDN control protocol

simpleSDN runs one primary router and several secondary routers. The primary installs forwarding rules on the
secondaries with Octane control messages, keeps a retransmission timer for every message that has not been
acknowledged, and ends through an idle timeout when no timer is left. A secondary installs the rule of each control
message it receives, counts the copies per message class, stops answering a class after `drop_after` copies, and
otherwise echoes the message with its flags set to 1. On the data path the routers rewrite IP, ICMP and TCP packets
and recompute Internet checksums.

The project models these parts and proves:

* **Protocol, over all runs** (`Network`): with any number of secondaries and a channel that loses, duplicates and
  reorders, a message that no timer resends any more is installed where it was addressed, in runs of any length that
  give a new message only a number that no unacknowledged message and no packet in flight has. Runs of at most 65536
  messages (one 16-bit sequence-number cycle) always do, and the bound is exact: all runs of at most n messages are
  sound if and only if n <= 65536. An unacknowledged message can still be acknowledged by a run in time exactly when its
  class is not dropped at its secondary or an echo of it is in flight.
* **Primary** (`PrimaryProtocol`, `PrimaryRouters`, `Draining`): `m_unAckBuffer` is a bijection onto the live timers;
  sending keeps it so exactly when the next sequence number is not still unacknowledged. The event loop never pops an
  empty timer queue, comes to its idle exit only with everything acknowledged, and in every turn of every run fires,
  after a timed-out wait, the head of the queue and exactly the due timers behind it; when a timer is fired twice in a
  turn is stated exactly. What packets that arrive make of counter, buffer, timers and output is stated field by field
  (`PrimaryRouters.ReadyTurn`), and so is the timeout that `select` is given.
* **Secondary** (`SecondaryRouters`, `OrderedMaps`): its two maps are search trees of any shape that are searched with
  `octane_control::operator<`. They keep the laws of maps keyed by message class on orderly messages (no two each less
  than the other), and exactly then the secondary gives min(copies, `drop_after`) answers per class for every sequence
  of messages.
* **Timers** (`Timevals`, `EventQueues`, `TimerLibrary`): the pointer list refines a sorted sequence, with the
  library's own rule that 1000000 microseconds are not carried.
* **Packets** (`InternetChecksum`, `Packets`, `ControlMessage`): the checksum loop computes the one's-complement sum of
  RFC 1071 in either byte order; echo replies, address translation and both TCP rewriting directions verify; control
  messages survive the trip through an IP packet and back.

The classes `EventQueue`, `Timers`, `PrimaryRouter` and `SecondaryRouter` have the fields the source updates, and each
method is proved against a function of the old state; the theorems are about those functions.
`Network.Projection` and `Network.IdleExitInstalled` join the primary's event loop to the runs of the network.

Assumptions: the clock does not go back, and after `select` returns it moves by less than the retransmission time
within one turn of the loop (`PrimaryRouters.ExpiryLoopEndsIff` says exactly when the expiry loop ends without that);
timeouts are not negative; words are little-endian; packet payload lengths fit a C `short`; counters other than the
sequence number do not overflow. Which packets arrive, when `select` returns, what a tunnel packet makes the primary
send, and how the map library balances its trees are arbitrary inputs.

## What the code does differently from what one expects

* After the check before `select` has fired a due timer, `select` only polls, and when it reports a timeout one more
  timer is fired without a check (`Draining.PolledFireIsEarly`). A timer is fired twice in that turn exactly when,
  rescheduled, it is at the front of the queue again or due again at the last check (`PrimaryRouters.FiredTwiceIff`); a
  lone timer always is.
* Once `drop_after` echoes of a class are lost, the primary retransmits forever: for every `drop_after` of at least 1
  there is a run in time of one message and that many lost echoes after which the message is stuck
  (`Network.DropAfterLossesStick`), and stuck it stays (`Network.StuckForever`). Every message still unacknowledged can
  come to that, exactly if its secondary's `drop_after` is at least 1 (`Network.CanGetStuckIff`). Duplicates alone also
  drop a class (`Network.DuplicatesDropIff`).
* `octane_control::operator<` treats a wildcard on its left side as matching anything, so it is no order on mixed ICMP
  and TCP messages of one source, which stage 7 sends to one secondary. A dropped class can then be missed and answered
  again (`SecondaryRouters.MixedTrafficLosesTrack`).
* A sequence number used again while an echo of its first message is in flight acknowledges the new message, which need
  not be installed (`Network.AckUnsoundAfterWrap`).
* `buildIpPacket` copies the payload to offset payload length instead of header length, which is right only because
  both are 20 (`ControlMessage.PayloadWhereHeaderSays`). For the same reason the copy ends inside the buffer only if the
  buffer holds twice the payload, which the length check before it does not ask.
* `createReverseOctaneMsg` (cRouter.cpp, lines 579 to 611) compares a `uint16_t` with -1, which never holds.

## Model

| member | source | states |
|---|---|---|
| Network.GuardedSoundness | RouterPrim.cpp:1345-1478 | in every run of any length, over a losing, duplicating, reordering channel and with any tree shapes at the secondaries, in which new messages get unused numbers, a message that no timer resends any more, in particular one whose number left `m_unAckBuffer`, is installed at the secondary it was addressed to |
| Network.AckSoundness | RouterPrim.cpp:1345-1478 | the same for every run of at most 65536 messages, without a condition on numbers |
| Network.BoundedIsGuarded | cRouter.h:87 | runs of at most 65536 messages give each message an unused number |
| Network.SoundUpToIff | cRouter.h:87 | all runs of at most n messages are sound if and only if n is at most 65536 |
| Network.AckUnsoundAfterWrap | RouterPrim.cpp:1220-1236 | a run in time, with one message for each of 65537 ping flows from different sources, in which a delayed echo of the first message acknowledges the last one, which is not installed |
| Network.CanBeAcknowledgedIff | RouterSecond.cpp:693-718 | after any run with unused numbers, a message still unacknowledged can be acknowledged by some continuation that fires only due heads at readings that do not go back if and only if its class is not dropped at its secondary or an echo of it is in flight; messages to that secondary orderly |
| Network.StuckForever | RouterSecond.cpp:693-718 | a message that is unacknowledged, whose class is dropped and of which no echo is in flight stays so in every continuation that sends under unused numbers and keeps the messages to that secondary orderly |
| Network.DropAfterLossesStick | RouterSecond.cpp:693-718 | for every drop_after of at least 1, a run in time that sends one message and loses exactly that many of its echoes, after which the message is stuck |
| Network.DuplicatesDropIff | RouterSecond.cpp:693-718 | a message sent once and duplicated m times by the channel, with no echo lost and no timer fired, drops its class if and only if drop_after is from 1 to m + 1 |
| Network.CanGetStuckIff | RouterSecond.cpp:693-718 | after any run with unused numbers, a message still unacknowledged can get stuck in some continuation in time if and only if its secondary's drop_after is at least 1; messages to that secondary orderly |
| Network.ResendThenAck | RouterPrim.cpp:2266-2284 | as long as the class is not dropped, waiting until the message's timer is due and fired leads to an acknowledgement |
| Network.RunsAreRegistered | RouterPrim.cpp:292-338 | in every run with unused numbers the unacknowledged buffer is a bijection onto the timers, each timer resends a sent message under its own number, and with no timer left everything sent is installed |
| Network.StepKeepsInv | RouterPrim.cpp:1345-1478 | sending under an unused number, firing, delivering, losing, duplicating and rebalancing keep the invariant, including the truth of every echo in flight |
| Network.StaleEcho | RouterPrim.cpp:467-479 | a message sent while an echo with its number is in flight is acknowledged by that echo |
| Network.PrimaryActionIsStep | RouterPrim.cpp:291-492 | every action of the primary's loop is a network step with the same state change and exactly its datagrams on the wire |
| Network.Projection | RouterPrim.cpp:291-492 | over any run of the network, the primary's state is what its own actions in that run make of it, and a run with unused numbers reuses no unacknowledged one |
| Network.EmitsWhatIsSent | RouterPrim.cpp:403-427 | in a run with unused numbers the primary hands to its socket exactly the messages that count as sent |
| Network.IdleExitInstalled | RouterPrim.cpp:309-338 | if the event loop, started afresh, has performed the primary's actions of a run with unused numbers and comes to its idle exit, everything it handed to the socket is installed where it was addressed |
| PrimaryProtocol.SendKeepsRegistered | RouterPrim.cpp:403-427 | sending keeps the bijection between unacknowledged entries and timers if and only if the next sequence number is not still unacknowledged |
| PrimaryProtocol.FireKeepsRegistered | RouterPrim.cpp:2266-2284 | a retransmission keeps the bijection |
| PrimaryProtocol.EchoKeepsRegistered | RouterPrim.cpp:467-479 | an acknowledgement keeps the bijection |
| PrimaryProtocol.EchoRemovesItsTimer | RouterPrim.cpp:473-478 | an acknowledgement removes exactly the timer of its sequence number |
| PrimaryProtocol.DuplicateEchoChangesNothing | RouterPrim.cpp:475-477 | an echo for a number not in the buffer looks up handle 0 and changes nothing |
| PrimaryProtocol.IdleMeansAcknowledged | RouterPrim.cpp:309-338 | the timer queue is empty if and only if nothing is unacknowledged |
| PrimaryProtocol.RunKeepsRegistered | RouterPrim.cpp:403-479 | the bijection holds after any list of actions that sends under unused numbers |
| PrimaryRouters.PrimaryRouter.Run | RouterPrim.cpp:291-492 | for any sequence of wake-ups the loop performs a list of send, fire and echo actions, turn by turn; after each timed-out wait it fires exactly the timers it should, and in every turn select is told, and the next turn is left, the right timeout; it exits only with an empty timer queue, and then with nothing unacknowledged (what a turn with packets does to the state is ReadyTurn) |
| PrimaryRouters.PrimaryRouter.Turn | RouterPrim.cpp:291-492 | one turn: exit if and only if the wait timed out with no timer queued; after a timed-out wait the head and exactly the due timers behind it are resent, once each and in order, nothing due is left, and after a full wait with no due head all that fired was due; when packets have arrived, field by field: the messages of the tunnel packet go out under consecutive numbers to their routers, each gets its entry and its timer, and an acknowledgement takes out exactly its entry and its timer; select is told the time the head has left, and the idle timeout is back at 15 s exactly after a timed-out wait with timers or when the refresh flag, which the packets set, is true |
| PrimaryRouters.ReadyTurn | RouterPrim.cpp:340-492 | the actions of a turn in which packets have arrived, from any state with the retransmission timeout on its timers: the head is resent and queued again for 2000 ms later if it was due; exactly the one, two or four messages go out, with their fields, destinations and consecutive 16-bit numbers, and each number gets its entry and one timer for 2000 ms later; a control packet with flags 1 takes out the entry of its number and the timer with that handle, any other packet changes nothing |
| PrimaryRouters.AckTurn | RouterPrim.cpp:467-479 | a control packet with flags 1 that arrives alone, with the bijection and no due head: its number and exactly the timer that carries it are gone, every other entry, timer and counter is as before, and nothing is sent |
| PrimaryRouters.FiredTwiceIff | RouterPrim.cpp:293-332 | a timed-out turn fires some timer twice if and only if the head was due before `select` and, rescheduled, is at the front again or due at the last reading |
| PrimaryRouters.PrimaryRouter.CheckHead | RouterPrim.cpp:293-312 | a due head is fired; the event-timeout flag is set if and only if a timer is queued; then select is told exactly the time until the expiry of the head as it was, truncated at zero, and zero if and only if it was due; without timers the timeout stays as it was |
| PrimaryRouters.PrimaryRouter.FireExpired | RouterPrim.cpp:316-332 | after a timeout exactly the first n timers fire, each once and in order; behind the unchecked first one these are exactly the due ones, and none is due afterwards |
| PrimaryRouters.PrimaryRouter.FireAllDue | RouterPrim.cpp:324-329 | the expiry loop ends with no due head, having fired each timer at most once |
| PrimaryRouters.EndlessExpiry | RouterPrim.cpp:324-329 | if the clock moves by the retransmission time between fire and check, the loop finds a due timer at every check |
| PrimaryRouters.ExpiryLoopEndsIff | RouterPrim.cpp:321-329 | for any queue and any clock that does not go back the expiry loop ends if and only if some check reads less than the instant at which the head then expires; for a lone timer, less than the retransmission time after the fire before it |
| PrimaryRouters.StopsIff | RouterPrim.cpp:321-329 | the check after the n-th fire finds nothing due if and only if it reads less than the expiry of the next timer not yet fired, or, when all have been fired, than the instant for which the timer fired longest ago was armed |
| PrimaryRouters.PrimaryRouter.ExecuteNextTimer | RouterPrim.cpp:2266-2284 | the head's message is sent again to its destination and its timer is queued again |
| PrimaryRouters.PrimaryRouter.HandleControl | RouterPrim.cpp:470-479 | looking up, removing and erasing amounts to the echo action |
| PrimaryRouters.PrimaryRouter.ReadSocket | RouterPrim.cpp:442-486 | a control packet with flags 1 removes the entry of its number and the timer with that handle (with the bijection, exactly the timer that carries the number) and nothing else; every other packet leaves the state alone; the refresh flag is set for control packets and as the packet asks otherwise |
| PrimaryRouters.PrimaryRouter.SendOne | RouterPrim.cpp:389-405 | create, send, arm and record one message, with the effect of one send; the datagram goes to the given router and carries the given rule |
| PrimaryRouters.PrimaryRouter.SendTwo | RouterPrim.cpp:409-427 | a rule and its reverse, created and sent before both timers are armed, have the effect of two sends in a row; the second datagram asks for the flow with addresses and ports exchanged |
| PrimaryRouters.PrimaryRouter.SendFour | RouterPrim.cpp:1351-1392 | the four messages of stage 7, a rule and its reverse to each of two routers, have the effect of four sends in a row |
| PrimaryRouters.PrimaryRouter.CreateOctaneMsg | cRouter.h:87-97 | flags 0, every field of the rule, the current sequence number, and a 16-bit increment only if the message is to be sent |
| PrimaryRouters.PrimaryRouter.CreateReverseOctaneMsg | cRouter.h:98 | source and destination address and port exchanged, action and protocol kept, under the next sequence number, or number 0 and no increment if it is not to be sent; always with the given target port |
| Draining.NextFire | RouterPrim.cpp:324-329 | a due head is the next timer in line that has not fired; firing it keeps the order of the others |
| Draining.NoneLeft | RouterPrim.cpp:324-329 | when the head is not due, no timer that has not fired is due |
| Draining.PolledFireIsEarly | RouterPrim.cpp:298-321 | after the head check has fired, the unchecked fire is of a due timer if and only if the second timer is due; a lone timer is resent twice |
| Draining.WaitedFireIsDue | RouterPrim.cpp:313-321 | if select waited as long as it was told, by the timeout that CheckHead returns, the unchecked fire is of a due timer |
| PrimaryRouters.WaitedFiresAreDue | RouterPrim.cpp:313-332 | then, if the head was not due before, every timer fired in the turn is due |
| OrderedMaps.ContainsIff | cRouter.h:90-91 | in a tree of any shape in order, `find` with `operator<` finds exactly the node of the message's class, for any orderly set of messages |
| OrderedMaps.PutLaw | RouterSecond.cpp:697-709 | assignment through the subscript stores the value for the message's class and changes nothing for other classes |
| OrderedMaps.EraseLaw | RouterSecond.cpp:708 | erasing removes the message's class and nothing else |
| OrderedMaps.ShapeLaw | cRouter.h:90-91 | trees with the same entries, however balanced, answer every search alike |
| OrderedMaps.EveryShapeFindsIff | network.cpp:478-516 | two keys in order are found in every shape of the tree if and only if they are not each less than the other |
| SecondaryRouters.SecondaryRouter.ReceiveControl | RouterSecond.cpp:690-718 | the branch changes both trees, installed rules and output as the receive function says, for any messages |
| SecondaryRouters.AnswersPerClass | RouterSecond.cpp:693-718 | for any sequence of orderly messages and any tree shapes: min(copies, drop_after) answers and installations per class (all copies if drop_after is below 1), the stored count is the number of copies and between 1 and drop_after - 1, counted and dropped classes disjoint |
| SecondaryRouters.AnswersAsPromisedIff | RouterSecond.cpp:693-718 | that number of answers is given for all sequences of messages from a set, all drop_after and however the trees are balanced if and only if no two messages of the set are each less than the other |
| SecondaryRouters.BalancingLosesTrack | RouterSecond.cpp:693-718 | three messages in order, the first also greater than the two others, with the tree shape of red-black insertion: the dropped class of the first is answered again |
| SecondaryRouters.MixedTrafficLosesTrack | RouterPrim.cpp:1220-1320 | one ICMP flow and two TCP flows to port 80 of one source are such messages |
| SecondaryRouters.DroppedForever | RouterSecond.cpp:693-709 | among orderly messages a dropped class stays dropped with its action and is never answered again |
| SecondaryRouters.DroppedWithItsAction | RouterSecond.cpp:693-718 | the message that gets its class dropped leaves its own action and target port there, is installed, and is still echoed with only the flags changed |
| TimerLibrary.Timers.AddTimer | timers/timers.cc:346-355 | the next handle, queued at its expiry |
| TimerLibrary.Timers.RemoveTimer | timers/timers.cc:362-394 | true if and only if the handle is live; exactly that timer is removed, order and expiry of the others stay, and the exit path is unreachable |
| TimerLibrary.Timers.FindHandle | timers/timers.cc:368-378 | the search finds the event of a live handle and nothing otherwise |
| TimerLibrary.Timers.ExecuteNextTimer | timers/timers.cc:403-424 | discard, reschedule with the same or with a new timeout, as the callback's result says |
| TimerLibrary.Timers.NextTimerTime | timers/timers.cc:397-400 | {0, 0} if and only if some timer is due, and if and only if the head is |
| TimerLibrary.RemoveHandleAt | timers/timers.cc:362-394 | removing a handle takes out its one position |
| EventQueues.EventQueue.Add | timers/timers.cc:191-207 | the list stays linked, acyclic and sorted, with the new event inserted at its rank |
| EventQueues.RankSeparates | timers/timers.cc:191-207 | the rank puts a new event behind all earlier and before all equal and later ones |
| EventQueues.EventQueue.AddAfter | timers/timers.cc:237-251 | a new event at the clock reading plus the delay |
| EventQueues.EventQueue.Pop | timers/timers.cc:209-217 | the head is unlinked and returned |
| EventQueues.EventQueue.FindNextEvent | timers/timers.cc:224-235 | the first event of the type from the given one on |
| EventQueues.EventQueue.Remove | timers/timers.cc:288-314 | 0 and exactly the event unlinked if it is queued, else -1 and nothing changed |
| EventQueues.EventQueue.NextTimer | timers/timers.cc:254-267 | {0, 0} if and only if the head is due, MAXVALUE seconds if empty, else the remaining time of the head |
| EventQueues.EventQueue.HeadIsEarliest | timers/timers.cc:191-207 | the head has the least expiry in real time |
| EventQueues.EventQueue.NothingDueBehind | timers/timers.cc:270-278 | if any event is due the head is |
| Timevals.CmpIsTimeOrder | timers/timers.cc:105-112 | with microseconds up to 1000000 the comparison is real-time order, with the one exception stated exactly |
| Timevals.MinusTruncates | timers/timers.cc:115-133 | subtraction truncated at zero, {0, 0} against a clock reading exactly when not later |
| Timevals.AddUsecs | timers/timers.cc:136-143 | adds exactly, and leaves 1000000 uncarried exactly when it is hit |
| Timevals.AddMsecs | timers/timers.cc:146-160 | the instant that many milliseconds later, in the library's stored form |
| Timevals.LaterAddsExactly | timers/timers.cc:146-160 | that instant is exactly 1000 microseconds per millisecond later |
| InternetChecksum.Checksum | icmp_checksum.c:32-55 | for every length of a C short the loops compute the complement of the one's-complement sum, odd byte included |
| InternetChecksum.OnesSumIsResidue | icmp_checksum.c:39-54 | summing first and folding carries afterwards equals adding with end-around carry word by word |
| InternetChecksum.OnesSumZero | icmp_checksum.c:39-54 | the sum is 0 only for all-zero data |
| InternetChecksum.StoredChecksumVerifies | icmp_checksum.c:32-55 | storing the checksum in a zeroed aligned field makes the checksum of the data 0 |
| InternetChecksum.StoredChecksumUnique | icmp_checksum.c:32-55 | only that value, or the other zero, does |
| InternetChecksum.NativeStoreIsNetworkOrder | network.cpp:341-348 | storing without htons puts the network-order checksum on the wire, for even and odd lengths |
| InternetChecksum.ChecksumOfSwappedWords | icmp_checksum.c:39-54 | the checksum of byte-swapped words is the byte-swapped checksum |
| Packets.IcmpReplyEdit | network.cpp:319-355 | an ICMP packet becomes its echo reply: type 0, addresses exchanged, both checksums verify, all other bytes unchanged; other packets are not touched |
| Packets.ReplyTwiceRestoresAddresses | network.cpp:343-346 | applying the edit twice restores the addresses |
| Packets.ReplyKeepsIpChecksum | network.cpp:344-348 | for a valid received header the recomputed checksum equals the received one if and only if that was not 0xFFFF |
| Packets.Readdress | network.cpp:411-457 | one address replaced, the old one returned, the header verifies |
| Packets.ReaddressRoundTrip | network.cpp:411-457 | translating back with the returned address restores the packet byte for byte if and only if the received checksum field was not 0xFFFF |
| Packets.TcpForward | RouterSecond.cpp:1033-1055 | the outgoing segment verifies over (external, destination), also by plain addition: addresses, protocol, length and segment sum to a positive multiple of 65535; only the check field changes |
| Packets.TcpReplyEdit | network.cpp:357-393 | the incoming segment verifies over (remote, original source), also by that addition, the IP header verifies, only the destination and the two checksums change |
| Packets.TcpVerifiesIff | network.cpp:376-388 | the checksum over pseudo header and segment is 0 if and only if the words of both addresses, the protocol, the length and the segment sum to a positive multiple of 65535 |
| Packets.TcpRewriteUnique | network.cpp:376-388 | the check field is forced by the other bytes, up to the two zeros |
| ControlMessage.EquivalentIffSameClass | network.cpp:478-516 | two messages of any kind are equivalent if and only if they are of one class, which ignores sequence number, flags and protocol |
| ControlMessage.LessIff | network.cpp:478-516 | the comparison is decided by the first of source address, source port, destination address and destination port in which the two differ and the left one has no wildcard; without one, by a smaller action or a smaller target port |
| ControlMessage.StrictWeakOrderIff | network.cpp:478-516 | the comparison is a strict weak order on a set of messages if and only if no two of them are each less than the other |
| ControlMessage.OrderlyIff | network.cpp:478-516 | messages with matching wildcards (all ICMP, or all TCP) are ordered if and only if no two of one flow have crossing action and port |
| ControlMessage.MixedTrafficNotOrdered | network.cpp:478-516 | an ICMP and a TCP message that are each less than the other |
| ControlMessage.DecodeEncode | network.h:30-48 | the 20-byte image determines the message |
| ControlMessage.EncodeDecode | network.h:30-48 | every 20 bytes are the image of a message |
| ControlMessage.EncodeLayout | network.h:30-48 | the offset and width of every field in the image |
| ControlMessage.BuildIpPacket | network.cpp:259-286 | the bytes of the buffer: the header fields (version and length, total length, time to live 255, protocol, addresses, checksum of the header before it was stored), the payload at its own length and over the header where they meet, everything else as before; the first 20 bytes are the header if the payload is empty or has at least 20 bytes; no change if the buffer is too small |
| ControlMessage.FillHeader | network.cpp:268-280 | the 20 header bytes, for every payload length |
| ControlMessage.OctaneUnpack | network.cpp:87-112 | the announced bytes, from the end of the announced header (20 for none), replace the front of the caller's struct and the rest of it stays; the sequence number is read from the packet |
| ControlMessage.OctaneReplyEdit | network.cpp:141-157 | in a packet of protocol 253 the second byte behind the header becomes 1 and nothing else changes; other packets are not touched |
| ControlMessage.ControlRoundTrip | network.cpp:87-112 | unpacking a built control packet returns the message, for every message |
| ControlMessage.AckRoundTrip | network.cpp:141-157 | unpacking the echoed packet returns the message with only the flags set, under its sequence number |
| ControlMessage.PayloadWhereHeaderSays | network.cpp:281-283 | the payload lands where the header announces it for every payload of n bytes if and only if n is 20 or 0 |

## Left out

- Sockets, `select`, the tunnel, processes, registration, configuration parsing, log strings and log files.
- Classification of tunnel packets (`packetDstCheck`, ports, the primary's own flow table): which of the message patterns is sent is an arbitrary input.
- `octaneRulesController` and forwarding of data packets; it works on a copy of the router.
- Stages 1 to 3, the unused `primaryRouter_s4_old`, and the captive-portal messages of stage 9, which are sent without timers.
- Callbacks that change the timer list from inside `Expire`; the routers' only callback does not.
- `RandDelay`, `Eq_Print`, the C binding of the timer library, and freeing of memory.
- Time values are passed and returned by value where the source writes through a pointer.
- OrderedMaps.Put: on messages that are not orderly the C++ standard leaves `std::map` undefined; the model then attaches a new node where the search ends, and a library may do otherwise. Rebalancing happens between messages; on orderly messages its time makes no difference.
- SecondaryRouters.AnswersAsPromisedIff: the failing direction uses a balancing of two keys that red-black insertion does not give, because a library may balance as it likes; BalancingLosesTrack uses one that it does give.
- Network.GuardedSoundness: "installed" means given to `flow_table.insert` at that secondary; the table's own contents and the order of its keys (`flow_entry` in cRouter.cpp) are not modelled, and a later message for the same flow may replace the action.
- Packets.TcpForward: segments too short to hold the check field, and ones larger than the 2048-byte scratch buffer, for which the source writes outside its buffers.
- ControlMessage.BuildIpPacket: payloads of n bytes for buffers of size 20 + n up to 2n - 1, for which the misplaced copy ends outside the buffer; it stays inside if and only if 2n is at most the size.
- Packets.Readdress: headers shorter than 20 bytes are not modelled.
- Packets.IcmpReplyEdit: headers shorter than 20 bytes and buffers shorter than the announced length are not modelled.
- ControlMessage.OctaneUnpack: announced lengths over 20 bytes, which overrun the caller's struct.
- TimerLibrary.Timers.ExecuteNextTimer: a callback result below -1 ends the program in the source and is excluded.
