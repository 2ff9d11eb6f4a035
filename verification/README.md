# microps in Dafny

A model of microps, a small TCP/IP stack, and proofs about it. The centre is the TCP
engine of `tcp.c`; around it stand the things it relies on: the Internet checksum, the
linked queue, header building and parsing, routing, the ARP cache, the interruptible
sleep, and the tables of TCP and UDP sockets.

`dafny verify dfyconfig.toml` checks the whole project.

## How the model is laid out

- `TcpSpec` gives one connection block (`Tcb`) and every critical section of `tcp.c` as a
  function on it: segment arrival, timer pass, connect, listen, send, receive, close.
  `TcpPcb` is the same code as a class with a 65535-byte buffer, loops and in-place
  updates; each of its methods is proved equal to its specification function.
- `TcpArrivals`, `TcpCommands` and `TcpTimers` say what those functions do without naming
  them: which state, numbers and answers an arrival, a command or a timer pass leads to.
  `TcpClosing` reads the state of a connection as a record of its two FINs.
- `TcpQueue`, `TcpLocal`, `TcpCover`, `TcpRoom`, `TcpWire`, `TcpBackoff`, `TcpResend`,
  `TcpTimeWait`, `TcpSend`, `TcpSendCall`, `TcpMss` and `TcpLimits` prove what one block
  keeps over every run, whatever arrives from the network.
- `TcpPair`, `TcpPairSteps`, `TcpPairArrive`, `TcpPairWide`, `TcpHistory`, `TcpConnection`
  and `TcpReading` put two blocks on a network. Each node owns the set of all segments it has ever sent; a segment may arrive
  any number of times, in any order, or never, so loss, duplication and reordering need
  no rules of their own. A node also carries history that the code does not store: the
  bytes handed to tcp_send, the segments they were cut into, the text accepted, and the
  bytes returned by tcp_receive. `TcpCounterexamples` gives runs on which expected
  properties fail.
- `Checksum`, `Headers`, `Parsing` and `Frames` cover bytes: the checksum and its algebra,
  the encodings and their round trips, exactly which buffers the input paths accept, and
  the buffers as the program fills them in place.
  `le` is the byte order of the host.
- `Queue`, `Routing`, `Arp`, `Sched`, `TcpTable`, `TcpSockets` and `Udp` model the
  components of those names. `Words`, `Clock`, `Options`, `Counting` and `Ports` hold
  shared definitions.

Integers are unbounded in Dafny, so every width is explicit: `U16`, `U32` and `Byte` are
ranges, and `Add32` and `Sub32` write the wrap-around of `uint32_t` out.

## Hypotheses

- The sequence numbers of a connection stay below 2^32 (`NoWrap`,
  `Budget`), because `tcp.c` compares them as plain integers. `TcpLimits` says exactly
  where that comparison and the modular one of RFC 793 part.
- Connect and listen are applied to a block as `tcp_pcb_alloc` leaves it. A block that was
  closed but is still waited on counts as a final state.
- Segments between the two nodes carry at most a FIN without text, which is what microps
  sends. In the modules about one block segments are arbitrary.
- IP may refuse a slice at any time. One that is refused while another thread waits on the
  block stays in the retransmit queue; the model calls it held. The invariant of two nodes
  counts it as sent and lost, and holds in every state of every run (`RunKeepsInv`). What
  the code promises about acknowledgements, payloads and delivery then holds exactly until
  a timer pass sends the held slice, or the peer accepts it, as each theorem says.
- A copy of text past the end of the receive buffer is allowed everywhere, and the wrapped
  16-bit window it leaves is modelled; what it overwrites behind the buffer is not.
  `AccountedIff` says what it costs, and `OverrunNeedsStaleWindow` what leads to it.
- Clock readings, random numbers and whether a thread waits on a block are parameters of
  each step. Allocation succeeds. `sched_ctx_destroy` refuses while a thread waits: that
  is how its callers use it, although `pthread_cond_destroy` does not return -1.

## Where the code and its promises part

- The comment at tcp.c:555-563 assumes that text starts at RCV.NXT; the code does not
  check it. `StreamDelivery` states what holds without the assumption and with it, and
  `OvertakingSegmentDropsBytes` is a run that loses a byte.
- SND.WND is refreshed only by segments that are newer than the last refresh. With data
  flowing both ways a retransmission can acknowledge new data without refreshing it, and
  the sender then believes in room the receiver does not have
  (`StaleWindowOverrunsRightEdge`). It fills that room, and the receiver's next copy runs
  past the end of its buffer (`StaleWindowOverrunsBuffer`). `AdvanceOverstatesIff` says which
  acknowledgements do this; `WindowSafety` holds until the first of them.
- A slice that IP refuses stays in the retransmit queue. If another thread waits on the
  block, the block stays too, and the timer sends the slice although tcp_send reported a
  failure and SND.NXT did not move (`HeldRefusalReachesPeer`). `PayloadsAreSlicesIff`,
  `AcknowledgementSafety` and `StreamDelivery` say exactly what that breaks.
- An acknowledgement may shrink the window to below what is in flight, and in SYN_RECEIVED
  one of the ISS itself establishes with a zero window; `cap` in tcp_send then wraps round.
  `RoomIff` says exactly when.
- A child that is released before it is accepted stays in its listener's backlog
  (`ReleasedChildIsAccepted`); `AcceptedOnceInOrder` holds exactly until that happens.
- tcp_send takes the MSS from the interface towards its local address, but segments leave
  along the route to the foreign one: `SegmentsLeaveIff`.
- A datagram whose header length field was altered can pass the header checksum, because the
  field also says how much is summed (`LongerHeaderGoesUnnoticed`). Any other altered word
  is noticed: `AlteredIpIsDropped`.
- Hosts of different byte order disagree on the checksum of a text that leaves an odd
  non-zero byte over, because the last byte is added as it is: `TcpRoundTrip`.
- The test for exhausted ports at tcp.c:1051 could never succeed, since the variable holds
  the last candidate by then; `FindPort` proves that the search ends long before.
- The TCP search uses candidate ports without hton16 (tcp.c:1044), the UDP search with it
  (udp.c:369-370). The model follows both.
- tcp_connect from a bound port does not look for another PCB with the same endpoints:
  `BoundConnectCollides` and `BoundConnectKeepsUniqueIff`.
- An interrupt that finds no waiter is never cleared: `UnheardInterruptSticks`.

## Model

| member | source | states |
|---|---|---|
| TcpConnection.AcknowledgementSafety | tcp.c:646-648 | In every state of every two-party run, in each direction: ISS <= SND.UNA <= the peer's RCV.NXT <= SND.NXT once the peer has synchronised, if and only if the peer has accepted no held slice; so in both directions while no timer pass has sent one |
| TcpConnection.PayloadsAreSlicesIff | tcp.c:297-382 | Every payload either side has put on the wire, retransmissions included, is the slice of its stream at SEQ - ISS - 1, if and only if so far no timer pass has sent text at or beyond SND.NXT |
| TcpWire.PayloadsAreSlicesIff | tcp.c:297-382 | The same for one block and an arbitrary peer, step by step: the payloads sent are slices of what tcp_send has taken, at SEQ - ISS - 1, if and only if the step is no such timer pass |
| TcpWire.StepSaysSlicesIff | tcp.c:256-382 | One step keeps queued text sliced from the stream, or beyond SND.NXT in a closed block, and says slices exactly if it is no such timer pass |
| TcpConnection.LeaksNeedRefusal | tcp.c:1259-1265 | While no slice was refused on a block that is waited on, no timer pass sends such text |
| TcpConnection.StreamDelivery | tcp.c:702-720 | Accepted text is a strictly increasing choice of the peer's segments; it is a prefix of its stream, and all of it after the FIN, when every accepted segment began at RCV.NXT; it falls short of the numbers passed exactly when one did not. All this holds if and only if no held slice was accepted, so while no timer pass has sent one. While no copy has overrun, the same is true of bytes delivered plus bytes pending |
| TcpConnection.AccountedIff | tcp.c:705-709 | Every accepted byte is delivered or pending in every state of a run so far exactly when no copy so far ran past a receive buffer |
| TcpConnection.WindowSafety | tcp.c:646-655 | Until an ACK leaves SND.WND wider than it offers, in either direction: in-flight bytes fit SND.WND, the peer's right edge covers it, `cap` does not wrap, and every text segment the peer can accept fits its buffer |
| TcpConnection.AdvanceOverstatesIff | tcp.c:646-655 | An advancing ACK leaves the sender believing in more room than it offers exactly when it fails the refresh test and offers less than SND.WND |
| TcpConnection.OverrunNeedsStaleWindow | tcp.c:705-709 | In every run a copy past a receive buffer happens only after an ACK has left the sender's SND.WND too wide |
| TcpConnection.SilentPeerKeepsWindowFresh | tcp.c:1244-1268 | While the peer has put neither data nor a FIN on the wire no window is left too wide and window safety holds, with no condition on the ACKs |
| TcpRoom.StepLeavesRoomIff | tcp.c:646-655 | With an arbitrary peer a step keeps what is in flight within SND.WND, while data may be sent, unless it accepts an ACK that leaves a window ending before SND.NXT |
| TcpRoom.RoomIff | tcp.c:1245-1245 | What is in flight fits SND.WND in every state of a run so far in which data may be sent, if and only if no ACK so far left a window ending before SND.NXT |
| TcpRoom.CapIsRoomIff | tcp.c:1245-1245 | `cap` is the window less what is in flight, and at most the window, exactly if what is in flight fits it |
| TcpRoom.OverdrawsByRefreshing | tcp.c:648-652 | In ESTABLISHED and CLOSE_WAIT only an advancing ACK that refreshes the window and ends before SND.NXT does it |
| TcpConnection.ReceiverNeverRetreats | tcp.c:529-548 | RCV.NXT and RCV.NXT+RCV.WND never move left over any stretch of any run |
| TcpReading.ReadToTheEnd | tcp.c:1313-1349 | In every two-party run a side that, in ESTABLISHED, FIN_WAIT1, FIN_WAIT2 or CLOSE_WAIT, makes as many calls of tcp_receive as bytes are pending has been handed all the text it accepted, no copy having overrun; with the FIN in, no gap and no held slice accepted, the peer's whole stream |
| TcpReading.ReadsHandOut | tcp.c:1344-1349 | Reading moves bytes from the buffer to the reader in order, at least one per call while there are any, and touches nothing else of either side |
| TcpConnection.QueuesCoverIff | tcp.c:256-295 | Between two nodes both retransmit queues cover exactly [SND.UNA, SND.NXT), only a simultaneous-open SYN possibly twice, if and only if so far no slice was refused on a block that is waited on |
| TcpPairWide.WideStepKeepsInv | tcp.c:385-769 | Every event of either node, with any segment the peer ever sent and with refused slices, keeps the invariant that links the nodes and the wire, held slices counted as sent |
| TcpConnection.RunKeepsInv | tcp.c:385-769 | That invariant holds in every state of every run |
| TcpConnection.RunKeepsHistory | tcp.c:702-720 | In every state of every run text was sent before it was accepted, and before the FIN RCV.NXT is where the last accepted text ended |
| TcpHistory.LeakedIff | tcp.c:829-854 | A held slice has been on the wire after a step exactly if it had been before or the step is a timer pass that sends text at or beyond SND.NXT |
| TcpPairArrive.ArriveKeepsInv | tcp.c:385-769 | Arrival of any segment the peer ever sent, in any state, keeps the two-party invariant |
| TcpPairSteps.SendKeepsInv | tcp.c:1258-1267 | Sending a slice keeps it: the new piece is the stream's next slice and nothing on the wire changes meaning |
| TcpPairSteps.CloseKeepsInv | tcp.c:1364-1410 | Closing keeps it: the FIN takes the number after the last byte |
| TcpPairSteps.TickKeepsInv | tcp.c:829-854 | A timer pass keeps it: a retransmission carries an issued segment with the current RCV.NXT and RCV.WND |
| TcpPairSteps.ReceiveKeepsInv | tcp.c:1313-1349 | Reading from the buffer keeps it and opens the window by what was read |
| TcpPairSteps.ConnectKeepsInv | tcp.c:1061-1072 | An active open keeps it |
| TcpCounterexamples.OvertakingSegmentDropsBytes | tcp.c:555-563 | A reachable state in which a later segment was accepted first and the earlier byte is lost though acknowledged |
| TcpCounterexamples.StaleWindowOverrunsRightEdge | tcp.c:648-655 | A reachable state with data both ways in which SND.UNA+SND.WND lies beyond the peer's right edge |
| TcpCounterexamples.StaleWindowOverrunsBuffer | tcp.c:705-709 | The same run goes on to a segment that the peer accepts and that does not fit its buffer |
| TcpCounterexamples.HeldRefusalReachesPeer | tcp.c:1259-1265 | A reachable state in which a refused slice has been resent and accepted: RCV.NXT is beyond SND.NXT, and the payload and the bytes received are not the sender's stream |
| TcpArrivals.StateAfterArrival | tcp.c:627-767 | For every connected state and every segment inside the window that carries an ACK and neither RST nor SYN: the state it leads to, as an if-and-only-if in the old state, the FIN and the ACK against SND.UNA and SND.NXT |
| TcpArrivals.SendHalfAfterArrival | tcp.c:642-658 | Such a segment moves SND.UNA, drops from the queue exactly the leading entries that start before it, and refreshes the window, exactly if it advances and passes the refresh test |
| TcpArrivals.ReceiveHalfAfterArrival | tcp.c:702-731 | RCV.NXT, the window and the pending bytes after such a segment, with or without text and FIN |
| TcpArrivals.ReplyToArrival | tcp.c:628-732 | The segments such a segment is answered with, in order |
| TcpArrivals.OutsideIsAnswered | tcp.c:529-553 | A segment outside the window changes nothing and is answered with an ACK of RCV.NXT unless it is a reset |
| TcpArrivals.ResetOrSynEnds | tcp.c:565-618 | Inside the window a reset or a SYN ends the connection in every connected state; the SYN is answered with a reset |
| TcpArrivals.ClosedAnswersWithReset | tcp.c:391-401 | Without a connection everything but a reset is answered with a reset of the stated numbers |
| TcpArrivals.ListenTable | tcp.c:404-452 | What LISTEN makes of every combination of RST, ACK and SYN, with all numbers of the passive open |
| TcpArrivals.SynSentStates | tcp.c:453-512 | Which state SYN_SENT goes to, as an if-and-only-if in the flags and the ACK |
| TcpArrivals.SynSentNumbers | tcp.c:489-505 | The numbers and the answer of an active or simultaneous open |
| TcpArrivals.RefusedSynEndsConnect | tcp.c:396-399 | The reset with which a closed end answers our SYN is one that ends SYN_SENT |
| TcpArrivals.RefusedSegmentEndsConnection | tcp.c:396-399 | The reset with which a closed end answers a segment of ours ends the connection in every connected state |
| TcpClosing.StateTellsFins | tcp.c:666-767 | In every state of every run with an arbitrary peer a connected block is in the one state that fits whether our FIN was sent, whether all was acknowledged, whether the peer's FIN was taken, and which came first |
| TcpTimers.TimerPassTable | tcp.c:297-320 | A pass over a block in use closes it exactly if some queued segment was first sent twelve seconds ago or more; it restarts exactly the entries that are due and sends exactly those, in order |
| TcpTimers.DeadlineOverRuns | tcp.c:829-854 | Over every run a pass closes a block in use if and only if some queued segment was first sent, by an earlier event of the run, twelve seconds or more before the reading taken for it |
| TcpTimers.FirstIsSendTime | tcp.c:256-279 | In every state of every run the time a deadline is counted from is that of the event that first sent the segment |
| TcpCommands.ReceiveTakesFront | tcp.c:1344-1349 | In the four states that read, tcp_receive hands out the front of the pending bytes, as many as fit, leaves the rest and opens the window by that many; in all others nothing moves |
| TcpCommands.ReceiveReplies | tcp.c:1298-1343 | When the caller gets bytes, sleeps, is told of the end, or is refused, as if-and-only-ifs in the state and the pending bytes |
| TcpCommands.CloseTable | tcp.c:1364-1410 | Close ends LISTEN and SYN_SENT, sends a FIN at SND.NXT in SYN_RECEIVED, ESTABLISHED and CLOSE_WAIT, with the next state of each, and does nothing elsewhere |
| TcpCommands.ConnectTable | tcp.c:1061-1072 | An active open sends and queues a SYN at the random ISS with the full window, or leaves a cleared block |
| TcpCommands.RefusedSliceEnds | tcp.c:1259-1265 | A slice that IP refuses is queued all the same and ends the connection |
| TcpCommands.SendTable | tcp.c:1235-1267 | A slice is taken exactly in ESTABLISHED and CLOSE_WAIT and within the room left, and becomes the next text on the wire and in the queue |
| TcpLocal.StepKeepsLocalInv | tcp.c:256-382 | Any event with any segment keeps the queue ordered within [SND.UNA, SND.NXT) and the closing-state facts |
| TcpLocal.RunKeepsLocalInv | tcp.c:623-695 | Over every run: FIN_WAIT1, CLOSING, LAST_ACK have SND.UNA < SND.NXT; FIN_WAIT2, TIME_WAIT have SND.UNA = SND.NXT and an empty queue; pending bytes and window add up to the buffer |
| TcpCover.StepCoversIff | tcp.c:281-295 | With an arbitrary peer a step keeps the queue covering exactly [SND.UNA, SND.NXT) unless it is an ACK inside a queued segment |
| TcpCover.QueueCoversIff | tcp.c:256-295 | The queue covers exactly [SND.UNA, SND.NXT) in every state of a run so far, only a SYN possibly twice, if and only if no ACK so far fell inside a queued segment |
| TcpLocal.FinWait1AckBranchIsDead | tcp.c:741-745 | In no block and for no segment is the "ACK equals SND.NXT" branch of FIN processing in FIN_WAIT1 taken |
| TcpLocal.StepFollowsDiagram | tcp.c:403-768 | Every state change is an edge of figure 6 of RFC 793, two edges within one segment, or an abort |
| TcpLocal.StepRaisesRank | tcp.c:403-768 | Every state change raises a rank |
| TcpLocal.LifecycleIsBounded | tcp.c:403-768 | One incarnation changes state at most nine times |
| TcpLocal.NeverReturns | tcp.c:403-768 | A state that was left is never entered again |
| TcpLocal.EmitTouchesTimersOnly | tcp.c:297-320 | A timer pass changes only entry timers and sends only queued segments |
| TcpQueue.CleanupCovers | tcp.c:281-295 | After an ACK of `u` the queue covers [u, b) exactly when `u` falls inside no entry |
| TcpQueue.CleanupCoversTwiceSyn | tcp.c:281-295 | The same with the twice-queued SYN of a simultaneous open |
| TcpQueue.AppendCovers | tcp.c:256-279 | Queueing at SND.NXT extends the covered range by the entry's length |
| TcpBackoff.AtMostFiveResends | tcp.c:297-320 | Whatever the clock shows at the timer's visits, an entry is resent at most five times |
| TcpBackoff.FiveResendsHappen | tcp.c:297-320 | Five retransmissions do happen before the deadline |
| TcpResend.AtMostFiveOnTheWire | tcp.c:829-854 | Over every run with an arbitrary peer and any clock, all timer passes together put a segment with given sequence number, flags and text on the wire at most five times |
| TcpResend.StepKeepsResendInv | tcp.c:256-320 | Every event keeps, for each such segment, that it is queued at most once, by an entry whose timer shows how often it was resent, and is not queued again afterwards |
| TcpBackoff.ResendStep | tcp.c:297-320 | A retransmission doubles the timer without overflow, and last-first >= rto-default stays true |
| TcpBackoff.FateByInstant | tcp.c:305-318 | The field-wise timeval tests mean: 12 seconds since the first send, and later than last send plus rto |
| TcpBackoff.RunKeepsBackoff | tcp.c:297-320 | In every state of every run each entry has been resent at most five times and has waited as long as its timer says |
| TcpBackoff.RtoNeverExceeds | tcp.c:43-44 | In every state of every run no timer exceeds 6.4 seconds |
| TcpTimeWait.TimeWaitLasts | tcp.c:829-854 | Over every run a timer pass ends TIME_WAIT exactly when more than thirty seconds have passed since the last arrival that entered it or repeated the FIN, and no thread waits |
| TcpTimeWait.ArrivalSetsTimer | tcp.c:322-328 | An arrival in TIME_WAIT sets the timer thirty seconds ahead when it enters the state or repeats the FIN, and otherwise leaves it |
| Clock.AddUsecIsAddition | util.h:19-27 | The normalising addition adds exactly `us` microseconds |
| Clock.FieldwiseIsInstant | tcp.c:306-314 | Comparing and subtracting timevals by fields agrees with instants |
| TcpSend.BurstCuts | tcp.c:1244-1268 | Between two sleeps: payloads concatenate to data[..sent], are consecutive from SND.NXT, at most MSS and within the window, queued one by one; at most one iteration per byte; the loop ends only when all is sent or the window is closed |
| TcpSend.SegmentsAreFull | tcp.c:1258-1258 | Between two sleeps every segment but the last carries a full MSS |
| TcpSendCall.CallSegmentation | tcp.c:1218-1284 | Over all sleeps of a call, with any events but another thread's send between them, the segments are consecutive and concatenate to data[..sent] |
| TcpSendCall.GapKeepsSndNxtIff | tcp.c:1246-1257 | Over a sleep SND.NXT stands still exactly when no other thread sends on the block |
| TcpMss.SegmentsFitMtu | tcp.c:1237-1243 | With the MSS taken from the MTU no datagram of the call exceeds the MTU or the output buffer |
| TcpMss.SegmentsLeaveIff | ip.c:425-440 | A segment of the call leaves along the route to the foreign address exactly if that route's interface has the local address and an MTU for it; always if its MTU is no smaller than that of the interface the MSS came from |
| TcpSendCall.OthersKeepSndNxt | tcp.c:385-769 | No event other than a send moves SND.NXT of a block that stays open for sending |
| TcpLimits.AcceptanceIsModularIff | tcp.c:529-548 | The acceptability test is RFC 793's modular one exactly when the window does not reach 2^32; one that does accepts nothing |
| TcpLimits.AcknowledgementIsModularIff | tcp.c:646-646 | The ACK test is the modular one exactly when SND.UNA <= SND.NXT |
| TcpRoom.HandshakeLeavesRoomIff | tcp.c:628-639 | An ACK that establishes leaves `cap` within the window exactly when it is not the ISS itself |
| TcpPcb.Pcb.ReleaseBlock | tcp.c:181-202 | Clears the block unless a thread waits on it |
| TcpPcb.Pcb.Output | tcp.c:369-382 | Queues SYN, FIN and text for retransmission and builds the segment of the specification |
| TcpPcb.Pcb.CleanupQueue | tcp.c:281-295 | The loop leaves exactly the specified rest of the queue |
| TcpPcb.Pcb.Emit | tcp.c:297-320 | Timeout, retransmission or neither, as specified for the entry |
| TcpPcb.Pcb.TimerPass | tcp.c:829-854 | The pass over the queue equals the specified pass, segments in order |
| TcpPcb.Pcb.OnListen | tcp.c:404-452 | LISTEN: RST ignored, ACK refused, SYN answered |
| TcpPcb.Pcb.OnSynSent | tcp.c:453-512 | SYN_SENT: every combination of ACK, RST and SYN, including simultaneous open |
| TcpPcb.Pcb.OnAck | tcp.c:623-695 | ACK processing in every synchronised state |
| TcpPcb.Pcb.OnText | tcp.c:702-720 | Text is copied behind what is pending, up to the end of the buffer, the 16-bit window shrinks or wraps and an ACK is sent |
| TcpPcb.Pcb.OnFin | tcp.c:725-767 | FIN processing and its state changes |
| TcpPcb.Pcb.SegmentArrives | tcp.c:385-769 | The whole of segment arrival for a block equals its specification |
| TcpPcb.Pcb.ConnectCommand | tcp.c:1061-1072 | Active open, or release when the SYN cannot be sent |
| TcpPcb.Pcb.SendNext | tcp.c:1245-1267 | One slice of at most the MSS, the rest and the window, so at least one byte |
| TcpPcb.Pcb.SendUntilBlocked | tcp.c:1244-1268 | The loop is a run of such slices that ends when it is stuck |
| TcpPcb.Pcb.ReceiveCommand | tcp.c:1298-1349 | Refuses, sleeps, ends, or returns the first bytes, moves the rest down in place and opens the window |
| TcpPcb.Pcb.CloseCommand | tcp.c:1364-1410 | FIN or release according to the state |
| Checksum.Cksum16 | util.c:217-234 | The loop on a 32-bit accumulator, which does not overflow, computes the complement of the sum's representative modulo 65535, and the folding ends |
| Checksum.AcceptedIff | util.c:217-234 | A buffer checks out exactly when its words sum to a positive multiple of 65535 |
| Checksum.StoredChecksumVerifies | ip.c:388-391 | Storing the checksum of a buffer with a zeroed aligned sum field makes the receiver's checksum zero |
| Checksum.SingleWordChangeDetected | ip.c:319-322 | No change of one aligned word goes unnoticed, except between the two zeros |
| Checksum.SeedIsConcatenation | tcp.c:352-359 | Seeding with the complement of the pseudo header's checksum is one checksum over both |
| Checksum.SwappedChecksumIff | util.c:169-173 | Reading words in the other byte order swaps the checksum exactly when there is no odd non-zero last byte |
| Checksum.ByteOrderIndependentIff | ip.c:391-391 | Hosts of both byte orders store the same checksum bytes exactly when the length is even or the last byte is zero |
| Headers.ConvertedStoreIsNetworkOrder | util.c:169-215 | A converted store puts network order into memory on both hosts, and conversion undoes itself |
| Headers.TcpRoundTrip | tcp.c:771-827 | What tcp_output_segment emits, tcp_input takes back unchanged, for all flags, ports, numbers and texts; between hosts of different byte order exactly when the text is even or ends in zero |
| Headers.UdpRoundTrip | udp.c:149-208 | What udp_output emits, udp_input takes back unchanged, under the same condition |
| Headers.IpRoundTrip | ip.c:289-349 | What ip_output_core emits passes every check of ip_input on a host of either byte order, whatever padding follows, exactly if it is addressed to that host or to a broadcast address |
| Headers.EtherRoundTrip | ether.c:106-130 | A transmitted frame has a legal length and polls back with its type and padded payload exactly on devices it is addressed to, singly or by broadcast |
| Headers.FrameRoundTrip | ip.c:289-349 | Through IP and Ethernet and back the payload is exact, on exactly the hosts the frame is for: the total length cuts the padding off |
| Headers.TcpSegmentSurvives | tcp.c:330-367 | A TCP segment within the MTU survives the whole stack, between hosts of different byte order under the same condition |
| Headers.UdpDatagramSurvives | udp.c:210-246 | A UDP datagram within the MTU, to one host or by broadcast, survives the whole stack on exactly the hosts it is for, under the same condition |
| Parsing.IpAcceptedIff | ip.c:299-346 | ip_input hands a datagram on exactly if the version and both lengths fit, the header's words sum to a positive multiple of 65535, MF and fragment offset are zero and the destination is ours or a broadcast; and which bytes it hands on |
| Parsing.TcpAcceptedIff | tcp.c:781-823 | tcp_input takes a segment exactly if it is long enough, checks with its pseudo header and no address is a broadcast; every field by its place |
| Parsing.UdpAcceptedIff | udp.c:160-178 | udp_input takes a datagram exactly if its length field is its length and it checks with its pseudo header; every field by its place |
| Parsing.EtherAcceptedIff | ether.c:113-125 | A frame is taken exactly if it has a header and is addressed to the device or to everybody |
| Parsing.AlteredIpIsDropped | ip.c:319-322 | A good datagram with one header word altered, other than between the two zeros, is dropped, the header length being as it was |
| Parsing.LongerHeaderGoesUnnoticed | ip.c:309-322 | A datagram whose header length was altered and that is accepted |
| Parsing.AlteredTcpIsDropped | tcp.c:790-793 | A good segment with one word altered, other than between the two zeros, is dropped |
| Parsing.AlteredUdpIsDropped | udp.c:175-178 | The same for UDP |
| Parsing.TcpBytes | tcp.c:341-359 | The bytes of an emitted segment by position, and that it checks with its pseudo header |
| Parsing.PseudoBytes | tcp.c:352-357 | The twelve bytes of the pseudo header by position |
| Parsing.FlagBits | tcp.c:347-347 | Which bit of the flag byte is which flag |
| Parsing.UdpBytes | udp.c:224-237 | The bytes of an emitted UDP datagram by position |
| Parsing.IpBytes | ip.c:378-392 | The bytes of an emitted IP header by position, TTL and identification included |
| Parsing.EtherBytes | ether.c:92-100 | The bytes of an emitted frame by position, both addresses and the zero padding included |
| Frames.FillTcp | tcp.c:330-359 | Filling the buffer field by field leaves the encoded segment in it |
| Frames.FillUdp | udp.c:210-237 | The same for UDP; refuses exactly what cannot fit |
| Frames.FillIp | ip.c:370-392 | The same for IP |
| Frames.FillEther | ether.c:85-103 | The same for Ethernet, short payloads padded with zeros |
| Queue.QueueHead.Push | util.c:86-109 | Head, tail, count and links stay one chain, with the element at its end |
| Queue.QueueHead.Pop | util.c:111-129 | Takes the first element, or none from an empty queue |
| Queue.QueueHead.Peek | util.c:131-138 | Shows the first element and changes nothing |
| Queue.QueueHead.Foreach | util.c:140-151 | Visits every element once, front to back |
| Queue.FirstInFirstOut | util.c:86-129 | Under every interleaving, what came out followed by what waits is what went in |
| Routing.RouteTable.Lookup | ip.c:181-194 | Finds the first matching route of greatest mask, or none when none matches |
| Routing.RouteTable.PlanOutput | ip.c:412-447 | Refuses exactly a broadcast without source, an unroutable destination, a foreign source address or an oversized datagram; otherwise the winning route's interface and next hop |
| Routing.PlanIsViaIff | ip.c:421-440 | With a winning route a datagram leaves along it exactly if the source is unset or the interface's, the size fits its MTU, and it is no broadcast without source; the next hop is the route's gateway if it has one, otherwise the destination |
| Routing.MaskOrderIsPrefixOrder | ip.c:188-188 | Comparing contiguous masks as host-order integers is comparing prefix lengths |
| Routing.MatchesIsInPrefix | ip.c:187-187 | The masked test holds exactly for the addresses of the prefix |
| Routing.MatchIgnoresByteOrder | ip.c:187-187 | The test gives the same answer on byte-swapped addresses, masks and networks |
| Routing.LongestPrefixMatch | ip.c:181-194 | After any additions the winner has the greatest prefix length, the most recent among equals |
| Routing.LookupFailsIff | ip.c:181-194 | A lookup fails exactly when no added prefix contains the address |
| Arp.ArpCache.Alloc | arp.c:100-114 | A free slot, or when all are in use one with a least timestamp |
| Arp.ArpCache.Select | arp.c:116-127 | Finds a slot exactly when the address has a binding |
| Arp.ArpCache.Occupy | arp.c:148-166 | Inserts a binding, giving up one only when the table is full and then a least recent one |
| Arp.ArpCache.Update | arp.c:129-146 | Replaces the binding of a known address and nothing else |
| Arp.ArpCache.Input | arp.c:219-261 | A message merges its sender when known or when it is for us |
| Arp.ArpCache.Resolve | arp.c:263-305 | FOUND exactly for a complete binding, with its hardware address; an unknown address gets an incomplete one |
| Arp.ArpCache.Delete | arp.c:168-179 | Removes exactly one binding |
| Arp.ArpCache.TimerPass | arp.c:307-324 | Removes exactly the non-static bindings past the timeout in whole seconds |
| Arp.UsedSlotsAreEntries | arp.c:100-127 | Slots in use and bindings are equally many |
| Arp.FoundIsLastMerged | arp.c:242-256 | Over every history a complete binding is the hardware address most recently merged, and there are at most 32 |
| Arp.MessageResolvesSenderIff | arp.c:242-256 | After a message for us, or from a known sender, the sender resolves to the address it gave; any other message changes nothing, and no other binding changes |
| Arp.EvictionIsOldest | arp.c:100-114 | A full cache gives up exactly one binding for a new one, and none was older |
| Arp.ExpiredByInstant | arp.c:316-319 | The timer's test means: not static, and thirty-one seconds or more old |
| Sched.SchedCtx.Enter | platform/linux/sched.c:22-31 | Joins the wait unless interrupted |
| Sched.SchedCtx.Leave | platform/linux/sched.c:37-46 | Leaves the wait; the last to leave clears the interrupt |
| Sched.CountIsWaiters | platform/linux/sched.c:22-59 | In every interleaving `wc` is the number of waiting threads, and while interrupted exactly they are the ones caught |
| Sched.InterruptReachesEveryWaiter | platform/linux/sched.c:38-44 | Every thread waiting at an interrupt returns -1 |
| Sched.OnlyCaughtAreInterrupted | platform/linux/sched.c:38-45 | A waiter is interrupted exactly when it was waiting at an interrupt, and otherwise returns what its wait returned |
| Sched.OnlyLastWaiterClears | platform/linux/sched.c:38-41 | While the flag is set nobody joins, and exactly the last waiter to leave clears it |
| Sched.UnheardInterruptSticks | platform/linux/sched.c:27-30 | An interrupt without waiters makes every later sleep fail, for ever |
| TcpTable.PcbTable.Select | tcp.c:204-226 | The first exact match, else the last wildcard listener, else none |
| TcpTable.SegmentFindsPcbIff | tcp.c:204-226 | A segment finds a PCB exactly if its 4-tuple is taken or a listener is at its port, for its address or for all |
| TcpTable.ListenerIsFound | tcp.c:204-226 | A listener takes the SYN of a stranger exactly if none in a later slot also listens for it |
| TcpTable.ForkedChildJoinsBacklog | tcp.c:421-635 | The child of a SYN waits, once its handshake ends, last in the backlog of the listener that took the SYN |
| TcpTable.PcbTable.Alloc | tcp.c:166-179 | The first free slot, or none when all are in use |
| TcpTable.PcbTable.BindCall | tcp.c:1119-1125 | Binds exactly when no slot is at the local endpoint |
| TcpTable.PcbTable.FindPort | tcp.c:1042-1050 | Finds the least unused port, among the first sixteen candidates |
| TcpTable.PcbTable.ConnectCall | tcp.c:1030-1072 | Chooses the local endpoint and records both |
| TcpTable.PcbTable.PassiveOpen | tcp.c:421-443 | A SYN makes a child exactly when select finds a listener and a slot is free |
| TcpTable.PcbTable.Promote | tcp.c:628-635 | The end of the handshake puts the child at the end of its listener's backlog |
| TcpTable.PcbTable.AcceptCall | tcp.c:1177-1196 | Takes the first child of the backlog, or waits |
| TcpTable.PcbTable.ReleaseCall | tcp.c:181-202 | The recursive release, refused for every PCB that is waited on, computes the specified table and ends |
| TcpTable.PortAvailable | tcp.c:1042-1050 | By counting, one of the first sixteen candidates is unused |
| TcpTable.ReleaseOnlyFrees | tcp.c:181-202 | Release only empties slots; with a slot goes its whole backlog, except PCBs that are waited on, which it leaves as they are |
| TcpSockets.StepKeepsInv | tcp.c:204-226 | Open, bind, listen, dynamic-port connect, passive open, accept and release keep 4-tuples distinct |
| TcpSockets.ConnectionsStayUnique | tcp.c:424-443 | In every state of every run connection 4-tuples are distinct |
| TcpSockets.SegmentsReachTheirConnection | tcp.c:391-391 | Select gives a connection's 4-tuple to that connection and to no other slot |
| TcpSockets.AcceptedOnceInOrder | tcp.c:1177-1196 | In every slot and every state of a run so far, what accept returned followed by the backlog is the list of children in establishment order, no child twice, and all that wait are connections, if and only if so far no release freed a PCB that waits in the backlog of one that stays |
| TcpSockets.ReleasedChildIsAccepted | tcp.c:194-196 | A run in which a child is released before it is accepted, its slot is opened again, and accept would return a PCB that is no connection |
| TcpSockets.BoundConnectKeepsUniqueIff | tcp.c:1057-1060 | Connect keeps 4-tuples distinct exactly when no other slot has the new one |
| TcpSockets.BoundConnectCollides | tcp.c:1042-1060 | A run in which connect from a bound port ends with two PCBs on one 4-tuple |
| Udp.UdpTable.Select | udp.c:112-125 | The first open socket at the endpoint, or none |
| Udp.UdpTable.OpenSocket | udp.c:79-92 | The first free slot, or none when all are in use |
| Udp.UdpTable.CloseSocket | udp.c:94-110 | Empties the slot and its queue, or marks it closing while a thread waits |
| Udp.UdpTable.BindSocket | udp.c:312-337 | Binds exactly when no open socket is at the endpoint |
| Udp.UdpTable.ChooseLocal | udp.c:355-381 | The source endpoint of a datagram; a port is assigned when missing, among the first sixteen candidates |
| Udp.UdpTable.Deliver | udp.c:184-207 | The datagram goes to the end of the selected socket's queue, or nowhere |
| Udp.UdpTable.TakeDatagram | udp.c:400-421 | One datagram per call, cut to the buffer |
| Udp.PortAvailable | udp.c:367-374 | By counting, one of the first sixteen candidates is unused |
| Udp.EndpointsStayUnique | udp.c:326-333 | In every state of every run bound sockets have distinct endpoints |
| Udp.DatagramsInOrder | udp.c:400-421 | Over every run of all the sockets, the k-th call that returned on a socket gave the sender and the front of the data, as much as fits, of the k-th datagram that arrived for it; the rest wait in order |
| Udp.DatagramReachesIff | udp.c:112-125 | A datagram reaches a given socket at its endpoint exactly when the one other socket that may be there is not in an earlier slot |
| Udp.DatagramIsTakenIff | udp.c:112-125 | A datagram is taken exactly if some open socket is at its port, for its address or for all; then by the first such |
| Udp.AssignedPortIsLeast | udp.c:367-376 | The port assigned is free at the address, and every port below it from 49152 on is in use there |
| Udp.BoundSocketIsReached | udp.c:79-125 | A socket that is opened and bound where no other is, is the one that datagrams for that endpoint reach |
| Udp.ClosedTakesNothing | udp.c:94-110 | A closed socket takes no datagram any more, and closing touches no other |
| Udp.CutIsFront | udp.c:415-419 | A receipt keeps the sender and is the front of the data, as much as fits |

## Left out

- Logging, dumps and the diagnostic checksum calls: output only.
- Device drivers, interrupts, `net.c` dispatch and `sock.c`: system calls and thin dispatch.
- `icmp.c` beyond its use of the checksum: a single-branch echo reply.
- Address printing and parsing (`ip_addr_pton`, `ether_addr_pton` and their inverses): they rest on `strtol`.
- PCBs opened by `tcp_open_rfc793` in the table of sockets: that call checks no endpoints, so nothing keeps their tuples distinct. The in-place passive open of such a PCB is in `TcpSpec`.
- Urgent data, TCP options, IP fragments, security and precedence: the program ignores or rejects them.
- Wrap-around of sequence numbers, FIN with text from the peer, and reuse of a block that is not fresh: excluded by the hypotheses above.
- A segment whose local port and foreign endpoint are all zero would match a free slot of the table; free slots answer like closed ones here.
- Progress, such as a blocked sender resuming: it depends on thread scheduling.
- What a copy past the end of the receive buffer overwrites: the fields behind the buffer, for which C gives no meaning.
- A data offset beyond the segment and an IP total length below the header length: the program does not check them, so decoding has a precondition there.
- Received buffers are byte sequences, since the input path only reads them.
- ARP messages on the wire (requests, replies and the format checks of `arp_input`): fixed layouts; the cache they feed is modelled.
- `arp_input` is one atomic step although the program takes its lock twice.
- Backlogs and retransmit queues are sequences inside the blocks; that the linked queue behaves as one is what the `Queue` module proves.
- Routing is stated on host-order values of the stored words; `MatchIgnoresByteOrder` justifies the reading.
- TcpPcb.Pcb.OnText: the part of a text that a copy writes past the end of the buffer is dropped, because C gives it no meaning; the window it leaves is modelled.
