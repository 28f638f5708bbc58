# Verified model of the board-to-board message bus

The repository connects programs on several boards: a daemon per board delivers messages to local clients,
forwards them over TCP, UDP or UART, and moves files. This project models its hard parts in Dafny and proves
what they promise. `dafny verify dfyconfig.toml` checks all of it.

**KCP** (`Kcp*.dfy`), the sliding-window protocol under the UDP transport. `KcpEndpoint` says what every
function of `ikcp.c` does, as functions on an endpoint's state, with 32-bit arithmetic written out.
`KcpCore` is the same endpoint as the source runs it: a class with the fields and queues of `ikcpcb`,
changed in loops, each method proved to reach the specified state. `KcpInvariant`, `KcpMessages`,
`KcpScheduler` and `KcpTimers` prove what one endpoint keeps; `KcpWindow`, `KcpCalls`, `KcpFast`, `KcpLoss`
and `KcpCongestion` what exactly one call does: how much a flush lets out, what a caller is told, what is
resent early, and how the congestion window moves; `KcpDirection`, `KcpSystem`, `KcpRuns`, `KcpAhead`,
`KcpAcks`, `KcpProgress`, `KcpReopen`, `KcpEcho` and `KcpTimerRuns` put two endpoints on a network that
drops, duplicates and reorders, and prove safety over every run and progress from every reachable state;
`KcpOvertake` and `KcpShut` are particular runs, with the settings this repository opens its connections
with. Settings are those fixed at opening: no custom congestion control, no stream mode, mtu and windows set
once; time is an argument. Every step may also deliver an old datagram again, as long as its numbers are
less than half the number space behind (`KcpSystem.Fresh`), which is what comparing 32-bit sequence numbers
needs (section 3.2 of RFC 1982).

**File transfer** (`FileProtocol`, `FileCore`, `FileRuns`, `FileRecovery`, `FileChecks`): packets, the
256-slot retransmission cache, sender and receiver loops, and the two of them over a lossy network; what is
asked for and sent again; and what the receiver accepts from anybody. The pieces in which successive reads
return the file are arbitrary.

**Shared-memory ring** (`ShmRing`, `ShmRuns`): the three calls as methods on a byte array, and one writer
and one reader interleaving single byte and counter accesses, sequentially consistent.

**Framing** (`Crc`, `CrcDivision`, `Protocol`, `StreamSplit`): the reflected CRC-32 of section 8 of RFC 1952
on 32-bit vectors, what it finds and the polynomial division it is, the 36-byte header codec, and the
splitter that cuts a byte stream into frames.

**Fragmentation** (`Fragment`, `Reassembly`, `FragmentRuns`, `FragmentChecks`): cutting and reassembly for
any chunk size that leaves room for the fragment header (the source uses 1392).

**Bus** (`MessageBus`, `ClientQueue`, `Ipc`, `ClientRx`, `Delivery*.dfy`, `Forwarding`, `ForwardingRuns`,
`ForwardingReach`): the subscription table, local delivery and publishing, compacting output buffers with
partial sends, the frames clients read, the input buffer the daemon takes frames from, runs of many clients
under backpressure with every publish attempt logged, and hop-by-hop forwarding in a network whose nodes
have depths such that no node has two links up, which is what having no cycles means. Topic matching and
routes are arbitrary functions.

## What the proofs found

- KCP: snd_una can be ahead of the peer's rcv_nxt; `KcpOvertake.Overtakes` is a run that gets there. When
  the peer's receive queue is full the head of its reorder buffer is acknowledged by number, so the sender
  drops it before rcv_nxt counts it. `KcpAhead.AheadExactly` says when, for every run;
  `KcpAhead.RoomReaches` that it takes a full queue; `KcpDirection.UnaBound` how far;
  `KcpAcks.PassesExactly` which datagram does it: usually the acknowledgement of the awaited number, but not
  always (`KcpAcks.PassesByAnother`). Conservation therefore speaks of numbers the receiver holds.
- KCP: the round trip estimate overflows for samples above half the number space less seven times the old
  estimate; the timeout stays in its bounds all the same (`KcpTimers.SmoothedRtt`, `KcpTimers.RtoInRange`).
  `KcpTimerRuns.SecondSampleOverflows` gives two acknowledgements that lead there.
- KCP: a timeout always doubles the wait in no-delay mode 0 and never in mode 1
  (`KcpTimerRuns.WhenDoubled`); in mode 1, which this repository uses, the wait grows by half
  (`KcpTimerRuns.BackoffHalves`).
- KCP: asking for the window need not open it although the peer has room: segments that are due go out with
  the question and may take the last places (`KcpReopen.StaysClosed`, reached by `KcpShut.RoomIsNotEnough`).
  `KcpReopen.WindowReopens` says what the answer is, and that it is the room of the peer whenever nothing
  waits for an acknowledgement.
- File transfer: DATA carries no transfer id, yet the receiver removes one that happens to be in front.
  `FileRuns.CanSucceed`: success is possible iff no chunk longer than four bytes starts with the id;
  otherwise the receiver never succeeds, but never writes a wrong file it calls complete either.
  `FileRuns.SomeNeverSucceed` is such a transfer.
- Bus: publishing returns BC_ERR_NOT_FOUND for a message that needs a route when there is none and the
  daemon requires one; the frame loop reads that code as "more bytes needed". The frame stays at the head of
  its buffer, blocks everything behind it, and is delivered to local subscribers again at every attempt:
  `DeliveryJams.LeavesUnlessJammed`, `DeliveryJams.JamsForever`, reached by `DeliveryJams.JamReached`.
  `DeliveryJams.HeadFateIs` covers every other outcome, the ones that close the publisher included.
- Bus: the frame check demands a topic of every frame, but the client library sends the requests for shared
  memory and for statistics, and its ring announcements, as bare headers; the daemon closes a client for any
  of them (`ClientRx.HeaderOnlyRefused`; the senders are in api/bc_client.c:97-106, 629-661 and 698-713).
- Bus: a publish that some subscriber refused is sent over the network all the same, and again when it is
  retried. That a frame goes out at most once if and only if no attempt was refused while a transport
  accepted it holds for frames that left over the network; before that one such attempt is one send
  (`DeliveryRepeats.PublishedTwice`). `DeliveryRepeats.NetworkSends` gives the count and the exact
  condition.
- Bus: a frame whose client left its number open gets a new number at every attempt, so its repeated copies,
  local and remote, differ in that field (`DeliveryRepeats.WhichCopiesEqual`,
  `DeliveryRepeats.PublishedTwice`).
- Bus: an error of the epoll update is reported after the copy was enqueued, so the publisher repeats a
  frame that subscriber already has (`ClientQueue.TxQueue.Enqueue`).
- Reassembly: a fragment refused for its size has already taken a slot, which then stays taken
  (`Fragment.RefusedKeepsSlot`, `Fragment.ExampleRefused`). Sixteen of them fill the table for good
  (`FragmentRuns.FullForGood`).
- Framing: the total-length check of the encoder and the buffer-full reset of the splitter can never happen
  on frames that were encoded (`Protocol.EncodeSize`, `StreamSplit.Splits`).

## Model

| member | source | states |
|---|---|---|
| KcpRuns.Delivery | src/transport/udp/kcp/ikcp.c:364-441 | end to end: in every reachable state of two endpoints over a network that drops, duplicates and reorders, the messages received at each side are a prefix of those accepted at the other, with the same boundaries and bytes |
| KcpRuns.Conservation | src/transport/udp/kcp/ikcp.c:576-638 | every fragment of every accepted message is with the receiver, in the window, or in the send queue; a number that no longer waits is held by the peer; what the queues and buffers hold is the right part of the stream |
| KcpRuns.AcksBacked | src/transport/udp/kcp/ikcp.c:668-702 | every una and every acknowledgement in flight or still owed names data the receiver holds |
| KcpRuns.Numbering | src/transport/udp/kcp/ikcp.c:136-139 | in every reachable state the three wrapped counters are the words of unbounded numbers, the endpoint invariant holds and the window is at most snd_wnd wide |
| KcpRuns.NeverJams | src/transport/udp/kcp/ikcp.c:447-469 | at either side: peeksize is non-negative exactly when the next message is fully queued, is then its length, and a receive queue as long as the window always starts with a complete message |
| KcpAhead.AheadExactly | src/transport/udp/kcp/ikcp.c:587-617 | for every run and either side: snd_una is ahead of the peer rcv_nxt if and only if the fragment the peer waits for lies in its reorder buffer and nothing at or below its number is left in snd_buf |
| KcpAhead.RoomReaches | src/transport/udp/kcp/ikcp.c:750-763 | for every run and either side: while the receive queue of the peer has room, snd_una is not ahead of its rcv_nxt |
| KcpOvertake.Overtakes | src/transport/udp/udp_kcp_transport.c:218-219 | a run, step by step, with the settings of this repository, at whose end snd_una is 257 and the peer rcv_nxt 256 |
| KcpAcks.DeliveryDrops | src/transport/udp/kcp/ikcp.c:587-638 | a delivered datagram takes a number out of the window if and only if one of its segments acknowledges it, by una or by number |
| KcpAcks.PassesExactly | src/transport/udp/kcp/ikcp.c:587-638 | in every run, for either side: a call moves snd_una past the peer rcv_nxt, where it was not ahead before, iff it delivers a datagram that acknowledges everything waiting at or below rcv_nxt while the peer holds that fragment in its reorder buffer; if that number still waited, the datagram acknowledges it by number |
| KcpAcks.PassesByAnother | src/transport/udp/kcp/ikcp.c:576-617 | the acknowledgement of a lower number can be the one that lets snd_una pass |
| KcpDirection.UnaBound | src/transport/udp/kcp/ikcp.c:576-585 | snd_una is never further ahead of the peer rcv_nxt than the receive window is wide |
| KcpWindow.FlushMoves | src/transport/udp/kcp/ikcp.c:1072-1098 | a flush takes from the front of the queue exactly as many fragments as there are and as the least of snd_wnd, the window of the peer and, unless switched off, cwnd leaves room for beside what is unacknowledged; it gives them the next numbers, keeps their bytes and has sent each once |
| KcpWindow.WindowKept | src/transport/udp/kcp/ikcp.c:1072-1098 | in every run, for either side and any call: the numbers newly given out end below snd_una plus the window the peer last announced, and inside the other two windows |
| KcpEcho.EveryPushAcked | src/transport/udp/kcp/ikcp.c:862-866 | in every run, at either side: each data segment of an arriving datagram that is not beyond the receive window, new or old, is acknowledged by the next flush with its number and its time stamp |
| KcpEcho.EchoedTimes | src/transport/udp/kcp/ikcp.c:821-849 | in every run, for either side: every acknowledgement owed to it or on its way back carries the number and the time stamp of a data segment it really sent |
| KcpEcho.StampIsClock | src/transport/udp/kcp/ikcp.c:1151-1160 | which is its clock at the flush that sent it |
| KcpRuns.CallKeeps | src/transport/udp/kcp/ikcp.c:475-550 | each of send, recv, update, flush and input keeps both directions of the connection in order |
| KcpRuns.StepKeeps | src/transport/udp/kcp/ikcp.c:780-943 | each step of the two-endpoint system, delivery and loss included, keeps the invariant |
| KcpRuns.RunOk | src/transport/udp/kcp/ikcp.c:974-1230 | every state any run reaches satisfies the invariant of both directions, from which the results above follow |
| KcpProgress.Progress | src/transport/udp/kcp/ikcp.c:1117-1139 | from any reachable state, for either side, with the head due and room in the peer queue: a flush, delivered, and the flush of the peer, delivered back, strictly advance snd_una |
| KcpProgress.UpdateProgress | src/transport/udp/kcp/ikcp.c:1238-1263 | the same for ikcp_update on both sides, once the resendts of the head and both flush timers have come |
| KcpProgress.RoundTripAdvances | src/transport/udp/kcp/ikcp.c:862-880 | the same for any two endpoints whose counters stand as the protocol keeps them |
| KcpReopen.WindowReopens | src/transport/udp/kcp/ikcp.c:1026-1068 | from any reachable state, for either side, with the window closed and a probe due: one exchange tells the sender exactly the room left at the peer; that is at least what is free after all the peer stores and the sender may resend; when nothing waits at the sender it is what the peer has free, and with any room the next flush carries the first queued fragment |
| KcpReopen.LearnsWindow | src/transport/udp/kcp/ikcp.c:884-890 | the same for any two endpoints: after the question and the answer rmt_wnd is the room of the peer |
| KcpReopen.StaysClosed | src/transport/udp/kcp/ikcp.c:1026-1068 | when the head is due with the question, is the number the peer waits for and takes the last place, rmt_wnd stays 0 |
| KcpShut.RoomIsNotEnough | src/transport/udp/kcp/ikcp.c:1026-1068 | a run, step by step, to a state with the window closed, a probe due, a fragment queued and room at the peer, after whose exchange rmt_wnd is 0 |
| KcpProgress.HeadCarried | src/transport/udp/kcp/ikcp.c:1117-1188 | a flush with the head due sends a datagram that decodes to a segment with the head's number |
| KcpProgress.AckCarried | src/transport/udp/kcp/ikcp.c:1012-1024 | a flush with an acknowledgement owed sends a datagram whose segments carry rcv_nxt as una |
| KcpCalls.SendExactly | src/transport/udp/kcp/ikcp.c:475-550 | ikcp_send takes exactly the messages of up to 127 full segments, queues them in as few fragments as possible, and refuses all others without a trace |
| KcpCalls.RecvExactly | src/transport/udp/kcp/ikcp.c:373-384 | which code ikcp_recv returns when, that an error changes nothing, and that the size returned is that of the bytes |
| KcpCalls.RecvTells | src/transport/udp/kcp/ikcp.c:386-438 | a receive announces the window exactly when the queue was full and now has room |
| KcpCalls.ReadingReopens | src/transport/udp/kcp/ikcp.c:433-438 | so after reading from a full queue the next flush, delivered, leaves rmt_wnd of the peer at exactly the room there is |
| KcpCalls.MalformedTail | src/transport/udp/kcp/ikcp.c:794-820 | the segments in front of a malformed one have their full effect, nothing else has any, and the code is that of the malformed one |
| KcpFast.SentEarly | src/transport/udp/kcp/ikcp.c:1140-1149 | a segment overtaken by as many acknowledging datagrams as fastresend says is sent again by the next flush, same bytes, although its time has not come |
| KcpFast.SkipsExactly | src/transport/udp/kcp/ikcp.c:640-661 | one acknowledgement counts each waiting segment with an earlier number and no later stamp once, and no other |
| KcpFast.InputCounts | src/transport/udp/kcp/ikcp.c:821-910 | a good datagram counts, by its newest acknowledgement if that is for a number in flight, every segment it leaves waiting |
| KcpFast.NewestIs | src/transport/udp/kcp/ikcp.c:830-848 | which acknowledgement of a datagram is the newest: the last that is later in number and stamp than the newest before it |
| KcpFast.InputGrows | src/transport/udp/kcp/ikcp.c:908-940 | a good datagram lets the congestion window grow, by one step, exactly when it moves snd_una on |
| KcpSystem.SendKeeps | src/transport/udp/kcp/ikcp.c:475-550 | sending extends the stream and disturbs neither direction |
| KcpSystem.RecvKeeps | src/transport/udp/kcp/ikcp.c:364-441 | receiving delivers the next message sent and keeps both directions |
| KcpSystem.InputKeeps | src/transport/udp/kcp/ikcp.c:780-943 | any fresh datagram in flight, old, repeated or reordered, keeps both directions |
| KcpSystem.FlushKeeps | src/transport/udp/kcp/ikcp.c:974-1230 | a flush numbers fragments in stream order and puts only true data and acknowledgements in flight |
| KcpSystem.FlushPacketsAre | src/transport/udp/kcp/ikcp.c:1151-1195 | the datagrams the two-endpoint system puts in flight are, byte for byte, the datagrams of the flush |
| KcpDirection.UnaDrops | src/transport/udp/kcp/ikcp.c:619-638 | dropping the segments before a true una drops only numbers the receiver holds |
| KcpDirection.AckDrops | src/transport/udp/kcp/ikcp.c:587-617 | dropping one acknowledged segment drops a number the receiver holds |
| KcpDirection.ReceiveRole | src/transport/udp/kcp/ikcp.c:714-774 | taking in a segment of the stream keeps the receiver a faithful part of it and every acknowledgement backed |
| KcpDirection.NumberedRole | src/transport/udp/kcp/ikcp.c:1077-1098 | the next fragment gets the next number of the stream |
| KcpMessages.PeekSizeExact | src/transport/udp/kcp/ikcp.c:447-469 | what peeksize says about a queue that continues the stream: complete or not, which message, how long |
| KcpMessages.PeekMatchesRecv | src/transport/udp/kcp/ikcp.c:417 | the assertion of ikcp_recv: for any queue at all, the announced size is the size merged |
| KcpMessages.FullQueueReadable | src/transport/udp/kcp/ikcp.c:518-522 | because a message has fewer than 128 fragments, 128 queued fragments start with a whole message |
| KcpMessages.TakeMessage | src/transport/udp/kcp/ikcp.c:389-415 | merging up to fragment number 0 delivers exactly the next message |
| KcpInvariant.SendOk | src/transport/udp/kcp/ikcp.c:475-550 | ikcp_send keeps the endpoint invariant: strictly ascending windows, bounds on counters, sizes and congestion state |
| KcpInvariant.RecvOk | src/transport/udp/kcp/ikcp.c:364-441 | ikcp_recv keeps the endpoint invariant; rcv_nxt never goes back; the reorder buffer's head is rcv_nxt only when the queue is full |
| KcpInvariant.InputOk | src/transport/udp/kcp/ikcp.c:780-943 | ikcp_input keeps it for arbitrary bytes; snd_una and rcv_nxt never go back |
| KcpInvariant.FlushedOk | src/transport/udp/kcp/ikcp.c:974-1230 | ikcp_flush keeps it: snd_nxt - snd_una stays within snd_wnd |
| KcpInvariant.UpdatedOk | src/transport/udp/kcp/ikcp.c:1238-1263 | ikcp_update keeps it |
| KcpInvariant.FragmentsOk | src/transport/udp/kcp/ikcp.c:515-547 | fragments count down to 0, each fits the mss, and joined they are the message |
| KcpInvariant.DropOneIs | src/transport/udp/kcp/ikcp.c:598-616 | the search of parse_ack removes exactly the segment found before a later one is met |
| KcpInvariant.InsertOk | src/transport/udp/kcp/ikcp.c:727-748 | the backward search inserts at the one place that keeps the reorder buffer strictly ascending, and never twice |
| KcpInvariant.MoveReadyOk | src/transport/udp/kcp/ikcp.c:750-763 | moving ready segments keeps the order and stops only at a gap or a full queue |
| KcpInvariant.FlushOutputDecodes | src/transport/udp/kcp/ikcp.c:1151-1195 | every datagram of a flush is at least a header and at most mtu bytes, decodes without error, and all together decode to exactly the segments flushed |
| KcpCongestion.GrowCwndOk | src/transport/udp/kcp/ikcp.c:911-940 | (cwnd-1)*mss < incr < (cwnd+1)*mss and ssthresh >= 2 survive growth, which never lowers cwnd nor passes the peer window |
| KcpCongestion.ShrinkCwndOk | src/transport/udp/kcp/ikcp.c:1197-1229 | they survive fast retransmission and timeouts, and cwnd ends at least 1 |
| KcpCongestion.RepairNeverNeeded | src/transport/udp/kcp/ikcp.c:920-922 | in congestion avoidance incr exceeds mss, so the repair never happens and the division is defined |
| KcpCongestion.GrowExactly | src/transport/udp/kcp/ikcp.c:911-940 | one step of growth in whole numbers, with no overflow: by one segment below ssthresh, by the additive increase of incr from there on, cut to the window of the peer |
| KcpCongestion.AvoidanceGrows | src/transport/udp/kcp/ikcp.c:919-932 | in congestion avoidance 64 acknowledgements of new data make the window grow |
| KcpLoss.LossExactly | src/transport/udp/kcp/ikcp.c:1197-1229 | what a flush makes of cwnd, ssthresh and incr, told by the segments that were late or overtaken before it |
| KcpLoss.TimeoutsCounted | src/transport/udp/kcp/ikcp.c:1126-1129 | the counter of timeouts goes up by the number of late segments |
| KcpLoss.DeadExactly | src/transport/udp/kcp/ikcp.c:1185-1187 | a flush marks the link dead exactly when it sends some segment for the deadLink-th time or later |
| KcpScheduler.NextFlushAhead | src/transport/udp/kcp/ikcp.c:1238-1263 | after ikcp_update the next flush is ahead, by at most 10000, in wrapped arithmetic |
| KcpScheduler.CheckNow | src/transport/udp/kcp/ikcp.c:1276-1311 | ikcp_check returns the current time exactly when a flush or a retransmission is due |
| KcpScheduler.CheckMissesNothing | src/transport/udp/kcp/ikcp.c:1276-1311 | an update at any time before the answer flushes nothing, changes only the clock, and passes no resendts |
| KcpScheduler.CheckSoon | src/transport/udp/kcp/ikcp.c:1306-1311 | the answer is at most one interval away |
| KcpScheduler.CheckTight | src/transport/udp/kcp/ikcp.c:1276-1311 | and not too early: at the answer a flush or some resend is due, or an interval has passed |
| KcpScheduler.TickExactly | src/transport/udp/kcp/ikcp.c:1238-1263 | when an update flushes, and when the next flush is due: an interval after this one was, or an interval from now |
| KcpTimers.RtoInRange | src/transport/udp/kcp/ikcp.c:569-570 | the timeout stays between rx_minrto and 60000 for any samples, overflow included |
| KcpTimers.SmoothedRtt | src/transport/udp/kcp/ikcp.c:559-568 | for the samples ikcp_input passes: the smoothed round trip time is the 7:1 mean, at least 1, if and only if that sum fits a signed word; otherwise it still is at least 1 |
| KcpTimers.SmoothedBetween | src/transport/udp/kcp/ikcp.c:559-568 | while the sum fits, the smoothed time moves towards the sample and never past it |
| KcpTimers.VariationIs | src/transport/udp/kcp/ikcp.c:559-566 | while nothing overflows: half the first sample, then three parts of the old variation and one of the distance of the sample from the smoothed time |
| KcpTimers.TimeoutIs | src/transport/udp/kcp/ikcp.c:569-570 | while nothing overflows: the timeout is the smoothed time plus the larger of the interval and four variations, cut to its bounds |
| KcpTimers.TimeoutCoversRoundTrip | src/transport/udp/kcp/ikcp.c:569-570 | so it is at least a smoothed round trip and an interval, or 60000 |
| KcpTimers.ResendAhead | src/transport/udp/kcp/ikcp.c:1114-1146 | how far ahead a flush puts the next resend of a segment it sends: rx_rto, with an eighth more in mode 0, the first time, its own timeout later |
| KcpTimers.DueAfterFlush | src/transport/udp/kcp/ikcp.c:1117-1150 | right after a flush a segment is due again if and only if it was sent again and its timeout has run over half the number space |
| KcpTimerRuns.NothingDueAfterFlush | src/transport/udp/kcp/ikcp.c:1117-1150 | in every reachable state: after a flush no segment sent at most 16 times is due, the timeout lies between rx_minrto and 60000, and the round trip estimate is not negative |
| KcpTimerRuns.BackoffDoubles | src/transport/udp/kcp/ikcp.c:1126-1131 | through any number of flushes in no-delay mode 0, early resends or not: n timeouts at least double a wait n times and at most double the larger of it and 60000 n times, below half the number space; transmissions count from n to one per flush |
| KcpTimerRuns.BackoffHalves | src/transport/udp/kcp/ikcp.c:1126-1135 | in mode 1, that of this repository: n timeouts grow a wait by half of itself exactly n times, whatever is sampled in between, as long as the wait before the last is below half the number space |
| KcpTimerRuns.BackoffAdds | src/transport/udp/kcp/ikcp.c:1132-1135 | in mode 2 or more a wait grows by exactly half the timeout of the endpoint at each of its timeouts |
| KcpTimerRuns.WhenDoubled | src/transport/udp/kcp/ikcp.c:1126-1136 | a timeout at least doubles a wait iff the mode is 0, or 2 or more and the wait is at most half the timeout of the endpoint |
| KcpTimerRuns.SecondSampleOverflows | src/transport/udp/kcp/ikcp.c:559-568 | after two acknowledgements that each give the sample 0x18000000 the estimate is 1, where the mean is 0x18000000 |
| KcpTimerRuns.RunTimers | src/transport/udp/kcp/ikcp.c:1117-1150 | every call of every run keeps the bounds on timeouts, probe distances and the waits of segments |
| KcpTimers.ProbeTimer | src/transport/udp/kcp/ikcp.c:1026-1045 | probe distances stay between 5000 and 120000, grow by half, and a probe is asked for exactly when one was due |
| KcpTimers.ResendExactly | src/transport/udp/kcp/ikcp.c:1117-1150 | a flush resends a segment iff it is new, late, or overtaken often enough; only then it counts a transmission; its number and bytes never change |
| KcpWire.DecodeEncode | src/transport/udp/kcp/ikcp.c:794-904 | the decoding loop inverts encoding: the same segments, no error, nothing left |
| KcpWire.ParseExactly | src/transport/udp/kcp/ikcp.c:794-904 | and encoding inverts decoding: of any bytes, those taken for segments are exactly the encoding of these, and the code says why the decoder stopped there |
| KcpWire.ParsePrefix | src/transport/udp/kcp/ikcp.c:794-904 | the same when anything follows |
| KcpWire.PackSound | src/transport/udp/kcp/ikcp.c:1012-1024 | packing loses, repeats and reorders nothing; every datagram is non-empty and fits |
| KcpWire.DatagramsDecode | src/transport/udp/kcp/ikcp.c:1151-1195 | the datagrams of any segment list fit the mtu and decode to that list |
| Bytes.RoundTrip32 | src/transport/udp/kcp/ikcp.c:94-121 | 32-bit decoding inverts encoding |
| Bytes.Unique32 | src/transport/udp/kcp/ikcp.c:94-121 | and encoding inverts decoding |
| Bytes.RoundTrip16 | src/transport/udp/kcp/ikcp.c:68-92 | 16-bit decoding inverts encoding |
| Word32.TimeDiffWrap | src/transport/udp/kcp/ikcp.c:136-139 | the signed difference of two wrapped numbers is their true difference while that is under half a lap |
| KcpCore.Kcp.constructor | src/transport/udp/kcp/ikcp.c:234-301 | a new connection satisfies the invariant |
| KcpCore.Kcp.Send | src/transport/udp/kcp/ikcp.c:475-550 | the whole state and the code after ikcp_send, and that the invariant is kept |
| KcpCore.Kcp.Fragment | src/transport/udp/kcp/ikcp.c:526-547 | the cutting loop appends the fragments of the message to snd_queue, in order |
| KcpCore.Kcp.PeekSize | src/transport/udp/kcp/ikcp.c:447-469 | the loop computes the size of the first run, or -1 |
| KcpCore.Kcp.Recv | src/transport/udp/kcp/ikcp.c:364-441 | the whole state, the code and the bytes after ikcp_recv, for reading and peeking |
| KcpCore.Kcp.Merge | src/transport/udp/kcp/ikcp.c:389-415 | the merge loop returns the joined bytes of the first run and its length |
| KcpCore.Kcp.TakeReady | src/transport/udp/kcp/ikcp.c:419-431 | the loop that moves ready segments equals its recursive specification |
| KcpCore.Kcp.UpdateAckTimes | src/transport/udp/kcp/ikcp.c:556-574 | the round trip estimate in place, in 32-bit arithmetic, which KcpTimers.TimeoutIs and KcpTimers.VariationIs give in whole numbers |
| KcpCore.Kcp.ParseAckNumber | src/transport/udp/kcp/ikcp.c:587-617 | the search loop drops exactly the acknowledged segment |
| KcpCore.Kcp.ParseUna | src/transport/udp/kcp/ikcp.c:619-638 | the loop drops exactly the segments before una |
| KcpCore.Kcp.ParseFastAckNumber | src/transport/udp/kcp/ikcp.c:640-661 | the loop counts every overtaken segment once |
| KcpCore.Kcp.ParseSegment | src/transport/udp/kcp/ikcp.c:714-774 | the backward search loop and the move loop leave the specified queues |
| KcpCore.Kcp.InputSegment | src/transport/udp/kcp/ikcp.c:821-900 | one decoded segment: window, una, and its command |
| KcpCore.Kcp.InputLoop | src/transport/udp/kcp/ikcp.c:794-904 | the byte loop processes exactly the segments of the datagram up to the first malformed one and returns its code; it terminates on any bytes |
| KcpCore.Kcp.Grow | src/transport/udp/kcp/ikcp.c:910-940 | the growth of the window in 32-bit arithmetic |
| KcpCore.Kcp.Input | src/transport/udp/kcp/ikcp.c:780-943 | the whole state and code after ikcp_input on any bytes |
| KcpCore.Kcp.Put | src/transport/udp/kcp/ikcp.c:1014-1021 | encoding one more segment flushes the buffer first when it would not fit |
| KcpCore.Kcp.FlushAcks | src/transport/udp/kcp/ikcp.c:1012-1022 | the acknowledgement loop encodes one segment per entry, in order |
| KcpCore.Kcp.RunProbe | src/transport/udp/kcp/ikcp.c:1026-1045 | the probe timer in place |
| KcpCore.Kcp.Fill | src/transport/udp/kcp/ikcp.c:1076-1098 | the loop that fills the window numbers fragments from snd_nxt on |
| KcpCore.Kcp.Consider | src/transport/udp/kcp/ikcp.c:1117-1150 | what one turn of the resend loop makes of a segment, and why it sends it |
| KcpCore.Kcp.ResendLoop | src/transport/udp/kcp/ikcp.c:1116-1189 | the resend loop: every segment as specified, the bytes sent, and the counts of timeouts and fast retransmissions |
| KcpCore.Kcp.ReduceCwnd | src/transport/udp/kcp/ikcp.c:1197-1229 | the congestion state after a flush |
| KcpCore.Kcp.Flush | src/transport/udp/kcp/ikcp.c:974-1230 | the whole state after ikcp_flush and exactly the datagrams it sends; what it lets out is KcpWindow.FlushMoves |
| KcpCore.Kcp.Update | src/transport/udp/kcp/ikcp.c:1238-1263 | the whole state after ikcp_update and what it sends |
| KcpCore.Kcp.Check | src/transport/udp/kcp/ikcp.c:1276-1311 | the loop of ikcp_check returns the specified time |
| FileRuns.Agreement | api/bc_file.c:645-906 | over a network that drops, repeats and reorders: receiver success means the written file is the sent one, sender success means the receiver succeeded, the checksums never disagree, and a chunk that starts with the transfer id rules success out |
| FileRuns.CanSucceed | api/bc_file.c:753-773 | a transfer can succeed in some run if and only if no chunk longer than 4 bytes starts with the transfer id |
| FileRuns.SomeNeverSucceed | api/bc_file.c:753-773 | a transfer of one chunk of five bytes that loses four of them at the receiver and succeeds in no run |
| FileRecovery.AsksForFirstMissing | api/bc_file.c:789-797 | in every run: a turn of the receiver publishes a NACK exactly when a later chunk arrives, the end of an incomplete file does, or nothing does, and then one NACK with the number of the first chunk not taken in |
| FileRecovery.OneFirstMissing | api/bc_file.c:801-806 | there is only one such number |
| FileRecovery.Recovers | api/bc_file.c:271-359 | one round of recovery from every reachable state: the receiver asks for the missing chunk, the sender, if it is one of the last 256, sends exactly that, and the receiver takes it in behind what it has |
| FileRecovery.Answers | api/bc_file.c:327-352 | a waiting sender answers a NACK with exactly that chunk if it is one of the last 256 and fails otherwise |
| FileChecks.CanStillSucceed | api/bc_file.c:645-906 | from every reachable state in which the sender waits and the receiver knows of the transfer and has not failed, both can still succeed, if no chunk can be mistaken for one with an id in front |
| FileChecks.CompleteIsChecked | api/bc_file.c:808-902 | whatever packets arrive, also ones no sender sent: a receiver completes only with a file of the announced checksum and the announced size modulo 2^32, and does not wait on once it has the end and as many bytes |
| FileChecks.DataExactly | api/bc_file.c:753-835 | a data packet of any kind in any state: what is written, asked for, or ends the transfer |
| FileChecks.EndExactly | api/bc_file.c:837-902 | an end packet of any kind: only the first counts, it must be of this transfer, and it ends it or asks for what is missing |
| FileChecks.StartTurn | api/bc_file.c:728-747 | a start packet of any kind, everything else before it, and time running out |
| FileChecks.SenderExactly | api/bc_file.c:271-359 | when a waiting sender fails, resends, is confirmed, and what ends a round |
| FileChecks.StartExactly | api/bc_file.c:596-643 | a version 2 start is accepted exactly when it is the description of some named file on the expected channel, and then its id is taken |
| FileChecks.StartExactlyV1 | api/bc_file.c:596-643 | the same for version 1, which has no id |
| FileChecks.PacketExactly | api/bc_file.c:184-203 | bytes are parsed as a packet exactly when they are its encoding |
| FileChecks.ControlExactly | api/bc_file.c:205-241 | a control packet of a transfer carries the version 2 flag, the id and nothing else |
| FileRuns.StepOk | api/bc_file.c:386-594 | every step of sender, receiver and network keeps the invariant behind the agreement |
| FileRuns.FullSize | api/bc_file.c:808-811 | received bytes add up to the file size only if every chunk was taken in, unstripped, in order |
| FileRuns.OnControlOk | api/bc_file.c:271-359 | a retransmission is one of the packets already sent, byte for byte; only a DONE confirms |
| FileRuns.OnDataOk | api/bc_file.c:753-835 | data keeps the written bytes a prefix of the stripped file and the running checksum theirs |
| FileRuns.OnEndOk | api/bc_file.c:837-902 | an END keeps the invariant, whether it completes the transfer or asks for more |
| FileProtocol.CacheWindow | api/bc_file.c:243-269 | after n chunks the cache answers for chunk q iff q < n and q + 256 >= n, with exactly its bytes |
| FileProtocol.StartMetaRoundTrip | api/bc_file.c:596-643 | a receiver accepts a START exactly when it expects that channel, and reads its transfer id |
| FileProtocol.PacketRoundTrip | api/bc_file.c:184-203 | packet parsing inverts packet building |
| FileProtocol.ControlIs | api/bc_file.c:224-241 | a control packet is recognised for exactly its kind and transfer |
| FileCore.FileSender.FindSlot | api/bc_file.c:243-254 | the search loop finds the first slot with the number |
| FileCore.FileSender.SendChunks | api/bc_file.c:496-525 | the read loop sends every chunk in order, checksums it and caches it, up to the write that fails |
| FileCore.FileSender.SendFile | api/bc_file.c:478-546 | the packets of a whole transfer, or the prefix before a failing write |
| FileCore.FileSender.HandleControls | api/bc_file.c:271-359 | one round over the readable packets: what is resent, what is noticed, and that it fails exactly at a chunk outside the cache or a retransmission that cannot be written |
| FileCore.FileReceiver.Handle | api/bc_file.c:682-905 | one turn of the receive loop: the whole state and the replies |
| FileCore.FileReceiver.HandleData | api/bc_file.c:753-835 | the DATA branch |
| FileCore.FileReceiver.HandleEnd | api/bc_file.c:837-902 | the END branch |
| FileCore.FileReceiver.HandleStart | api/bc_file.c:728-747 | the START branch |
| ShmRuns.FirstInFirstOut | src/shm/bc_shm.c:116-200 | under every interleaving of single byte and counter accesses, from fresh memory, what was read is a prefix of what was written |
| ShmRuns.StepRefines | src/shm/bc_shm.c:116-200 | each step leaves the queue of frames alone, publishes the writer's message at its end, or takes its first frame as the reader's result |
| ShmRuns.CallReadOk | src/shm/bc_shm.c:149-163 | a read finds nothing exactly when no frame was published and unread when head was read |
| ShmRuns.ReadOk | src/shm/bc_shm.c:149-200 | a read returns the oldest frame intact, or leaves it when it exceeds the buffer; it never sees half a frame |
| ShmRuns.CallWriteOk | src/shm/bc_shm.c:116-134 | a write is refused as invalid or for want of space exactly when the frame or the unread frames are too large |
| ShmRuns.WriteOk | src/shm/bc_shm.c:136-147 | storing a byte never touches an unread one; moving head publishes the whole frame |
| ShmRing.Position | src/shm/bc_shm.c:136-147 | indices from wrapped 32-bit counters name the right byte because 2^25 divides 2^32 |
| ShmRing.Ring.Write | src/shm/bc_shm.c:116-147 | the queue after a write and its code |
| ShmRing.Ring.PeekLen | src/shm/bc_shm.c:149-174 | the length of the oldest frame, or not found exactly when there is none |
| ShmRing.Ring.Read | src/shm/bc_shm.c:176-200 | the queue after a read, its code and its bytes |
| ShmRing.Ring.PutFrame | src/shm/bc_shm.c:136-146 | the two copy loops put the frame behind what the ring holds |
| ShmRing.Ring.CopyOut | src/shm/bc_shm.c:193-196 | the copy loop returns the oldest frame's bytes |
| ShmRuns.StepOk | src/shm/bc_shm.c:116-200 | each step of writer or reader keeps the invariant between the counters, the bytes and the frames |
| Crc.BurstDetected | src/daemon/protocol.c:20-33 | data of any length that differs only within four consecutive bytes has a different checksum |
| Crc.BitUnbit | src/daemon/protocol.c:26-30 | the bit step can be undone |
| Crc.UnbitBit | src/daemon/protocol.c:26-30 | and every state is reached: the step is a bijection on 32-bit states |
| Crc.UpdateInjective | src/daemon/protocol.c:24-31 | different states stay different whatever bytes follow |
| Crc.WindowState | src/daemon/protocol.c:24-31 | up to four bytes enter the register as the one word they spell |
| Crc.UpdateConcat | api/bc_file.c:40-51 | updating piece by piece is updating once with the concatenation |
| Crc.UpdateLoop | src/daemon/protocol.c:24-31 | the nested loops compute the specified running value |
| CrcDivision.UpdateIsRemainder | src/daemon/protocol.c:20-33 | the running value, bits reversed, is the remainder of the message times x^32, plus the starting value times x once per bit of the message, modulo the CRC-32 polynomial |
| CrcDivision.BitIsTimesX | src/daemon/protocol.c:26-30 | the inner loop multiplies by x modulo the polynomial |
| CrcDivision.TermsAre | src/daemon/protocol.c:28 | which is x^32 + x^26 + x^23 + x^22 + x^16 + x^12 + x^11 + x^10 + x^8 + x^7 + x^5 + x^4 + x^2 + x + 1 |
| CrcDivision.ZeroByte | src/daemon/protocol.c:20-33 | the checksum of one zero byte is 0xd202ef8d |
| Protocol.DecodeEncode | src/daemon/protocol.c:35-169 | decoding inverts encoding for every encodable message, whatever follows, and the frame length is found |
| Protocol.CorruptionDetected | src/daemon/protocol.c:150-153 | a frame whose payload was changed only within four consecutive bytes is rejected |
| Protocol.PartialFrame | src/daemon/protocol.c:83-119 | no proper prefix of a frame is taken for a complete or a bad one |
| Protocol.FramesExactly | src/daemon/protocol.c:83-153 | which bytes are refused, waited for or taken as a frame, and which are decoded, by magic, version, header length, sizes and checksum |
| Protocol.EncodeDecode | src/daemon/protocol.c:121-169 | encoding inverts decoding: a decoded frame whose names hold no NUL is, byte for byte, the encoding of its message |
| Protocol.CStrExactly | src/daemon/protocol.c:155-165 | a name ends before its first NUL byte |
| Protocol.HeaderFields | src/daemon/protocol.c:5-18 | where each field lies in the header |
| Protocol.EncodeSize | src/daemon/protocol.c:46-58 | exactly which messages are encoded; frames are at most 1530 bytes, so the total check never fails |
| Protocol.EncodeInto | src/daemon/protocol.c:35-81 | the frame buffer after encoding: the frame, and nothing else changed |
| Protocol.CopyFour | src/daemon/protocol.c:74-77 | four copies, one behind the other |
| StreamSplit.Splits | src/daemon/main.c:35-121 | for any messages and any cutting of their bytes into reads: the messages handed over are the first ones sent, the rest of the buffer is a proper prefix of one frame, and it never fills |
| StreamSplit.SplitPrefix | src/daemon/main.c:35-56 | the frame loop on any prefix of a stream of frames |
| StreamSplit.ReadKeeps | src/daemon/main.c:66-121 | one read, of any size, keeps the receiver in step |
| StreamSplit.MalformedEmpties | src/daemon/main.c:35-121 | at a malformed frame, or one with a wrong checksum, the frames before it have been handed over and the buffer is emptied |
| StreamSplit.Receiver.ProcessFrames | src/daemon/main.c:35-56 | the loop with its memmove hands over exactly the frames at the front of the buffer |
| StreamSplit.Receiver.OnRead | src/daemon/main.c:116-120 | one turn of the read loop on the buffer array |
| Reassembly.Reassembles | src/daemon/fragment.c:29-103 | for any interleaving and order of pieces, at most 16 messages open, repeats before completion: a piece returns its message, flags cleared, exactly when it is the last one missing |
| Reassembly.FeedPiece | src/daemon/fragment.c:29-103 | one piece: what the table holds after it and what it returns |
| Reassembly.SlotStep | src/daemon/fragment.c:55-102 | one piece and its slot |
| Reassembly.HasSlot | src/daemon/fragment.c:5-20 | while at most 16 messages are open a piece finds its slot or a free one |
| Reassembly.HasAll | src/daemon/fragment.c:91-99 | a slot with every piece gives the message back |
| Reassembly.PieceFields | src/daemon/fragment.c:137-151 | what a receiver reads from a piece |
| Reassembly.PublishedPieces | src/daemon/fragment.c:105-160 | a message that fits a chunk goes out as it is, a larger one as the fewest pieces, the first to the last |
| Fragment.BitmapBound | src/daemon/fragment.c:71-76 | the offset check keeps the bitmap index in bounds for every index a fragment can claim |
| Fragment.WhichPiece | src/daemon/fragment.c:127-135 | each byte of a payload lies in exactly one piece |
| Fragment.RefusedKeepsSlot | src/daemon/fragment.c:50-75 | a first fragment is refused iff its bytes lie outside the payload, and then its slot stays taken |
| Fragment.ExampleRefused | src/daemon/fragment.c:50-75 | a concrete fragment that is refused, in the chunk size of the source, and the slot it takes |
| FragmentRuns.StaysTaken | src/daemon/fragment.c:5-27 | through any fragments of other messages a taken slot stays exactly as it is |
| FragmentRuns.FullForGood | src/daemon/fragment.c:5-75 | sixteen such fragments fill an empty table: whatever fragments of other messages follow, every plausible one is answered with BC_ERR_NOMEM for the rest of the run |
| FragmentChecks.Owned | src/daemon/fragment.c:29-103 | any fragment that finds a slot, well formed or not: the other slots stay, and it is refused, ignored, stored, or completes its message exactly as its index, total and size say |
| FragmentChecks.Unowned | src/daemon/fragment.c:29-53 | a fragment that cannot be a piece, or finds no slot, changes nothing |
| FragmentChecks.OutputInBounds | src/daemon/fragment.c:91-102 | whatever fragments come in, what comes out is a message within the bounds of messages |
| Fragment.Publish | src/daemon/fragment.c:105-160 | the loop emits exactly the pieces, in order, up to the first the callback does not take, and reports that |
| Fragment.Reassembler.FindSlot | src/daemon/fragment.c:5-20 | the search loop finds the message's slot, else the first free one |
| Fragment.Reassembler.Feed | src/daemon/fragment.c:29-103 | the whole table, the code and the message after any fragment, well formed or not |
| DeliveryRuns.Delivered | src/daemon/client_manager.c:370-418 | in every run each subscriber has the frames of a publisher unchanged and in order; and every frame that left the buffer left by an attempt that gave the subscriber exactly the copies its subscriptions asked for |
| DeliveryRuns.SubscriberReads | api/bc_client.c:341-418 | in every run the bytes on the socket of a subscriber and those pending are the frames of its copies, one behind the other; what it has read are the first of these messages, all of them once nothing is pending |
| DeliveryRuns.AttemptCopies | src/daemon/message_bus.c:198-259 | one publish attempt gives a client at most one copy per matching subscription, exactly that many unless a refusal is reported |
| DeliveryRuns.TryHeadOk | src/daemon/client_manager.c:370-401 | an attempt keeps the invariant, whatever its outcome |
| DeliveryDue.AttemptGives | src/daemon/message_bus.c:78-81 | in every run: an attempt that returns BC_OK on a frame for this node or for all gives every client but the publisher exactly one copy per matching subscription, any other attempt no more than that, and none of a frame for another node; a copy is the frame with this node as its source |
| DeliveryDue.EveryEntry | src/daemon/message_bus.c:276-320 | in every run, for every attempt: exactly when a transport was asked, and what that made of the code |
| DeliveryRepeats.CopiesBounded | src/daemon/client_manager.c:370-418 | in every run a subscriber has no more copies of a frame than its subscriptions asked for over all attempts on it, and exactly that many if no attempt was refused |
| DeliveryRepeats.WhichCopiesEqual | src/daemon/message_bus.c:273-276 | in every run two copies of a frame are equal iff the client numbered the frame or a multiple of 2^32 fresh numbers lies between their attempts; hence equal for one attempt, different for two less than 2^32 attempts apart |
| DeliveryRepeats.NetworkSends | src/daemon/message_bus.c:299-320 | in every run a frame goes out over the network once per attempt that was refused locally and accepted by a transport, and once more if it left that way; so sent once iff there was no such attempt, for a frame that left by the network; and the exact condition for at most once at any moment |
| DeliveryRepeats.PublishedTwice | src/daemon/message_bus.c:299-320 | a run in which one frame is published twice: two network sends, and two copies that differ at one subscriber; and after its first attempt one send although that attempt was refused |
| DeliveryJams.LeavesUnlessJammed | src/daemon/client_manager.c:403-418 | from any reachable state with buffer space for every copy and a willing network, the head frame leaves its buffer iff it is not unroutable on a daemon that requires routes; if it is, it stays and is delivered locally once more |
| DeliveryJams.HeadFateIs | src/daemon/message_bus.c:261-321 | in every run, for any room in the buffers and any answer of the network: exactly when an attempt makes the head frame leave, leaves it there, or closes its publisher |
| DeliveryJams.IoErrorCloses | src/daemon/message_bus.c:299-320 | an I/O error of the network closes the publisher iff nobody refused the frame, it is routable, asks for at least once and no local copy was made |
| DeliveryJams.JamsForever | src/daemon/client_manager.c:403-418 | such a frame, and all behind it, stays for the rest of any run |
| DeliveryJams.JamReached | src/daemon/client_manager.c:403-418 | a client that connects and sends such a message first is there after two actions |
| DeliveryJams.ExampleJams | src/daemon/message_bus.c:299-305 | for example any broadcast on a bridge that requires routes and has none |
| Ipc.ReadsBack | api/bc_client.c:387-418 | a DELIVER frame is read back by bc_read whatever follows it |
| Ipc.ReadsPrefix | api/bc_client.c:387-418 | of any number of bytes of a stream of frames, successive reads return the first messages, and all of them when everything is there |
| Ipc.ReadExactly | api/bc_client.c:387-418 | which bytes bc_read waits on, refuses, or returns as a message or as statistics |
| ClientRx.FramesInOrder | src/daemon/client_manager.c:370-467 | however the bytes of a client are cut into reads and however often a frame is refused and tried again: at any moment the requests dealt with are the first ones it sent, each once and in order, and all behind them is in the buffer or on the socket; with codes that do not close it the client stays open |
| ClientRx.NothingLeftOver | src/daemon/client_manager.c:403-467 | when nothing is refused in a turn, what it leaves in the buffer is less than one frame |
| ClientRx.WorkTakes | src/daemon/client_manager.c:403-418 | the frame loop on any prefix of a stream of client frames |
| ClientRx.HeadBack | api/bc_client.c:191-249 | a frame the client library builds is read back as the same request, whatever follows |
| ClientRx.HeadWaits | src/daemon/client_manager.c:374-392 | no part of such a frame is taken for a whole or a malformed one |
| ClientRx.HeadExactly | src/daemon/client_manager.c:374-401 | which frame in front of the buffer is waited for, refused or taken, and what it asks for, for both header versions and any bytes |
| ClientRx.Closes | src/daemon/client_manager.c:427-497 | a turn closes the client exactly for a malformed frame in front, or one whose request meets an error other than a want of room |
| ClientRx.WorkExactly | src/daemon/client_manager.c:403-418 | what the loop does with a whole frame for each code its request meets |
| ClientRx.HeaderOnlyRefused | src/daemon/client_manager.c:197-202 | a frame that is only a header is refused whatever its kind, so the client that sends it is closed |
| ClientRx.Receiver.ProcessMessages | src/daemon/client_manager.c:370-418 | the loop with its memmove on the buffer array: the requests dealt with, what stays, and the code |
| ClientRx.Receiver.OnRead | src/daemon/client_manager.c:447-456 | one turn of the read loop on the buffer array |
| MessageBus.RefusalPropagates | src/daemon/message_bus.c:299-320 | a publish whose local delivery somebody refused returns BC_ERR_NOMEM on every path |
| MessageBus.CopiesCount | src/daemon/message_bus.c:204-246 | copies per client, by subscription: at most one each, exactly one each when nobody was refused |
| MessageBus.CopiesTo | src/daemon/message_bus.c:212-217 | copies go to subscribers only, never back to the publisher |
| MessageBus.CopiesByDestination | src/daemon/message_bus.c:78-81 | a message for another node is given to nobody here; one for this node or for all goes to every client but its publisher once per matching subscription, when every copy is taken |
| MessageBus.NetworkIs | src/daemon/message_bus.c:276-284 | a publish goes out over the network iff the message is for another node, names a channel, or is for all on a node that bridges and does not forbid it |
| MessageBus.CodeExactly | src/daemon/message_bus.c:299-320 | the code of a publish, by these conditions |
| MessageBus.WithoutExactly | src/daemon/message_bus.c:183-196 | removing a client takes exactly its entries |
| MessageBus.WithoutInOrder | src/daemon/message_bus.c:183-196 | and keeps the others in order |
| MessageBus.Bus.DeliverLocal | src/daemon/message_bus.c:198-259 | the loop gives copies to exactly the wanting subscriptions with room and reports any refusal, an error after the copy was enqueued included |
| MessageBus.Bus.Publish | src/daemon/message_bus.c:261-321 | the code, the message sent, the number used and the copies made |
| MessageBus.Bus.Subscribe | src/daemon/message_bus.c:157-181 | the table after subscribing: appended once, or the error |
| MessageBus.Bus.RemoveClient | src/daemon/message_bus.c:183-196 | the in-place compaction removes exactly the client's entries and keeps the order |
| ClientQueue.TxQueue.Enqueue | src/daemon/client_manager.c:289-307 | a frame is refused exactly when it does not fit next to the pending bytes, through compaction; otherwise it is appended, also when the epoll update fails afterwards |
| ClientQueue.TxQueue.Flush | src/daemon/client_manager.c:260-287 | partial sends move the next bytes, in order, from pending to the socket, until it would block, fails, or nothing is left; together the bytes stay what was enqueued |
| ClientQueue.TxQueue.Send | src/daemon/client_manager.c:263-276 | one partial send |
| ClientQueue.TxQueue.Compact | src/daemon/client_manager.c:295-298 | the memmove keeps the pending bytes |
| ForwardingRuns.SpreadsOnce | src/daemon/message_bus.c:323-386 | in a network without cycles the message of one publish attempt crosses each link at most once and in one direction, reaches no bus twice and not its own, makes fewer hops than there are nodes, and causes at most one acknowledgement per bus |
| ForwardingRuns.ArriveOk | src/daemon/message_bus.c:323-386 | what a node does with what arrives keeps the one walk of the message |
| ForwardingReach.Reaches | src/daemon/message_bus.c:91-115 | in every run without losses, refusals and send errors: a message whose routes lead along a walk of nodes that pass it on has reached the first of them, in order, and is on its way to the next |
| ForwardingReach.ReachesAll | src/daemon/message_bus.c:91-115 | and there is such a run that reaches the bus of every node of the walk |
| ForwardingReach.Acknowledged | src/daemon/message_bus.c:51-76 | a delivered message that asks for it is acknowledged over the link it came by |
| ForwardingRuns.AcksStop | src/daemon/message_bus.c:337-340 | an acknowledgement is neither forwarded nor answered |
| ForwardingRuns.NeverBack | src/daemon/message_bus.c:99-108 | a message is never sent back over the transport it came from |
| Forwarding.NoReturn | src/daemon/message_bus.c:91-115 | a walk that never turns back never returns to its start in a forest |
| Forwarding.WalkIsSimple | src/daemon/message_bus.c:91-115 | hence it visits no node and crosses no link twice |
| Forwarding.WalkIsShort | src/daemon/message_bus.c:91-115 | hence forwarding ends: fewer hops than nodes |
| Forwarding.InboundExactly | src/daemon/message_bus.c:359-386 | what becomes of a whole inbound message, by dst, flags, qos, bridge, require_route, route and arrival: whether it is delivered here, leaves by its route, is acknowledged, and the code |
| Forwarding.InboundByDestination | src/daemon/message_bus.c:359-372 | which clients get how many copies of it |
| Forwarding.AckExactly | src/daemon/message_bus.c:51-69 | the acknowledgement goes to the source with the number and names of the message |
| Forwarding.Node.HandleInbound | src/daemon/message_bus.c:323-386 | the code, the forwarding, the acknowledgement and the reassembly table for any inbound message |

## Left out

- KCP custom congestion control, stream mode, allocator and log hooks, changing mtu or windows during a connection: not used by this repository.
- KCP settings: mtu and windows are below 2^16, the size of a UDP datagram and of the window field on the wire; the source checks only lower bounds.
- KCP ackedlen, the growth of the acklist block and the size of the output buffer array: the acknowledgement list and the output buffer are byte and element sequences here, the latter proved to stay within the mtu.
- KCP segments keep number, fragment number, data and timers; the fields wnd, una, conv and cmd stored in a segment are computed where it is encoded, from the same values.
- KcpTimers.SmoothedRtt: samples and estimates that are not negative, which is all ikcp_input produces (KcpTimerRuns.NothingDueAfterFlush).
- KCP long arithmetic: the round trip estimate is computed in two's-complement 32-bit words, where the source stores signed integers.
- KcpRuns.Delivery: assumes every delivered datagram is fresh, as described above; a datagram that outlives 2^31 numbers could alias.
- KcpTimers.TimeoutIs: samples small enough for signed words; beyond that KcpTimers.RtoInRange and KcpTimers.SmoothedRtt say what is left.
- KcpFast.SentEarly: states it for datagrams that decode; each counts by its newest acknowledgement, as the source counts.
- KcpReopen.WindowReopens: one exchange without loss, once the probe is due; the exact answer while segments are due is given by the state of the peer after it took them.
- KcpProgress.Progress: one round trip without loss, for ikcp_flush and, as KcpProgress.UpdateProgress, for ikcp_update; what happens over an infinite run depends on the network.
- The receive buffer and the socket of the UDP wrapper, the send queues and reconnects of the TCP and UART transports.
- File transfer names, throughput logs, retry counts and time limits: a failing write, an unreadable file and a time-out are steps that may happen at any moment; version 1 packets are handled by the receiver only.
- File transfer receivers that fail delete their file; the model keeps the bytes written so far in the state, marked by the outcome.
- FileRuns.Agreement: one sender on the topic, as stated; liveness after loss is not claimed, since a second END is ignored.
- Ring and KCP buffers in shared or heap memory: allocation failure, and NULL arguments everywhere.
- ShmRuns.FirstInFirstOut: sequential consistency; the source uses volatile fields and no fences.
- The 4-byte length of a ring frame is written from a wider variable; its value fits 32 bits by the size check.
- Reading past what a header promises: the codec's buffers are sequences of the bytes given.
- Crc.BurstDetected: changes across more than four bytes can go undetected, as with any 32-bit checksum.
- StreamSplit.Splits: valid frames only; a malformed frame empties the buffer, which the model does too, without a claim about what follows.
- STATS replies, setting up shared memory and draining a client's ring: what answers a request is an arbitrary code in ClientRx, whose output buffers and replies are not part of it; delivery over the shared ring is the ring's own theorem. The IPC header is laid out as on a little-endian machine.
- DeliveryRuns.Delivered: a client's buffer holds whole publish frames there, names without NUL bytes, as ClientRx.FramesInOrder allows for any cutting into bytes; output buffers hold DELIVER frames only. A publisher that is closed by an I/O error keeps its undelivered frames; nothing is claimed for them.
- Ipc.ReadExactly: statistics of more bytes than a payload may have are an error here.
- Subscriptions take effect when they are made, not in turn with the publish frames of the same client.
- Client list memory, closing sockets and reuse of descriptors: a client that closes stays in the model as dead. Reading from a client and flushing to it are separate actions that may happen at any time.
- Forwarding.Node.HandleInbound: one result for sending all pieces of a message on a transport.
- ForwardingRuns.SpreadsOnce: one publish attempt; transports lose messages but do not duplicate them; a fragmented message counts as one.
- Topic matching, router tables, configuration, discovery, statistics, plugins, examples and command line tools.
