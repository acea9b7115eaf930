# A verified model of roo_transport

roo_transport carries reliable byte streams, messages and remote calls over serial lines that lose and
corrupt bytes.  This project models its protocol core in Dafny and proves what that core promises.

**The reliable link.**  A sliding-window protocol runs over a lossy packet medium: cumulative acks with a
skip-ack bitmap, credit-based flow control (the "recv himark"), a final packet, randomized retransmission,
and a three-way handshake.  Positions travel as 12-bit ids, are kept as wrapping 16-bit sequence numbers,
and select slots of power-of-two arrays.  The model has three layers.

- `Transmission` and `Reception` are what the two endpoints compute, as functions on values with unbounded
  positions.
- The classes `Transmitter`, `Receiver` and `RingBuffer` are the endpoints as the program has them: 16-bit
  arithmetic, masked slot arrays, loops, a cursor into a slot.  Every method is proved to compute the function
  of the layer above, for every state, wrap-around included.
- `Connection` puts a transmitter and the peer's receiver together with two lossy first-in-first-out queues
  of raw packets, and runs arbitrary interleavings of connect, write, flush, close, send, lose, deliver, ack,
  flow-control and read steps.  `ConnectionInvariant` is the invariant of the pair; `ConnectionTheorems` is what
  follows from it for every run.  `AckEffect`, `WriteCount`, `ReceiveEffect` and `ConnectionProgress` say what each
  operation achieves, position by position, and `ConnectionLiveness` that a connection can always be completed.

`Handshake` is a second state machine, for two endpoints that connect, disconnect, exchange handshake packets, data
and feedback over shared queues and lose them, across any number of reconnects; the class `Channel` has its critical
sections.  It justifies where `Connection` starts: with empty queues, at the sequence number drawn, and with packets of
one stream only; `HandshakeLiveness` says that it completes.  `Notification` is the wake-up primitive of the send loop
as atomic steps.

**Around the link.**  `TxRing` is the transmit ring that a writer shares with a DMA channel and its interrupt;
`RpcAccounting` and `RpcCalls` are the call tables of the RPC server and client under arbitrary interleaving;
`Serialization` is the argument encoding and its parser; `Segmenter` cuts the byte stream into packets, and
`TinyFrames` is a frame codec;
`RetryBackoff` is the retry delay.  The classes `Uart`, `RpcServer`, `RpcClient`, `DynamicSerialized` and
`PacketReceiver` have the fields and loops of the program and are proved against these.

Time is a parameter of every operation that reads the clock, and a random draw is an input.  Words in the
source that wrap are wrapped explicitly; everything else is unbounded.

## Where the code does not do what one would expect

- `RingBuffer::contains` of an empty window accepts the value half the number space away.
  `RingBuffers.InWindowExact` says exactly when the test is right, and `ConnectionTheorems.ChecksNeverFire` that the one
  use of it that could be affected never is.
- `Receiver::init` does not clear the read cursor.  `Restart.StartsCleanExactly` says exactly when a receiver that
  is started again without `reset` reads the new stream; `Restart.StaleByteAfterRestart` is a failing input.
- A stream closed before it is connected builds its final packet with the control bit of the connection before.
  `EarlyClose.HeardExactly` says exactly when the reader can learn of the end of the stream, and
  `EarlyClose.NewTransmitterUnheard` is a failing input.
- After a reconnect of the peer, an endpoint's transmitter can be connected to the new stream while its receiver is
  still connected to the old one.  `Handshake.HalfOpenRun` is such a run, and `Handshake.PairedIff` says exactly when
  an acknowledgement leaves the two halves paired.
- A stream id of the RPC client that comes up again while it is in use can lose a call: the new one, or an older one.
  `RpcCalls.LosesExactlyIfBusy` says that this is the only way, `RpcCalls.OlderSenderErases` and
  `RpcCalls.NewSenderErases` are losing runs, and `RpcCalls.RecentIdsDiffer` says when it cannot happen.
- A second reply of an RPC handler can answer a later request.  `RpcAccounting.HandleClaimsOther` says exactly when,
  and `RpcAccounting.StaleHandleClaims` is such a run.

## Model

| member | source | states |
|---|---|---|
| `ConnectionTheorems.EndToEnd` | src/roo_transport/link/internal/receiver.cpp:54-99 | over every run of one connection, the bytes all reads returned are a prefix of the bytes all writes accepted; end of stream is reported only after a close, and only when the two are equal; the payloads queued in order spell out exactly the bytes accepted |
| `ConnectionTheorems.NextKeeps` | src/roo_transport/link/internal/thread_safe/channel.cpp:487-540 | every step of either endpoint or of the medium keeps the invariant of the pair |
| `ConnectionTheorems.SafeState` | src/roo_transport/link/internal/transmitter.cpp:23-89 | the same safety property in every state that satisfies the invariant |
| `ConnectionTheorems.IdsSuffice` | src/roo_transport/link/internal/ring_buffer.h:70-74 | every data and ack id in flight is restored to the position it was cut from; a himark is too, or it is the one value just out of range, which restores below the current himark and is rejected |
| `ConnectionTheorems.FlowControlIsSafe` | src/roo_transport/link/internal/transmitter.cpp:297-316 | the credit never exceeds the receiver's space, what is queued never exceeds the credit before a close and by at most the final packet after it, and no other data packet in flight can find the receive window full |
| `ConnectionTheorems.AcksAreSound` | src/roo_transport/link/internal/transmitter.cpp:241-270 | every buffer popped or marked acked is one the receiver has stored; the front buffer is never marked acked |
| `ConnectionTheorems.ChecksNeverFire` | src/roo_transport/link/internal/receiver.cpp:92-95 | in every reachable state the credit check of `tryWrite`, and the check of `tryRead` that nothing follows a final packet, for every count, hold, and the empty-window anomaly of `contains` does not arise |
| `ConnectionTheorems.NoWedge` | src/roo_transport/link/internal/transmitter.cpp:116-194 | in every reachable state, once the front packet is due and within the credit, `getBufferToSend` returns a packet |
| `ConnectionTheorems.FrozenAlways` | src/roo_transport/link/internal/transmitter.cpp:185-193 | over every run, a packet that has been sent keeps its content for good, and every retransmission carries the same header and payload bytes |
| `ConnectionTheorems.FrozenForever` | src/roo_transport/link/internal/out_buffer.h:35-58 | one step never changes a packet that is frozen, also when the write cursor still points at its slot |
| `ConnectionLiveness.CanAlwaysComplete` | src/roo_transport/link/internal/thread_safe/channel.cpp:487-540 | a connection can always be completed: from any earlier state of the endpoints, after the connection is set up and any writes, flushes, close, transmissions, deliveries, losses, acks and reads, some continuation without a further loss leaves everything written read, and the reader of a closed stream told that it has ended |
| `ConnectionLiveness.Delivers` | src/roo_transport/link/internal/transmitter.cpp:116-316 | the same from every state that can make progress, with a run of transmissions, deliveries, acks, flow control and reads only |
| `ConnectionLiveness.Round` | src/roo_transport/link/internal/transmitter.cpp:222-254 | while something is outstanding, a run that delivers the feedback, gives credit, sends until the front packet has gone out, and delivers and acknowledges it makes less outstanding |
| `ConnectionFairness.FairNext` | src/roo_transport/link/internal/thread_safe/channel.cpp:487-540 | every step of a connected pair keeps what completion rests on: each packet queued or in flight carries the bit the peer listens to, each packet queued is due in bounded time, and a final packet waits only behind others |
| `ConnectionEnding.RunEnded` | src/roo_transport/link/internal/receiver.cpp:92-96 | over every run, a reader that has taken the final packet has been told that the stream has ended |
| `ConnectionProgress.CreditIsGiven` | src/roo_transport/link/internal/transmitter.cpp:297-316 | delivering a flow-control packet makes the credit exactly the position it carries, unless that is half the id space or more ahead, which changes nothing |
| `ConnectionProgress.CreditRun` | src/roo_transport/link/internal/receiver.cpp:174-193 | once the last advertisement has expired, the next one, delivered, makes the credit exactly the space the receiver has |
| `ConnectionProgress.DeliveredIsAcknowledged` | src/roo_transport/link/internal/receiver.cpp:231-300 | delivering a data packet and then acknowledging puts an ack of the first missing position on its way if and only if one was owed already, or the packet carries the right bit and is not the final packet beyond the space |
| `ConnectionFeedbackSteps.AckStepKeeps` | src/roo_transport/link/internal/transmitter.cpp:222-295 | delivering an ack, with its pops, pending end of stream, bitmap, rushes and reset, keeps the invariant of the pair |
| `ConnectionFeedbackSteps.HimarkStepKeeps` | src/roo_transport/link/internal/transmitter.cpp:297-316 | delivering a flow-control packet keeps it |
| `ConnectionReceiveSteps.DeliverStepKeeps` | src/roo_transport/link/internal/receiver.cpp:231-300 | delivering a data packet keeps it |
| `ConnectionReceiveSteps.ReadStepKeeps` | src/roo_transport/link/internal/receiver.cpp:54-99 | a read keeps it |
| `ConnectionReceiveSteps.AckClaims` | src/roo_transport/link/internal/receiver.cpp:195-229 | what an ack packet claims, after trimming, is true of the receiver: its id is the first missing position, and every position below it and every position its bitmap names has arrived |
| `ConnectionReceiveSteps.SendAckKeeps` | src/roo_transport/link/internal/receiver.cpp:195-229 | sending an ack keeps the invariant of the pair |
| `ConnectionReceiveSteps.SendHimarkKeeps` | src/roo_transport/link/internal/receiver.cpp:174-193 | advertising space keeps it |
| `ConnectionSendSteps.WriteKeeps` | src/roo_transport/link/internal/transmitter.cpp:23-55 | a write keeps it |
| `ConnectionSendSteps.CloseStepKeeps` | src/roo_transport/link/internal/transmitter.cpp:67-89 | closing keeps it, with or without space for the final packet |
| `ConnectionSendSteps.SendStepKeeps` | src/roo_transport/link/internal/transmitter.cpp:116-194 | a transmission keeps it |
| `ConnectionSendSteps.ConnectStepKeeps` | src/roo_transport/link/internal/transmitter.h:78-84 | connecting the transmitter keeps it |
| `EarlyClose.HeardExactly` | src/roo_transport/link/internal/transmitter.cpp:67-89 | after a close before the connection is set up, whatever came before, some run tells the reader that the stream has ended if and only if the leftover control bit is the one the handshake chooses |
| `EarlyClose.NewTransmitterUnheard` | src/roo_transport/link/internal/transmitter.cpp:9-21 | a failing input: a newly constructed transmitter, bit false, when the handshake chooses true |
| `EarlyClose.DeafRun` | src/roo_transport/link/internal/receiver.cpp:239-242 | with the wrong bit no run sets `peer_closed_` or `end_of_stream_` |
| `TransmissionFacts.WriteLoopWrote` | src/roo_transport/link/internal/transmitter.cpp:30-55 | a write appends exactly the accepted bytes to the packets, changes no frozen packet and acknowledges nothing |
| `WriteCount.WriteExact` | src/roo_transport/link/internal/transmitter.cpp:23-55 | a write accepts exactly the smaller of what it is given and the space: the rest of the current buffer plus 248 bytes for each slot that is free and within the credit; one that does not take everything leaves no room, and no slot or no credit |
| `WriteCount.WriteReady` | src/roo_transport/link/internal/transmitter.cpp:30-55 | the sender is told that there is something to send exactly when a buffer became full |
| `AckEffect.AckExact` | src/roo_transport/link/internal/transmitter.cpp:222-295 | an ack that belongs to the connection removes exactly the buffers before its position and lets a waiting final packet in; of the rest, buffer k + 1 is marked as arrived by bit k, exactly the buffers sent once that have not arrived while a later one has are due at once, the first of them is next, and nothing else changes; any other ack changes nothing |
| `AckEffect.BitmapExact` | src/roo_transport/link/internal/transmitter.cpp:256-294 | the part of this that the bitmap does, on any window |
| `AckEffect.RushedGoesOut` | src/roo_transport/link/internal/transmitter.cpp:271-294 | after an ack that reports a skipped buffer within the credit, `getBufferToSend` sends at every time a buffer that is due at once or one never sent |
| `TransmissionFacts.SendBufferQuiet` | src/roo_transport/link/internal/transmitter.cpp:185-193 | a transmission leaves every packet's content as it was |
| `Transmission.PopFrontKeeps` | src/roo_transport/link/internal/transmitter.cpp:241-249 | popping acked buffers keeps the transmitter well formed, also when it adds the pending final packet |
| `Transmission.ApplyBitmapKeeps` | src/roo_transport/link/internal/transmitter.cpp:256-294 | applying any bitmap keeps it |
| `Transmission.CloseKeeps` | src/roo_transport/link/internal/transmitter.cpp:75-89 | closing keeps it |
| `Transmission.SendBufferKeeps` | src/roo_transport/link/internal/transmitter.cpp:185-193 | sending keeps it |
| `SendProgress.SendsWhenDue` | src/roo_transport/link/internal/transmitter.cpp:134-194 | if the front buffer is unacked, due and within the credit, some buffer is sent; a lone open buffer is closed and sent |
| `SendProgress.ScanIsMinimal` | src/roo_transport/link/internal/transmitter.cpp:138-159 | the scan picks a buffer of the earliest due time among all that could be sent |
| `SendProgress.SentIsEligible` | src/roo_transport/link/internal/transmitter.cpp:116-194 | while a buffer waits that is due, whatever is sent has never been sent or is due no later |
| `SendProgress.BoundedBypass` | src/roo_transport/link/internal/transmitter.cpp:116-194 | a due, unacked buffer within the credit is sent after fewer other transmissions than there are buffers in the window, whenever the calls come |
| `SendProgress.SendsInSequence` | src/roo_transport/link/internal/transmitter.cpp:116-133 | new packets go out in sequence from `next_to_send_`, one with each call, whatever retransmissions are due |
| `SendProgress.NeverSleepsPast` | src/roo_transport/link/internal/transmitter.cpp:178-194 | when nothing is sent, the delay is the one asked for or leads to the due time of a packet, and never past one that is due earlier; after a transmission it is zero |
| `SendProgress.FlushExact` | src/roo_transport/link/internal/transmitter.cpp:57-63 | a flush makes every buffer of the window ready to be sent and changes nothing else |
| `SendProgress.CloseExact` | src/roo_transport/link/internal/transmitter.cpp:75-89 | a close makes everything ready and ends the stream with one empty final packet, which waits exactly when no slot is free; a broken transmitter becomes idle |
| `OutBuffers.OutBuffer.MarkSent` | src/roo_transport/link/internal/out_buffer.cpp:42-45 | the counter stops at 255, and the next transmission is due within a fifth of the capped delay for the new count |
| `Transmitters.Transmitter.constructor` | src/roo_transport/link/internal/transmitter.cpp:9-21 | the constructed transmitter is valid, idle and empty |
| `Transmitters.Transmitter.TryWrite` | src/roo_transport/link/internal/transmitter.cpp:23-55 | on 16-bit positions and the slot array: the bytes accepted, the new window and the wake-up flag are those of the specification |
| `Transmitters.Transmitter.Flush` | src/roo_transport/link/internal/transmitter.cpp:57-63 | the same for flushing |
| `Transmitters.Transmitter.AddEosPacket` | src/roo_transport/link/internal/transmitter.cpp:67-73 | the final packet is appended to the window in the slot of its position |
| `Transmitters.Transmitter.Close` | src/roo_transport/link/internal/transmitter.cpp:75-89 | the same for closing, with and without a free slot |
| `Transmitters.Transmitter.SetBroken` | src/roo_transport/link/internal/transmitter.cpp:91-96 | the same for breaking |
| `Transmitters.Transmitter.ScanForDue` | src/roo_transport/link/internal/transmitter.cpp:135-159 | the loop over wrapped positions computes the scan |
| `Transmitters.Transmitter.SendDue` | src/roo_transport/link/internal/transmitter.cpp:134-194 | the fallback path sends the specified buffer, or reports the specified delay |
| `Transmitters.Transmitter.GetBufferToSend` | src/roo_transport/link/internal/transmitter.cpp:116-194 | which buffer is sent, its new content and the delay are those of the specification; in the state that the membership test misjudges, the slot `next_to_send_` points at goes out with its old bytes if it was never sent, and nothing otherwise |
| `Transmitters.Transmitter.Reset` | src/roo_transport/link/internal/transmitter.cpp:196-205 | the same for resetting |
| `Transmitters.Transmitter.Init` | src/roo_transport/link/internal/transmitter.cpp:207-220 | the same for starting a stream |
| `Transmitters.Transmitter.SetConnected` | src/roo_transport/link/internal/transmitter.h:78-84 | the same for connecting |
| `Transmitters.Transmitter.ApplyAckBitmap` | src/roo_transport/link/internal/transmitter.cpp:256-294 | the bit loops mark exactly the positions the bitmap names, rush exactly the skipped ones sent once, and aim at the first of them |
| `Transmitters.Transmitter.Ack` | src/roo_transport/link/internal/transmitter.cpp:222-295 | the new state and the wake-up flag are those of the specification for every control bit, id and bitmap |
| `Transmitters.Transmitter.UpdateRecvHimark` | src/roo_transport/link/internal/transmitter.cpp:297-316 | a himark is accepted or rejected as specified |
| `Receivers.Receiver.constructor` | src/roo_transport/link/internal/receiver.cpp:9-23 | the constructed receiver is valid, idle and empty |
| `Receivers.Receiver.HandleDataPacket` | src/roo_transport/link/internal/receiver.cpp:231-300 | on 16-bit positions and the slot array: the new window, first missing position and both flags are those of the specification for every packet |
| `Receivers.Receiver.TryRead` | src/roo_transport/link/internal/receiver.cpp:54-99 | for every call that passes the check on final packets, the bytes returned and the new state are those of the specification |
| `Reception.FinLastChecks` | src/roo_transport/link/internal/receiver.cpp:92-95 | the check passes for every count when a final packet can only be the last of the window |
| `Receivers.Receiver.AvailableForRead` | src/roo_transport/link/internal/receiver.cpp:125-145 | the count is the unread part of the front packet, or 1 at the end of the stream |
| `Receivers.Receiver.Ack` | src/roo_transport/link/internal/receiver.cpp:195-229 | the packet carries the first missing position and the trimmed bitmap of what arrived after it |
| `Receivers.Receiver.AckMask` | src/roo_transport/link/internal/receiver.cpp:207-218 | the loop sets exactly the bits of the positions that have arrived |
| `Receivers.Receiver.UpdateRecvHimark` | src/roo_transport/link/internal/receiver.cpp:174-193 | the advertised position and the delay are those of the specification |
| `Receivers.Receiver.SetConnected` | src/roo_transport/link/internal/receiver.cpp:25-31 | an empty receiver starts at the peer's sequence number and keeps its other fields, the read cursor included |
| `Receivers.Receiver.Reset` | src/roo_transport/link/internal/receiver.cpp:147-161 | every slot of the window is cleared and the cursor too |
| `Receivers.Receiver.Init` | src/roo_transport/link/internal/receiver.cpp:163-172 | with no read in progress the receiver is ready for the next stream; the cursor stays where it was in any case |
| `Restart.StartsCleanExactly` | src/roo_transport/link/internal/receiver.cpp:163-172 | after `init` and `setConnected` the first reads return the new stream exactly when no read was in progress, or it waited at the very slot the first packet goes to |
| `Restart.StaleByteAfterRestart` | src/roo_transport/link/internal/receiver.cpp:54-99 | an input on which a byte of the old stream is returned |
| `ReceptionLog.ReadsArePrefix` | src/roo_transport/link/internal/receiver.cpp:231-300 | over every run of arrivals in any order, repeated, conflicting or bogus, the slots refine a first-write-wins map, `unack_seq_` is its first missing position, and the bytes read are a prefix of its content up to there |
| `ReceptionLog.ReadsExactly` | src/roo_transport/link/internal/receiver.cpp:54-99 | a read returns exactly the next bytes before the first missing position, as many as asked for or as there are |
| `ReceptionLog.ArriveRefines` | src/roo_transport/link/internal/receiver.cpp:243-288 | an arrival changes the map at its position only, and only if nothing is stored there |
| `ReceptionLog.ReadLoopRefines` | src/roo_transport/link/internal/receiver.cpp:59-97 | a read advances the bytes read and keeps the map |
| `ReceiveEffect.ArrivalExact` | src/roo_transport/link/internal/receiver.cpp:231-300 | the whole effect of a data packet: first come, first stored, the window grows to its position, the first missing position moves exactly when it is filled, and an ack is owed for every packet of the connection that is not beyond the window |
| `ReceiveEffect.ArrivalIsAcknowledged` | src/roo_transport/link/internal/receiver.cpp:243-281 | the next packet of the receiver is then an ack of its new first missing position |
| `ReceiveEffect.AckExact` | src/roo_transport/link/internal/receiver.cpp:195-229 | bit j of an ack says exactly whether the position j + 1 after the first missing one has arrived, for the 64 positions it covers; sending it clears the debt |
| `ReceiveEffect.AdvertiseExact` | src/roo_transport/link/internal/receiver.cpp:174-193 | the flow-control packet goes out exactly when the last one has expired and carries the end of the space |
| `ReceiveEffect.ReadFreesSpace` | src/roo_transport/link/internal/receiver.cpp:79-97 | a read reports new space exactly when it has freed a slot, and the space is then advertised at once |
| `SeqNums.OrderExact` | src/roo_transport/link/internal/seq_num.h:40-58 | wrapped comparison agrees with the order of positions less than half the number space apart |
| `SeqNums.DiffExact` | src/roo_transport/link/internal/seq_num.h:75-76 | so does wrapped distance |
| `RingBuffers.InWindowExact` | src/roo_transport/link/internal/ring_buffer.h:57-57 | the membership test is right for every 16-bit value exactly except one value of an empty window |
| `RingBuffers.EmptyWindowContainsOppositeValue` | src/roo_transport/link/internal/ring_buffer.h:57-57 | an input on which it is wrong |
| `RingBuffers.RestoreExact` | src/roo_transport/link/internal/ring_buffer.h:70-74 | a 12-bit id is restored to its position if and only if the position lies within half the id space of the window's begin |
| `RingBuffers.RestoreBitsExact` | src/roo_transport/link/internal/ring_buffer.h:70-74 | the 16-bit computation agrees with the unbounded one for every id and window |
| `RingBuffers.SlotInjective` | src/roo_transport/link/internal/ring_buffer.h:60-63 | two positions of one window never share a slot |
| `RingBuffers.SlotOfWrap` | src/roo_transport/link/internal/ring_buffer.h:60-63 | masking the wrapped number selects the slot of the position |
| `RingBuffers.RingBuffer.constructor` | src/roo_transport/link/internal/ring_buffer.h:16-21 | the constructed window is empty and has a power-of-two capacity |
| `RingBuffers.RingBuffer.Contains` | src/roo_transport/link/internal/ring_buffer.h:57-57 | membership is exact for positions less than half the number space away |
| `RingBuffers.RingBuffer.Push` | src/roo_transport/link/internal/ring_buffer.h:34-37 | the window grows by the position returned |
| `RingBuffers.RingBuffer.Pop` | src/roo_transport/link/internal/ring_buffer.h:40-43 | the window loses its first position, which is returned |
| `RingBuffers.RingBuffer.Reset` | src/roo_transport/link/internal/ring_buffer.h:49-53 | an empty window moves to a sequence number |
| `Protocol.HeaderRoundTrip` | src/roo_transport/link/internal/protocol.h:111-129 | parsing inverts formatting, and marking a data header final changes only its type |
| `Protocol.PacketRoundTrip` | src/roo_transport/link/internal/protocol.h:121-124 | header and payload are read back from the bytes of a packet |
| `Protocol.BitmapRoundTrip` | src/roo_transport/link/internal/receiver.cpp:220-228 | a 64-bit map, stored and stripped of trailing zero bytes, reads back bit by bit as the transmitter reads it |
| `Handshake.Agreement` | src/roo_transport/link/internal/thread_safe/channel.cpp:347-485 | over every run with fresh ids, across reconnects on both sides, whenever a transmitter of either side is connected, the peer's receiver was connected to its current stream at exactly the sequence number drawn in `connect` |
| `Handshake.NoAbort` | src/roo_transport/link/internal/thread_safe/channel.cpp:402-465 | no check in the handshake fails in any run: the receiver is empty whenever it is connected to a stream, and an acknowledged stream id is not zero |
| `Handshake.StreamsStayApart` | src/roo_transport/link/internal/thread_safe/channel.cpp:487-540 | over every run in which data, acks and flow control share the queues with the handshake packets of any number of reconnects, a connected receiver gets data only of the very stream it is connected to, and a connected transmitter gets feedback only on its current stream |
| `Handshake.FirstLinkIsClean` | src/roo_transport/link/internal/thread_safe/channel.cpp:402-417 | when a receiver is connected to a stream for the first time, nothing of that stream has been sent and nothing of it is in flight |
| `Handshake.RelinkedRun` | src/roo_transport/link/internal/thread_safe/channel.cpp:376-417 | why only the first time: a run in which a repeated packet connects the peer's next receiver to a stream under way |
| `Handshake.HalfOpenRun` | src/roo_transport/link/internal/thread_safe/channel.cpp:419-468 | a run after which transmitter and receiver of one endpoint are connected to different streams of the peer |
| `Handshake.PairedIff` | src/roo_transport/link/internal/thread_safe/channel.cpp:402-417 | an acknowledgement leaves the two halves paired exactly when it comes from the stream the receiver is connected to |
| `Handshake.PairedControlBits` | src/roo_transport/link/internal/protocol.h:119-124 | paired endpoints use opposite control bits |
| `Handshake.CallbacksConserved` | src/roo_transport/link/internal/thread_safe/channel.cpp:158-208 | every action keeps the rule that an installed callback is claimed exactly once, exactly when its stream stops being current |
| `Handshake.CallbacksAlways` | src/roo_transport/link/internal/thread_safe/channel.cpp:394-398 | the rule holds on both sides over every run |
| `Handshake.ReachableOk` | src/roo_transport/link/internal/thread_safe/channel.cpp:297-485 | every reachable pair of endpoints satisfies the handshake invariant |
| `HandshakeLiveness.RepeatIsAnswered` | src/roo_transport/link/internal/thread_safe/channel.cpp:419-468 | in every reachable state with both halves connected, a repeated request of the peer is accepted, and the next packet acknowledges the peer's stream |
| `HandshakeLiveness.RecoversFromLostAck` | src/roo_transport/link/internal/thread_safe/channel.cpp:297-468 | from every reachable state in which the peer still waits for an ack that was lost, the peer's request and our answer connect its transmitter |
| `HandshakeLiveness.HandshakeCompletes` | src/roo_transport/link/internal/thread_safe/channel.cpp:297-485 | two endpoints that have called `connect` are both connected, to each other's streams, after three packets |
| `HandshakeLiveness.NewStreamBreaks` | src/roo_transport/link/internal/thread_safe/channel.cpp:419-456 | in every reachable state, the first packet of a new stream of the peer stops the transmitter, claims the disconnect callback, and leaves connected only a receiver that still holds data |
| `HandshakeLiveness.RestartHeals` | src/roo_transport/link/internal/thread_safe/channel.cpp:297-485 | after a restart of the peer its first packet ends our old stream, and when the application connects again three packets join the two new streams |
| `Channels.Channel.Connect` | src/roo_transport/link/internal/thread_safe/channel.cpp:158-186 | the critical section does what the handshake model says and hands out the previous callback |
| `Channels.Channel.Disconnect` | src/roo_transport/link/internal/thread_safe/channel.cpp:188-208 | the same; a stale stream id changes nothing |
| `Channels.Channel.Conn` | src/roo_transport/link/internal/thread_safe/channel.cpp:297-345 | whether a handshake packet is sent, its fields, and while connecting the backoff that spaces the packets and the delay reported |
| `Channels.Channel.HandleHandshakePacket` | src/roo_transport/link/internal/thread_safe/channel.cpp:347-485 | the branches of the code, with their checks, compute the handshake model's step, and a callback is returned exactly when it is claimed |
| `Notification.NeverFarther` | src/roo_transport/link/internal/thread_safe/outgoing_data_ready_notification.h:21-38 | while announced work is unseen no step takes the send loop farther from `trySend`, and every move of the loop takes it closer |
| `Notification.NeverStuck` | src/roo_transport/link/internal/thread_safe/outgoing_data_ready_notification.h:21-38 | some step that does not depend on a timeout is enabled and brings `trySend` closer |
| `Notification.WakesUp` | src/roo_transport/link/internal/thread_safe/outgoing_data_ready_notification.h:21-38 | from every reachable state with announced work that is unseen, at most eleven steps without timeout, spurious wake-up or new work lead to `trySend`, which sees it |
| `Notification.FewMoves` | src/roo_transport/link/internal/thread_safe/outgoing_data_ready_notification.h:32-38 | however the steps interleave, the loop makes fewer than five moves before `trySend` once work is announced |
| `Notification.TrySendSees` | src/roo_transport/link/internal/thread_safe/channel.cpp:542-552 | the next `trySend` sees all the work announced |
| `Notification.NeverAsleepUnnoticed` | src/roo_transport/link/internal/thread_safe/outgoing_data_ready_notification.h:32-38 | the loop is never asleep with the flag set and no notifier on its way |
| `TxRing.SentIsPrefix` | src/roo_transport/link/pico/reliable_uart_dma.cpp:220-278 | over every interleaving of writer, DMA channel and interrupt, the bytes moved are a prefix of the bytes written, across wrap of the 32-bit counters; no transfer in flight means head equals tail; head equals tail only when all is sent |
| `TxRing.NothingOverwritten` | src/roo_transport/link/pico/reliable_uart_dma.cpp:222-239 | no byte in flight or waiting is overwritten by the unlocked copy |
| `TxRing.NextKeeps` | src/roo_transport/link/pico/reliable_uart_dma.cpp:220-278 | every step keeps the invariant of the ring |
| `TxRing.CheckExact` | src/roo_transport/link/pico/reliable_uart_dma.cpp:223-231 | the chunk is the smallest of what is left to write, the free slots and the rest of the ring; the writer waits only when the ring is full |
| `TxRing.Drained` | src/roo_transport/link/pico/reliable_uart_dma.cpp:256-278 | from every state, transfers and interrupts alone send everything published |
| `TxRing.Completed` | src/roo_transport/link/pico/reliable_uart_dma.cpp:220-241 | from every state, the steps of a writer and of the hardware complete the call and send everything written |
| `TxRing.ResolvesExactly` | src/roo_transport/link/pico/reliable_uart_dma.cpp:171-195 | when the DMA count is renewed, the receive position is recovered from the sampled count and the write address if and only if the sample is off by less than half a ring, or behind by exactly half |
| `UartTx.Uart.constructor` | src/roo_transport/link/pico/reliable_uart_dma.cpp:72-81 | the ring starts empty over a buffer of any content |
| `UartTx.Uart.TakeChunk` | src/roo_transport/link/pico/reliable_uart_dma.cpp:223-231 | a chunk fits the free space and does not cross the end of the ring; none means that the ring is full |
| `UartTx.Uart.CopyChunk` | src/roo_transport/link/pico/reliable_uart_dma.cpp:232-232 | the copy is a run of copy steps of the model |
| `UartTx.Uart.PublishChunk` | src/roo_transport/link/pico/reliable_uart_dma.cpp:233-236 | the critical section is the publish step of the model |
| `UartTx.Uart.StartTx` | src/roo_transport/link/pico/reliable_uart_dma.cpp:256-263 | the segment started is the model's |
| `UartTx.Uart.TxIrq` | src/roo_transport/link/pico/reliable_uart_dma.cpp:272-276 | the handler's critical section is the interrupt step of the model |
| `RpcAccounting.EachRequestOnce` | src/roo_transport/rpc/server.cpp:30-114 | over every interleaving, each accepted request is in exactly one place: pending, dropped, or answered by exactly one response |
| `RpcAccounting.AtMostOneResponse` | src/roo_transport/rpc/server.cpp:146-162 | the peer never gets two responses for one request |
| `RpcAccounting.ResponsesAreHonest` | src/roo_transport/rpc/server.cpp:146-189 | a response goes to the connection and stream of its request, and any status but "deadline exceeded" was claimed before the deadline |
| `RpcAccounting.ReplyClaimsExactly` | src/roo_transport/rpc/server.cpp:146-162 | a reply claims a request if and only if the request is pending and the reply is for its connection and stream id while that connection is current |
| `RpcAccounting.HandleClaimsOther` | src/roo_transport/rpc/server.cpp:146-162 | the handle of one request claims another if and only if the other came later on the same connection and stream id and is pending while that connection is current; its own request is then no longer pending |
| `RpcAccounting.StaleHandleClaims` | src/roo_transport/rpc/server.cpp:146-162 | a run in which that happens |
| `RpcAccounting.FateIsFinal` | src/roo_transport/rpc/server.cpp:98-162 | a request that has been answered or dropped stays so under every step |
| `RpcAccounting.NeverOversleeps` | src/roo_transport/rpc/server.cpp:164-189 | the deadline thread never sleeps past the deadline of a pending request, and runs whenever one has a deadline |
| `RpcAccounting.EarliestOfAll` | src/roo_transport/rpc/server.cpp:167-174 | the scan finds the earliest deadline whatever the iteration order |
| `RpcAccounting.NextKeeps` | src/roo_transport/rpc/server.cpp:19-189 | every step keeps the server's invariant |
| `RpcAccounting.RegisterExact` | src/roo_transport/rpc/server.cpp:54-73 | a request is accepted exactly when its stream id is free and the server runs, and is then pending as it came |
| `RpcAccounting.ClearsExactly` | src/roo_transport/rpc/server.cpp:98-114 | a reset of the current connection and the arrival of another one drop everything that is pending and nothing else |
| `RpcAccounting.RoundExpires` | src/roo_transport/rpc/server.cpp:164-189 | when a request is due, a round of the deadline thread fails one with the earliest deadline of all |
| `RpcServers.RpcServer.constructor` | src/roo_transport/rpc/server.cpp:7-11 | the server starts with an empty table |
| `RpcServers.RpcServer.Reconnected` | src/roo_transport/rpc/server.cpp:98-106 | the critical section is the model's step |
| `RpcServers.RpcServer.ConnectionReset` | src/roo_transport/rpc/server.cpp:108-114 | the same |
| `RpcServers.RpcServer.Register` | src/roo_transport/rpc/server.cpp:54-73 | the same; duplicates and requests to a stopped server are not accepted |
| `RpcServers.RpcServer.PrepForResponse` | src/roo_transport/rpc/server.cpp:146-162 | the same, with the status actually to be sent |
| `RpcServers.RpcServer.Scan` | src/roo_transport/rpc/server.cpp:167-174 | the loop computes the earliest deadline |
| `RpcServers.RpcServer.DeadlineRound` | src/roo_transport/rpc/server.cpp:164-189 | one round of the deadline thread; if it fails no request then none is due |
| `RpcCalls.AtMostOnce` | src/roo_transport/rpc/client.cpp:14-83 | over every interleaving a callback runs at most once, is neither running nor armed when `kUnavailable` has been returned, and ids lie in 1 .. 2^24 - 1 |
| `RpcCalls.UnavailableIsFinal` | src/roo_transport/rpc/client.cpp:65-83 | once `kUnavailable` has been returned no later event makes the callback run |
| `RpcCalls.EveryCallAccounted` | src/roo_transport/rpc/client.cpp:55-133 | while no id is given out that is in use, each call is registered, claimed, completed once or cancelled, and only one of these |
| `RpcCalls.LosesExactlyIfBusy` | src/roo_transport/rpc/client.cpp:55-74 | after a registration, some run without another one loses a call if and only if the id given out was in use: still registered, or of a call whose send is undecided |
| `RpcCalls.OlderSenderErases` | src/roo_transport/rpc/client.cpp:65-70 | the run in which the failed send of an older call of the same id erases the new call |
| `RpcCalls.NewSenderErases` | src/roo_transport/rpc/client.cpp:65-70 | the run in which the failed send of the new call erases an older one that waits for its response |
| `RpcCalls.CompletableExactly` | src/roo_transport/rpc/client.cpp:55-63 | some later events complete a new call if and only if its id was not registered |
| `RpcCalls.RecentIdsDiffer` | src/roo_transport/rpc/client.cpp:55-63 | ids are free as long as no call stays in use for 2^24 - 1 registrations |
| `RpcCalls.LostForever` | src/roo_transport/rpc/client.cpp:55-133 | a call that is in no place never runs |
| `RpcCalls.NextKeeps` | src/roo_transport/rpc/client.cpp:55-133 | every step keeps the client's invariant |
| `RpcCalls.ResetClaimsExactly` | src/roo_transport/rpc/client.cpp:122-133 | a reset claims every registered call, once, and no other |
| `RpcCalls.CompletedByReset` | src/roo_transport/rpc/client.cpp:122-133 | a registered call whose callback is armed is completed by a reset |
| `RpcCalls.FailedSendCancels` | src/roo_transport/rpc/client.cpp:65-74 | a failed send disarms the call, and whatever follows, its callback runs no more |
| `RpcClients.RpcClient.constructor` | src/roo_transport/rpc/client.cpp:7-8 | the registry starts empty |
| `RpcClients.RpcClient.NewStream` | src/roo_transport/rpc/client.cpp:55-63 | the critical section is the model's step, and the id is in range |
| `RpcClients.RpcClient.EraseFailed` | src/roo_transport/rpc/client.cpp:65-70 | the same |
| `RpcClients.RpcClient.TakeForResponse` | src/roo_transport/rpc/client.cpp:101-112 | the same |
| `RpcClients.RpcClient.TakeAllForReset` | src/roo_transport/rpc/client.cpp:122-128 | the same |
| `Serialization.DecodeIffEncoded` | src/roo_transport/rpc/serialization.h:495-630 | for every nested type and every byte string: it is accepted as a value if and only if it is that value's encoding, the value is of the type and no member is too long |
| `Serialization.DecodeEncoded` | src/roo_transport/rpc/serialization.h:494-552 | deserializing what was serialized gives the value back |
| `Serialization.EncodeDecoded` | src/roo_transport/rpc/serialization.h:512-574 | every accepted byte string serializes to itself |
| `Serialization.SignedInverse` | src/roo_transport/rpc/serialization.h:245-272 | signed integers of any width survive two's complement |
| `DynamicSerializing.Serialize` | src/roo_transport/rpc/serialization.h:546-551 | serialization returns exactly the recursive length-prefixed encoding, and fails exactly when some member is longer than 65535 bytes |
| `DynamicSerializing.DynamicSerialized.SerializeInto` | src/roo_transport/rpc/serialization.h:164-192 | it appends the encoding behind what was there, or clears the buffer |
| `DynamicSerializing.DynamicSerialized.SerializeMemberInto` | src/roo_transport/rpc/serialization.h:494-510 | reserving, writing and going back adds exactly the length and the encoding, and touches nothing before |
| `DynamicSerializing.DynamicSerialized.SerializeAllInto` | src/roo_transport/rpc/serialization.h:578-586 | members are appended in order until one fails |
| `DynamicSerializing.DynamicSerialized.WriteByte` | src/roo_transport/rpc/serialization.h:121-131 | one byte is overwritten or appended, after zeros if the position is past the end |
| `DynamicSerializing.DynamicSerialized.WriteBytes` | src/roo_transport/rpc/serialization.h:134-153 | the same for a run of bytes that may start inside and end past the content |
| `DynamicSerializing.BackPatch` | src/roo_transport/rpc/serialization.h:507-509 | writing the prefix into the reserved bytes gives prefix and code behind the old content |
| `Segmenter.PacketsOfPieces` | src/roo_transport/packets/over_stream/packet_receiver_over_stream.cpp:39-75 | what a piece of the stream adds depends on the unfinished frame only |
| `Segmenter.Resynchronizes` | src/roo_transport/packets/over_stream/packet_receiver_over_stream.cpp:46-65 | after arbitrary noise, what follows a zero byte is handled as if it came first |
| `Segmenter.SplitIsUnique` | src/roo_transport/packets/over_stream/packet_receiver_over_stream.cpp:45-65 | a stream has one division into zero-terminated frames and a rest, and that is the one used |
| `Segmenter.SplitIsExact` | src/roo_transport/packets/over_stream/packet_receiver_over_stream.cpp:45-75 | frames and rest make up the stream, and every frame has its only zero byte at the end |
| `Segmenter.SentIsReceived` | src/roo_transport/packets/over_stream/packet_sender_over_stream.cpp:14-25 | for every codec that frames and decodes buffers with the sentinel at both ends, packets sent after any noise and a zero byte are delivered exactly, in order |
| `TinyFrames.TinyFrameCodecOk` | src/roo_transport/packets/over_stream/packet_sender_over_stream.cpp:17-23 | such a codec exists: in-place byte stuffing, for any sentinel and checksum |
| `TinyFrames.TinyFramesAreReceived` | src/roo_transport/packets/over_stream/packet_receiver_over_stream.cpp:104-123 | with it, packets sent after any noise and a zero byte are delivered exactly, with no assumption left |
| `PacketReceivers.PacketReceiver.ProcessIncoming` | src/roo_transport/packets/over_stream/packet_receiver_over_stream.cpp:39-75 | the packets delivered for one read are exactly those it adds to the packets of the whole stream |
| `PacketReceivers.PacketReceiver.FinishFrame` | src/roo_transport/packets/over_stream/packet_receiver_over_stream.cpp:49-65 | a frame of 6 to 256 bytes that decodes is delivered, from either buffer, and nothing else is |
| `PacketReceivers.PacketReceiver.ExtendFrame` | src/roo_transport/packets/over_stream/packet_receiver_over_stream.cpp:66-73 | an unfinished frame is kept, or remembered as too long |
| `PacketReceivers.PacketReceiver.CopyIn` | src/roo_transport/packets/over_stream/packet_receiver_over_stream.cpp:59-59 | the copy stays inside the 256-byte buffer |
| `PacketReceivers.PacketReceiver.ProcessAll` | src/roo_transport/packets/over_stream/packet_receiver_over_stream.cpp:25-37 | for every division of a stream into reads, the packets delivered are those of the whole stream |
| `RetryBackoff.RetryBackoffMicros` | src/roo_transport/link/internal/retry_backoff.h:22-37 | the 32-bit loop computes the specified delay with no overflow |
| `RetryBackoff.BackoffRange` | src/roo_transport/link/internal/retry_backoff.h:32-36 | the delay lies within a fifth of the capped base, upper end excluded, for every draw and retry count |
| `RetryBackoff.BackoffMonotone` | src/roo_transport/link/internal/retry_backoff.h:22-37 | it grows with the draw and with the retry count |
| `RetryBackoff.GrowthStopsWithin25` | src/roo_transport/link/internal/retry_backoff.h:27-31 | the base no longer changes after 25 retries |

## Left out

- Receivers.Receiver.Init: with a read in progress it states only what the code leaves behind, because the receiver is not in a state from which the new stream reads correctly; `Restart.StartsCleanExactly` says when it is.
- `markInputClosed` and `setBroken` of the receiver, with the flag `self_closed_`: no stream property holds once unread packets are thrown away, and the receiver's broken state is never assigned.
- A medium that reorders packets: the transmitter reads the bitmap relative to its own window, which is right for in-order delivery only.
- Two directions at once: the data of one direction and its feedback are one model; the other direction has the same code and separate state.
- Liveness is the existence of a completing run from every state, for the connection and, from empty queues, for the handshake; that a fair scheduler takes it is not modelled, and the clock is taken not to run out before.
- The 11 bytes of the handshake packet, which are modelled as a record.
- Stream ids are taken to be fresh where the code draws them at random.
- Send and receive buffers are values stored in the slots of arrays, not objects with their own identity; ack bitmaps are at most as long as a packet.
- Packet counters, the receiver's write-only field `recv_himark_`, logging, status strings and the stream ids kept for logging.
- `trySend` bursts, the blocking wrappers of transmitter and receiver, `Link`, the stream classes, messaging and RPC headers: forwarding and simple framing.
- The COBS codec, the murmur3 hash and the byte order helpers come from other repositories: codec and hash are parameters (`TinyFrames` gives a codec of that kind), byte order is a simple function.
- The rest of the receive side of the RP2040 UART (copying out of the ring and counting overruns), hardware setup, other interrupts, clocks and thread attributes.
- The RPC server's response payloads and the handler lookup; replies may come from any thread at any time, which includes those of `handleRequest` itself.
- The hash map of the RPC client is taken to keep an existing entry on insertion, as the standard containers do; an iteration order is a parameter.
- The partial result a failed deserialization leaves in its output argument, and serializers for application types.
