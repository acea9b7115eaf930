/** One direction of a connection: a transmitter, the peer's receiver, and the two
lossy first-in-first-out packet queues between them.

Packets travel as raw bytes.  The fields of `World` after `back` are history: no
step reads them.  They name what the theorems are about: every packet ever queued
and its unbounded position, the bytes accepted and the bytes delivered.
*/
module Connection {
  import opened Basics
  import opened SeqNums
  import opened Protocol
  import opened Transmission
  import opened TransmissionFacts
  import opened Reception
  import opened ReceptionLog

  /** A data packet in flight; its position and the end of the send window when it was sent are history. */
  datatype InFlight = InFlight(bytes: seq<byte>, pos: int, sentEnd: int)

  /** An ack or flow-control packet in flight; the position it carries is history. */
  datatype Feedback = Feedback(bytes: seq<byte>, value: int)

  datatype World = World(
    tx: TxState,
    rx: RxState,
    fwd: seq<InFlight>,
    back: seq<Feedback>,
    log: Log,
    packets: seq<Pkt>,
    written: seq<byte>,
    closed: bool,
    next: int,
    sentTo: int)

  // ----- packet dispatch (Channel::packetReceived) -----

  predicate IsData(bytes: seq<byte>) {
    && 2 <= |bytes| <= MAX_PACKET_SIZE
    && PacketKind(LoadHeader(bytes)) <= FIN_PACKET
    && !(PacketKind(LoadHeader(bytes)) == DATA_PACKET && |bytes| == 2)
  }

  predicate IsAck(bytes: seq<byte>) {
    2 <= |bytes| <= MAX_PACKET_SIZE && PacketKind(LoadHeader(bytes)) == DATA_ACK_PACKET
  }

  predicate IsHimark(bytes: seq<byte>) {
    |bytes| == 2 && PacketKind(LoadHeader(bytes)) == FLOW_CONTROL_PACKET
  }

  function ReceiveData(rx: RxState, bytes: seq<byte>): RxState
    requires RxWellFormed(rx)
  {
    if IsData(bytes) then
      var h := LoadHeader(bytes);
      HandleData(rx, ControlBit(h), PacketId(h), bytes[2..], PacketKind(h) == FIN_PACKET).next
    else rx
  }

  function ReceiveFeedback(tx: TxState, bytes: seq<byte>): TxState
    requires WellFormed(tx)
  {
    if IsAck(bytes) then
      Transmission.Ack(tx, ControlBit(LoadHeader(bytes)), PacketId(LoadHeader(bytes)), bytes[2..]).next
    else if IsHimark(bytes) then
      UpdateRecvHimark(tx, ControlBit(LoadHeader(bytes)), PacketId(LoadHeader(bytes))).next
    else tx
  }

  // ----- history -----

  /** The packets ever queued: those already removed from the window, then the window. */
  function History(packets: seq<Pkt>, base: int, t: TxState): seq<Pkt> {
    var n := t.begin - base;
    if 0 <= n <= |packets| then packets[..n] + PktsOf(t.window) else packets
  }

  function Observe(w: World, t: TxState): World {
    w.(tx := t, packets := History(w.packets, w.log.base, t))
  }

  function Drop<T>(q: seq<T>, i: nat): seq<T> {
    if i < |q| then q[..i] + q[i + 1..] else q
  }

  // ----- steps -----

  datatype Step =
    | Connect
    | Write(data: seq<byte>)
    | FlushOut
    | CloseOut
    | SendData(now: nat, draw: nat)
    | LoseData(i: nat)
    | DeliverData
    | SendAck
    | SendHimark(now: nat)
    | LoseFeedback(i: nat)
    | DeliverFeedback
    | Read(count: nat)
    | Poll

  predicate Legal(e: Step) { e.SendData? ==> e.draw <= RANDOM_MAX }

  /** The peer's acknowledgement of our stream id: the handshake tells the transmitter the
      size of the receive window, and gives the two sides opposite control bits. */
  function StepConnect(w: World): World {
    if w.tx.state == Connecting
    then Observe(w, SetConnected(w.tx, w.rx.capacity, !w.rx.control)) else w
  }

  function StepWrite(w: World, data: seq<byte>): World
    requires WellFormed(w.tx)
  {
    var r := TryWrite(w.tx, data);
    Observe(w, r.next).(written := w.written + data[..r.written])
  }

  function StepClose(w: World): World
    requires WellFormed(w.tx)
  {
    Observe(w, Close(w.tx)).(closed := w.closed || Writable(w.tx))
  }

  function Max(a: int, b: int): int { if a < b then b else a }

  function StepSend(w: World, now: nat, draw: nat): World
    requires WellFormed(w.tx) && draw <= RANDOM_MAX
  {
    var r := Send(w.tx, now, draw, 0);
    if r.sent.None? then Observe(w, r.next)
    else
      var p := w.tx.begin + r.sent.value;
      Observe(w, r.next).(
        fwd := w.fwd + [InFlight(r.next.window[r.sent.value].Bytes(), p, w.tx.End())],
        next := p + 1,
        sentTo := Max(w.sentTo, p + 1))
  }

  function StepDeliver(w: World): World
    requires RxWellFormed(w.rx)
  {
    if w.fwd == [] then w
    else
      var bytes := w.fwd[0].bytes;
      w.(rx := ReceiveData(w.rx, bytes),
         fwd := w.fwd[1..],
         log := if !IsData(bytes) then w.log else
                  var h := LoadHeader(bytes);
                  LogArrive(w.rx, w.log, ControlBit(h), PacketId(h), bytes[2..], PacketKind(h) == FIN_PACKET))
  }

  function StepSendAck(w: World): World
    requires RxWellFormed(w.rx)
  {
    var r := Acknowledge(w.rx);
    w.(rx := r.next, back := if r.packet == [] then w.back else w.back + [Feedback(r.packet, w.rx.unack)])
  }

  function StepSendHimark(w: World, now: nat): World {
    var r := Advertise(w.rx, now, 0);
    w.(rx := r.next,
       back := if r.packet == [] then w.back else w.back + [Feedback(r.packet, w.rx.begin + w.rx.capacity)])
  }

  function StepFeedback(w: World): World
    requires WellFormed(w.tx)
  {
    if w.back == [] then w
    else
      var t := ReceiveFeedback(w.tx, w.back[0].bytes);
      Observe(w, t).(
        back := w.back[1..],
        next := if t.nextToSend == w.tx.nextToSend then w.next
                else t.begin + (t.nextToSend - t.begin) % 0x1_0000)
  }

  function StepRead(w: World, count: nat): World
    requires RxWellFormed(w.rx)
  {
    var r := TryRead(w.rx, count);
    w.(rx := r.next, log := w.log.(read := w.log.read + r.bytes))
  }

  function Next(w: World, e: Step): World
    requires WellFormed(w.tx) && RxWellFormed(w.rx) && Legal(e)
  {
    match e
    case Connect => StepConnect(w)
    case Write(data) => StepWrite(w, data)
    case FlushOut => Observe(w, Flush(w.tx))
    case CloseOut => StepClose(w)
    case SendData(now, draw) => StepSend(w, now, draw)
    case LoseData(i) => w.(fwd := Drop(w.fwd, i))
    case DeliverData => StepDeliver(w)
    case SendAck => StepSendAck(w)
    case SendHimark(now) => StepSendHimark(w, now)
    case LoseFeedback(i) => w.(back := Drop(w.back, i))
    case DeliverFeedback => StepFeedback(w)
    case Read(count) => StepRead(w, count)
    case Poll => w.(rx := Touch(w.rx))
  }

  /** A connection that starts at sequence number `start`: the transmitter has been
      initialised and the peer's receiver has learned `start`. */
  function Initial(tx: TxState, rx: RxState, start: SeqNum, control: bool): World {
    World(Init(tx, start), RxSetConnected(RxInit(rx), start, control), [], [],
          Log(start, map[], []), [], [], false, start, start)
  }
}
