/** What keeps a connection able to finish: every packet it holds carries the bit the peer listens to and is due in
  * bounded time.  Every step of a run keeps this. */
module ConnectionFairness {
  import opened Basics
  import opened SeqNums
  import opened RingBuffers
  import opened Protocol
  import opened OutBuffers
  import opened Transmission
  import opened TransmissionFacts
  import opened SendProgress
  import AckEffect
  import opened Reception
  import ReceptionLog
  import opened Connection
  import opened ConnectionInvariant
  import opened ConnectionReceiveSteps
  import opened ConnectionFeedbackSteps
  import opened ConnectionTheorems
  import opened ConnectionEnding

  // ----- a connection that can make progress -----

  /** The buffers of a window carry a control bit and are due by a time. */
  ghost predicate Ready(w: seq<OutBuffer>, bit: bool, time: nat) {
    forall k :: 0 <= k < |w| ==> ControlBit(w[k].header) == bit && Due(w[k]) <= time
  }

  /** The transmitter has been connected, its packets carry the bit that the receiver listens to, and all of them are
      due by a time that the clock can reach. */
  ghost predicate Fair(w: World, time: nat) {
    && Inv(w) && Ended(w) && w.tx.state != Connecting && time < UPTIME_MAX && (w.tx.window == [] ==> !w.tx.pendingEof)
    && Ready(w.tx.window, !w.rx.control, time) && AllCarry(w.fwd, !w.rx.control)
  }

  lemma FairStates(w: World, time: nat)
    requires Fair(w, time)
    ensures WellFormed(w.tx) && RxWellFormed(w.rx) && w.rx.state == Connected
    ensures w.tx.state == Connected || (w.tx.state == Idle && w.tx.window == [])
    ensures w.tx.state == Connected ==> w.tx.control == !w.rx.control
  {
    InvStates(w);
    IdleIsEmpty(w);
    hide Inv, WellFormed, RxWellFormed;
  }

  lemma IdleIsEmpty(w: World)
    requires Inv(w) && w.tx.state != Connecting
    ensures w.tx.state == Connected || (w.tx.state == Idle && w.tx.window == [])
    ensures w.tx.state == Connected ==> w.tx.control == !w.rx.control
  {
    hide WindowOk, StoreOk, RxOk, FlowOk, FwdOk, BackOk, AckedOk, FinOk, NextOk, Bytes, BufferOk;
  }

  /** What is still to be acknowledged; a pending final packet counts twice, as it is still to be queued. */
  function Outstanding(s: TxState): nat { |s.window| + (if s.pendingEof then 2 else 0) }

  // ----- acknowledgements -----

  lemma EosReady(pos: int, control: bool)
    ensures ControlBit(Eos(pos, control).header) == control && Due(Eos(pos, control)) == 0
  {
    HeaderRoundTrip(pos, FIN_PACKET, control);
  }

  lemma LeftReady(s: TxState, n: nat, time: nat)
    requires n <= |s.window| && Ready(s.window, s.control, time)
    ensures Ready(AckEffect.Left(s, n), s.control, time)
  {
    EosReady(s.End(), s.control);
    hide Eos;
  }

  lemma RemarkedReady(a: seq<OutBuffer>, b: seq<OutBuffer>, bit: bool, time: nat)
    requires |a| == |b| && Ready(a, bit, time)
    requires forall k :: 0 <= k < |a| ==> Relaxed(a[k], b[k])
    ensures Ready(b, bit, time)
  {
    assert forall k :: 0 <= k < |a| ==> Relaxed(a[k], b[k]);
  }

  /** The same packet, due no later. */
  predicate Relaxed(b: OutBuffer, c: OutBuffer) { c.header == b.header && Due(c) <= Due(b) }

  /** An ack of position `p` leaves less outstanding, unless it is for the front. */
  lemma AckReady(s: TxState, control: bool, id: nat, bitmap: seq<byte>, time: nat)
    requires WellFormed(s) && s.state == Connected && Ready(s.window, s.control, time)
    requires s.window == [] ==> !s.pendingEof
    ensures var t := Ack(s, control, id, bitmap).next;
            && Ready(t.window, s.control, time) && Outstanding(t) <= Outstanding(s)
            && t.state != Connecting && (t.window == [] ==> !t.pendingEof)
            && (AckEffect.Heeded(s, control, id) && Restore(s.begin, id) > s.begin ==> Outstanding(t) < Outstanding(s))
  {
    hide WellFormed, Ack, AckEffect.Skipped, AckEffect.FirstSkipped, BitmapBit, Restore, Ready;
    AckEffect.AckExact(s, control, id, bitmap);
    if AckEffect.Heeded(s, control, id) {
      var n := AckEffect.Removed(s, id);
      var w, t := AckEffect.Left(s, n), Ack(s, control, id, bitmap).next;
      LeftReady(s, n, time);
      AckPending(s, control, id, bitmap);
      if w == [] {
        NothingReady(s.control, time);
      } else {
        forall k | 0 <= k < |w| ensures Relaxed(w[k], t.window[k]) {
          assert AckEffect.Remarked(w[k], t.window[k], w[k].acked || (k > 0 && BitmapBit(bitmap, k - 1)),
                                    if AckEffect.Skipped(w, bitmap, k) then 0 else w[k].expiration);
        }
        RemarkedReady(w, t.window, s.control, time);
      }
    }
  }

  lemma NothingReady(bit: bool, time: nat)
    ensures Ready([], bit, time)
  {
  }

  /** A pending final packet is queued as soon as anything is removed, and only then. */
  lemma AckPending(s: TxState, control: bool, id: nat, bitmap: seq<byte>)
    requires WellFormed(s) && AckEffect.Heeded(s, control, id)
    ensures var t, n := Ack(s, control, id, bitmap).next, AckEffect.Removed(s, id);
            t.pendingEof == (s.pendingEof && n == 0 && AckEffect.Left(s, n) != [])
  {
    PendingNeedsWindow(s);
    hide WellFormed, ApplyBitmap;
    var n := AckEffect.Removed(s, id);
    AckEffect.PopShape(s, n);
    var u := PopFront(s, n);
    if u.window != [] { AckEffect.BitmapExact(u, bitmap); }
    hide AckEffect.Skipped, AckEffect.FirstSkipped;
  }

  lemma PendingNeedsWindow(s: TxState)
    requires WellFormed(s) && s.state == Connected
    ensures s.pendingEof ==> s.window != []
  {
    hide BufferOk;
  }

  // ----- delivered feedback -----

  lemma AckAsCall(w: World)
    requires Inv(w) && w.back != [] && IsAck(w.back[0].bytes) && w.tx.state == Connected
    ensures WellFormed(w.tx) && |w.back[0].bytes| >= 2
    ensures var h := LoadHeader(w.back[0].bytes);
            && ReceiveFeedback(w.tx, w.back[0].bytes)
               == Ack(w.tx, ControlBit(h), PacketId(h), w.back[0].bytes[2..]).next
            && Restore(w.tx.begin, PacketId(h)) == w.back[0].value && AckEffect.Heeded(w.tx, ControlBit(h), PacketId(h))
  {
    hide WellFormed, WindowOk, StoreOk, FwdOk, AckedOk, FinOk, NextOk, Bytes, FlowOk, PacketId, ControlBit, LoadHeader,
         Ack, Restore, IsHimark, PacketKind, Claims;
    InvStates(w);
    assert BackItemOk(w.tx, w.rx, w.log.base, w.log.store, w.back[0]);
    AckIdExact(w, w.back[0]);
    AckedInWindow(w);
    hide BackOk, RxOk;
  }

  lemma AckedInWindow(w: World)
    requires Inv(w)
    ensures w.rx.unack <= w.tx.End()
  {
    RxInPackets(w);
    hide TxOk, StoreOk, RxOk, FlowOk, FwdOk, BackOk, AckedOk, FinOk, NextOk, Bytes;
  }

  /** The transmitter after any feedback. */
  lemma FeedbackTx(w: World, time: nat)
    requires Fair(w, time) && w.back != []
    ensures WellFormed(w.tx)
    ensures var t := ReceiveFeedback(w.tx, w.back[0].bytes);
            && Ready(t.window, !w.rx.control, time) && Outstanding(t) <= Outstanding(w.tx) && t.state != Connecting
            && (t.window == [] ==> !t.pendingEof)
            && (IsAck(w.back[0].bytes) && w.tx.state == Connected && w.back[0].value > w.tx.begin ==>
                  Outstanding(t) < Outstanding(w.tx))
  {
    hide Inv, WellFormed, RxWellFormed, Ready, AllCarry, Ended, Ack, Restore, LoadHeader, ControlBit, PacketId,
         PacketKind,
         StepFeedback;
    FairStates(w, time);
    var b := w.back[0];
    FeedbackKind(w);
    if w.tx.state != Connected {
      hide ReceiveFeedback;
      IdleIgnores(w.tx, b.bytes);
    } else if IsAck(b.bytes) {
      AckAsCall(w);
      var h := LoadHeader(b.bytes);
      hide ReceiveFeedback;
      AckReady(w.tx, ControlBit(h), PacketId(h), b.bytes[2..], time);
    } else {
      HimarkStepShape(w);
    }
  }

  lemma FeedbackKind(w: World)
    requires Inv(w) && w.back != []
    ensures IsAck(w.back[0].bytes) || IsHimark(w.back[0].bytes)
  {
    hide TxOk, WindowOk, StoreOk, RxOk, FlowOk, FwdOk, AckedOk, FinOk, NextOk, Bytes, IsAck, IsHimark;
    assert BackItemOk(w.tx, w.rx, w.log.base, w.log.store, w.back[0]);
  }

  lemma IdleIgnores(s: TxState, bytes: seq<byte>)
    requires WellFormed(s) && s.state != Connected
    ensures ReceiveFeedback(s, bytes) == s
  {
    hide WellFormed, Restore, LoadHeader;
  }

  lemma FairInv(w: World, time: nat)
    requires Fair(w, time)
    ensures Inv(w)
  {
    hide Inv;
  }

  lemma FlushReady(s: TxState, bit: bool, time: nat)
    requires WellFormed(s) && Ready(s.window, bit, time)
    ensures Ready(Flush(s).window, bit, time)
  {
    FlushExact(s);
    hide WellFormed, Flush;
  }

  // ----- transmissions -----

  const LONGEST_DELAY := 240_000

  /** A transmission is followed by the next one of that packet within the longest delay. */
  lemma SendReady(s: TxState, k: nat, now: nat, draw: nat, bit: bool, late: nat)
    requires WellFormed(s) && k < |s.window| && Ready(s.window, bit, late) && now + LONGEST_DELAY <= late
    requires draw <= RANDOM_MAX
    ensures Ready(SendBuffer(s, k, now, draw).window, bit, late)
  {
    assert BufferOk(s.window[k]);
    hide WellFormed;
  }

  /** A packet as it goes out. */
  lemma SentCarries(b: OutBuffer)
    ensures |b.Bytes()| >= 2 && LoadHeader(b.Bytes()) == b.header
  {
    PacketRoundTrip(b.header, b.payload);
  }

  lemma FairLater(w: World, time: nat, late: nat)
    requires Fair(w, time) && time <= late < UPTIME_MAX
    ensures Fair(w, late)
  {
    hide Inv, Ended, AllCarry;
  }

  // ----- every step and every run -----

  lemma AppendDue(b: OutBuffer, data: seq<byte>)
    requires b.Valid() && |data| <= b.Room()
    ensures b.Append(data).header == b.header && Due(b.Append(data)) <= Due(b)
  {
  }

  lemma FreshReady(pos: int, control: bool)
    ensures ControlBit(Fresh(pos, control).header) == control && Due(Fresh(pos, control)) == 0
  {
    HeaderRoundTrip(pos, DATA_PACKET, control);
  }

  lemma ChunkReady(s: TxState, data: seq<byte>, time: nat)
    requires s.cursor.LastBuffer? || s.cursor.Detached?
    requires s.cursor.LastBuffer? ==> s.window != [] && Last(s).Valid()
    requires Ready(s.window, s.control, time)
    ensures var t := WriteChunk(s, data).next; Ready(t.window, s.control, time) && t.control == s.control
  {
    if s.cursor.LastBuffer? {
      var room := Last(s).Room();
      AppendDue(Last(s), data[..if |data| < room then |data| else room]);
    }
  }

  lemma RoundReady(s: TxState, data: seq<byte>, time: nat)
    requires WellFormed(s) && Writable(s) && data != [] && (s.cursor == NoBuffer ==> !Blocked(s))
    requires Ready(s.window, s.control, time)
    ensures var t := WriteRound(s, data).next; Ready(t.window, s.control, time) && t.control == s.control
  {
    WriteChunkKeeps(s, data);
    CursorFacts(s);
    hide WellFormed, WriteChunk;
    if s.cursor == NoBuffer {
      FreshReady(s.End(), s.control);
      hide Fresh;
      assert Ready(Push(s).window, s.control, time);
      ChunkReady(Push(s), data, time);
    } else {
      ChunkReady(s, data, time);
    }
  }

  lemma CursorFacts(s: TxState)
    requires WellFormed(s) && Writable(s)
    ensures s.cursor.LastBuffer? ==> s.window != [] && Last(s).Valid()
    ensures s.cursor != Sealed
  {
    if s.cursor.LastBuffer? { assert BufferOk(s.window[|s.window| - 1]); }
  }

  lemma {:induction false} LoopReady(s: TxState, data: seq<byte>, time: nat)
    requires WellFormed(s) && Writable(s) && Ready(s.window, s.control, time)
    ensures Ready(WriteLoop(s, data).next.window, s.control, time)
    decreases |data|, s.cursor != NoBuffer
  {
    hide WellFormed, WriteRound, Ready;
    if data != [] && !(s.cursor == NoBuffer && Blocked(s)) {
      RoundReady(s, data, time);
      var round := WriteRound(s, data);
      LoopReady(round.next, data[round.written..], time);
    }
  }

  /** Writing. */
  lemma WriteReadyTx(s: TxState, data: seq<byte>, time: nat)
    requires s.cursor.Detached? ==> s.cursor.room == 0
    requires WellFormed(s) && Ready(s.window, s.control, time) && s.state != Connecting && (s.window == [] ==>
             !s.pendingEof)
    ensures var t := TryWrite(s, data).next;
            Ready(t.window, s.control, time) && t.state != Connecting && (t.window == [] ==> !t.pendingEof)
  {
    if data != [] && Writable(s) {
      LoopReady(s, data, time);
      WriteLoopWrote(s, data);
      hide WellFormed, WriteLoop, Ready, Quiet, Bytes, PktsOf;
    }
  }

  /** Closing. */
  lemma CloseReadyTx(s: TxState, time: nat)
    requires WellFormed(s) && Ready(s.window, s.control, time) && s.state != Connecting && (s.window == [] ==>
             !s.pendingEof)
    ensures var t := Close(s);
            Ready(t.window, s.control, time) && t.state != Connecting && (t.window == [] ==> !t.pendingEof)
  {
    EosReady(s.End(), s.control);
    CapacityPositive(s);
    FlushReady(s, s.control, time);
    FlushExact(s);
    hide WellFormed, Flush, Eos;
    if s.state != Broken && !s.eos && s.state != Idle {
      var t, f := Close(s), Flush(s);
      assert t.window == f.window || t.window == f.window + [Eos(s.End(), s.control)];
    }
  }

  lemma CapacityPositive(s: TxState)
    requires WellFormed(s)
    ensures s.capacity > 0
  {
    hide BufferOk;
  }

  /** Transmissions happen before a time. */
  predicate Timely(e: Step, late: nat) { Connection.Legal(e) && (e.SendData? ==> e.now + LONGEST_DELAY <= late) }

  /** What every step keeps of the transmitter, for the receiver's control bit. */
  ghost predicate TxFair(t: TxState, bit: bool, late: nat) {
    Ready(t.window, bit, late) && t.state != Connecting && (t.window == [] ==> !t.pendingEof)
  }

  lemma SendTx(s: TxState, now: nat, draw: nat, bit: bool, late: nat)
    requires WellFormed(s) && TxFair(s, bit, late) && draw <= RANDOM_MAX && now + LONGEST_DELAY <= late
    ensures TxFair(Send(s, now, draw, 0).next, bit, late)
  {
    var r := Send(s, now, draw, 0);
    hide WellFormed, Fallback, FastIndex;
    if r.sent.Some? {
      var k := r.sent.value;
      SendReady(s, k, now, draw, bit, late);
    }
  }

  lemma NextTx(w: World, e: Step, late: nat)
    requires Fair(w, late) && Timely(e, late)
    ensures WellFormed(w.tx) && RxWellFormed(w.rx) && TxFair(Connection.Next(w, e).tx, !w.rx.control, late)
  {
    FairStates(w, late);
    DetachedEmpty(w, late);
    hide Inv, WellFormed, RxWellFormed, Ready, AllCarry, Ended, TryWrite, Close, Send, ReceiveFeedback, ReceiveData,
         History, ReceptionLog.LogArrive, Flush, TryRead, Acknowledge, Advertise, IsData;
    if w.tx.state == Connected {
      match e
      case Write(data) => WriteReadyTx(w.tx, data, late);
      case CloseOut => CloseReadyTx(w.tx, late);
      case FlushOut => FlushExact(w.tx); FlushReady(w.tx, w.tx.control, late);
      case SendData(now, draw) => SendTx(w.tx, now, draw, !w.rx.control, late);
      case DeliverFeedback => if w.back != [] { FeedbackTx(w, late); }
      case _ =>
    } else {
      IdleTx(w, e, late);
    }
  }

  lemma DetachedEmpty(w: World, late: nat)
    requires Fair(w, late)
    ensures w.tx.cursor.Detached? ==> w.tx.cursor.room == 0
  {
    hide WindowOk, StoreOk, RxOk, FlowOk, FwdOk, BackOk, AckedOk, FinOk, NextOk, Bytes;
  }

  /** A transmitter that is idle stays so. */
  lemma IdleTx(w: World, e: Step, late: nat)
    requires WellFormed(w.tx) && RxWellFormed(w.rx) && w.tx.state == Idle && w.tx.window == [] && Timely(e, late)
    requires !w.tx.pendingEof
    ensures TxFair(Connection.Next(w, e).tx, !w.rx.control, late)
  {
    hide RxWellFormed, ReceiveData, History, ReceptionLog.LogArrive, TryRead, Acknowledge, Advertise, IsData,
         LoadHeader,
         Restore;
  }

  lemma ControlFrame(w: World, e: Step)
    requires Inv(w) && Connection.Legal(e)
    ensures WellFormed(w.tx) && RxWellFormed(w.rx) && Connection.Next(w, e).rx.control == w.rx.control
  {
    hide Inv, WellFormed, RxWellFormed, TryWrite, Close, Send, ReceiveFeedback, ReceiveData, History,
         ReceptionLog.LogArrive, Flush, StepRead, Acknowledge, Advertise, IsData, StepConnect;
    InvStates(w);
    match e
    case Read(count) => ReadControl(w, count);
    case DeliverData => if w.fwd != [] { DataControl(w.rx, w.fwd[0].bytes); }
    case SendAck => AcknowledgeControl(w.rx);
    case SendHimark(now) => AdvertiseControl(w.rx, now);
    case Connect => ConnectRxFrame(w);
    case _ =>
  }

  lemma ConnectRxFrame(w: World)
    ensures StepConnect(w).rx == w.rx
  {
    hide History;
  }

  lemma AcknowledgeControl(s: RxState)
    requires RxWellFormed(s)
    ensures Acknowledge(s).next.control == s.control
  {
    hide RxWellFormed, AckBytes;
  }

  lemma AdvertiseControl(s: RxState, now: nat)
    ensures Advertise(s, now, 0).next.control == s.control
  {
    hide Header;
  }

  lemma ReadControl(w: World, count: nat)
    requires Inv(w) && RxWellFormed(w.rx)
    ensures StepRead(w, count).rx.control == w.rx.control
  {
    hide RxWellFormed, ReadLoop;
    InvStates(w);
    FinalPacketIsLast(w);
    hide Inv, FinIsLast;
    ReadLoopMoves(w.rx, count);
  }

  lemma DataControl(s: RxState, bytes: seq<byte>)
    requires RxWellFormed(s)
    ensures ReceiveData(s, bytes).control == s.control
  {
    hide RxWellFormed, NextUnset, LoadHeader, Restore, ControlBit, PacketKind, PacketId;
  }

  /** Every step keeps a connection in a state from which it can be completed. */
  lemma FairNext(w: World, e: Step, late: nat)
    requires Fair(w, late) && Timely(e, late)
    ensures WellFormed(w.tx) && RxWellFormed(w.rx) && Fair(Connection.Next(w, e), late)
  {
    FairInv(w, late);
    hide Inv, WellFormed, RxWellFormed, Ready, Ended, Connection.Next, LoadHeader, ControlBit, OutBuffer.Bytes;
    NextKeeps(w, e);
    NextEnded(w, e);
    NextTx(w, e, late);
    ControlFrame(w, e);
    CarryNext(w, e, late);
  }

  lemma CarryNext(w: World, e: Step, late: nat)
    requires WellFormed(w.tx) && RxWellFormed(w.rx) && Connection.Legal(e) && AllCarry(w.fwd, !w.rx.control)
    requires Ready(Connection.Next(w, e).tx.window, !w.rx.control, late)
    ensures AllCarry(Connection.Next(w, e).fwd, !w.rx.control)
  {
    hide WellFormed, RxWellFormed, Connection.Next, LoadHeader, ControlBit, OutBuffer.Bytes;
    var v := Connection.Next(w, e);
    forall i | 0 <= i < |v.fwd|
      ensures |v.fwd[i].bytes| >= 2 && ControlBit(LoadHeader(v.fwd[i].bytes)) == !w.rx.control
    {
      FwdAfter(w, e, i);
      if v.fwd[i] !in w.fwd {
        var k :| 0 <= k < |v.tx.window| && v.fwd[i].bytes == v.tx.window[k].Bytes();
        SentCarries(v.tx.window[k]);
      }
    }
  }

  ghost predicate TimelyRun(steps: seq<Step>, late: nat) { forall i :: 0 <= i < |steps| ==> Timely(steps[i], late) }

  lemma {:induction false} FairRun(w: World, steps: seq<Step>, late: nat)
    requires Fair(w, late) && TimelyRun(steps, late)
    ensures Inv(w) && LegalRun(steps) && Fair(Run(w, steps), late)
    decreases |steps|
  {
    hide Inv, Run, Fair, Connection.Next, WellFormed, RxWellFormed;
    FairInv(w, late);
    assert LegalRun(steps);
    RunUnfolds(w, steps);
    if steps != [] {
      FairNext(w, steps[0], late);
      FairRun(Connection.Next(w, steps[0]), steps[1..], late);
    }
  }

  /** A connection that has just been set up. */
  lemma ConnectedIsFair(tx: TxState, rx: RxState, start: SeqNum, control: bool, late: nat)
    requires WellFormed(tx) && RxWellFormed(rx) && rx.reading == None && late < UPTIME_MAX
    ensures Inv(Initial(tx, rx, start, control)) && LegalRun([Connect])
    ensures Fair(Run(Initial(tx, rx, start, control), [Connect]), late)
  {
    hide Inv, Run, WellFormed, RxWellFormed, Initial, Connection.Next, AllCarry, Ready;
    InitialInv(tx, rx, start, control);
    var w := Initial(tx, rx, start, control);
    RunUnfolds(w, []);
    RunThen(w, [], Connect);
    assert [] + [Connect] == [Connect];
    ConnectedShape(tx, rx, start, control, late);
  }

  lemma ConnectedShape(tx: TxState, rx: RxState, start: SeqNum, control: bool, late: nat)
    requires WellFormed(Initial(tx, rx, start, control).tx) && RxWellFormed(Initial(tx, rx, start, control).rx)
    ensures var v := Connection.Next(Initial(tx, rx, start, control), Connect);
            && v.tx.state == Connected && v.tx.window == [] && !v.tx.pendingEof && v.fwd == []
            && Ended(v) && Ready(v.tx.window, !v.rx.control, late) && AllCarry(v.fwd, !v.rx.control)
  {
    hide WellFormed, RxWellFormed;
    assert PktsOf([]) == [];
  }
}
