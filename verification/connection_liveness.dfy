/** A connection can always be completed: from every state, without a further loss, everything written is read. */
module ConnectionLiveness {
  import opened Basics
  import opened SeqNums
  import opened RingBuffers
  import opened Protocol
  import opened OutBuffers
  import opened InBuffers
  import opened Transmission
  import opened TransmissionFacts
  import opened SendProgress
  import opened Reception
  import ReceptionLog
  import opened ReceiveEffect
  import opened Connection
  import opened ConnectionInvariant
  import opened ConnectionReceiveSteps
  import opened ConnectionFeedbackSteps
  import opened ConnectionTheorems
  import opened ConnectionProgress
  import opened ConnectionEnding
  import opened ConnectionFairness

  // ----- orderly runs -----

  /** Steps of the two endpoints and deliveries: nothing is lost, written or closed. */
  predicate IsOrderly(e: Step) {
    e.FlushOut? || e.SendData? || e.DeliverData? || e.SendAck? || e.SendHimark? || e.DeliverFeedback? || e.Read?
  }

  ghost predicate Orderly(steps: seq<Step>) {
    LegalRun(steps) && forall i :: 0 <= i < |steps| ==> IsOrderly(steps[i])
  }

  lemma OrderlyConcat(w: World, a: seq<Step>, b: seq<Step>)
    requires Inv(w) && Orderly(a) && Orderly(b)
    ensures Orderly(a + b) && Run(w, a + b) == Run(Run(w, a), b)
  {
    hide Inv, Run;
    RunConcat(w, a, b);
  }

  lemma OneStep(w: World, e: Step)
    requires Inv(w) && Connection.Legal(e) && IsOrderly(e)
    ensures Orderly([e]) && WellFormed(w.tx) && RxWellFormed(w.rx) && Run(w, [e]) == Connection.Next(w, e)
  {
    hide Inv, Run, Connection.Next, WellFormed, RxWellFormed;
    RunUnfolds(w, []);
    RunThen(w, [], e);
    assert [] + [e] == [e];
  }

  lemma NoSteps(w: World)
    requires Inv(w)
    ensures Orderly([]) && Run(w, []) == w
  {
    hide Inv, Run;
    RunUnfolds(w, []);
  }

  /** What no orderly step changes. */
  ghost predicate SameStream(w: World, v: World) {
    v.written == w.written && v.closed == w.closed && v.log.base == w.log.base && v.rx.control == w.rx.control
    && v.rx.capacity == w.rx.capacity
  }

  // ----- delivering feedback -----

  lemma FeedbackStep(w: World, time: nat)
    requires Fair(w, time) && w.back != []
    ensures var v := Connection.Next(w, DeliverFeedback);
            && WellFormed(w.tx) && RxWellFormed(w.rx)
            && Fair(v, time) && SameStream(w, v) && v.rx == w.rx && v.fwd == w.fwd && v.back == w.back[1..]
              && v.log == w.log
            && Outstanding(v.tx) <= Outstanding(w.tx)
            && (IsAck(w.back[0].bytes) && w.tx.state == Connected && w.back[0].value > w.tx.begin ==>
                  Outstanding(v.tx) < Outstanding(w.tx))
  {
    hide Inv, WellFormed, RxWellFormed, Ready, AllCarry, Ended, ReceiveFeedback, History, IsAck;
    FairStates(w, time);
    NextKeeps(w, DeliverFeedback);
    NextEnded(w, DeliverFeedback);
    FeedbackTx(w, time);
    FeedbackFrame(w);
  }

  /** All feedback in flight is delivered. */
  lemma {:induction false} FeedbackAll(w: World, time: nat) returns (steps: seq<Step>)
    requires Fair(w, time)
    ensures Orderly(steps)
    ensures var v := Run(w, steps);
            && Fair(v, time) && SameStream(w, v) && v.rx == w.rx && v.fwd == w.fwd && v.back == [] && v.log == w.log
            && Outstanding(v.tx) <= Outstanding(w.tx)
    decreases |w.back|
  {
    assert Inv(w);
    hide Fair, Connection.Next, Run;
    if w.back == [] {
      steps := [];
      NoSteps(w);
    } else {
      OneStep(w, DeliverFeedback);
      FeedbackStep(w, time);
      var u := Connection.Next(w, DeliverFeedback);
      assert Inv(Run(w, [DeliverFeedback]));
      var rest := FeedbackAll(u, time);
      OrderlyConcat(w, [DeliverFeedback], rest);
      steps := [DeliverFeedback] + rest;
    }
  }

  // ----- delivering data -----

  /** Progress of the receiver: nothing it has is lost, and the need for an ack does not go away. */
  ghost predicate Advanced(s: RxState, t: RxState) {
    && t.begin == s.begin && t.unack >= s.unack && (s.needsAck ==> t.needsAck)
    && t.himarkExpiration == s.himarkExpiration && t.capacity == s.capacity && t.control == s.control
  }

  /** A packet of this connection, at a position the receiver knows or needs next. */
  lemma ArrivalAdvances(s: RxState, control: bool, id: nat, payload: seq<byte>, fin: bool)
    requires RxWellFormed(s) && Stored(fin, payload).Valid()
    ensures var t, p := HandleData(s, control, id, payload, fin).next, Restore(s.begin, id);
            && Advanced(s, t)
            && (Heard(s, control) && (p < s.begin || Fits(s, p)) && p <= s.unack ==> t.needsAck && t.unack > p)
  {
    hide HandleData, Restore, SlotsAfter;
    ArrivalExact(s, control, id, payload, fin);
    UnackInWindow(s);
    hide RxWellFormed, MissingFirst;
  }

  lemma FairAudible(w: World, time: nat)
    requires Fair(w, time) && w.fwd != []
    ensures Audible(w)
  {
    hide Inv, Ended, Ready;
  }

  lemma DeliverRx(w: World, time: nat)
    requires Fair(w, time) && w.fwd != []
    ensures RxWellFormed(w.rx)
    ensures var v, p := StepDeliver(w), w.fwd[0].pos;
            && Advanced(w.rx, v.rx) && v.tx == w.tx && v.fwd == w.fwd[1..] && v.back == w.back
            && v.written == w.written && v.closed == w.closed && v.log.base == w.log.base && v.log.read == w.log.read
            && (p <= w.rx.unack && p < w.rx.begin + w.rx.capacity ==> v.rx.needsAck && v.rx.unack > p)
  {
    hide Fair, Inv, WellFormed, RxWellFormed, HandleData, LoadHeader, ControlBit, PacketId, Restore, Advanced, Fits,
         StepDeliver, ReceptionLog.LogArrive;
    FairStates(w, time);
    FairAudible(w, time);
    FairInv(w, time);
    ArrivalFits(w);
    DeliverShape(w);
    LogFrame(w);
    var f := w.fwd[0];
    var k := w.packets[f.pos - w.log.base];
    ArrivalAdvances(w.rx, ControlBit(LoadHeader(f.bytes)), PacketId(LoadHeader(f.bytes)), k.payload, k.fin);
  }

  lemma DeliverStep(w: World, time: nat)
    requires Fair(w, time) && w.fwd != []
    ensures WellFormed(w.tx) && RxWellFormed(w.rx)
    ensures var v, p := Connection.Next(w, DeliverData), w.fwd[0].pos;
            && Fair(v, time) && SameStream(w, v) && Advanced(w.rx, v.rx)
            && v.tx == w.tx && v.fwd == w.fwd[1..] && v.back == w.back
            && (p <= w.rx.unack && p < w.rx.begin + w.rx.capacity ==> v.rx.needsAck && v.rx.unack > p)
  {
    hide Inv, WellFormed, RxWellFormed, Ready, Ended, ReceiveData, StepDeliver;
    FairStates(w, time);
    NextKeeps(w, DeliverData);
    NextEnded(w, DeliverData);
    DeliverRx(w, time);
  }

  /** If the last packet in flight is one the receiver can take, it has arrived and an ack is due. */
  ghost predicate Answered(w: World, t: RxState) {
    w.fwd != [] ==>
      var p := w.fwd[|w.fwd| - 1].pos;
      p <= w.rx.unack && p < w.rx.begin + w.rx.capacity ==> t.needsAck && t.unack > p
  }

  lemma AnsweredLater(w: World, u: World, v: World)
    requires w.fwd != [] && u.fwd == w.fwd[1..] && Advanced(w.rx, u.rx) && Advanced(u.rx, v.rx)
    requires SameStream(w, u) && SameStream(u, v) && Answered(u, v.rx)
    requires var p := w.fwd[0].pos;
             p <= w.rx.unack && p < w.rx.begin + w.rx.capacity ==> u.rx.needsAck && u.rx.unack > p
    ensures Answered(w, v.rx) && SameStream(w, v) && Advanced(w.rx, v.rx)
  {
    if |w.fwd| > 1 { assert u.fwd[|u.fwd| - 1] == w.fwd[|w.fwd| - 1]; }
  }

  /** All data in flight is delivered. */
  lemma {:induction false} DeliverAll(w: World, time: nat) returns (steps: seq<Step>)
    requires Fair(w, time)
    ensures Orderly(steps)
    ensures var v := Run(w, steps);
            && Fair(v, time) && SameStream(w, v) && Advanced(w.rx, v.rx) && v.tx == w.tx && v.fwd == []
              && v.back == w.back
            && Answered(w, v.rx)
    decreases |w.fwd|
  {
    FairInv(w, time);
    hide Fair, Connection.Next, Run, Inv, WellFormed, RxWellFormed;
    if w.fwd == [] {
      steps := [];
      NoSteps(w);
    } else {
      OneStep(w, DeliverData);
      DeliverStep(w, time);
      var u := Connection.Next(w, DeliverData);
      assert Inv(Run(w, [DeliverData]));
      hide SameStream, Advanced;
      var rest := DeliverAll(u, time);
      OrderlyConcat(w, [DeliverData], rest);
      AnsweredLater(w, u, Run(u, rest));
      hide Answered;
      steps := [DeliverData] + rest;
    }
  }

  // ----- reading -----

  /** Everything up to the first missing position is read. */
  lemma ReadAll(w: World, time: nat)
    requires Fair(w, time)
    ensures var e := Read(|w.written| + 1);
            && Orderly([e])
            && var v := Run(w, [e]);
               && Fair(v, time) && SameStream(w, v) && v.tx == w.tx && v.fwd == w.fwd && v.back == w.back
               && v.rx.begin == v.rx.unack == w.rx.unack
  {
    FairStates(w, time);
    FairInv(w, time);
    var count := |w.written| + 1;
    var e := Read(count);
    assert AllCarry(w.fwd, !w.rx.control) && Ready(w.tx.window, !w.rx.control, time);
    hide Inv, WellFormed, RxWellFormed, Ready, AllCarry, Ended, Run, ReadLoop, ReceptionLog.PartlyRead;
    OneStep(w, e);
    ReadIsStep(w, count);
    NextKeeps(w, e);
    NextEnded(w, e);
    ChecksNeverFire(w);
    ReadLoopMoves(w.rx, count);
    ReceptionLog.ReadLoopStops(w.rx, count);
    var v := Connection.Next(w, e);
    hide Connection.Next;
    SafeState(v);
    SafeState(w);
    hide FinIsLast;
  }

  // ----- credit -----

  /** The bounds of the windows when everything that has arrived has been read. */
  lemma Bounds(w: World)
    requires Inv(w)
    ensures w.tx.begin <= w.rx.unack <= w.tx.End() && 0 < w.rx.capacity <= MAX_CAPACITY
    ensures w.tx.End() - 1 <= w.tx.himark
  {
    AckedInWindow(w);
    CapacityFacts(w.rx);
    hide WindowOk, StoreOk, FwdOk, BackOk, AckedOk, FinOk, NextOk, Bytes, FlowOk, BufferOk, ReceptionLog.Refines;
  }

  /** The front packet is within the credit, and nothing else has changed. */
  ghost predicate Credited(w: World, v: World, time: nat) {
    && Fair(v, time) && SameStream(w, v) && v.tx == w.tx.(himark := v.tx.himark) && v.tx.begin < v.tx.himark
    && v.rx == w.rx.(himarkExpiration := v.rx.himarkExpiration) && v.fwd == w.fwd && v.back == []
  }

  lemma CreditFair(w: World, time: nat)
    requires Fair(w, time) && w.tx.window != [] && w.tx.state == Connected && w.back == [] && w.rx.begin == w.rx.unack
    requires w.tx.himark <= w.tx.begin
    ensures var steps := [SendHimark(w.rx.himarkExpiration), DeliverFeedback];
            Orderly(steps) && Credited(w, Run(w, steps), time)
  {
    hide Inv, WellFormed, RxWellFormed, Ready, AllCarry, Ended, Run, Connection.Next;
    FairInv(w, time);
    Bounds(w);
    var now := w.rx.himarkExpiration;
    var steps := [SendHimark(now), DeliverFeedback];
    CreditRun(w, now);
    RunEnded(w, steps);
    CreditRunFrame(w, now);
    assert IsOrderly(steps[0]) && IsOrderly(steps[1]);
  }

  /** The front packet gets within the credit, if need be after the receiver has advertised its space. */
  lemma GiveCredit(w: World, time: nat) returns (steps: seq<Step>)
    requires Fair(w, time) && w.tx.window != [] && w.tx.state == Connected && w.back == [] && w.rx.begin == w.rx.unack
    ensures Orderly(steps) && Credited(w, Run(w, steps), time)
  {
    hide Inv, Ready, AllCarry, Ended, Run, Connection.Next;
    FairInv(w, time);
    if w.tx.begin < w.tx.himark {
      steps := [];
      NoSteps(w);
    } else {
      steps := [SendHimark(w.rx.himarkExpiration), DeliverFeedback];
      CreditFair(w, time);
    }
  }

  lemma CreditRunFrame(w: World, now: nat)
    requires Inv(w) && LegalRun([SendHimark(now), DeliverFeedback])
    ensures var v := Run(w, [SendHimark(now), DeliverFeedback]); v.written == w.written && v.closed == w.closed
  {
    hide Inv, Run, WellFormed, RxWellFormed, ReceiveFeedback, History, Advertise;
    RunUnfolds(w, []);
    RunThen(w, [], SendHimark(now));
    assert [] + [SendHimark(now)] == [SendHimark(now)];
    RunThen(w, [SendHimark(now)], DeliverFeedback);
    assert [SendHimark(now)] + [DeliverFeedback] == [SendHimark(now), DeliverFeedback];
  }

  // ----- flushing -----

  lemma FlushStep(w: World, time: nat)
    requires Fair(w, time)
    ensures Orderly([FlushOut])
    ensures var v := Run(w, [FlushOut]);
            && Fair(v, time) && SameStream(w, v) && v.rx == w.rx && v.fwd == w.fwd && v.back == w.back
            && v.tx == w.tx.(window := v.tx.window) && |v.tx.window| == |w.tx.window|
            && forall k :: 0 <= k < |v.tx.window| ==>
                v.tx.window[k].flushed && v.tx.window[k].acked == w.tx.window[k].acked
  {
    hide Inv, WellFormed, RxWellFormed, Ready, AllCarry, Ended, Run, Flush, History;
    FairStates(w, time);
    FairInv(w, time);
    FlushExact(w.tx);
    FlushReady(w.tx, !w.rx.control, time);
    OneStep(w, FlushOut);
    FlushFrame(w);
    hide Connection.Next;
    RunEnded(w, [FlushOut]);
  }

  lemma FlushFrame(w: World)
    requires WellFormed(w.tx) && RxWellFormed(w.rx)
    ensures var v := Connection.Next(w, FlushOut);
            && v.tx == Flush(w.tx) && v.rx == w.rx && v.fwd == w.fwd && v.back == w.back && v.log == w.log
            && v.written == w.written && v.closed == w.closed
  {
    hide WellFormed, RxWellFormed, Flush, History;
  }

  // ----- sending until the front packet has gone out -----

  /** One transmission while the front packet waits. */
  lemma SendStep(w: World, now: nat, late: nat)
    requires Fair(w, late) && w.tx.state == Connected && Waiting(w.tx, 0) && Due(w.tx.window[0]) <= now
    requires now + LONGEST_DELAY <= late
    ensures Orderly([SendData(now, 0)])
    ensures var v := Run(w, [SendData(now, 0)]);
            && Fair(v, late) && SameStream(w, v) && v.rx == w.rx && v.back == w.back && |v.fwd| == |w.fwd| + 1
            && v.tx.begin == w.tx.begin && |v.tx.window| == |w.tx.window| && v.tx.himark == w.tx.himark
            && v.tx.state == Connected && Outstanding(v.tx) == Outstanding(w.tx)
            && (v.fwd[|w.fwd|].pos == w.tx.begin
                || (Waiting(v.tx, 0) && v.tx.window[0] == w.tx.window[0]
                    && Competitors(v.tx.window, Due(w.tx.window[0])) < Competitors(w.tx.window, Due(w.tx.window[0]))))
  {
    hide Inv, WellFormed, RxWellFormed, Ready, AllCarry, Ended, Run, History, Send, SendBuffer, Competitors, LoadHeader,
         ControlBit, OutBuffer.Bytes;
    FairStates(w, late);
    FairInv(w, late);
    var e := Due(w.tx.window[0]);
    SentIsEligible(w.tx, 0, now, 0, 0);
    var k := Send(w.tx, now, 0, 0).sent.value;
    SendFrame(w.tx, k, now, 0);
    SendShrinks(w.tx, k, now, 0, e);
    SendReady(w.tx, k, now, 0, !w.rx.control, late);
    OneStep(w, SendData(now, 0));
    RunEnded(w, [SendData(now, 0)]);
    SendCarries(w, k, now, late);
    SendBufferSame(w.tx, k, now);
  }

  lemma SendBufferSame(s: TxState, k: nat, now: nat)
    requires WellFormed(s) && k < |s.window|
    ensures SendBuffer(s, k, now, 0).pendingEof == s.pendingEof
  {
  }

  lemma SendCarries(w: World, k: nat, now: nat, late: nat)
    requires WellFormed(w.tx) && k < |w.tx.window| && AllCarry(w.fwd, !w.rx.control)
    requires Ready(SendBuffer(w.tx, k, now, 0).window, !w.rx.control, late)
    ensures k < |SendBuffer(w.tx, k, now, 0).window|
    ensures var b := SendBuffer(w.tx, k, now, 0).window[k];
            forall p, end :: AllCarry(w.fwd + [InFlight(b.Bytes(), p, end)], !w.rx.control)
  {
    hide WellFormed, SendBuffer, LoadHeader, ControlBit, OutBuffer.Bytes;
    SendFrame(w.tx, k, now, 0);
    SentCarries(SendBuffer(w.tx, k, now, 0).window[k]);
  }

  /** The front packet has just gone out; the receiver has not changed. */
  ghost predicate FrontSent(w: World, v: World, late: nat) {
    && Fair(v, late) && SameStream(w, v) && v.rx == w.rx && v.back == w.back && v.tx.begin == w.tx.begin
    && v.tx.state == Connected && Outstanding(v.tx) == Outstanding(w.tx)
    && v.fwd != [] && v.fwd[|v.fwd| - 1].pos == w.tx.begin
  }

  lemma {:induction false} SendFront(w: World, now: nat, late: nat) returns (steps: seq<Step>)
    requires Fair(w, late) && w.tx.state == Connected && Waiting(w.tx, 0) && Due(w.tx.window[0]) <= now
    requires now + LONGEST_DELAY <= late
    ensures Orderly(steps) && FrontSent(w, Run(w, steps), late)
    decreases Competitors(w.tx.window, Due(w.tx.window[0]))
  {
    FairInv(w, late);
    hide Fair, Connection.Next, Run, Competitors, Inv;
    var e := SendData(now, 0);
    SendStep(w, now, late);
    var u := Run(w, [e]);
    if u.fwd[|w.fwd|].pos == w.tx.begin {
      steps := [e];
    } else {
      var rest := SendFront(u, now, late);
      OrderlyConcat(w, [e], rest);
      steps := [e] + rest;
    }
  }

  // ----- the acknowledgement -----

  lemma NeededAckStep(w: World, time: nat)
    requires Fair(w, time) && w.rx.needsAck && w.back == []
    ensures Orderly([SendAck])
    ensures var v := Run(w, [SendAck]);
            && Fair(v, time) && SameStream(w, v) && v.tx == w.tx && v.fwd == w.fwd && |v.back| == 1
            && IsAck(v.back[0].bytes) && v.back[0].value == w.rx.unack
  {
    hide Inv, WellFormed, RxWellFormed, Ready, AllCarry, Ended, Run, StepSendAck, IsAck;
    FairInv(w, time);
    OneStep(w, SendAck);
    RunEnded(w, [SendAck]);
    AckStep(w);
  }

  /** The receiver acknowledges what it has, and the transmitter has less outstanding. */
  lemma Acknowledged(w: World, time: nat) returns (steps: seq<Step>)
    requires Fair(w, time) && w.rx.needsAck && w.back == [] && w.tx.state == Connected && w.rx.unack > w.tx.begin
    ensures Orderly(steps)
    ensures var v := Run(w, steps);
            Fair(v, time) && SameStream(w, v) && Outstanding(v.tx) < Outstanding(w.tx)
  {
    FairInv(w, time);
    hide Fair, Connection.Next, Run, Inv, IsAck;
    NeededAckStep(w, time);
    var u := Run(w, [SendAck]);
    OneStep(u, DeliverFeedback);
    FeedbackStep(u, time);
    OrderlyConcat(w, [SendAck], [DeliverFeedback]);
    steps := [SendAck] + [DeliverFeedback];
  }

  // ----- one round -----

  lemma FrontUnacked(w: World, time: nat)
    requires Fair(w, time) && w.tx.window != []
    ensures !w.tx.window[0].acked && w.tx.state == Connected
  {
    FairStates(w, time);
    FairInv(w, time);
    hide Inv;
    WindowInv(w);
    AcksAreSound(w, w.tx.begin);
    assert w.tx.Buf(w.tx.begin) == w.tx.window[0];
  }

  /** The queues are emptied and everything that has arrived is read. */
  lemma Settle(w: World, time: nat) returns (steps: seq<Step>)
    requires Fair(w, time)
    ensures Orderly(steps)
    ensures var v := Run(w, steps);
            && Fair(v, time) && SameStream(w, v) && v.fwd == [] && v.back == [] && v.rx.begin == v.rx.unack
            && Outstanding(v.tx) <= Outstanding(w.tx)
  {
    FairInv(w, time);
    hide Fair, Connection.Next, Run, Inv;
    steps := DeliverAll(w, time);
    var u := Run(w, steps);
    var more := FeedbackAll(u, time);
    OrderlyConcat(w, steps, more);
    steps := steps + more;
    var v := Run(w, steps);
    ReadAll(v, time);
    OrderlyConcat(w, steps, [Read(|v.written| + 1)]);
    steps := steps + [Read(|v.written| + 1)];
  }

  /** The front packet of a settled connection is made ready. */
  lemma Prepare(w: World, time: nat) returns (steps: seq<Step>)
    requires Fair(w, time) && w.tx.window != [] && w.fwd == [] && w.back == [] && w.rx.begin == w.rx.unack
    ensures Orderly(steps)
    ensures var v := Run(w, steps);
            && Fair(v, time) && SameStream(w, v) && v.tx.state == Connected && Waiting(v.tx, 0)
            && v.tx.begin == w.tx.begin && Outstanding(v.tx) == Outstanding(w.tx)
            && v.fwd == [] && v.back == [] && v.rx.begin == v.rx.unack == w.rx.unack
  {
    FairInv(w, time);
    FrontUnacked(w, time);
    hide Fair, Connection.Next, Run, Inv;
    steps := GiveCredit(w, time);
    var u := Run(w, steps);
    FlushStep(u, time);
    OrderlyConcat(w, steps, [FlushOut]);
    steps := steps + [FlushOut];
  }

  /** The front packet has arrived and an ack is due. */
  ghost predicate Transferred(w: World, v: World, late: nat) {
    && Fair(v, late) && SameStream(w, v) && v.tx.state == Connected && Outstanding(v.tx) == Outstanding(w.tx)
    && v.back == [] && v.rx.needsAck && v.rx.unack > v.tx.begin
  }

  lemma TransferredBy(w: World, u: World, v: World, late: nat)
    requires FrontSent(w, u, late) && Fair(v, late) && SameStream(u, v) && Advanced(u.rx, v.rx)
    requires v.tx == u.tx && v.back == u.back == [] && Answered(u, v.rx)
    requires w.rx.begin == w.rx.unack && w.tx.begin <= w.rx.unack && w.rx.capacity > 0
    ensures Transferred(w, v, late)
  {
    hide Fair;
  }

  /** The front packet goes out and arrives. */
  lemma Transfer(w: World, time: nat) returns (steps: seq<Step>)
    requires Fair(w, time) && w.tx.state == Connected && Waiting(w.tx, 0) && time + LONGEST_DELAY < UPTIME_MAX
    requires w.fwd == [] && w.back == [] && w.rx.begin == w.rx.unack
    ensures Orderly(steps) && Transferred(w, Run(w, steps), time + LONGEST_DELAY)
  {
    assert Due(w.tx.window[0]) <= time;
    hide Fair, Connection.Next, Run, Inv, LegalRun, Waiting;
    var late := time + LONGEST_DELAY;
    FairInv(w, time);
    Bounds(w);
    FairLater(w, time, late);
    steps := SendFront(w, time, late);
    var u := Run(w, steps);
    var more := DeliverAll(u, late);
    OrderlyConcat(w, steps, more);
    TransferredBy(w, u, Run(u, more), late);
    hide Transferred, FrontSent, Answered, Advanced, SameStream;
    steps := steps + more;
  }

  /** Less is outstanding. */
  ghost predicate Lessened(w: World, v: World, late: nat) {
    Fair(v, late) && SameStream(w, v) && (v.tx.window == [] || Outstanding(v.tx) < Outstanding(w.tx))
  }

  lemma LessenedBy(w: World, u: World, v: World, x: World, z: World, time: nat, late: nat)
    requires SameStream(w, u) && Outstanding(u.tx) <= Outstanding(w.tx)
    requires SameStream(u, v) && Outstanding(v.tx) == Outstanding(u.tx)
    requires Transferred(v, x, late) && Fair(z, late) && SameStream(x, z) && Outstanding(z.tx) < Outstanding(x.tx)
    ensures Lessened(w, z, late)
  {
    hide Fair;
  }

  /** The front packet of a settled connection goes out, arrives and is acknowledged. */
  lemma RoundFromSettled(w: World, u: World, time: nat) returns (steps: seq<Step>)
    requires Fair(u, time) && u.tx.window != [] && time + LONGEST_DELAY < UPTIME_MAX
    requires u.fwd == [] && u.back == [] && u.rx.begin == u.rx.unack
    requires SameStream(w, u) && Outstanding(u.tx) <= Outstanding(w.tx)
    ensures Orderly(steps) && Inv(u) && Lessened(w, Run(u, steps), time + LONGEST_DELAY)
  {
    hide Fair, Connection.Next, Run, Inv, Waiting, LegalRun;
    FairInv(u, time);
    steps := Prepare(u, time);
    var v := Run(u, steps);
    var transfer := Transfer(v, time);
    var x := Run(v, transfer);
    OrderlyConcat(u, steps, transfer);
    steps := steps + transfer;
    var acks := Acknowledged(x, time + LONGEST_DELAY);
    OrderlyConcat(u, steps, acks);
    steps := steps + acks;
    LessenedBy(w, u, v, x, Run(x, acks), time, time + LONGEST_DELAY);
    hide Lessened, Transferred, SameStream;
  }

  /** One round: something outstanding is acknowledged. */
  lemma Round(w: World, time: nat) returns (steps: seq<Step>)
    requires Fair(w, time) && w.tx.window != [] && time + LONGEST_DELAY < UPTIME_MAX
    ensures Orderly(steps) && Inv(w) && Lessened(w, Run(w, steps), time + LONGEST_DELAY)
  {
    hide Fair, Connection.Next, Run, Inv, LegalRun;
    FairInv(w, time);
    steps := Settle(w, time);
    var u := Run(w, steps);
    if u.tx.window == [] {
      FairLater(u, time, time + LONGEST_DELAY);
    } else {
      var more := RoundFromSettled(w, u, time);
      OrderlyConcat(w, steps, more);
      hide Lessened;
      steps := steps + more;
    }
  }

  // ----- the whole stream -----

  /** When nothing is outstanding, reading completes the stream. */
  lemma Complete(w: World, time: nat)
    requires Fair(w, time) && w.tx.window == []
    ensures var e := Read(|w.written| + 1);
            && Orderly([e])
            && var v := Run(w, [e]);
               SameStream(w, v) && v.log.read == v.written && (v.closed ==> v.rx.eos)
  {
    ReadAll(w, time);
    FairInv(w, time);
    var v := Run(w, [Read(|w.written| + 1)]);
    hide Run;
    assert v.tx == w.tx;
    FairInv(v, time);
    AllArrived(v);
    assert Ended(v);
    hide Fair, Inv, Ended;
  }

  lemma AllArrived(v: World)
    requires Inv(v) && v.tx.window == [] && !v.tx.pendingEof && v.rx.begin == v.rx.unack
    ensures v.log.read == v.written && v.rx.begin == v.log.base + |v.packets|
    ensures v.closed ==> LastIsFin(v.packets)
  {
    AckedInWindow(v);
    Bounds(v);
    StoredPrefix(v);
    ReceptionLog.AtGap(v.rx);
    hide TxOk, StoreOk, FlowOk, FwdOk, BackOk, AckedOk, NextOk, Bytes, ReceptionLog.Text, ReceptionLog.Holds,
         ReceptionLog.PartlyRead;
  }

  /** Everything written has been read, and the end of the stream is known. */
  ghost predicate Delivered(w: World, v: World) {
    && v.written == w.written && v.log.read == w.written
    && v.closed == w.closed && (w.closed ==> v.rx.eos)
  }

  /** Liveness: from every state of a connection whose transmitter has been connected, whatever is in flight, there is
      an orderly run - nothing more is lost, and no time but the retry delays passes - after which everything written
      has been read and, if the stream was closed, the reader has been told that it has ended. */
  lemma {:induction false} Delivers(w: World, time: nat) returns (steps: seq<Step>)
    requires Fair(w, time) && time + LONGEST_DELAY * (Outstanding(w.tx) + 1) < UPTIME_MAX
    ensures Orderly(steps) && Inv(w) && Delivered(w, Run(w, steps))
    decreases Outstanding(w.tx)
  {
    hide Fair, Connection.Next, Run, Inv, LegalRun;
    FairInv(w, time);
    if w.tx.window == [] {
      steps := [Read(|w.written| + 1)];
      Complete(w, time);
    } else {
      steps := Round(w, time);
      var u := Run(w, steps);
      var rest;
      if u.tx.window == [] {
        rest := [Read(|u.written| + 1)];
        Complete(u, time + LONGEST_DELAY);
      } else {
        rest := Delivers(u, time + LONGEST_DELAY);
      }
      OrderlyConcat(w, steps, rest);
      steps := steps + rest;
    }
  }

  /** A connection can always be completed.  From any earlier state of the two endpoints, set up a connection and let
      anything happen: writes, flushes, a close, transmissions, deliveries, losses, acks, reads, in any order.  Then
      there is a continuation without a loss after which everything written has been read, and the reader of a closed
      stream knows that it has ended. */
  lemma CanAlwaysComplete(tx: TxState, rx: RxState, start: SeqNum, control: bool, steps: seq<Step>, late: nat)
    returns (more: seq<Step>)
    requires WellFormed(tx) && RxWellFormed(rx) && rx.reading == None && TimelyRun(steps, late)
    requires late + LONGEST_DELAY * (MAX_CAPACITY + 3) < UPTIME_MAX
    ensures Inv(Initial(tx, rx, start, control)) && LegalRun([Connect]) && LegalRun(steps) && Orderly(more)
    ensures var w := Run(Run(Initial(tx, rx, start, control), [Connect]), steps);
            Delivered(w, Run(w, more))
  {
    hide Inv, Run, Fair, Initial, WellFormed, RxWellFormed, Delivered;
    ConnectedIsFair(tx, rx, start, control, late);
    var c := Run(Initial(tx, rx, start, control), [Connect]);
    FairRun(c, steps, late);
    var w := Run(c, steps);
    OutstandingBound(w, late);
    more := Delivers(w, late);
  }

  lemma OutstandingBound(w: World, time: nat)
    requires Fair(w, time)
    ensures Outstanding(w.tx) <= MAX_CAPACITY + 2
  {
    FairStates(w, time);
    SmallWindow(w.tx);
    hide Fair, WellFormed;
  }
}
