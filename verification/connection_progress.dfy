/** Steps of a connection that get it on: credit that is given, acks that are sent. */
module ConnectionProgress {
  import opened Basics
  import opened RingBuffers
  import opened Protocol
  import opened Transmission
  import opened TransmissionFacts
  import opened Reception
  import ReceptionLog
  import opened ReceiveEffect
  import opened Connection
  import opened ConnectionInvariant
  import opened ConnectionReceiveSteps
  import opened ConnectionFeedbackSteps
  import opened ConnectionTheorems

  // ----- credit -----

  /** A flow-control packet gives exactly the credit it carries, unless that is the value out of reach of the ids. */
  lemma CreditIsGiven(w: World)
    requires Inv(w) && w.back != [] && IsHimark(w.back[0].bytes) && w.tx.state == Connected
    ensures WellFormed(w.tx)
    ensures var v, h := StepFeedback(w), w.back[0].value;
            v.tx == w.tx.(himark := if h < w.tx.begin + HALF_IDS then h else w.tx.himark) && v.rx == w.rx
  {
    hide WindowOk, StoreOk, FwdOk, AckedOk, FinOk, NextOk, Bytes, RxOk, FlowOk, PacketId, ControlBit, LoadHeader,
         WellFormed, PacketKind;
    InvStates(w);
    var b := w.back[0];
    HimarkBound(w);
    assert BackItemOk(w.tx, w.rx, w.log.base, w.log.store, b);
    hide BackOk;
    HimarkIdExactOrRejected(w, b);
    CreditReaches(w);
    RestoreExact(w.tx.begin, b.value);
    assert !IsAck(b.bytes) by { KindsDiffer(b.bytes); }
    hide Restore;
  }

  lemma KindsDiffer(bytes: seq<byte>)
    requires IsHimark(bytes)
    ensures !IsAck(bytes)
  {
  }

  lemma CreditReaches(w: World)
    requires TxOk(w) && RxOk(w)
    ensures w.tx.begin - HALF_IDS <= w.tx.himark
  {
    hide ReceptionLog.Refines, BufferOk;
  }

  /** Advertising space that is due. */
  lemma AdvertiseStep(w: World, now: nat)
    requires Inv(w) && w.rx.himarkExpiration <= now && w.back == []
    ensures var v := StepSendHimark(w, now);
            && v == w.(rx := w.rx.(himarkExpiration := now + 100_000), back := v.back)
            && |v.back| == 1 && IsHimark(v.back[0].bytes) && v.back[0].value == w.rx.begin + w.rx.capacity
  {
    hide WellFormed, RxWellFormed, Inv, LoadHeader, PacketKind, PacketId, ControlBit, Header;
    InvStates(w);
    AdvertiseExact(w.rx, now, 0);
    HimarkBytesShape(w.rx.begin + w.rx.capacity, w.rx.control);
  }

  /** Credit arrives: once the last advertisement has expired, the next one, delivered, makes the credit exactly the
      receiver's space. */
  lemma CreditRun(w: World, now: nat)
    requires Inv(w) && w.tx.state == Connected && w.back == [] && w.rx.himarkExpiration <= now
    requires w.rx.begin + w.rx.capacity < w.tx.begin + HALF_IDS
    ensures LegalRun([SendHimark(now), DeliverFeedback])
    ensures var v := Run(w, [SendHimark(now), DeliverFeedback]);
            && v.tx == w.tx.(himark := w.rx.begin + w.rx.capacity)
            && v.rx == w.rx.(himarkExpiration := now + 100_000) && v.fwd == w.fwd && v.back == [] && v.log == w.log
  {
    hide Inv, Run, WellFormed, RxWellFormed, StepSendHimark, ReceiveFeedback, Observe;
    RunUnfolds(w, []);
    RunThen(w, [], SendHimark(now));
    assert [] + [SendHimark(now)] == [SendHimark(now)];
    AdvertiseStep(w, now);
    var u := Run(w, [SendHimark(now)]);
    RunThen(w, [SendHimark(now)], DeliverFeedback);
    assert [SendHimark(now)] + [DeliverFeedback] == [SendHimark(now), DeliverFeedback];
    CreditIsGiven(u);
    FeedbackFrame(u);
  }

  /** Delivering feedback leaves the other queue and the log alone. */
  lemma FeedbackFrame(w: World)
    requires WellFormed(w.tx) && w.back != []
    ensures var v := StepFeedback(w);
            v.fwd == w.fwd && v.back == w.back[1..] && v.log == w.log && v.rx == w.rx && v.written == w.written
            && v.closed == w.closed
  {
    hide WellFormed, ReceiveFeedback, History;
  }

  // ----- acknowledgement -----

  /** The next data packet carries the peer's control bit. */
  predicate Audible(w: World)
    requires w.fwd != []
  {
    |w.fwd[0].bytes| >= 2 && ControlBit(LoadHeader(w.fwd[0].bytes)) != w.rx.control
  }

  /** A data packet in flight is not beyond the window, unless it is the final one for which there is no space. */
  lemma ArrivalFits(w: World)
    requires Inv(w) && w.fwd != []
    ensures var p := w.fwd[0].pos;
            p < w.rx.begin + w.rx.capacity <==> p < w.rx.begin || Fits(w.rx, p)
  {
    WindowWithin(w.rx);
    hide WellFormed, StoreOk, BackOk, AckedOk, NextOk, Bytes, FlowOk, FinOk, ReceptionLog.Refines, PktOk;
    assert FwdItemOk(w.tx, w.rx, w.log.base, w.packets, w.sentTo, w.fwd[0]);
    hide Frozen, DataBytes;
  }

  lemma WindowWithin(s: RxState)
    requires RxWellFormed(s)
    ensures s.End() <= s.begin + s.capacity && s.capacity > 0
  {
  }

  /** A packet delivered is answered: the receiver then needs to send an ack if it did before, or if the packet carries
      the peer's control bit and there is space for its position. */
  lemma DeliveryNeedsAck(w: World)
    requires Inv(w) && w.fwd != []
    ensures RxWellFormed(w.rx)
    ensures w.rx.needsAck || (Audible(w) && w.fwd[0].pos < w.rx.begin + w.rx.capacity) <==> StepDeliver(w).rx.needsAck
  {
    hide WellFormed, RxWellFormed, Inv, HandleData, LoadHeader, ControlBit, PacketId, SlotsAfter, MissingFirst,
         ReceptionLog.LogArrive, Restore, StepDeliver;
    InvStates(w);
    ArrivalFits(w);
    DeliverShape(w);
    var f := w.fwd[0];
    var k := w.packets[f.pos - w.log.base];
    ArrivalExact(w.rx, ControlBit(LoadHeader(f.bytes)), PacketId(LoadHeader(f.bytes)), k.payload, k.fin);
  }

  /** An ack that is needed is sent, and carries the first missing position. */
  lemma AckStep(w: World)
    requires Inv(w)
    ensures RxWellFormed(w.rx)
    ensures var v := StepSendAck(w);
            && (w.rx.needsAck ==>
                  && v == w.(rx := w.rx.(needsAck := false), back := v.back) && |v.back| == |w.back| + 1
                  && v.back[..|w.back|] == w.back
                  && IsAck(v.back[|w.back|].bytes) && v.back[|w.back|].value == w.rx.unack)
            && (!w.rx.needsAck ==> v == w)
  {
    hide WellFormed, RxWellFormed, Inv, LoadHeader, BitmapBit, AckBytes;
    InvStates(w);
    AckBytesShape(w.rx);
  }

  /** Delivering a data packet and then acknowledging puts an ack of what has arrived on its way, if the packet carries
      the peer's control bit and there is space for its position; otherwise only if an ack was due before. */
  lemma DeliveredIsAcknowledged(w: World)
    requires Inv(w) && w.fwd != []
    ensures LegalRun([DeliverData, SendAck])
    ensures var v := Run(w, [DeliverData, SendAck]);
            && (w.rx.needsAck || (Audible(w) && w.fwd[0].pos < w.rx.begin + w.rx.capacity) ==>
                  && |v.back| == |w.back| + 1 && v.back[..|w.back|] == w.back
                  && IsAck(v.back[|w.back|].bytes) && v.back[|w.back|].value == v.rx.unack)
            && (!(w.rx.needsAck || (Audible(w) && w.fwd[0].pos < w.rx.begin + w.rx.capacity)) ==> v.back == w.back)
  {
    hide Inv, Run, WellFormed, RxWellFormed, StepSendAck, ReceiveData, ReceptionLog.LogArrive, IsAck, Audible;
    RunUnfolds(w, []);
    RunThen(w, [], DeliverData);
    assert [] + [DeliverData] == [DeliverData];
    var u := Run(w, [DeliverData]);
    RunThen(w, [DeliverData], SendAck);
    assert [DeliverData] + [SendAck] == [DeliverData, SendAck];
    DeliveryNeedsAck(w);
    AckStep(u);
  }
}
