/** Closing a stream before it is connected: the final packet is built with whatever control bit the
transmitter has then (transmitter.cpp). */
module EarlyClose {
  import opened Basics
  import opened SeqNums
  import opened RingBuffers
  import opened Protocol
  import opened OutBuffers
  import opened InBuffers
  import opened Transmission
  import opened Reception
  import opened Connection
  import opened ConnectionInvariant
  import opened ConnectionTheorems

  // ----- a receiver that has received nothing -----

  ghost predicate Pristine(w: World) {
    && w.rx.window == [] && w.rx.state == Connected && w.rx.begin == w.rx.unack == w.log.base
    && !w.rx.peerClosed && !w.rx.eos && w.log.store == map[]
  }

  /** The next packet to arrive, if there is one, carries the receiver's own control bit. */
  predicate Ignored(w: World) {
    w.fwd != [] && IsData(w.fwd[0].bytes) ==> ControlBit(LoadHeader(w.fwd[0].bytes)) == w.rx.control
  }

  lemma StaysPristine(w: World, e: Step)
    requires Pristine(w) && WellFormed(w.tx) && RxWellFormed(w.rx) && Connection.Legal(e) && Ignored(w)
    ensures var v := Connection.Next(w, e); Pristine(v) && v.rx.control == w.rx.control && v.log.base == w.log.base
  {
    hide WellFormed, RxWellFormed, TryWrite, Close, Send, ReceiveFeedback, LoadHeader, Restore, AckBytes, Header;
  }

  // ----- before the connection is set up -----

  /** The transmitter before and after an early close. */
  ghost function Unconnected(tx: TxState, start: SeqNum, closed: bool): TxState
    requires WellFormed(tx)
  {
    InitKeeps(tx, start);
    if closed then Close(Init(tx, start)) else Init(tx, start)
  }

  lemma UnconnectedShape(tx: TxState, start: SeqNum, closed: bool)
    requires WellFormed(tx)
    ensures var s := Unconnected(tx, start, closed);
            && s.state == Connecting && s.begin == start && s.cursor == NoBuffer && s.eos == closed && !s.pendingEof
            && s.nextToSend == start && s.control == tx.control
            && s.window == (if closed then [Eos(start, tx.control)] else [])
            && (!closed ==> Blocked(s))
  {
    InitKeeps(tx, start);
    var s := Init(tx, start);
    assert s.window == [] && s.capacity > 0 && Flush(s) == s;
  }

  ghost predicate Waiting(w: World, tx: TxState, start: SeqNum, control: bool) {
    && Inv(w) && WellFormed(tx) && w.tx == Unconnected(tx, start, w.closed) && w.fwd == []
    && Pristine(w) && w.rx.control == control && w.log.base == start
  }

  /** Nothing but `setConnected` gets the transmitter to send. */
  lemma WaitingTx(w: World, tx: TxState, start: SeqNum, e: Step)
    requires WellFormed(tx) && w.tx == Unconnected(tx, start, w.closed) && WellFormed(w.tx) && RxWellFormed(w.rx)
    requires w.fwd == [] && Connection.Legal(e) && !e.Connect?
    ensures var v := Connection.Next(w, e);
            v.fwd == [] && v.closed == (w.closed || e.CloseOut?) && v.tx == Unconnected(tx, start, v.closed)
  {
    UnconnectedShape(tx, start, w.closed);
    UnconnectedShape(tx, start, true);
    hide WellFormed, RxWellFormed, ReceiveData, TryRead, Acknowledge, Advertise, LoadHeader, Restore, IsAck, IsHimark;
    InitKeeps(tx, start);
  }

  lemma WaitingStep(w: World, tx: TxState, start: SeqNum, control: bool, e: Step)
    requires Waiting(w, tx, start, control) && Connection.Legal(e) && !e.Connect?
    ensures WellFormed(w.tx) && RxWellFormed(w.rx)
    ensures var v := Connection.Next(w, e); Waiting(v, tx, start, control) && v.closed == (w.closed || e.CloseOut?)
  {
    hide Inv, WellFormed, RxWellFormed, Pristine, Unconnected, Connection.Next;
    NextKeeps(w, e);
    StaysPristine(w, e);
    WaitingTx(w, tx, start, e);
  }

  ghost predicate NoConnect(steps: seq<Step>) { forall i :: 0 <= i < |steps| ==> !steps[i].Connect? }

  lemma InitialWaits(tx: TxState, rx: RxState, start: SeqNum, control: bool)
    requires WellFormed(tx) && RxWellFormed(rx) && rx.reading == None
    ensures Waiting(Initial(tx, rx, start, control), tx, start, control)
  {
    InitialInv(tx, rx, start, control);
    hide Inv, WellFormed, RxWellFormed;
  }

  // ----- the right bit -----

  /** Connecting a transmitter that was closed early. */
  lemma ConnectEarly(w: World, tx: TxState, start: SeqNum, control: bool)
    requires Waiting(w, tx, start, control) && w.closed
    ensures var v := StepConnect(w);
            && v.tx.state == Connected && v.tx.window == [Eos(start, tx.control)] && v.tx.begin == start && v.fwd == []
            && v.tx.nextToSend == start && Pristine(v) && v.rx.control == control && v.log.base == start
    ensures Inv(w)
  {
    UnconnectedShape(tx, start, true);
    hide Inv, Unconnected, Eos;
  }

  lemma SendEarly(v: World, start: SeqNum, bit: bool)
    requires v.tx.state == Connected && v.tx.window == [Eos(start, bit)] && v.tx.begin == start && v.fwd == []
    requires v.tx.nextToSend == start && WellFormed(v.tx)
    ensures var u := StepSend(v, 0, 0);
            && |u.fwd| == 1 && u.fwd[0].bytes == Eos(start, bit).Bytes()
            && u.rx == v.rx && u.log == v.log && (Pristine(v) ==> Pristine(u))
  {
    hide WellFormed;
    assert FastIndex(v.tx) == Some(0);
    assert FreshToSend(v.tx.window[0]);
  }

  lemma DeliverEarly(u: World, start: SeqNum, bit: bool)
    requires |u.fwd| == 1 && u.fwd[0].bytes == Eos(start, bit).Bytes() && Pristine(u) && u.log.base == start
    requires RxWellFormed(u.rx) && u.rx.control == !bit
    ensures var v := StepDeliver(u); v.rx.window == [Stored(true, [])] && v.rx.state == Connected
  {
    var b := Eos(start, bit);
    HeaderRoundTrip(start, FIN_PACKET, bit);
    PacketRoundTrip(b.header, []);
    RestoreExact(start, start);
    assert Restore(u.rx.begin, PacketId(b.header)) == start;
    assert u.rx.capacity > 0 && Accepts(u.rx, start);
    hide RxWellFormed, Restore, LoadHeader, Header, Eos;
  }

  const HearingRun := [Connect, SendData(0, 0), DeliverData, Read(0)]

  /** Once connected, the final packet is sent, arrives and is read. */
  lemma HeardWithRightBit(w: World, tx: TxState, start: SeqNum, control: bool)
    requires Waiting(w, tx, start, control) && w.closed && tx.control == !control
    ensures Inv(w) && LegalRun(HearingRun)
    ensures Run(w, HearingRun).rx.eos
  {
    hide Inv, WellFormed, RxWellFormed, StepConnect, StepSend, StepDeliver, StepRead, Eos, Waiting, Pristine, Run,
         OutBuffer.Bytes;
    ConnectEarly(w, tx, start, control);
    NextKeeps(w, Connect);
    var w1 := StepConnect(w);
    NextKeeps(w1, SendData(0, 0));
    SendEarly(w1, start, tx.control);
    var w2 := StepSend(w1, 0, 0);
    NextKeeps(w2, DeliverData);
    DeliverEarly(w2, start, tx.control);
    var w3 := StepDeliver(w2);
    NextKeeps(w3, Read(0));
    ReadFinal(w3);
    RunFour(w, w1, w2, w3, StepRead(w3, 0), Connect, SendData(0, 0), DeliverData, Read(0));
  }

  lemma ReadFinal(w: World)
    requires RxWellFormed(w.rx) && w.rx.state == Connected && w.rx.window == [Stored(true, [])]
    ensures StepRead(w, 0).rx.eos
  {
    TouchFacts(w.rx);
  }

  lemma RunFour(w: World, w1: World, w2: World, w3: World, w4: World, a: Step, b: Step, c: Step, d: Step)
    requires Inv(w) && Inv(w1) && Inv(w2) && Inv(w3) && LegalRun([a, b, c, d])
    requires WellFormed(w.tx) && RxWellFormed(w.rx) && Connection.Legal(a) && w1 == Connection.Next(w, a)
    requires WellFormed(w1.tx) && RxWellFormed(w1.rx) && Connection.Legal(b) && w2 == Connection.Next(w1, b)
    requires WellFormed(w2.tx) && RxWellFormed(w2.rx) && Connection.Legal(c) && w3 == Connection.Next(w2, c)
    requires WellFormed(w3.tx) && RxWellFormed(w3.rx) && Connection.Legal(d) && w4 == Connection.Next(w3, d)
    ensures Run(w, [a, b, c, d]) == w4
  {
    hide Inv, WellFormed, RxWellFormed, Connection.Next;
    assert [a, b, c, d][1..] == [b, c, d] && [b, c, d][1..] == [c, d] && [c, d][1..] == [d] && [d][1..] == [];
    NextKeeps(w3, d);
    assert Run(w4, []) == w4;
    assert Run(w3, [d]) == w4;
    assert Run(w2, [c, d]) == w4;
    assert Run(w1, [b, c, d]) == w4;
  }

  // ----- the wrong bit -----

  /** The final packet and all its copies in flight carry the receiver's own control bit, and nothing has arrived. */
  ghost predicate Deaf(w: World) {
    && Inv(w) && Pristine(w) && |w.packets| == 1 && w.packets[0].fin
    && w.tx.begin == w.log.base && |w.tx.window| == 1 && w.tx.window[0].finished
    && ControlBit(w.tx.window[0].header) == w.rx.control
    && AllCarry(w.fwd, w.rx.control)
  }

  /** The final packet stays where it is, as it is. */
  lemma DeafTx(w: World, e: Step)
    requires Deaf(w) && Connection.Legal(e)
    ensures WellFormed(w.tx) && RxWellFormed(w.rx)
    ensures var v := Connection.Next(w, e);
            && Inv(v) && Pristine(v) && v.rx.control == w.rx.control
            && |v.packets| == 1 && v.packets[0].fin && v.tx.begin == v.log.base && |v.tx.window| == 1
            && v.tx.window[0].finished && v.tx.window[0].Bytes() == w.tx.window[0].Bytes()
  {
    hide Inv, WellFormed, RxWellFormed, Connection.Next, LoadHeader;
    NextKeeps(w, e);
    StaysPristine(w, e);
    var v, p := Connection.Next(w, e), w.log.base;
    WindowInv(w);
    WindowInv(v);
    assert w.tx.Buf(p) == w.tx.window[0];
    FrozenForever(w, e, p);
    AcksAreSound(v, p);
    OnlyFinal(v);
    assert v.tx.Buf(p) == v.tx.window[0];
  }

  lemma OnlyFinal(v: World)
    requires Inv(v) && v.packets != [] && v.packets[0].fin
    ensures |v.packets| == 1
  {
    hide TxOk, WindowOk, StoreOk, RxOk, FlowOk, FwdOk, BackOk, AckedOk, NextOk;
  }

  lemma SameControl(a: OutBuffer, b: OutBuffer)
    requires a.Bytes() == b.Bytes()
    ensures ControlBit(a.header) == ControlBit(b.header)
    ensures |a.Bytes()| >= 2 && ControlBit(LoadHeader(a.Bytes())) == ControlBit(a.header)
  {
    PacketRoundTrip(a.header, a.payload);
    PacketRoundTrip(b.header, b.payload);
  }

  lemma DeafQueue(w: World, e: Step)
    requires WellFormed(w.tx) && RxWellFormed(w.rx) && Connection.Legal(e) && AllCarry(w.fwd, w.rx.control)
    requires var v := Connection.Next(w, e); |v.tx.window| == 1 && ControlBit(v.tx.window[0].header) == w.rx.control
    ensures AllCarry(Connection.Next(w, e).fwd, w.rx.control)
  {
    hide Connection.Next, LoadHeader, ControlBit, WellFormed, RxWellFormed, OutBuffer.Bytes;
    var v := Connection.Next(w, e);
    SameControl(v.tx.window[0], v.tx.window[0]);
    forall i | 0 <= i < |v.fwd|
      ensures |v.fwd[i].bytes| >= 2 && ControlBit(LoadHeader(v.fwd[i].bytes)) == w.rx.control
    {
      FwdAfter(w, e, i);
    }
  }

  lemma DeafStep(w: World, e: Step)
    requires Deaf(w) && Connection.Legal(e)
    ensures WellFormed(w.tx) && RxWellFormed(w.rx)
    ensures Deaf(Connection.Next(w, e))
  {
    DeafTx(w, e);
    hide Inv, WellFormed, RxWellFormed, Connection.Next, LoadHeader, Pristine, ControlBit, OutBuffer.Bytes, AllCarry;
    SameControl(Connection.Next(w, e).tx.window[0], w.tx.window[0]);
    DeafQueue(w, e);
  }

  lemma {:induction false} DeafRun(w: World, steps: seq<Step>)
    requires Deaf(w) && LegalRun(steps)
    ensures Deaf(Run(w, steps)) && !Run(w, steps).rx.peerClosed && !Run(w, steps).rx.eos
    decreases |steps|
  {
    RunUnfolds(w, steps);
    hide Run, Inv, Connection.Next;
    if steps != [] {
      DeafStep(w, steps[0]);
      DeafRun(Connection.Next(w, steps[0]), steps[1..]);
    }
  }

  lemma WaitingIsDeaf(w: World, tx: TxState, start: SeqNum, control: bool)
    requires Waiting(w, tx, start, control) && w.closed && tx.control == control
    ensures Deaf(w)
  {
    UnconnectedShape(tx, start, true);
    HeaderRoundTrip(start, FIN_PACKET, control);
    WindowInv(w);
    FinalPacket(w);
    hide Inv, Unconnected, Pristine;
  }

  lemma FinalPacket(w: World)
    requires Inv(w) && w.closed && !w.tx.pendingEof && |w.packets| == 1
    ensures w.packets[0].fin
  {
    hide TxOk, WindowOk, StoreOk, RxOk, FlowOk, FwdOk, BackOk, AckedOk, NextOk;
  }

  // ----- the exact condition -----

  lemma {:induction false} RunThenClose(w: World, tx: TxState, start: SeqNum, control: bool, pre: seq<Step>)
    requires Waiting(w, tx, start, control) && LegalRun(pre) && NoConnect(pre)
    ensures LegalRun(pre + [CloseOut])
    ensures var v := Run(w, pre + [CloseOut]); Waiting(v, tx, start, control) && v.closed
    decreases |pre|
  {
    hide Connection.Next, Run, Inv, Pristine, Unconnected, WellFormed, RxWellFormed;
    var all := pre + [CloseOut];
    RunUnfolds(w, all);
    WaitingStep(w, tx, start, control, all[0]);
    var v := Connection.Next(w, all[0]);
    if pre == [] {
      assert all[1..] == [];
      RunUnfolds(v, []);
    } else {
      assert all[1..] == pre[1..] + [CloseOut];
      RunThenClose(v, tx, start, control, pre[1..]);
    }
  }

  /** Some continuation of the run tells the reader that the stream has ended. */
  ghost predicate CanEnd(w: World)
    requires Inv(w)
  {
    exists post :: LegalRun(post) && Run(w, post).rx.eos
  }

  /** After a close before the connection is set up, whatever was done before it, the reader can learn of the end of
      the stream if and only if the control bit left over from the transmitter's previous connection is the one the
      handshake then chooses (the receiver has the opposite one). */
  lemma HeardExactly(tx: TxState, rx: RxState, start: SeqNum, control: bool, pre: seq<Step>)
    requires WellFormed(tx) && RxWellFormed(rx) && rx.reading == None && LegalRun(pre) && NoConnect(pre)
    ensures Inv(Initial(tx, rx, start, control)) && LegalRun(pre + [CloseOut])
    ensures CanEnd(Run(Initial(tx, rx, start, control), pre + [CloseOut])) <==> tx.control == !control
  {
    hide Run, Initial, WellFormed, RxWellFormed, Unconnected, Pristine, Inv;
    InitialWaits(tx, rx, start, control);
    var w0 := Initial(tx, rx, start, control);
    RunThenClose(w0, tx, start, control, pre);
    var w := Run(w0, pre + [CloseOut]);
    if tx.control == !control {
      HeardWithRightBit(w, tx, start, control);
    } else {
      WaitingIsDeaf(w, tx, start, control);
      forall post | LegalRun(post) ensures !Run(w, post).rx.eos {
        DeafRun(w, post);
      }
    }
  }

  /** A transmitter and a receiver as constructed, with windows of four packets. */
  const NewTx := TxState(4, 0, [], Idle, false, NoBuffer, 0, 0, false, 0, false)
  const NewRx := RxState(4, 0, [], Idle, false, false, None, false, 0, false, 0)

  lemma NewOk()
    ensures WellFormed(NewTx) && RxWellFormed(NewRx) && NewRx.reading == None && !NewTx.control
  {
  }

  /** A failing input: a newly constructed transmitter has bit false.  If it is closed at once and the handshake then
      chooses true, as for the larger stream id, no run ends the stream for the reader. */
  lemma NewTransmitterUnheard()
    ensures Inv(Initial(NewTx, NewRx, 100, false)) && LegalRun([CloseOut])
    ensures !CanEnd(Run(Initial(NewTx, NewRx, 100, false), [CloseOut]))
  {
    hide NewTx, NewRx, WellFormed, RxWellFormed, Initial, Inv, Run, CanEnd;
    NewOk();
    HeardExactly(NewTx, NewRx, 100, false, []);
    assert [] + [CloseOut] == [CloseOut];
  }
}
