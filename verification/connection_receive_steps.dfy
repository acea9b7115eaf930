/** The steps of the receiving side, and the losses of the medium, keep the invariant. */
module ConnectionReceiveSteps {
  import opened Basics
  import opened RingBuffers
  import opened Protocol
  import opened InBuffers
  import opened Transmission
  import opened TransmissionFacts
  import opened Reception
  import opened ReceptionLog
  import opened Connection
  import opened ConnectionInvariant

  /** The receiver moves forward and forgets nothing. */
  ghost predicate Advances(rx: RxState, store: Store, rx': RxState, store': Store) {
    && rx'.capacity == rx.capacity && rx'.control == rx.control
    && rx.begin <= rx'.begin && rx.End() <= rx'.End() && rx.unack <= rx'.unack
    && (forall p :: p in store ==> p in store')
  }

  lemma AdvanceBack(w: World, rx: RxState, log: Log)
    requires BackOk(w) && Advances(w.rx, w.log.store, rx, log.store) && log.base == w.log.base
    ensures BackOk(w.(rx := rx, log := log))
  {
    forall i | 0 <= i < |w.back| ensures BackItemOk(w.tx, rx, log.base, log.store, w.back[i]) {
      assert BackItemOk(w.tx, w.rx, w.log.base, w.log.store, w.back[i]);
    }
  }

  lemma AdvanceAcked(tx: TxState, store: Store, store': Store, back: seq<Feedback>)
    requires AckedOk(tx, store, back) && forall p :: p in store ==> p in store'
    ensures AckedOk(tx, store', back)
  {
  }

  lemma AdvanceFwd(w: World, v: World)
    requires FwdOk(w) && Advances(w.rx, w.log.store, v.rx, v.log.store)
    requires v == w.(rx := v.rx, log := v.log, fwd := v.fwd) && v.log.base == w.log.base
    requires v.fwd == w.fwd || (w.fwd != [] && v.fwd == w.fwd[1..])
    requires forall i :: 0 <= i < |v.fwd| ==> v.rx.End() <= v.fwd[i].sentEnd
    ensures FwdOk(v)
  {
    hide Frozen, DataBytes;
    var d := |w.fwd| - |v.fwd|;
    forall i | 0 <= i < |v.fwd| ensures FwdItemOk(v.tx, v.rx, v.log.base, v.packets, v.sentTo, v.fwd[i]) {
      assert v.fwd[i] == w.fwd[i + d];
      assert FwdItemOk(w.tx, w.rx, w.log.base, w.packets, w.sentTo, w.fwd[i + d]);
    }
  }

  /** What remains to be shown of the invariant after the receiver has moved. */
  lemma AdvanceInv(w: World, v: World)
    requires Inv(w) && Advances(w.rx, w.log.store, v.rx, v.log.store)
    requires v == w.(rx := v.rx, log := v.log, fwd := v.fwd) && v.log.base == w.log.base
    requires FwdOk(v) && RxOk(v) && StoreOk(v.tx, v.log.base, v.packets, v.log.store) && v.rx.End() <= v.sentTo
    ensures Inv(v)
  {
    hide WellFormed, WindowOk, StoreOk, RxOk, FwdOk, BackOk, AckedOk, FinOk, Bytes;
    AdvanceBack(w, v.rx, v.log);
    AdvanceAcked(w.tx, w.log.store, v.log.store, w.back);
    assert BackOk(v) by { BackFrame(w.(rx := v.rx, log := v.log), v); }
    hide Advances;
  }

  lemma BackFrame(w: World, v: World)
    requires BackOk(w) && v == w.(fwd := v.fwd)
    ensures BackOk(v)
  {
    hide BackItemOk, InOrder;
  }

  // ----- deliver a data packet -----

  /** Every data packet in flight is restored to the position it was queued at. */
  lemma DataIdExact(w: World, f: InFlight)
    requires TxOk(w) && WindowOk(w.tx, w.log.base, w.packets) && FinOk(w.tx, w.packets, w.closed) && FlowOk(w)
             && RxOk(w)
    requires FwdItemOk(w.tx, w.rx, w.log.base, w.packets, w.sentTo, f)
    ensures Restore(w.rx.begin, PacketId(LoadHeader(f.bytes))) == f.pos
    ensures f.pos <= w.rx.begin + w.rx.capacity
  {
    hide BufferOk, PktOk, Refines, LoadHeader, PacketId, PacketKind;
    CapacityFacts(w.rx);
    RestoreExact(w.rx.begin, f.pos);
  }

  lemma CapacityFacts(rx: RxState)
    requires exists log :: Refines(rx, log)
    ensures IsCapacity(rx.capacity) && |rx.window| <= rx.capacity && rx.begin <= rx.unack <= rx.End()
  {
  }

  lemma PayloadOk(w: World, f: InFlight)
    requires WindowOk(w.tx, w.log.base, w.packets)
    requires FwdItemOk(w.tx, w.rx, w.log.base, w.packets, w.sentTo, f)
    ensures IsData(f.bytes)
    ensures var k := w.packets[f.pos - w.log.base];
            && Stored(k.fin, k.payload).Valid()
            && f.bytes[2..] == k.payload && (PacketKind(LoadHeader(f.bytes)) == FIN_PACKET) == k.fin
  {
    assert PktOk(w.packets[f.pos - w.log.base]);
    hide Frozen, WindowOk, PacketKind, LoadHeader;
  }

  /** The delivery, in terms of the position and content of the packet. */
  lemma DeliverShape(w: World)
    requires Inv(w) && w.fwd != []
    ensures var f := w.fwd[0];
            && 0 <= f.pos - w.log.base < |w.packets| && |f.bytes| >= 2
            && var k := w.packets[f.pos - w.log.base];
               var c := ControlBit(LoadHeader(f.bytes));
               var id := PacketId(LoadHeader(f.bytes));
            && Stored(k.fin, k.payload).Valid()
            && Restore(w.rx.begin, id) == f.pos
            && StepDeliver(w) == w.(rx := HandleData(w.rx, c, id, k.payload, k.fin).next,
                                    fwd := w.fwd[1..],
                                    log := LogArrive(w.rx, w.log, c, id, k.payload, k.fin))
  {
    hide StoreOk, BackOk, AckedOk, NextOk, Bytes, FlowOk, FinOk, WindowOk, WellFormed, RxWellFormed, Holds,
         FirstMissing, Text,
         HandleData, LogArrive, PacketKind, PacketId, ControlBit, LoadHeader;
    var f := w.fwd[0];
    assert FwdItemOk(w.tx, w.rx, w.log.base, w.packets, w.sentTo, f);
    DataIdExact(w, f);
    PayloadOk(w, f);
  }

  lemma StoreAtShape(s: RxState, k: nat, b: InBuffer)
    requires RxWellFormed(s) && s.state == Connected && k < s.capacity && b.Stored?
    ensures var t := StoreAt(Extend(s, k), k, b);
            && t.begin == s.begin && t.capacity == s.capacity && t.control == s.control && t.eos == s.eos
            && t.End() == Max(s.End(), s.begin + k + 1) && s.unack <= t.unack
            && t.peerClosed == (s.peerClosed || b.fin)
  {
    ExtendKeeps(s, k);
  }

  lemma DeliverStore(w: World, f: InFlight, fin: bool, payload: seq<byte>)
    requires StoreOk(w.tx, w.log.base, w.packets, w.log.store)
    requires FwdItemOk(w.tx, w.rx, w.log.base, w.packets, w.sentTo, f)
    requires fin == w.packets[f.pos - w.log.base].fin && payload == w.packets[f.pos - w.log.base].payload
    ensures StoreOk(w.tx, w.log.base, w.packets, FirstWrite(w.log.store, f.pos, Stored(fin, payload)))
  {
    hide Frozen, DataBytes;
  }

  /** The receiver after taking in the packet `f`, which agrees with the packets queued. */
  lemma AcceptRx(w: World, f: InFlight, rx: RxState, log: Log)
    requires RxOk(w) && FinOk(w.tx, w.packets, w.closed) && WindowOk(w.tx, w.log.base, w.packets)
    requires FwdItemOk(w.tx, w.rx, w.log.base, w.packets, w.sentTo, f)
    requires Refines(rx, log)
    requires rx.begin == w.rx.begin && w.rx.unack <= rx.unack && rx.eos == w.rx.eos
    requires rx.End() == w.rx.End() || rx.End() == Max(w.rx.End(), f.pos + 1)
    requires rx.peerClosed ==>
             w.rx.peerClosed || (w.packets[f.pos - w.log.base].fin && rx.End() == Max(w.rx.End(), f.pos + 1))
    ensures RxOk(w.(rx := rx, log := log, fwd := w.fwd[..0]))
    ensures rx.End() <= w.sentTo || rx.End() == w.rx.End()
    ensures rx.End() <= f.sentEnd
  {
    hide Refines, DataBytes, Frozen, BufferOk, PktOk;
  }

  lemma RxFrame(w: World, v: World)
    requires RxOk(w) && v == w.(fwd := v.fwd)
    ensures RxOk(v)
  {
    hide Refines;
  }

  lemma QueueTail(w: World)
    requires FwdOk(w) && w.fwd != []
    ensures forall i :: 0 <= i < |w.fwd[1..]| ==> w.fwd[0].sentEnd <= w.fwd[1..][i].sentEnd
  {
    hide FwdItemOk;
    assert forall i :: 0 <= i < |w.fwd[1..]| ==> w.fwd[1..][i] == w.fwd[i + 1];
  }

  lemma {:induction false} DeliverStepKeeps(w: World)
    requires Inv(w)
    ensures Inv(StepDeliver(w))
  {
    hide WellFormed, WindowOk, StoreOk, RxOk, FlowOk, FwdOk, BackOk, AckedOk, FinOk, NextOk, Bytes, RxWellFormed, Holds,
         FirstMissing, Text, LoadHeader, PacketId, PacketKind, ControlBit, FwdItemOk, StepDeliver;
    InvStates(w);
    if w.fwd != [] {
      var f := w.fwd[0];
      DeliverShape(w);
      var k := w.packets[f.pos - w.log.base];
      var v := StepDeliver(w);
      HeadOk(w);
      DeliverRx(w, f, k, ControlBit(LoadHeader(f.bytes)), PacketId(LoadHeader(f.bytes)));
      hide HandleData, LogArrive, Refines;
      QueueTail(w);
      var u := v.(fwd := w.fwd[..0]);
      RxFrame(u, v);
      assert v.rx.End() <= f.sentEnd;
      AdvanceFwd(w, v);
      SentToOk(w, v.rx);
      AdvanceInv(w, v);
      hide Inv;
    } else {
      NoDelivery(w);
      hide Inv;
    }
  }

  lemma NoDelivery(w: World)
    requires Inv(w) && w.fwd == []
    ensures StepDeliver(w) == w
  {
    hide WindowOk, StoreOk, BackOk, AckedOk, FinOk, NextOk, Bytes, WellFormed, RxWellFormed;
  }

  lemma HeadOk(w: World)
    requires FwdOk(w) && w.fwd != []
    ensures FwdItemOk(w.tx, w.rx, w.log.base, w.packets, w.sentTo, w.fwd[0])
  {
    hide FwdItemOk;
  }

  lemma SentToOk(w: World, rx: RxState)
    requires NextOk(w) && (rx.End() <= w.sentTo || rx.End() == w.rx.End())
    ensures rx.End() <= w.sentTo
  {
  }

  /** What `handleDataPacket` may change of the window's ends and flags. */
  lemma HandleDataShape(s: RxState, c: bool, id: nat, payload: seq<byte>, fin: bool)
    requires RxWellFormed(s) && s.state == Connected
    ensures var t := HandleData(s, c, id, payload, fin).next;
            var p := Restore(s.begin, id);
            && t.begin == s.begin && t.capacity == s.capacity && t.control == s.control && t.eos == s.eos
            && s.unack <= t.unack && s.End() <= t.End()
            && (t.End() == s.End() || t.End() == Max(s.End(), p + 1))
            && (t.peerClosed ==> s.peerClosed || (fin && t.End() == Max(s.End(), p + 1)))
  {
    var p := Restore(s.begin, id);
    WindowFits(s);
    hide RxWellFormed, Restore, StoreAt, Extend;
    if c != s.control && Accepts(s, p) {
      StoreAtShape(s, p - s.begin, Stored(fin, payload));
    }
  }

  lemma LogGrows(w: World, f: InFlight, k: Pkt, c: bool, id: nat)
    requires StoreOk(w.tx, w.log.base, w.packets, w.log.store)
    requires FwdItemOk(w.tx, w.rx, w.log.base, w.packets, w.sentTo, f)
    requires k == w.packets[f.pos - w.log.base] && Restore(w.rx.begin, id) == f.pos
    ensures var log := LogArrive(w.rx, w.log, c, id, k.payload, k.fin);
            && log.base == w.log.base
            && StoreOk(w.tx, w.log.base, w.packets, log.store)
            && forall p :: p in w.log.store ==> p in log.store
  {
    DeliverStore(w, f, k.fin, k.payload);
    hide StoreOk, FwdItemOk;
  }

  lemma DeliverRx(w: World, f: InFlight, k: Pkt, c: bool, id: nat)
    requires RxOk(w) && FinOk(w.tx, w.packets, w.closed) && WindowOk(w.tx, w.log.base, w.packets)
    requires StoreOk(w.tx, w.log.base, w.packets, w.log.store)
    requires FwdItemOk(w.tx, w.rx, w.log.base, w.packets, w.sentTo, f)
    requires k == w.packets[f.pos - w.log.base] && Stored(k.fin, k.payload).Valid() && Restore(w.rx.begin, id) == f.pos
    ensures var rx := HandleData(w.rx, c, id, k.payload, k.fin).next;
            var log := LogArrive(w.rx, w.log, c, id, k.payload, k.fin);
            && RxOk(w.(rx := rx, log := log, fwd := w.fwd[..0]))
            && StoreOk(w.tx, w.log.base, w.packets, log.store)
            && Advances(w.rx, w.log.store, rx, log.store)
            && log.base == w.log.base
            && (rx.End() <= w.sentTo || rx.End() == w.rx.End()) && rx.End() <= f.sentEnd
  {
    hide RxWellFormed, Holds, FirstMissing, Text, FinOk, WindowOk, StoreOk, FwdItemOk, HandleData, LogArrive,
         Restore, PartlyRead;
    var rx := HandleData(w.rx, c, id, k.payload, k.fin).next;
    var log := LogArrive(w.rx, w.log, c, id, k.payload, k.fin);
    ArriveRefines(w.rx, w.log, c, id, k.payload, k.fin);
    HandleDataShape(w.rx, c, id, k.payload, k.fin);
    LogGrows(w, f, k, c, id);
    hide Refines;
    AcceptRx(w, f, rx, log);
    hide RxOk;
  }

  lemma InvStates(w: World)
    requires Inv(w)
    ensures WellFormed(w.tx) && RxWellFormed(w.rx) && w.rx.state == Connected && w.rx.begin <= w.rx.unack
  {
    RxBounds(w);
    hide WellFormed, WindowOk, StoreOk, FlowOk, FwdOk, BackOk, AckedOk, FinOk, NextOk, Bytes, RxWellFormed, Holds,
         FirstMissing,
         Text;
  }

  // ----- losses -----

  lemma DropAt<T>(q: seq<T>, i: nat, k: nat)
    requires i < |q| && k < |Drop(q, i)|
    ensures Drop(q, i)[k] == if k < i then q[k] else q[k + 1]
  {
  }

  lemma LoseDataKeeps(w: World, i: nat)
    requires Inv(w)
    ensures Inv(w.(fwd := Drop(w.fwd, i)))
  {
    hide WellFormed, WindowOk, StoreOk, BackOk, AckedOk, FinOk, NextOk, Bytes, Refines, FwdItemOk;
    var v := w.(fwd := Drop(w.fwd, i));
    if i < |w.fwd| {
      forall k | 0 <= k < |v.fwd| ensures v.fwd[k] == if k < i then w.fwd[k] else w.fwd[k + 1] { DropAt(w.fwd, i, k); }
    }
    assert FwdOk(v);
    hide FwdOk;
    BackFrame(w, v);
    NextFrame(w, v);
  }

  lemma NextFrame(w: World, v: World)
    requires NextOk(w) && v == w.(fwd := v.fwd, back := v.back)
    ensures NextOk(v)
  {
  }

  lemma LoseFeedbackAcked(w: World, i: nat)
    requires AckedOk(w.tx, w.log.store, w.back)
    ensures AckedOk(w.tx, w.log.store, Drop(w.back, i))
  {
    var q := Drop(w.back, i);
    if i < |w.back| {
      forall k | 0 <= k < |q| ensures q[k] == if k < i then w.back[k] else w.back[k + 1] { DropAt(w.back, i, k); }
    }
  }

  lemma LoseFeedbackKeeps(w: World, i: nat)
    requires Inv(w)
    ensures Inv(w.(back := Drop(w.back, i)))
  {
    hide WellFormed, WindowOk, StoreOk, AckedOk, FinOk, NextOk, Bytes, Refines, FwdOk, BackItemOk, InOrder;
    var v := w.(back := Drop(w.back, i));
    if i < |w.back| {
      forall k | 0 <= k < |v.back| ensures v.back[k] == if k < i then w.back[k] else w.back[k + 1] {
        DropAt(w.back, i, k);
      }
    }
    assert BackOk(v);
    hide BackOk;
    LoseFeedbackAcked(w, i);
    FwdFrame(w, v);
    NextFrame(w, v);
  }

  lemma FwdFrame(w: World, v: World)
    requires FwdOk(w) && v == w.(back := v.back)
    ensures FwdOk(v)
  {
    hide FwdItemOk;
  }

  // ----- poll and read -----

  lemma PollKeeps(w: World)
    requires Inv(w)
    ensures Inv(w.(rx := Touch(w.rx)))
  {
    hide WellFormed, WindowOk, StoreOk, FwdOk, BackOk, AckedOk, FinOk, Bytes, RxWellFormed, Holds, FirstMissing,
         Text, PartlyRead;
    var v := w.(rx := Touch(w.rx));
    TouchRefines(w.rx, w.log);
    hide Refines;
    assert RxOk(v) && v.rx.End() <= v.sentTo;
    assert Advances(w.rx, w.log.store, v.rx, v.log.store);
    SentEnds(w);
    hide RxOk, NextOk, Touch;
    AdvanceFwd(w, v);
    AdvanceInv(w, v);
    hide Inv;
  }

  lemma SentEnds(w: World)
    requires FwdOk(w)
    ensures forall i :: 0 <= i < |w.fwd| ==> w.rx.End() <= w.fwd[i].sentEnd
  {
    forall i | 0 <= i < |w.fwd| ensures w.rx.End() <= w.fwd[i].sentEnd {
      assert FwdItemOk(w.tx, w.rx, w.log.base, w.packets, w.sentTo, w.fwd[i]);
      hide Frozen, DataBytes;
    }
  }

  /** The `CHECK` in `tryRead` never fires: no slot is in use behind a final packet. */
  lemma FinalPacketIsLast(w: World)
    requires RxOk(w) && FinOk(w.tx, w.packets, w.closed) && StoreOk(w.tx, w.log.base, w.packets, w.log.store)
    requires WindowOk(w.tx, w.log.base, w.packets)
    ensures FinIsLast(w.rx)
    ensures w.rx.window != [] && w.rx.window[|w.rx.window| - 1].Stored? && w.rx.window[|w.rx.window| - 1].fin ==>
              w.rx.End() == w.tx.End() && LastIsFin(w.packets)
  {
    hide Frozen, BufferOk, PktOk, FirstMissing, Text, PartlyRead, RxWellFormed;
    forall k | 0 <= k < |w.rx.window| && w.rx.window[k].Stored? && w.rx.window[k].fin
      ensures k == |w.rx.window| - 1 && w.rx.End() == w.tx.End() && LastIsFin(w.packets)
    {
      var p := w.rx.begin + k;
      assert w.rx.window[k] == At(w.log.store, p);
      assert p in w.log.store;
      assert w.packets[p - w.log.base].fin;
    }
  }

  ghost predicate EndsWithFin(s: RxState) {
    s.window != [] && s.window[|s.window| - 1].Stored? && s.window[|s.window| - 1].fin
  }

  /** Reading moves only the front of the window, and reaches the end of the stream only at a final packet. */
  ghost predicate ReadMoves(s: RxState, t: RxState) {
    && t.End() == s.End() && s.begin <= t.begin && t.unack == s.unack
    && t.capacity == s.capacity && t.control == s.control && t.peerClosed == s.peerClosed
    && (t.eos && !s.eos ==> t.window == [] && EndsWithFin(s))
  }

  lemma PopReadMoves(s: RxState)
    requires s.window != [] && FinIsLast(s)
    ensures ReadMoves(s, PopRead(s)) && FinIsLast(PopRead(s))
    ensures EndsWithFin(PopRead(s)) ==> EndsWithFin(s)
  {
    var t := PopRead(s);
    assert forall k :: 0 <= k < |t.window| ==> t.window[k] == s.window[k + 1];
  }

  lemma {:induction false} ReadLoopMoves(s: RxState, count: nat)
    requires RxWellFormed(s) && s.state == Connected && FinIsLast(s)
    ensures ReadMoves(s, ReadLoop(s, count).next)
    decreases |s.window|
  {
    hide RxWellFormed, FinIsLast, EndsWithFin, ReadLoop;
    ReadRound(s, count);
    TouchFinLast(s);
    if s.window != [] && s.window[0].Stored? {
      var s1 := Touch(s);
      var n := |s.window[0].data| - s1.reading.value;
      PopReadMoves(s1);
      if count > n && !s.window[0].fin { ReadLoopMoves(PopRead(s1), count - n); }
      hide PopRead;
    }
  }

  lemma TouchFinLast(s: RxState)
    requires FinIsLast(s)
    ensures FinIsLast(Touch(s)) && (EndsWithFin(Touch(s)) ==> EndsWithFin(s))
    ensures forall t :: ReadMoves(Touch(s), t) ==> ReadMoves(s, t)
  {
  }

  lemma ReadRx(w: World, count: nat)
    requires Inv(w)
    ensures var v := StepRead(w, count);
            RxOk(v) && Advances(w.rx, w.log.store, v.rx, v.log.store) && v.rx.End() == w.rx.End()
  {
    hide WellFormed, WindowOk, StoreOk, FwdOk, BackOk, AckedOk, FinOk, Bytes, RxWellFormed, Holds, FirstMissing,
         Text, PartlyRead,
         NextOk, FlowOk, FinIsLast, ReadLoop;
    FinalPacketIsLast(w);
    ReadLoopMoves(w.rx, count);
    ReadLoopRefines(w.rx, w.log, count);
    var v := StepRead(w, count);
    hide Refines;
    assert v.rx == ReadLoop(w.rx, count).next;
  }

  lemma ReadStepKeeps(w: World, count: nat)
    requires Inv(w)
    ensures Inv(StepRead(w, count))
  {
    hide WellFormed, WindowOk, StoreOk, FwdOk, BackOk, AckedOk, FinOk, Bytes, RxOk, FlowOk, TryRead, RxWellFormed;
    InvStates(w);
    var v := StepRead(w, count);
    ReadRx(w, count);
    SentEnds(w);
    assert v.rx.End() <= v.sentTo;
    hide NextOk;
    AdvanceFwd(w, v);
    AdvanceInv(w, v);
    hide Inv;
  }

  // ----- acks and flow control are sent -----

  lemma AckBytesShape(s: RxState)
    requires RxWellFormed(s)
    ensures var bytes := AckBytes(s);
            && IsAck(bytes) && !IsHimark(bytes) && bytes != []
            && ControlBit(LoadHeader(bytes)) == s.control
            && PacketId(LoadHeader(bytes)) == s.unack % ID_SPACE
            && bytes[2..] == Trim(StoreBits(AckBits(s)))
  {
    var h := Header(s.unack, DATA_ACK_PACKET, s.control);
    var bitmap := Trim(StoreBits(AckBits(s)));
    HeaderRoundTrip(s.unack, DATA_ACK_PACKET, s.control);
    PacketRoundTrip(h, bitmap);
    assert |bitmap| <= 8;
    hide StoreBits, Trim, AckBits, RxWellFormed, PacketKind, PacketId, ControlBit, LoadHeader;
  }

  /** An ack reports only positions that the receiver has stored: those below its id, and those its bitmap names. */
  lemma AckClaims(s: RxState, log: Log, p: int)
    requires Refines(s, log)
    ensures PacketId(LoadHeader(AckBytes(s))) == s.unack % ID_SPACE
    ensures log.base <= p < s.unack || Claims(Feedback(AckBytes(s), s.unack), p) ==> p in log.store
  {
    AckBytesShape(s);
    if Claims(Feedback(AckBytes(s), s.unack), p) { AckBitmapClaims(s, log, p); }
    hide RxWellFormed, Holds, Text, PartlyRead, AckBytes, Claims;
  }

  /** A position that has arrived after the first missing one is stored. */
  lemma ArrivedIsStored(s: RxState, log: Log, j: nat)
    requires Refines(s, log) && s.begin <= s.unack && ArrivedAfter(s, j)
    ensures s.unack + 1 + j in log.store
  {
    hide RxWellFormed, FirstMissing, Text, PartlyRead;
    var k := s.unack - s.begin + 1 + j;
    assert s.window[k] == At(log.store, s.begin + k);
  }

  lemma AckBitmapClaims(s: RxState, log: Log, p: int)
    requires Refines(s, log) && Claims(Feedback(AckBytes(s), s.unack), p)
    ensures p in log.store
  {
    assert RxWellFormed(s) && s.begin <= s.unack;
    hide Refines, RxWellFormed, StoreBits, Trim, AckBytes, BitmapBit, IsAck, ArrivedAfter;
    AckBytesShape(s);
    var j := p - s.unack - 1;
    BitmapRoundTrip(AckBits(s), j);
    assert AckBits(s)[j] == ArrivedAfter(s, j);
    ArrivedIsStored(s, log, j);
  }

  lemma AckItem(w: World)
    requires RxOk(w)
    ensures BackItemOk(w.tx, w.rx, w.log.base, w.log.store, Feedback(AckBytes(w.rx), w.rx.unack))
  {
    var b := Feedback(AckBytes(w.rx), w.rx.unack);
    AckBytesShape(w.rx);
    forall p | Claims(b, p) ensures p in w.log.store { AckClaims(w.rx, w.log, p); }
    hide Claims, RxWellFormed, Holds, Text, PartlyRead, FirstMissing, AckBytes, IsAck, IsHimark;
  }

  lemma AckInOrder(w: World, a: Feedback)
    requires RxOk(w) && BackItemOk(w.tx, w.rx, w.log.base, w.log.store, a)
    ensures InOrder(a, Feedback(AckBytes(w.rx), w.rx.unack))
  {
    AckBytesShape(w.rx);
    hide RxWellFormed, Holds, Text, PartlyRead, AckBytes, IsAck, IsHimark;
    assert w.rx.unack !in w.log.store;
  }

  lemma AppendBack(w: World, b: Feedback)
    requires BackOk(w) && BackItemOk(w.tx, w.rx, w.log.base, w.log.store, b)
    requires forall i :: 0 <= i < |w.back| ==> InOrder(w.back[i], b)
    ensures BackOk(w.(back := w.back + [b]))
  {
    hide BackItemOk, InOrder;
  }

  lemma AckedAppend(w: World)
    requires AckedOk(w.tx, w.log.store, w.back) && RxOk(w)
    ensures AckedOk(w.tx, w.log.store, w.back + [Feedback(AckBytes(w.rx), w.rx.unack)])
  {
    hide RxWellFormed, Holds, Text, PartlyRead, AckBytes, IsAck;
    assert w.rx.unack !in w.log.store;
  }

  lemma NeedsAckFrame(w: World, rx: RxState)
    requires Inv(w) && Refines(rx, w.log)
    requires rx == w.rx.(needsAck := rx.needsAck, himarkExpiration := rx.himarkExpiration)
    ensures Inv(w.(rx := rx))
  {
    hide WellFormed, WindowOk, StoreOk, FwdOk, BackOk, AckedOk, FinOk, Bytes, Refines, FlowOk;
    var v := w.(rx := rx);
    assert RxOk(v) && v.rx.End() <= v.sentTo;
    SentEnds(w);
    hide RxOk, NextOk;
    AdvanceFwd(w, v);
    AdvanceInv(w, v);
    hide Inv;
  }

  /** The queue of feedback is all that grows. */
  lemma FeedbackInv(w: World, v: World)
    requires Inv(w) && v == w.(back := v.back) && BackOk(v) && AckedOk(v.tx, v.log.store, v.back)
    ensures Inv(v)
  {
    hide WellFormed, WindowOk, StoreOk, AckedOk, FinOk, NextOk, Bytes, Refines, FwdOk, BackOk;
    FwdFrame(w, v);
    NextFrame(w, v);
  }

  lemma SendAckKeeps(w: World)
    requires Inv(w)
    ensures Inv(StepSendAck(w))
  {
    hide WellFormed, WindowOk, StoreOk, RxOk, FlowOk, FwdOk, BackOk, AckedOk, FinOk, NextOk, Bytes, RxWellFormed,
         AckBytes;
    InvStates(w);
    if w.rx.needsAck {
      var b := Feedback(AckBytes(w.rx), w.rx.unack);
      AckItem(w);
      forall i | 0 <= i < |w.back| ensures InOrder(w.back[i], b) {
        BackAt(w, i);
        AckInOrder(w, w.back[i]);
      }
      AppendBack(w, b);
      AckedAppend(w);
      var v := w.(back := w.back + [b]);
      FeedbackInv(w, v);
      AckBytesShape(w.rx);
      AckRefines(w);
      NeedsAckFrame(v, w.rx.(needsAck := false));
      assert StepSendAck(w) == v.(rx := w.rx.(needsAck := false));
      hide Inv;
    } else {
      assert StepSendAck(w) == w;
      hide Inv;
    }
  }

  lemma BackAt(w: World, i: nat)
    requires BackOk(w) && i < |w.back|
    ensures BackItemOk(w.tx, w.rx, w.log.base, w.log.store, w.back[i])
  {
    hide BackItemOk;
  }

  lemma AckRefines(w: World)
    requires RxOk(w)
    ensures Refines(w.rx.(needsAck := false), w.log)
  {
    NeedsAckRefines(w.rx, w.log, false);
    hide Refines;
  }

  lemma HimarkBytesShape(h: int, control: bool)
    ensures var bytes := Packet(Header(h, FLOW_CONTROL_PACKET, control), []);
            && IsHimark(bytes) && !IsAck(bytes) && bytes != []
            && ControlBit(LoadHeader(bytes)) == control && PacketId(LoadHeader(bytes)) == h % ID_SPACE
  {
    HeaderRoundTrip(h, FLOW_CONTROL_PACKET, control);
    PacketRoundTrip(Header(h, FLOW_CONTROL_PACKET, control), []);
  }

  lemma HimarkItem(w: World)
    requires RxOk(w) && FlowOk(w)
    ensures var h := w.rx.begin + w.rx.capacity;
            BackItemOk(w.tx, w.rx, w.log.base, w.log.store,
                       Feedback(Packet(Header(h, FLOW_CONTROL_PACKET, w.rx.control), []), h))
  {
    HimarkBytesShape(w.rx.begin + w.rx.capacity, w.rx.control);
    hide Packet, Header, IsAck, IsHimark, RxWellFormed, Holds, FirstMissing, Text, PartlyRead;
  }

  lemma HimarkInOrder(w: World, a: Feedback)
    requires BackItemOk(w.tx, w.rx, w.log.base, w.log.store, a)
    ensures var h := w.rx.begin + w.rx.capacity;
            InOrder(a, Feedback(Packet(Header(h, FLOW_CONTROL_PACKET, w.rx.control), []), h))
  {
    HimarkBytesShape(w.rx.begin + w.rx.capacity, w.rx.control);
    hide Packet, Header, IsAck, IsHimark;
  }

  lemma HimarkAcked(w: World)
    requires AckedOk(w.tx, w.log.store, w.back)
    ensures var h := w.rx.begin + w.rx.capacity;
            AckedOk(w.tx, w.log.store, w.back + [Feedback(Packet(Header(h, FLOW_CONTROL_PACKET, w.rx.control), []), h)])
  {
    HimarkBytesShape(w.rx.begin + w.rx.capacity, w.rx.control);
    hide Packet, Header, IsAck, IsHimark;
  }

  lemma HimarkRefines(w: World, now: nat)
    requires RxOk(w)
    ensures Refines(w.rx.(himarkExpiration := now), w.log)
  {
    assert PartlyRead(w.rx.(himarkExpiration := now)) == PartlyRead(w.rx);
  }

  lemma SendHimarkKeeps(w: World, now: nat)
    requires Inv(w)
    ensures Inv(StepSendHimark(w, now))
  {
    hide WellFormed, WindowOk, StoreOk, RxOk, FlowOk, FwdOk, BackOk, AckedOk, FinOk, NextOk, Bytes, RxWellFormed;
    InvStates(w);
    if now < w.rx.himarkExpiration {
      assert StepSendHimark(w, now) == w;
      hide Inv;
    } else {
      var h := w.rx.begin + w.rx.capacity;
      HimarkBytesShape(h, w.rx.control);
      hide Packet, Header;
      var b := Feedback(Packet(Header(h, FLOW_CONTROL_PACKET, w.rx.control), []), h);
      HimarkItem(w);
      forall i | 0 <= i < |w.back| ensures InOrder(w.back[i], b) {
        BackAt(w, i);
        HimarkInOrder(w, w.back[i]);
      }
      AppendBack(w, b);
      HimarkAcked(w);
      var v := w.(back := w.back + [b]);
      FeedbackInv(w, v);
      HimarkRefines(w, now + HIMARK_TIMEOUT);
      NeedsAckFrame(v, w.rx.(himarkExpiration := now + HIMARK_TIMEOUT));
      assert StepSendHimark(w, now) == v.(rx := w.rx.(himarkExpiration := now + HIMARK_TIMEOUT));
      hide Inv;
    }
  }

  lemma RxBounds(w: World)
    requires RxOk(w)
    ensures w.rx.begin <= w.rx.unack
  {
    CapacityFacts(w.rx);
    hide Refines;
  }
}
