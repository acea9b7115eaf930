/** Delivering acknowledgements and flow control keeps the invariant. */
module ConnectionFeedbackSteps {
  import opened Basics
  import opened SeqNums
  import opened RingBuffers
  import opened Protocol
  import opened OutBuffers
  import opened Transmission
  import opened TransmissionFacts
  import opened Reception
  import opened ReceptionLog
  import opened Connection
  import opened ConnectionInvariant
  import opened ConnectionSendSteps
  import opened ConnectionReceiveSteps

  // ----- the ids of feedback packets -----

  /** The position an ack in flight carries lies in the send window, and its id is restored to it. */
  lemma AckIdExact(w: World, b: Feedback)
    requires TxOk(w) && RxOk(w) && IsAck(b.bytes) && BackItemOk(w.tx, w.rx, w.log.base, w.log.store, b)
    ensures Restore(w.tx.begin, PacketId(LoadHeader(b.bytes))) == b.value
    ensures w.tx.begin <= b.value <= w.tx.End()
  {
    CapacityFacts(w.rx);
    hide Refines, BufferOk, Claims, PacketId, LoadHeader, ControlBit, IsAck, IsHimark;
    RestoreExact(w.tx.begin, b.value);
  }

  /** A flow-control packet in flight is restored exactly, or carries the one position just
      beyond the reach of a 12-bit id and is then taken for a position below the current mark. */
  lemma HimarkIdExactOrRejected(w: World, b: Feedback)
    requires TxOk(w) && RxOk(w) && IsHimark(b.bytes) && BackItemOk(w.tx, w.rx, w.log.base, w.log.store, b)
    ensures var h := Restore(w.tx.begin, PacketId(LoadHeader(b.bytes)));
            || h == b.value
            || (b.value == w.tx.begin + HALF_IDS && h == w.tx.begin - HALF_IDS && h < w.tx.himark)
    ensures b.value <= w.tx.End() + w.rx.capacity
  {
    CapacityFacts(w.rx);
    hide Refines, BufferOk, Claims, PacketId, LoadHeader, ControlBit, IsAck, IsHimark;
    RestoreExact(w.tx.begin, b.value);
    RestoreJustAbove(w.tx.begin);
  }

  // ----- flow control -----

  lemma HimarkBack(w: World, t: TxState)
    requires BackOk(w) && w.back != [] && IsHimark(w.back[0].bytes)
    requires t.begin == w.tx.begin && t.himark <= w.back[0].value
    requires forall i :: 0 <= i < |w.back| && IsHimark(w.back[i].bytes) ==> t.himark <= w.back[i].value
    ensures BackOk(w.(tx := t, back := w.back[1..]))
  {
    hide Claims, IsAck, IsHimark;
    forall i | 0 <= i < |w.back[1..]| ensures BackItemOk(t, w.rx, w.log.base, w.log.store, w.back[1..][i]) {
      assert BackItemOk(w.tx, w.rx, w.log.base, w.log.store, w.back[i + 1]);
    }
  }

  lemma HimarksAbove(w: World)
    requires BackOk(w) && w.back != [] && IsHimark(w.back[0].bytes)
    ensures forall i :: 0 <= i < |w.back| && IsHimark(w.back[i].bytes) ==> w.back[0].value <= w.back[i].value
  {
    hide Claims, IsAck, BackItemOk;
    forall i | 0 < i < |w.back| && IsHimark(w.back[i].bytes) ensures w.back[0].value <= w.back[i].value {
      assert InOrder(w.back[0], w.back[i]);
    }
  }

  lemma TailAcked(tx: TxState, store: Store, back: seq<Feedback>)
    requires AckedOk(tx, store, back) && back != []
    ensures AckedOk(tx, store, back[1..])
  {
    hide IsAck;
    assert forall i :: 0 <= i < |back[1..]| ==> back[1..][i] == back[i + 1];
  }

  lemma HimarkTx(w: World, h: int)
    requires TxOk(w) && w.tx.state == Connected && RxOk(w) && w.tx.himark <= h <= w.rx.begin + w.rx.capacity
             && h < w.tx.begin + HALF_IDS
    ensures TxOk(w.(tx := w.tx.(himark := h)))
  {
    hide Refines, BufferOk;
  }

  lemma HimarkWindow(s: TxState, h: int, base: int, packets: seq<Pkt>)
    requires WindowOk(s, base, packets)
    ensures WindowOk(s.(himark := h), base, packets) && History(packets, base, s.(himark := h)) == packets
  {
    var t := s.(himark := h);
    hide BufferOk, PktOk;
    assert forall p :: s.begin <= p < s.End() ==> t.Buf(p) == s.Buf(p);
    HistorySame(packets, base, s, t);
  }

  lemma HimarkRest(w: World, h: int)
    requires Inv(w)
    ensures var t := w.tx.(himark := h); var v := w.(tx := t);
            && Observe(w, t) == v && WindowOk(t, w.log.base, w.packets) && RxOk(v) && FwdOk(v) && NextOk(v)
            && FinOk(t, w.packets, w.closed)
  {
    hide WellFormed, StoreOk, BackOk, AckedOk, Bytes, Refines, WindowOk, FwdOk, History, PktsOf;
    var t := w.tx.(himark := h);
    HimarkWindow(w.tx, h, w.log.base, w.packets);
    ConnectFwd(w, t);
  }

  lemma HimarkAccepted(w: World)
    requires Inv(w) && w.back != [] && IsHimark(w.back[0].bytes) && w.tx.state == Connected
    requires w.tx.himark <= w.back[0].value < w.tx.begin + HALF_IDS
    ensures var t := w.tx.(himark := w.back[0].value);
            Inv(Observe(w, t).(back := w.back[1..]))
  {
    hide WellFormed, WindowOk, StoreOk, RxOk, FlowOk, FwdOk, BackOk, AckedOk, FinOk, NextOk, Bytes, PktsOf, History,
         IsHimark;
    var h := w.back[0].value;
    var t := w.tx.(himark := h);
    HimarkBound(w);
    HimarkTx(w, h);
    HimarkRest(w, h);
    HimarksAbove(w);
    HimarkBack(w, t);
    SameWindow(w.tx, t, w.log.base, w.packets, w.log.store, w.back);
    TailAcked(t, w.log.store, w.back);
    var v := w.(tx := t, back := w.back[1..]);
    FrameBack(w.(tx := t), v);
    assert FlowOk(v) by { FlowAt(v); }
    hide TxOk;
    assert RestOk(v);
    hide RestOk;
    RestInv(v);
    hide Inv;
  }

  lemma FlowAt(w: World)
    requires w.tx.himark <= w.rx.begin + w.rx.capacity
    ensures FlowOk(w)
  {
  }

  lemma HimarkBound(w: World)
    requires BackOk(w) && w.back != [] && IsHimark(w.back[0].bytes)
    ensures w.tx.himark <= w.back[0].value <= w.rx.begin + w.rx.capacity
  {
    hide AckItemOk, IsHimark, IsAck;
    assert BackItemOk(w.tx, w.rx, w.log.base, w.log.store, w.back[0]);
  }

  /** The conjuncts that do not speak about the feedback queue. */
  lemma FrameBack(w: World, v: World)
    requires TxOk(w) && RxOk(w) && FwdOk(w) && NextOk(w) && v == w.(back := v.back)
    ensures TxOk(v) && RxOk(v) && FwdOk(v) && NextOk(v)
  {
    hide WellFormed, Refines, FwdItemOk;
  }

  lemma IgnoredKeeps(w: World)
    requires Inv(w) && w.back != []
    ensures Inv(Observe(w, w.tx).(back := w.back[1..]))
  {
    hide WellFormed, WindowOk, StoreOk, RxOk, FlowOk, FwdOk, BackOk, AckedOk, FinOk, NextOk, Bytes, PktsOf, History;
    Unchanged(w);
    LoseFeedbackKeeps(w, 0);
    assert Drop(w.back, 0) == w.back[1..];
    hide Inv;
  }

  lemma HimarkStepKeeps(w: World)
    requires Inv(w) && w.back != [] && IsHimark(w.back[0].bytes)
    ensures Inv(StepFeedback(w))
  {
    hide WellFormed, WindowOk, StoreOk, RxOk, FlowOk, FwdOk, BackOk, AckedOk, FinOk, NextOk, Bytes, PktsOf, History,
         Restore, LoadHeader, PacketId, ControlBit;
    InvStates(w);
    HimarkStepShape(w);
    var t := ReceiveFeedback(w.tx, w.back[0].bytes);
    hide ReceiveFeedback, IsHimark;
    if t == w.tx {
      IgnoredKeeps(w);
    } else {
      HimarkAccepted(w);
    }
    hide Inv;
  }

  lemma HimarkStepShape(w: World)
    requires Inv(w) && w.back != [] && IsHimark(w.back[0].bytes) && WellFormed(w.tx)
    ensures var t := ReceiveFeedback(w.tx, w.back[0].bytes);
            || t == w.tx
            || (w.tx.state == Connected && t == w.tx.(himark := w.back[0].value)
                && w.tx.himark <= w.back[0].value < w.tx.begin + HALF_IDS)
  {
    hide WellFormed, WindowOk, StoreOk, FwdOk, AckedOk, FinOk, NextOk, Bytes, RxOk, TxOk, FlowOk, PacketId,
         ControlBit, LoadHeader;
    assert BackItemOk(w.tx, w.rx, w.log.base, w.log.store, w.back[0]);
    HimarkIdExactOrRejected(w, w.back[0]);
    hide BackOk, BackItemOk;
  }

  // ----- acknowledgements: removing the front of the window -----

  lemma PktsConcat(a: seq<OutBuffer>, b: seq<OutBuffer>)
    ensures PktsOf(a + b) == PktsOf(a) + PktsOf(b)
  {
  }

  lemma PktsDrop(a: seq<OutBuffer>, n: nat)
    requires n <= |a|
    ensures PktsOf(a[n..]) == PktsOf(a)[n..]
  {
  }

  /** The pending final packet, if removing something makes room for it. */
  function Freed(s: TxState, n: nat): seq<Pkt> { if n > 0 && s.pendingEof then [Pkt([], true)] else [] }

  lemma PopPkts(s: TxState, n: nat)
    requires WellFormed(s) && s.state == Connected && n <= |s.window|
    ensures PktsOf(PopFront(s, n).window) == PktsOf(s.window)[n..] + Freed(s, n)
    ensures PopFront(s, n).begin == s.begin + n
  {
    PktsDrop(s.window, n);
    if n > 0 {
      var last := if s.pendingEof then [Eos(s.End(), s.control)] else [];
      PktsConcat(s.window[n..], last);
      assert PktsOf(last) == Freed(s, n);
    }
    hide PktsOf, WellFormed;
  }

  lemma PopHistory(w: World, n: nat)
    requires WindowOk(w.tx, w.log.base, w.packets) && WellFormed(w.tx) && w.tx.state == Connected && n <= |w.tx.window|
    ensures History(w.packets, w.log.base, PopFront(w.tx, n)) == w.packets + Freed(w.tx, n)
  {
    hide WellFormed, PktsOf, PopFront, Freed;
    PopPkts(w.tx, n);
    HistorySplit(w.packets, w.log.base, w.tx);
    var i, j := w.tx.begin - w.log.base, w.tx.begin + n - w.log.base;
    var pkts := PktsOf(w.tx.window);
    assert History(w.packets, w.log.base, PopFront(w.tx, n)) == w.packets[..j] + (pkts[n..] + Freed(w.tx, n));
    hide WindowOk, History;
    assert w.packets[..j] == w.packets[..i] + pkts[..n];
    assert w.packets[..i] + pkts[..n] + (pkts[n..] + Freed(w.tx, n)) == w.packets[..i] + pkts + Freed(w.tx, n);
  }

  /** Everything an ack removes has been stored by the receiver, and is frozen. */
  lemma PoppedStored(w: World, b: Feedback, p: int)
    requires RxOk(w) && StoreOk(w.tx, w.log.base, w.packets, w.log.store) && WindowOk(w.tx, w.log.base, w.packets)
    requires b.value <= w.rx.unack && w.tx.begin <= p < b.value && p < w.tx.End()
    ensures p in w.log.store && w.tx.Buf(p).finished
  {
    hide RxWellFormed, Holds, Text, PartlyRead;
    assert p in w.log.store;
    assert Frozen(w.tx, p);
  }

  lemma PopTx(w: World, b: Feedback, n: nat)
    requires TxOk(w) && RxOk(w) && StoreOk(w.tx, w.log.base, w.packets, w.log.store)
    requires WindowOk(w.tx, w.log.base, w.packets)
    requires w.tx.state == Connected && b.value == w.tx.begin + n && n <= |w.tx.window| && b.value <= w.rx.unack
    ensures TxOk(w.(tx := PopFront(w.tx, n)))
  {
    PopFrontKeeps(w.tx, n);
    if n > 0 && n == |w.tx.window| {
      PoppedStored(w, b, w.tx.End() - 1);
    }
    hide RxOk, StoreOk, WindowOk;
    var t := PopFront(w.tx, n);
    assert WellFormed(t);
    hide WellFormed;
  }

  lemma PopFin(s: TxState, t: TxState, n: nat, packets: seq<Pkt>, closed: bool)
    requires FinOk(s, packets, closed) && WellFormed(s) && s.state == Connected && n <= |s.window|
             && t == PopFront(s, n)
    ensures FinOk(t, packets + Freed(s, n), closed)
    ensures LastIsFin(packets) ==> !s.pendingEof
  {
    hide BufferOk;
  }

  lemma PopBack(w: World, t: TxState)
    requires BackOk(w) && w.back != [] && IsAck(w.back[0].bytes)
    requires t.begin == w.back[0].value && t.himark == w.tx.himark
    ensures BackOk(w.(tx := t, back := w.back[1..]))
  {
    hide Claims, IsAck, IsHimark;
    forall i | 0 <= i < |w.back[1..]| ensures BackItemOk(t, w.rx, w.log.base, w.log.store, w.back[1..][i]) {
      assert BackItemOk(w.tx, w.rx, w.log.base, w.log.store, w.back[i + 1]);
      assert InOrder(w.back[0], w.back[i + 1]);
    }
  }

  /** After the removal, the new front is the position the receiver waits for: it is not marked acked. */
  lemma PopAcked(w: World, n: nat)
    requires AckedOk(w.tx, w.log.store, w.back) && w.back != [] && IsAck(w.back[0].bytes)
    requires WellFormed(w.tx) && w.tx.state == Connected && n <= |w.tx.window| && w.back[0].value == w.tx.begin + n
    ensures AckedOk(PopFront(w.tx, n), w.log.store, w.back)
  {
    var t := PopFront(w.tx, n);
    PopFrontEvolves(w.tx, n);
    hide WellFormed, PopFront, Evolves, IsAck, ReceptionLog.At;
    forall p | t.begin <= p < t.End() && t.Buf(p).acked ensures p < w.tx.End() && w.tx.Buf(p).acked {
      if p < w.tx.End() { assert t.Buf(p) == w.tx.Buf(p); }
    }
    if t.window != [] && t.begin < w.tx.End() {
      assert t.Buf(t.begin) == w.tx.Buf(t.begin);
    }
    if t.window != [] {
      assert t.Buf(t.begin) == t.window[0];
    }
  }

  lemma PopNext(w: World, t: TxState)
    requires NextOk(w) && t.nextToSend == w.tx.nextToSend && t.capacity == w.tx.capacity && t.End() >= w.tx.End()
    ensures NextOk(w.(tx := t))
  {
  }

  lemma PopRx(w: World, t: TxState, ending: seq<Pkt>)
    requires RxOk(w) && t.begin <= w.rx.unack && t.End() >= w.tx.End()
    requires LastIsFin(w.packets) ==> t.End() == w.tx.End() && ending == []
    ensures RxOk(w.(tx := t, packets := w.packets + ending))
  {
    hide Refines;
  }

  lemma PopBytes(packets: seq<Pkt>, ending: seq<Pkt>)
    requires ending == [] || ending == [Pkt([], true)]
    ensures Bytes(packets + ending) == Bytes(packets)
  {
    BytesConcat(packets, ending);
    assert Bytes([Pkt([], true)]) == Bytes([]) + [];
  }

  lemma PopShape(s: TxState, n: nat)
    requires WellFormed(s) && s.state == Connected && n <= |s.window|
    ensures var t := PopFront(s, n);
            && t.nextToSend == s.nextToSend && t.capacity == s.capacity && t.himark == s.himark
            && t.begin == s.begin + n && t.state == Connected && t.eos == s.eos
            && t.End() == s.End() + (if n > 0 && s.pendingEof then 1 else 0)
  {
    hide BufferOk;
  }

  /** The front of the window is removed, with the ack still at the head of the queue. */
  lemma PopRest(w: World, n: nat)
    requires Inv(w) && w.back != [] && IsAck(w.back[0].bytes) && w.tx.state == Connected
    requires n <= |w.tx.window| && w.back[0].value == w.tx.begin + n && w.back[0].value <= w.rx.unack
    ensures var t := PopFront(w.tx, n);
            var v := Observe(w, t);
            && WindowOk(t, v.log.base, v.packets) && StoreOk(t, v.log.base, v.packets, v.log.store)
            && RxOk(v) && FwdOk(v) && FlowOk(v) && AckedOk(t, v.log.store, w.back) && TxOk(v) && NextOk(v)
            && FinOk(t, v.packets, v.closed) && Bytes(v.packets) == v.written
            && BackOk(v.(back := w.back[1..]))
  {
    hide WellFormed, WindowOk, StoreOk, RxOk, FwdOk, BackOk, AckedOk, FinOk, NextOk, Bytes, PktsOf, History, IsAck,
         PopFront,
         Evolves, LastIsFin, TransmissionFacts.Grows;
    InvStates(w);
    var t := PopFront(w.tx, n);
    var v := Observe(w, t);
    var ending := Freed(w.tx, n);
    PopShape(w.tx, n);
    PopHistory(w, n);
    PopFrontEvolves(w.tx, n);
    PopFrontKeeps(w.tx, n);
    WindowAfter(w.packets, w.log.base, w.tx, t);
    StoreStable(w.packets, w.log.base, w.tx, t, w.log.store);
    FwdStable(w, t);
    PopFin(w.tx, t, n, w.packets, w.closed);
    PopRx(w, t, ending);
    PopTx(w, w.back[0], n);
    TxOkFrame(w.(tx := t), v);
    PopAcked(w, n);
    PopNext(w, t);
    NextSamePackets(w.(tx := t), v);
    PopBytes(w.packets, ending);
    PopBack(w, t);
    BackSamePackets(w.(tx := t, back := w.back[1..]), v.(back := w.back[1..]));
    hide TxOk;
  }

  lemma NextSamePackets(w: World, v: World)
    requires NextOk(w) && v == w.(packets := v.packets)
    ensures NextOk(v)
  {
  }

  lemma BackSamePackets(w: World, v: World)
    requires BackOk(w) && v == w.(packets := v.packets)
    ensures BackOk(v)
  {
    hide BackItemOk, InOrder;
  }

  lemma PopInv(w: World, n: nat)
    requires Inv(w) && w.back != [] && IsAck(w.back[0].bytes) && w.tx.state == Connected
    requires n <= |w.tx.window| && w.back[0].value == w.tx.begin + n && w.back[0].value <= w.rx.unack
    ensures Inv(Observe(w, PopFront(w.tx, n)).(back := w.back[1..]))
  {
    hide WellFormed, WindowOk, StoreOk, RxOk, FwdOk, BackOk, AckedOk, FinOk, NextOk, Bytes, PktsOf, History, IsAck,
         PopFront, FlowOk;
    InvStates(w);
    PopRest(w, n);
    var t := PopFront(w.tx, n);
    var u := Observe(w, t);
    var v := u.(back := w.back[1..]);
    FrameBack(u, v);
    TailAcked(t, w.log.store, w.back);
    FlowFrame(u, v);
    hide TxOk;
    assert RestOk(v);
    hide RestOk;
    RestInv(v);
    hide Inv;
  }

  lemma FlowFrame(w: World, v: World)
    requires FlowOk(w) && v == w.(back := v.back)
    ensures FlowOk(v)
  {
  }

  // ----- acknowledgements: applying the bitmap -----

  /** A change of the window that keeps positions and content. */
  ghost predicate Redecorates(s: TxState, t: TxState) {
    && Evolves(s, t)
    && t.begin == s.begin && |t.window| == |s.window| && t.himark == s.himark
    && PktsOf(t.window) == PktsOf(s.window)
  }

  lemma RedecoratesRest(w: World, t: TxState, next: int)
    requires RestOk(w) && Redecorates(w.tx, t) && WellFormed(t) && AckedOk(t, w.log.store, w.back)
    ensures Observe(w, t) == w.(tx := t) && RestOk(w.(tx := t, next := next))
  {
    hide WellFormed, StoreOk, Refines, AckedOk, PktsOf, History;
    HistorySame(w.packets, w.log.base, w.tx, t);
    RedecoratesWindow(w, t);
    StoreStable(w.packets, w.log.base, w.tx, t, w.log.store);
    hide FwdOk, BackOk;
    FwdStable(w, t);
    RedecoratesBack(w, t, next);
    var v := w.(tx := t, next := next);
    assert FwdOk(v) by { FwdSameNext(w.(tx := t), v); }
    hide WindowOk, Evolves;
  }

  lemma RedecoratesWindow(w: World, t: TxState)
    requires WindowOk(w.tx, w.log.base, w.packets) && Redecorates(w.tx, t) && WellFormed(t)
    ensures WindowOk(t, w.log.base, w.packets)
  {
    HistorySame(w.packets, w.log.base, w.tx, t);
    WindowAfter(w.packets, w.log.base, w.tx, t);
    hide WindowOk, WellFormed;
  }

  lemma RedecoratesBack(w: World, t: TxState, next: int)
    requires BackOk(w) && t.begin == w.tx.begin && t.himark == w.tx.himark
    ensures BackOk(w.(tx := t, next := next))
  {
    hide Claims, IsAck, IsHimark, InOrder;
    forall i | 0 <= i < |w.back| ensures BackItemOk(t, w.rx, w.log.base, w.log.store, w.back[i]) {
      assert BackItemOk(w.tx, w.rx, w.log.base, w.log.store, w.back[i]);
    }
  }

  lemma FwdSameNext(w: World, v: World)
    requires FwdOk(w) && v == w.(next := v.next)
    ensures FwdOk(v)
  {
    hide FwdItemOk;
  }

  /** Buffers newly marked acked are ones the receiver has, and no ack in flight waits for them. */
  lemma MarkAcked(s: TxState, b: Feedback, store: Store, back: seq<Feedback>)
    requires WellFormed(s) && s.window != [] && IsAck(b.bytes) && b.value == s.begin
    requires AckedOk(s, store, back)
    requires forall p :: Claims(b, p) ==> p in store
    requires forall i :: 0 <= i < |back| ==> InOrder(b, back[i])
    ensures AckedOk(ApplyBitmap(s, b.bytes[2..]).next, store, back)
  {
    var t := ApplyBitmap(s, b.bytes[2..]).next;
    ApplyBitmapEvolves(s, b.bytes[2..]);
    hide WellFormed, ApplyBitmap, IsAck, BitmapBit, PktsOf, Evolves;
    forall p | t.begin <= p < t.End() && t.Buf(p).acked ensures s.Buf(p).acked || Claims(b, p) {
      var k := p - t.begin;
      assert t.window[k].acked == AckedAt(s.window, b.bytes[2..], k);
    }
    forall p, i | t.begin <= p < t.End() && t.Buf(p).acked && 0 <= i < |back| && IsAck(back[i].bytes)
      ensures p != back[i].value
    {
      assert InOrder(b, back[i]);
    }
    assert t.window[0].acked == AckedAt(s.window, b.bytes[2..], 0);
  }

  lemma SmallWindow(s: TxState)
    requires WellFormed(s)
    ensures |s.window| <= MAX_CAPACITY
  {
    hide BufferOk;
  }

  lemma MarkShape(s: TxState, bitmap: seq<byte>)
    requires WellFormed(s) && s.window != []
    ensures var t := ApplyBitmap(s, bitmap).next;
            && WellFormed(t) && Redecorates(s, t)
            && t == s.(window := t.window, nextToSend := t.nextToSend)
            && (t.nextToSend != s.nextToSend ==> (t.nextToSend - s.begin) % 0x1_0000 < |s.window|)
  {
    hide WellFormed, Evolves, PktsOf, FirstNacked, LastBit, Marked;
    ApplyBitmapEvolves(s, bitmap);
    ApplyBitmapKeeps(s, bitmap);
    SmallWindow(s);
    var first := FirstNacked(s.window, bitmap, LastBit(bitmap, |s.window| - 1), 0);
    if first.Some? {
      WrapMinus(s.begin + first.value, s.begin);
    }
  }

  function Chosen(s: TxState, t: TxState, next: int): int {
    if t.nextToSend == s.nextToSend then next else t.begin + (t.nextToSend - t.begin) % 0x1_0000
  }

  lemma MarkNext(w: World, t: TxState)
    requires NextOk(w) && WellFormed(w.tx) && w.log.base <= w.tx.begin
    requires t == w.tx.(window := t.window, nextToSend := t.nextToSend) && |t.window| == |w.tx.window|
    requires t.nextToSend != w.tx.nextToSend ==> (t.nextToSend - w.tx.begin) % 0x1_0000 < |w.tx.window|
    ensures NextOk(w.(tx := t, next := Chosen(w.tx, t, w.next)))
  {
    hide BufferOk;
    if t.nextToSend != w.tx.nextToSend {
      var k := (t.nextToSend - t.begin) % 0x1_0000;
      assert t.begin + k == t.nextToSend - 0x1_0000 * ((t.nextToSend - t.begin) / 0x1_0000);
      assert t.nextToSend == Wrap(t.begin + k);
    }
  }

  lemma MarkKeeps(w: World, b: Feedback)
    requires Inv(w) && w.tx.window != [] && IsAck(b.bytes) && |b.bytes| >= 2 && b.value == w.tx.begin
    requires forall p :: Claims(b, p) ==> p in w.log.store
    requires forall i :: 0 <= i < |w.back| ==> InOrder(b, w.back[i])
    ensures var t := ApplyBitmap(w.tx, b.bytes[2..]).next;
            Observe(w, t) == w.(tx := t) && Inv(w.(tx := t, next := Chosen(w.tx, t, w.next)))
  {
    hide WellFormed, WindowOk, StoreOk, RxOk, FwdOk, BackOk, AckedOk, FinOk, NextOk, Bytes, PktsOf, History, IsAck,
         FlowOk,
         ApplyBitmap, Redecorates, Chosen, InOrder, Claims;
    InvStates(w);
    InvRest(w);
    var t := ApplyBitmap(w.tx, b.bytes[2..]).next;
    MarkAcked(w.tx, b, w.log.store, w.back);
    MarkShape(w.tx, b.bytes[2..]);
    var next := Chosen(w.tx, t, w.next);
    RedecoratesRest(w, t, next);
    WindowBase(w);
    RedecoratesLength(w.tx, t);
    MarkNext(w, t);
    var v := w.(tx := t, next := next);
    assert FinOk(t, w.packets, w.closed) by { SendFin(w, t); }
    assert TxOk(v);
    hide TxOk, RestOk;
    RestInv(v);
    hide Inv;
  }

  lemma WindowBase(w: World)
    requires WindowOk(w.tx, w.log.base, w.packets)
    ensures w.log.base <= w.tx.begin
  {
  }

  lemma RedecoratesLength(s: TxState, t: TxState)
    requires Redecorates(s, t)
    ensures |t.window| == |s.window|
  {
  }

  // ----- acknowledgements: the end of the stream -----

  lemma ResetRest(w: World)
    requires Inv(w) && w.tx.window == [] && w.tx.state == Connected && w.tx.eos
    ensures var t := Reset(w.tx); var v := w.(tx := t);
            Observe(w, t) == v && FinOk(t, w.packets, w.closed) && TxOk(v) && NextOk(v)
              && WindowOk(t, w.log.base, w.packets) && RxOk(v)
  {
    hide StoreOk, FwdOk, BackOk, AckedOk, Bytes, Refines, FlowOk;
    ResetKeeps(w.tx);
    var t := Reset(w.tx);
    assert !w.tx.pendingEof;
    hide WellFormed, PktOk;
    assert w.packets[..t.begin - w.log.base] == w.packets;
  }

  lemma ResetInv(w: World)
    requires Inv(w) && w.tx.window == [] && w.tx.state == Connected && w.tx.eos
    ensures Observe(w, Reset(w.tx)) == w.(tx := Reset(w.tx)) && Inv(w.(tx := Reset(w.tx)))
  {
    hide WellFormed, WindowOk, StoreOk, RxOk, FwdOk, BackOk, AckedOk, FinOk, NextOk, Bytes, PktsOf, History, FlowOk;
    ResetRest(w);
    var t := Reset(w.tx);
    var v := w.(tx := t);
    ConnectFwd(w, t);
    SameWindow(w.tx, t, w.log.base, w.packets, w.log.store, w.back);
    RedecoratesBack(w, t, w.next);
    assert FlowOk(v) by { FlowReset(w); }
    hide TxOk, Reset;
    assert RestOk(v);
    hide RestOk;
    RestInv(v);
    hide Inv;
  }

  lemma FlowReset(w: World)
    requires FlowOk(w)
    ensures FlowOk(w.(tx := Reset(w.tx)))
  {
  }

  // ----- the step -----

  /** What `ack` does with an ack in flight. */
  lemma AckStepShape(w: World)
    requires Inv(w) && w.back != [] && IsAck(w.back[0].bytes) && WellFormed(w.tx)
    ensures var b := w.back[0];
            var t := ReceiveFeedback(w.tx, b.bytes);
            && |b.bytes| >= 2 && w.tx.begin <= b.value <= w.tx.End() && b.value <= w.rx.unack
            && (w.tx.state != Connected ==> t == w.tx)
            && (w.tx.state == Connected ==>
                  var s := PopFront(w.tx, b.value - w.tx.begin);
                  t == if s.window == [] then (if s.eos then Reset(s) else s) else ApplyBitmap(s, b.bytes[2..]).next)
            && (forall p :: Claims(b, p) ==> p in w.log.store)
  {
    hide WellFormed, WindowOk, StoreOk, FwdOk, AckedOk, FinOk, NextOk, Bytes, RxOk, FlowOk, PacketId, ControlBit,
         LoadHeader,
         PopFront, ApplyBitmap, Reset, Restore, Claims, IsHimark;
    var b := w.back[0];
    assert |b.bytes| >= 2;
    hide IsAck;
    assert BackItemOk(w.tx, w.rx, w.log.base, w.log.store, b);
    AckIdExact(w, b);
    hide BackOk, BackItemOk;
  }

  lemma TailInOrder(w: World)
    requires BackOk(w) && w.back != []
    ensures forall i :: 0 <= i < |w.back[1..]| ==> InOrder(w.back[0], w.back[1..][i])
  {
    hide InOrder, BackItemOk;
  }

  lemma HistoryTwice(packets: seq<Pkt>, base: int, s: TxState, t: TxState)
    requires base <= s.begin && s.begin - base <= |packets| && t.begin == s.begin
    ensures History(History(packets, base, s), base, t) == History(packets, base, t)
  {
    hide PktsOf;
    var h := History(packets, base, s);
    assert h[..s.begin - base] == packets[..s.begin - base];
  }

  lemma PopBounds(w: World, n: nat)
    requires Inv(w) && w.tx.state == Connected && n <= |w.tx.window|
    ensures var s := PopFront(w.tx, n);
            && w.log.base <= s.begin && s.begin - w.log.base <= |w.packets| && s.begin == w.tx.begin + n
            && s.state == Connected && s.nextToSend == w.tx.nextToSend && WellFormed(s)
  {
    PopFrontKeeps(w.tx, n);
    hide StoreOk, FwdOk, BackOk, AckedOk, Bytes, RxOk, FlowOk, FinOk, BufferOk, PktOk;
  }

  lemma AckStepKeeps(w: World)
    requires Inv(w) && w.back != [] && IsAck(w.back[0].bytes)
    ensures Inv(StepFeedback(w))
  {
    hide WellFormed, WindowOk, StoreOk, RxOk, FlowOk, FwdOk, BackOk, AckedOk, FinOk, NextOk, Bytes, PktsOf, History,
         TxOk, PopFront, ApplyBitmap, Claims, IsAck, InOrder;
    InvStates(w);
    AckStepShape(w);
    var b := w.back[0];
    var t := ReceiveFeedback(w.tx, b.bytes);
    hide ReceiveFeedback;
    if w.tx.state != Connected {
      IgnoredKeeps(w);
    } else {
      var n := b.value - w.tx.begin;
      var s := PopFront(w.tx, n);
      PopInv(w, n);
      PopBounds(w, n);
      var v := Observe(w, s).(back := w.back[1..]);
      TailInOrder(w);
      if s.window != [] {
        MarkKeeps(v, b);
        MarkShape(s, b.bytes[2..]);
        hide Redecorates;
        HistoryTwice(w.packets, w.log.base, s, t);
        assert StepFeedback(w) == v.(tx := t, next := Chosen(v.tx, t, v.next));
      } else if s.eos {
        ResetInv(v);
        HistoryTwice(w.packets, w.log.base, s, t);
        assert StepFeedback(w) == v.(tx := t);
      } else {
        assert StepFeedback(w) == v;
      }
    }
    hide Inv;
  }

  lemma FeedbackStepKeeps(w: World)
    requires Inv(w)
    ensures Inv(StepFeedback(w))
  {
    hide WellFormed, WindowOk, StoreOk, RxOk, FlowOk, FwdOk, AckedOk, FinOk, NextOk, Bytes, PktsOf, History, IsAck,
         IsHimark,
         AckItemOk, HimarkItemOk, InOrder;
    InvStates(w);
    if w.back == [] {
      assert StepFeedback(w) == w;
    } else {
      assert BackItemOk(w.tx, w.rx, w.log.base, w.log.store, w.back[0]);
      if IsAck(w.back[0].bytes) {
        AckStepKeeps(w);
      } else {
        HimarkStepKeeps(w);
      }
    }
    hide Inv;
  }
}
