/** The steps of the sending side keep the invariant. */
module ConnectionSendSteps {
  import opened Basics
  import opened SeqNums
  import opened RingBuffers
  import opened Protocol
  import opened OutBuffers
  import opened Transmission
  import opened TransmissionFacts
  import opened Reception
  import opened ReceptionLog
  import opened Connection
  import opened ConnectionInvariant

  /** Every conjunct of the invariant that an operation on the queue leaves to the receiving side. */
  ghost predicate RestOk(w: World) {
    && WindowOk(w.tx, w.log.base, w.packets)
    && StoreOk(w.tx, w.log.base, w.packets, w.log.store)
    && RxOk(w)
    && FlowOk(w)
    && FwdOk(w)
    && BackOk(w)
    && AckedOk(w.tx, w.log.store, w.back)
  }

  lemma QuietIds(s: TxState, t: TxState)
    requires Quiet(s, t)
    ensures forall p :: s.End() <= p < t.End() ==> PacketId(t.Buf(p).header) == p % ID_SPACE
  {
    forall p | s.End() <= p < t.End() ensures PacketId(t.Buf(p).header) == p % ID_SPACE {
      var k := p - t.begin;
      assert |s.window| <= k < |t.window|;
      assert PacketId(t.window[k].header) == (t.begin + k) % ID_SPACE;
    }
  }

  lemma QuietAcked(s: TxState, t: TxState, store: Store, back: seq<Feedback>)
    requires Quiet(s, t) && AckedOk(s, store, back)
    ensures AckedOk(t, store, back)
  {
    forall p | t.begin <= p < t.End() && t.Buf(p).acked
      ensures p < s.End() && s.Buf(p).acked
    {
      assert t.window[p - t.begin].acked;
    }
  }

  lemma QuietBack(w: World, t: TxState)
    requires Quiet(w.tx, t) && BackOk(w)
    ensures BackOk(Observe(w, t))
  {
    forall i | 0 <= i < |w.back| ensures BackItemOk(t, w.rx, w.log.base, w.log.store, w.back[i]) {
      assert BackItemOk(w.tx, w.rx, w.log.base, w.log.store, w.back[i]);
    }
  }

  /** Nothing is added behind a final packet. */
  ghost predicate RespectsFin(w: World, t: TxState) {
    LastIsFin(w.packets) ==> t.End() == w.tx.End() && History(w.packets, w.log.base, t) == w.packets
  }

  lemma QuietRx(w: World, t: TxState)
    requires WindowOk(w.tx, w.log.base, w.packets) && Quiet(w.tx, t) && RxOk(w) && RespectsFin(w, t)
    ensures RxOk(Observe(w, t))
  {
  }

  lemma QuietRest(w: World, t: TxState)
    requires RestOk(w) && Quiet(w.tx, t) && WellFormed(t) && RespectsFin(w, t)
    ensures RestOk(Observe(w, t))
  {
    QuietEvolves(w.tx, t);
    QuietIds(w.tx, t);
    WindowAfter(w.packets, w.log.base, w.tx, t);
    StoreStable(w.packets, w.log.base, w.tx, t, w.log.store);
    QuietRx(w, t);
    FwdStable(w, t);
    QuietBack(w, t);
    QuietAcked(w.tx, t, w.log.store, w.back);
    assert FlowOk(Observe(w, t));
    hide WindowOk, StoreOk, RxOk, FlowOk, FwdOk, BackOk, AckedOk;
  }

  lemma InvRest(w: World)
    requires Inv(w)
    ensures RestOk(w)
  {
    hide TxOk, WindowOk, StoreOk, RxOk, FlowOk, FwdOk, BackOk, AckedOk, FinOk, NextOk, Bytes;
  }

  lemma RestInv(w: World)
    requires RestOk(w) && TxOk(w) && Bytes(w.packets) == w.written && FinOk(w.tx, w.packets, w.closed) && NextOk(w)
    ensures Inv(w)
  {
    hide TxOk, WindowOk, StoreOk, RxOk, FlowOk, FwdOk, BackOk, AckedOk, FinOk, NextOk, Bytes;
  }

  // ----- write -----

  lemma WriteFin(w: World, t: TxState, accepted: seq<byte>)
    requires WindowOk(w.tx, w.log.base, w.packets) && FinOk(w.tx, w.packets, w.closed)
    requires Writable(w.tx) && Wrote(w.tx, t, accepted)
    ensures !LastIsFin(w.packets)
    ensures FinOk(t, History(w.packets, w.log.base, t), w.closed)
  {
    var base := w.log.base;
    var h := History(w.packets, base, t);
    forall k | 0 <= k < |h| ensures !h[k].fin {
      if k >= w.tx.begin - base {
        var i := base + k - w.tx.begin;
        assert h[k] == PktOf(t.window[i]);
        if i < |w.tx.window| {
          assert Grows(w.tx.window[i], t.window[i]);
          assert w.packets[k] == PktOf(w.tx.Buf(base + k));
        }
      }
    }
  }

  lemma WroteFacts(s: TxState, t: TxState, accepted: seq<byte>)
    requires Wrote(s, t, accepted)
    ensures Quiet(s, t) && t.begin == s.begin && Bytes(PktsOf(t.window)) == Bytes(PktsOf(s.window)) + accepted
  {
  }

  lemma WriteBytes(w: World, t: TxState, accepted: seq<byte>)
    requires WindowOk(w.tx, w.log.base, w.packets) && Wrote(w.tx, t, accepted) && Bytes(w.packets) == w.written
    ensures Bytes(History(w.packets, w.log.base, t)) == w.written + accepted
  {
    hide Wrote, Quiet, Bytes, PktsOf;
    var front := w.packets[..w.tx.begin - w.log.base];
    var before, after := PktsOf(w.tx.window), PktsOf(t.window);
    HistorySplit(w.packets, w.log.base, w.tx);
    WroteFacts(w.tx, t, accepted);
    assert History(w.packets, w.log.base, t) == front + after;
    hide WindowOk, History;
    BytesConcat(front, before);
    BytesConcat(front, after);
    assert Bytes(front) + (Bytes(before) + accepted) == Bytes(front) + Bytes(before) + accepted;
  }

  lemma WriteTx(w: World, data: seq<byte>)
    requires Inv(w) && Writable(w.tx)
    requires Wrote(w.tx, TryWrite(w.tx, data).next, data[..TryWrite(w.tx, data).written])
    ensures TxOk(StepWrite(w, data)) && NextOk(StepWrite(w, data))
  {
    hide WellFormed, WindowOk, StoreOk, Refines, FwdOk, BackOk, AckedOk, FinOk, Bytes, PktsOf, TryWrite;
  }

  lemma Unchanged(w: World)
    requires Inv(w)
    ensures Observe(w, w.tx) == w
  {
    hide WellFormed, StoreOk, RxOk, FlowOk, FwdOk, BackOk, AckedOk, FinOk, NextOk, Bytes, PktsOf, History, WindowOk;
    HistorySame(w.packets, w.log.base, w.tx, w.tx);
  }

  lemma WriteKeeps(w: World, data: seq<byte>)
    requires Inv(w)
    ensures Inv(StepWrite(w, data))
  {
    hide WellFormed, WindowOk, StoreOk, RxOk, FlowOk, FwdOk, BackOk, AckedOk, FinOk, NextOk, Bytes, Quiet, Wrote,
         WriteLoop, PktsOf, History;
    var r := TryWrite(w.tx, data);
    var v := StepWrite(w, data);
    var t := r.next;
    if data == [] || !Writable(w.tx) {
      Unchanged(w);
      assert r.written == 0 && t == w.tx;
      assert w.written + data[..0] == w.written;
      assert v == w;
      hide Inv;
    } else {
      InvRest(w);
      WriteLoopWrote(w.tx, data);
      WriteTx(w, data);
      WriteFin(w, t, data[..r.written]);
      WriteBytes(w, t, data[..r.written]);
      WroteFacts(w.tx, t, data[..r.written]);
      hide TxOk, TryWrite, Writable;
      QuietRest(w, t);
      RestWritten(Observe(w, t), v);
      hide RestOk;
      RestInv(v);
      hide Inv;
    }
  }

  /** The accepted bytes appear in no conjunct that concerns the receiving side. */
  lemma RestWritten(w: World, v: World)
    requires RestOk(w) && v == w.(written := v.written)
    ensures RestOk(v)
  {
    hide WindowOk, StoreOk, AckedOk, Refines;
  }

  // ----- steps that change no content -----

  lemma SameHistory(w: World, t: TxState)
    requires WindowOk(w.tx, w.log.base, w.packets) && Quiet(w.tx, t) && PktsOf(t.window) == PktsOf(w.tx.window)
    ensures Observe(w, t) == w.(tx := t) && RespectsFin(w, t)
  {
    HistorySame(w.packets, w.log.base, w.tx, t);
    assert |PktsOf(t.window)| == |PktsOf(w.tx.window)|;
  }

  lemma SameContentKeeps(w: World, t: TxState)
    requires Inv(w) && Quiet(w.tx, t) && PktsOf(t.window) == PktsOf(w.tx.window)
    requires TxOk(w.(tx := t)) && NextOk(w.(tx := t))
    requires t.state == w.tx.state && t.eos == w.tx.eos && t.pendingEof == w.tx.pendingEof
    ensures Observe(w, t) == w.(tx := t) && Inv(Observe(w, t))
  {
    hide WellFormed, StoreOk, RxOk, FlowOk, FwdOk, BackOk, AckedOk, NextOk, Bytes, Quiet, PktsOf, WindowOk, History;
    SameHistory(w, t);
    InvRest(w);
    QuietRest(w, t);
    assert FinOk(t, w.packets, w.closed);
    hide FinOk, TxOk, RestOk, RespectsFin;
    RestInv(w.(tx := t));
    hide Inv;
  }

  lemma FlushTx(w: World)
    requires Inv(w)
    ensures TxOk(w.(tx := Flush(w.tx))) && NextOk(w.(tx := Flush(w.tx)))
  {
    hide WellFormed, WindowOk, StoreOk, Refines, FlowOk, FwdOk, BackOk, AckedOk, FinOk, Bytes, PktsOf, Flush;
    FlushKeeps(w.tx);
    FlushQuiet(w.tx);
  }

  lemma FlushStepKeeps(w: World)
    requires Inv(w)
    ensures Inv(Observe(w, Flush(w.tx)))
  {
    hide WellFormed, WindowOk, StoreOk, RxOk, FlowOk, FwdOk, BackOk, AckedOk, FinOk, NextOk, Bytes, PktsOf, Quiet,
         Flush;
    FlushTx(w);
    FlushQuiet(w.tx);
    hide TxOk;
    SameContentKeeps(w, Flush(w.tx));
    hide Inv;
  }

  // ----- close -----

  lemma CloseQuiet(s: TxState)
    requires WellFormed(s) && Writable(s)
    ensures var t := Close(s);
            && Quiet(s, t)
            && t.eos && t.state == s.state && t.nextToSend == s.nextToSend && !t.cursor.Detached?
            && (if t.pendingEof then PktsOf(t.window) == PktsOf(s.window)
                else PktsOf(t.window) == PktsOf(s.window) + [Pkt([], true)])
  {
    assert !s.pendingEof;
    hide WellFormed, Flush, Quiet, PktsOf;
    FlushQuiet(s);
    var f, t := Flush(s), Close(s);
    assert t.pendingEof <==> |f.window| == f.capacity;
    if t.pendingEof {
      SameWindowQuiet(s, f, t);
    } else {
      EosQuiet(s, f, t);
    }
  }

  lemma SameWindowQuiet(s: TxState, f: TxState, t: TxState)
    requires Quiet(s, f) && t == f.(eos := t.eos, pendingEof := t.pendingEof, cursor := t.cursor)
    ensures Quiet(s, t)
  {
  }

  /** Appending the final packet. */
  lemma EosQuiet(s: TxState, f: TxState, t: TxState)
    requires Quiet(s, f)
    requires t == f.(window := f.window + [Eos(f.End(), f.control)], eos := t.eos, pendingEof := t.pendingEof,
             cursor := t.cursor)
    ensures Quiet(s, t) && PktsOf(t.window) == PktsOf(f.window) + [Pkt([], true)]
  {
    HeaderRoundTrip(f.End(), FIN_PACKET, f.control);
    assert PktsOf(t.window) == PktsOf(f.window) + [Pkt([], true)];
  }

  function Ending(t: TxState): seq<Pkt> { if t.pendingEof then [] else [Pkt([], true)] }

  lemma CloseHistory(w: World)
    requires WindowOk(w.tx, w.log.base, w.packets) && WellFormed(w.tx) && Writable(w.tx)
    ensures History(w.packets, w.log.base, Close(w.tx)) == w.packets + Ending(Close(w.tx))
  {
    var t := Close(w.tx);
    var front, before := w.packets[..w.tx.begin - w.log.base], PktsOf(w.tx.window);
    CloseQuiet(w.tx);
    hide WellFormed, Close, PktsOf;
    HistorySplit(w.packets, w.log.base, w.tx);
    assert t.begin == w.tx.begin;
    hide Quiet;
    assert History(w.packets, w.log.base, t) == front + (before + Ending(t));
    assert front + (before + Ending(t)) == (front + before) + Ending(t);
  }

  lemma FinAfterClose(s: TxState, t: TxState, packets: seq<Pkt>, closed: bool)
    requires FinOk(s, packets, closed) && Writable(s) && t.eos && t.state == s.state
    ensures !LastIsFin(packets) && FinOk(t, packets + Ending(t), true)
  {
    assert forall k :: 0 <= k < |packets| ==> !packets[k].fin;
  }

  lemma CloseContent(w: World)
    requires WindowOk(w.tx, w.log.base, w.packets) && FinOk(w.tx, w.packets, w.closed)
    requires WellFormed(w.tx) && Writable(w.tx)
    ensures var t := Close(w.tx);
            var h := History(w.packets, w.log.base, t);
            && !LastIsFin(w.packets)
            && h == w.packets + Ending(t)
            && FinOk(t, h, true)
  {
    CloseQuiet(w.tx);
    CloseHistory(w);
    hide WellFormed, Close, PktsOf, WindowOk, Quiet, History, FinOk;
    FinAfterClose(w.tx, Close(w.tx), w.packets, w.closed);
  }

  lemma CloseBytes(packets: seq<Pkt>, t: TxState)
    ensures Bytes(packets + Ending(t)) == Bytes(packets)
  {
    BytesConcat(packets, Ending(t));
    assert Bytes([Pkt([], true)]) == Bytes([]) + [];
  }

  lemma CloseTx(w: World)
    requires Inv(w) && Writable(w.tx)
    ensures TxOk(StepClose(w)) && NextOk(StepClose(w))
  {
    hide WellFormed, WindowOk, StoreOk, Refines, FlowOk, FwdOk, BackOk, AckedOk, FinOk, Bytes, PktsOf, Close;
    CloseKeeps(w.tx);
    CloseQuiet(w.tx);
  }

  lemma QuietOfClose(s: TxState)
    requires WellFormed(s) && Writable(s)
    ensures Quiet(s, Close(s)) && WellFormed(Close(s))
  {
    CloseQuiet(s);
    CloseKeeps(s);
    hide WellFormed, Close, PktsOf, Quiet;
  }

  lemma CloseUnchanged(w: World)
    requires Inv(w) && !Writable(w.tx)
    ensures StepClose(w) == w
  {
    hide WellFormed, WindowOk, StoreOk, RxOk, FlowOk, FwdOk, BackOk, AckedOk, FinOk, NextOk, Bytes, PktsOf, Flush,
         History;
    Unchanged(w);
    assert Close(w.tx) == w.tx;
  }

  lemma CloseStepKeeps(w: World)
    requires Inv(w)
    ensures Inv(StepClose(w))
  {
    hide WellFormed, WindowOk, StoreOk, RxOk, FlowOk, FwdOk, BackOk, AckedOk, FinOk, NextOk, Bytes, PktsOf, Quiet,
         Close, History;
    var t := Close(w.tx);
    var v := StepClose(w);
    if Writable(w.tx) {
      InvRest(w);
      CloseTx(w);
      CloseContent(w);
      CloseBytes(w.packets, t);
      QuietOfClose(w.tx);
      hide TxOk, Writable, LastIsFin;
      QuietRest(w, t);
      assert v == Observe(w, t).(closed := true);
      RestClosed(Observe(w, t), v);
      hide RestOk;
      RestInv(v);
      hide Inv;
    } else {
      CloseUnchanged(w);
      hide Inv;
    }
  }

  lemma RestClosed(w: World, v: World)
    requires RestOk(w) && v == w.(closed := v.closed)
    ensures RestOk(v)
  {
    hide WindowOk, StoreOk, AckedOk, Refines;
  }

  // ----- connect -----

  lemma ConnectBack(w: World, t: TxState)
    requires BackOk(w) && t.begin == w.tx.begin && t.himark == w.log.base + w.rx.capacity
    ensures BackOk(w.(tx := t))
  {
    forall i | 0 <= i < |w.back| ensures BackItemOk(t, w.rx, w.log.base, w.log.store, w.back[i]) {
      assert BackItemOk(w.tx, w.rx, w.log.base, w.log.store, w.back[i]);
    }
  }

  lemma ConnectFwd(w: World, t: TxState)
    requires FwdOk(w) && t.begin == w.tx.begin && t.window == w.tx.window && t.capacity == w.tx.capacity
    ensures FwdOk(w.(tx := t))
  {
    forall i | 0 <= i < |w.fwd| ensures FwdItemOk(t, w.rx, w.log.base, w.packets, w.sentTo, w.fwd[i]) {
      assert FwdItemOk(w.tx, w.rx, w.log.base, w.packets, w.sentTo, w.fwd[i]);
    }
  }

  lemma ConnectWindow(s: TxState, t: TxState, base: int, packets: seq<Pkt>)
    requires WindowOk(s, base, packets) && t.begin == s.begin && t.window == s.window
    ensures WindowOk(t, base, packets)
  {
    hide PktOk;
    assert forall p :: s.begin <= p < s.End() ==> t.Buf(p) == s.Buf(p);
  }

  lemma ConnectTx(w: World)
    requires TxOk(w) && RxOk(w) && WindowOk(w.tx, w.log.base, w.packets) && w.tx.state == Connecting
    ensures var t := SetConnected(w.tx, w.rx.capacity, !w.rx.control);
            && TxOk(w.(tx := t)) && FlowOk(w.(tx := t)) && WindowOk(t, w.log.base, w.packets) && RxOk(w.(tx := t))
            && t.himark == w.log.base + w.rx.capacity
  {
    var t := SetConnected(w.tx, w.rx.capacity, !w.rx.control);
    hide WellFormed, WindowOk, Holds, FirstMissing, Text, PartlyRead;
    SetConnectedKeeps(w.tx, w.rx.capacity, !w.rx.control);
    ConnectWindow(w.tx, t, w.log.base, w.packets);
    hide RxWellFormed;
  }

  lemma SameWindow(s: TxState, t: TxState, base: int, packets: seq<Pkt>, store: Store, back: seq<Feedback>)
    requires t.begin == s.begin && t.window == s.window
    requires StoreOk(s, base, packets, store) && AckedOk(s, store, back)
    ensures StoreOk(t, base, packets, store) && AckedOk(t, store, back)
  {
    assert forall p :: s.begin <= p < s.End() ==> t.Buf(p) == s.Buf(p);
  }

  lemma ConnectFin(w: World, t: TxState)
    requires FinOk(w.tx, w.packets, w.closed) && t.eos == w.tx.eos && t.pendingEof == w.tx.pendingEof
    requires w.tx.state == Connecting && t.state == Connected
    ensures FinOk(t, w.packets, w.closed)
  {
  }

  lemma ConnectStepKeeps(w: World)
    requires Inv(w)
    ensures Inv(StepConnect(w))
  {
    hide WellFormed, WindowOk, StoreOk, RxOk, FlowOk, FwdOk, BackOk, AckedOk, FinOk, Bytes, PktsOf, Quiet, History,
         TxOk;
    if w.tx.state == Connecting {
      var t := SetConnected(w.tx, w.rx.capacity, !w.rx.control);
      var v := w.(tx := t);
      ConnectTx(w);
      HistorySame(w.packets, w.log.base, w.tx, t);
      assert StepConnect(w) == v;
      ConnectBack(w, t);
      ConnectFwd(w, t);
      SameWindow(w.tx, t, w.log.base, w.packets, w.log.store, w.back);
      ConnectFin(w, t);
      assert NextOk(v);
      hide NextOk;
      assert RestOk(v);
      RestInv(v);
      hide Inv, RestOk;
    } else {
      hide Inv;
    }
  }

  // ----- send -----

  /** A packet about to be sent is one the receiver has space for, unless it is the final one. */
  lemma SentFits(w: World, p: int)
    requires TxOk(w) && WindowOk(w.tx, w.log.base, w.packets) && FinOk(w.tx, w.packets, w.closed) && FlowOk(w)
    requires w.tx.state == Connected && w.tx.begin <= p < w.tx.End()
    ensures !w.packets[p - w.log.base].fin ==> p < w.rx.begin + w.rx.capacity
  {
    hide BufferOk, PktOk;
    if p == w.tx.End() - 1 && w.tx.eos && !w.tx.pendingEof {
      assert LastIsFin(w.packets);
    }
  }

  lemma SentBytes(b: OutBuffer, p: int)
    requires BufferOk(b) && PacketId(b.header) == p % ID_SPACE
    ensures DataBytes(b.Bytes(), p, PktOf(b))
  {
    PacketRoundTrip(b.header, b.payload);
  }

  lemma SentItem(w: World, k: nat)
    requires WellFormed(w.tx) && WindowOk(w.tx, w.log.base, w.packets) && RxOk(w)
    requires k < |w.tx.window| && w.tx.window[k].finished
    requires !w.packets[w.tx.begin + k - w.log.base].fin ==> w.tx.begin + k < w.rx.begin + w.rx.capacity
    ensures var p := w.tx.begin + k;
            FwdItemOk(w.tx, w.rx, w.log.base, w.packets, Max(w.sentTo, p + 1),
                      InFlight(w.tx.window[k].Bytes(), p, w.tx.End()))
  {
    var p := w.tx.begin + k;
    hide Refines;
    assert w.tx.Buf(p) == w.tx.window[k];
    SentBytes(w.tx.window[k], p);
    hide DataBytes, BufferOk, PktOk;
  }

  lemma SentFwd(w: World, v: World, f: InFlight)
    requires FwdOk(w) && v == w.(fwd := w.fwd + [f], next := v.next, sentTo := v.sentTo)
    requires w.sentTo <= v.sentTo && f.sentEnd == w.tx.End()
    requires FwdItemOk(v.tx, v.rx, v.log.base, v.packets, v.sentTo, f)
    ensures FwdOk(v)
  {
    hide Frozen, DataBytes;
    forall i | 0 <= i < |v.fwd| ensures FwdItemOk(v.tx, v.rx, v.log.base, v.packets, v.sentTo, v.fwd[i]) {
      if i < |w.fwd| {
        assert FwdItemOk(w.tx, w.rx, w.log.base, w.packets, w.sentTo, w.fwd[i]);
      }
    }
    forall i, j | 0 <= i < j < |v.fwd| ensures v.fwd[i].sentEnd <= v.fwd[j].sentEnd {
      assert FwdItemOk(w.tx, w.rx, w.log.base, w.packets, w.sentTo, w.fwd[i]);
    }
  }

  lemma SendTx(w: World, k: nat, now: nat, draw: nat)
    requires Inv(w) && w.tx.state == Connected && k < |w.tx.window| && draw <= RANDOM_MAX
    ensures var t := SendBuffer(w.tx, k, now, draw);
            && TxOk(w.(tx := t))
            && Quiet(w.tx, t) && PktsOf(t.window) == PktsOf(w.tx.window)
            && t.window[k].finished && BufferOk(t.window[k]) && |t.window| == |w.tx.window|
            && t.nextToSend == Wrap(w.tx.begin + k + 1)
            && t.state == w.tx.state && t.eos == w.tx.eos && t.pendingEof == w.tx.pendingEof
  {
    hide WindowOk, StoreOk, RxOk, FlowOk, FwdOk, BackOk, AckedOk, FinOk, NextOk, Bytes, PktsOf;
    SendBufferKeeps(w.tx, k, now, draw);
    SendBufferQuiet(w.tx, k, now, draw);
  }

  /** The packet goes out: the window keeps its content, the packet joins the queue. */
  lemma SendBufferStep(w: World, k: nat, now: nat, draw: nat)
    requires Inv(w) && w.tx.state == Connected && k < |w.tx.window| && draw <= RANDOM_MAX
    ensures var t := SendBuffer(w.tx, k, now, draw);
            var p := w.tx.begin + k;
            Inv(Observe(w, t).(fwd := w.fwd + [InFlight(t.window[k].Bytes(), p, w.tx.End())],
                               next := p + 1, sentTo := Max(w.sentTo, p + 1)))
  {
    hide WellFormed, WindowOk, StoreOk, RxOk, FlowOk, FwdOk, BackOk, AckedOk, FinOk, NextOk, Bytes, PktsOf, Quiet,
         BufferOk,
         SendBuffer;
    var t := SendBuffer(w.tx, k, now, draw);
    var p := w.tx.begin + k;
    SendTx(w, k, now, draw);
    SendWithinSpace(w, p);
    InvRest(w);
    SameHistory(w, t);
    QuietRest(w, t);
    QuietShape(w.tx, t);
    var v := w.(tx := t);
    assert FinOk(t, w.packets, w.closed) by { SendFin(w, t); }
    assert w.tx.End() == t.End();
    SentItem(v, k);
    var f := InFlight(t.window[k].Bytes(), p, t.End());
    var u := v.(fwd := w.fwd + [InFlight(t.window[k].Bytes(), p, w.tx.End())],
                next := p + 1, sentTo := Max(w.sentTo, p + 1));
    SentFwd(v, u, f);
    SendNextOk(w, t, k);
    RestQueue(v, u);
    hide TxOk;
    assert TxOk(u) by { TxOkFrame(v, u); }
    RestInv(u);
    hide Inv;
  }

  lemma SendWithinSpace(w: World, p: int)
    requires Inv(w) && w.tx.state == Connected && w.tx.begin <= p < w.tx.End()
    ensures 0 <= p - w.log.base < |w.packets|
    ensures !w.packets[p - w.log.base].fin ==> p < w.rx.begin + w.rx.capacity
  {
    hide StoreOk, RxOk, FwdOk, BackOk, AckedOk, NextOk, Bytes;
    SentFits(w, p);
  }

  lemma QuietShape(s: TxState, t: TxState)
    requires Quiet(s, t)
    ensures t.begin == s.begin && t.capacity == s.capacity
  {
  }

  lemma SendFin(w: World, t: TxState)
    requires FinOk(w.tx, w.packets, w.closed)
    requires t.state == w.tx.state && t.eos == w.tx.eos && t.pendingEof == w.tx.pendingEof
    ensures FinOk(t, w.packets, w.closed)
  {
  }

  lemma SendNextOk(w: World, t: TxState, k: nat)
    requires Inv(w) && k < |w.tx.window| && t.begin == w.tx.begin && |t.window| == |w.tx.window|
    requires t.capacity == w.tx.capacity && t.nextToSend == Wrap(w.tx.begin + k + 1)
    ensures var p := w.tx.begin + k;
            NextOk(w.(tx := t, fwd := w.fwd + [InFlight(t.window[k].Bytes(), p, w.tx.End())],
                      next := p + 1, sentTo := Max(w.sentTo, p + 1)))
  {
    hide StoreOk, FwdOk, BackOk, AckedOk, FinOk, Bytes, PktsOf, BufferOk, Refines;
  }

  lemma RestQueue(w: World, v: World)
    requires RestOk(w) && v == w.(fwd := v.fwd, next := v.next, sentTo := v.sentTo) && FwdOk(v)
    ensures RestOk(v)
  {
    hide WindowOk, StoreOk, AckedOk, Refines, FwdOk;
  }

  lemma TxOkFrame(w: World, v: World)
    requires TxOk(w) && v.tx == w.tx && v.rx == w.rx && v.log.base == w.log.base
    ensures TxOk(v)
  {
    hide WellFormed;
  }

  lemma SendStepKeeps(w: World, now: nat, draw: nat)
    requires Inv(w) && draw <= RANDOM_MAX
    ensures Inv(StepSend(w, now, draw))
  {
    hide WellFormed, WindowOk, StoreOk, RxOk, FlowOk, FwdOk, BackOk, AckedOk, FinOk, NextOk, Bytes, PktsOf, History,
         Fallback, FastIndex, FreshToSend, SendBuffer;
    var r := Send(w.tx, now, draw, 0);
    if r.sent.None? {
      Unchanged(w);
      assert r.next == w.tx;
    } else {
      var k := r.sent.value;
      assert w.tx.state == Connected && k < |w.tx.window|;
      SendBufferStep(w, k, now, draw);
      assert r.next == SendBuffer(w.tx, k, now, draw);
    }
    hide Inv;
  }
}
