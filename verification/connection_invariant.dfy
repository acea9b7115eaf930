/** The invariant of a connection, conjunct by conjunct. */
module ConnectionInvariant {
  import opened Basics
  import opened SeqNums
  import opened RingBuffers
  import opened Protocol
  import opened InBuffers
  import opened Transmission
  import opened TransmissionFacts
  import opened Reception
  import opened ReceptionLog
  import opened Connection

  /** The packet at a position can no longer change: it has been removed or is finished. */
  ghost predicate Frozen(tx: TxState, p: int) {
    p < tx.begin || (p < tx.End() && tx.Buf(p).finished)
  }

  ghost predicate PktOk(k: Pkt) {
    |k.payload| <= MAX_PAYLOAD && (k.fin <==> k.payload == [])
  }

  ghost predicate LastIsFin(packets: seq<Pkt>) { packets != [] && packets[|packets| - 1].fin }

  /** The window is the tail of the packets ever queued, each with the id of its position. */
  ghost predicate WindowOk(tx: TxState, base: int, packets: seq<Pkt>) {
    && base <= tx.begin
    && |packets| == tx.End() - base
    && (forall p :: tx.begin <= p < tx.End() ==>
          packets[p - base] == PktOf(tx.Buf(p)) && PacketId(tx.Buf(p).header) == p % ID_SPACE)
    && (forall k :: 0 <= k < |packets| ==> PktOk(packets[k]))
  }

  /** Only the last packet is final, and it is there once the stream is closed. */
  ghost predicate FinOk(tx: TxState, packets: seq<Pkt>, closed: bool) {
    && (closed <==> tx.eos || tx.state == Idle)
    && (closed && !tx.pendingEof ==> LastIsFin(packets))
    && (forall k :: 0 <= k < |packets| && packets[k].fin ==> k == |packets| - 1 && closed && !tx.pendingEof)
  }

  ghost predicate TxOk(w: World) {
    && WellFormed(w.tx)
    && w.tx.state != Broken
    && (w.tx.state == Connecting ==> w.tx.begin == w.log.base)
    && (w.tx.state == Connected ==> w.tx.control == !w.rx.control && w.tx.peerSize == w.rx.capacity)
    && (w.tx.cursor.Detached? ==> w.tx.cursor.room == 0)
  }

  /** Everything the receiver has stored is what was queued at that position, and is frozen. */
  ghost predicate StoreOk(tx: TxState, base: int, packets: seq<Pkt>, store: Store) {
    forall p :: p in store ==>
      && base <= p < base + |packets| && Frozen(tx, p)
      && store[p] == Stored(packets[p - base].fin, packets[p - base].payload)
  }

  ghost predicate RxOk(w: World) {
    && Refines(w.rx, w.log)
    && w.tx.begin <= w.rx.unack
    && w.rx.End() <= w.tx.End()
    && (w.rx.peerClosed ==> w.rx.End() == w.tx.End() && LastIsFin(w.packets))
    && (w.rx.eos ==> w.rx.begin == w.tx.End() && LastIsFin(w.packets))
  }

  /** The transmitter never believes in more space than the receiver has. */
  ghost predicate FlowOk(w: World) { w.tx.himark <= w.rx.begin + w.rx.capacity }

  // ----- packets in flight -----

  ghost predicate DataBytes(bytes: seq<byte>, p: int, k: Pkt) {
    && 2 <= |bytes| <= MAX_PACKET_SIZE
    && PacketKind(LoadHeader(bytes)) == (if k.fin then FIN_PACKET else DATA_PACKET)
    && PacketId(LoadHeader(bytes)) == p % ID_SPACE
    && bytes[2..] == k.payload
  }

  ghost predicate FwdItemOk(tx: TxState, rx: RxState, base: int, packets: seq<Pkt>, sentTo: int, f: InFlight) {
    && base <= f.pos < base + |packets|
    && f.sentEnd - tx.capacity <= f.pos < f.sentEnd <= tx.End()
    && rx.End() <= f.sentEnd
    && f.pos < sentTo
    && Frozen(tx, f.pos)
    && DataBytes(f.bytes, f.pos, packets[f.pos - base])
    && (!packets[f.pos - base].fin ==> f.pos < rx.begin + rx.capacity)
  }

  ghost predicate FwdOk(w: World) {
    && (forall i :: 0 <= i < |w.fwd| ==> FwdItemOk(w.tx, w.rx, w.log.base, w.packets, w.sentTo, w.fwd[i]))
    && (forall i, j :: 0 <= i < j < |w.fwd| ==> w.fwd[i].sentEnd <= w.fwd[j].sentEnd)
  }

  /** An ack packet reports position `p`, past the one it acknowledges up to, as received. */
  ghost predicate Claims(b: Feedback, p: int) {
    IsAck(b.bytes) && p > b.value && BitmapBit(b.bytes[2..], p - b.value - 1)
  }

  ghost predicate AckItemOk(tx: TxState, rx: RxState, store: Store, b: Feedback) {
    && tx.begin <= b.value <= rx.unack
    && forall p :: Claims(b, p) ==> p in store
  }

  ghost predicate HimarkItemOk(tx: TxState, rx: RxState, base: int, b: Feedback) {
    && base + rx.capacity <= b.value <= rx.begin + rx.capacity
    && tx.himark <= b.value
  }

  ghost predicate BackItemOk(tx: TxState, rx: RxState, base: int, store: Store, b: Feedback) {
    && (IsAck(b.bytes) || IsHimark(b.bytes))
    && ControlBit(LoadHeader(b.bytes)) == rx.control
    && PacketId(LoadHeader(b.bytes)) == b.value % ID_SPACE
    && (IsAck(b.bytes) ==> AckItemOk(tx, rx, store, b))
    && (IsHimark(b.bytes) ==> HimarkItemOk(tx, rx, base, b))
  }

  /** Feedback travels in the order it was produced: acks never go back, never report as received
      the position a later one is waiting for, and flow control never goes back. */
  ghost predicate InOrder(a: Feedback, b: Feedback) {
    && (IsAck(a.bytes) && IsAck(b.bytes) ==> a.value <= b.value && !Claims(a, b.value))
    && (IsHimark(a.bytes) && IsHimark(b.bytes) ==> a.value <= b.value)
  }

  ghost predicate BackOk(w: World) {
    && (forall i :: 0 <= i < |w.back| ==> BackItemOk(w.tx, w.rx, w.log.base, w.log.store, w.back[i]))
    && (forall i, j :: 0 <= i < j < |w.back| ==> InOrder(w.back[i], w.back[j]))
  }

  /** A buffer marked acked is one the receiver has, and is not one that an ack in flight waits for. */
  ghost predicate AckedOk(tx: TxState, store: Store, back: seq<Feedback>) {
    && (forall p :: tx.begin <= p < tx.End() && tx.Buf(p).acked ==> p in store)
    && (forall p, i :: tx.begin <= p < tx.End() && tx.Buf(p).acked && 0 <= i < |back| && IsAck(back[i].bytes) ==>
          p != back[i].value)
    && (tx.window != [] ==> !tx.window[0].acked)
  }

  /** Where `next_to_send_` can be, and how far packets have been sent. */
  ghost predicate NextOk(w: World) {
    && w.tx.nextToSend == Wrap(w.next)
    && w.log.base <= w.next <= w.tx.End()
    && w.sentTo <= w.next + w.tx.capacity
    && w.log.base <= w.sentTo <= w.tx.End()
    && w.rx.End() <= w.sentTo
  }

  ghost predicate Inv(w: World) {
    && TxOk(w)
    && WindowOk(w.tx, w.log.base, w.packets)
    && Bytes(w.packets) == w.written
    && FinOk(w.tx, w.packets, w.closed)
    && StoreOk(w.tx, w.log.base, w.packets, w.log.store)
    && RxOk(w)
    && FlowOk(w)
    && FwdOk(w)
    && BackOk(w)
    && AckedOk(w.tx, w.log.store, w.back)
    && NextOk(w)
  }

  // ----- what an operation of the transmitter keeps for the rest of the world -----

  lemma HistoryAt(packets: seq<Pkt>, base: int, s: TxState, t: TxState, p: int)
    requires WindowOk(s, base, packets) && Evolves(s, t) && base <= p < s.End() && Frozen(s, p)
    ensures var h := History(packets, base, t);
            |h| == t.End() - base && h[p - base] == packets[p - base] && Frozen(t, p)
  {
    if t.begin <= p {
      assert Grows(s.Buf(p), t.Buf(p));
    }
  }

  lemma StoreStable(packets: seq<Pkt>, base: int, s: TxState, t: TxState, store: Store)
    requires WindowOk(s, base, packets) && Evolves(s, t) && StoreOk(s, base, packets, store)
    ensures StoreOk(t, base, History(packets, base, t), store)
  {
    forall p | p in store
      ensures base <= p < base + |History(packets, base, t)| && Frozen(t, p)
      ensures History(packets, base, t)[p - base] == packets[p - base]
    {
      HistoryAt(packets, base, s, t, p);
    }
  }

  lemma FwdStable(w: World, t: TxState)
    requires WindowOk(w.tx, w.log.base, w.packets) && Evolves(w.tx, t) && FwdOk(w)
    ensures FwdOk(Observe(w, t))
  {
    var v := Observe(w, t);
    forall i | 0 <= i < |v.fwd|
      ensures FwdItemOk(v.tx, v.rx, v.log.base, v.packets, v.sentTo, v.fwd[i])
    {
      assert FwdItemOk(w.tx, w.rx, w.log.base, w.packets, w.sentTo, w.fwd[i]);
      HistoryAt(w.packets, w.log.base, w.tx, t, w.fwd[i].pos);
    }
  }

  /** The history after an operation that changes no content and removes nothing. */
  lemma HistorySame(packets: seq<Pkt>, base: int, s: TxState, t: TxState)
    requires WindowOk(s, base, packets)
    requires t.begin == s.begin && PktsOf(t.window) == PktsOf(s.window)
    ensures History(packets, base, t) == packets
  {
    var h := History(packets, base, t);
    forall k | 0 <= k < |packets| ensures h[k] == packets[k] {
      if k >= s.begin - base {
        assert packets[(base + k) - base] == PktOf(s.Buf(base + k));
        assert h[k] == PktsOf(t.window)[base + k - s.begin];
      }
    }
  }

  lemma HistorySplit(packets: seq<Pkt>, base: int, s: TxState)
    requires WindowOk(s, base, packets)
    ensures packets == packets[..s.begin - base] + PktsOf(s.window)
  {
    HistorySame(packets, base, s, s);
  }

  /** A window whose ids are right, built on a history whose packets are well formed. */
  lemma WindowAfter(packets: seq<Pkt>, base: int, s: TxState, t: TxState)
    requires WindowOk(s, base, packets) && Evolves(s, t) && WellFormed(t)
    requires forall p :: s.End() <= p < t.End() ==> PacketId(t.Buf(p).header) == p % ID_SPACE
    ensures WindowOk(t, base, History(packets, base, t))
  {
    var h := History(packets, base, t);
    forall p | t.begin <= p < t.End()
      ensures h[p - base] == PktOf(t.Buf(p)) && PacketId(t.Buf(p).header) == p % ID_SPACE
    {
      assert h[p - base] == PktsOf(t.window)[p - t.begin];
      if p < s.End() { assert Grows(s.Buf(p), t.Buf(p)); }
    }
    forall k | 0 <= k < |h| ensures PktOk(h[k]) {
      if k >= t.begin - base {
        assert BufferOk(t.window[base + k - t.begin]);
        assert h[k] == PktOf(t.window[base + k - t.begin]);
      }
    }
  }
}
