/** What an arriving data packet does to the receiver, and what the receiver then sends (receiver.cpp). */
module ReceiveEffect {
  import opened Basics
  import opened RingBuffers
  import opened Protocol
  import opened InBuffers
  import opened Reception
  import opened ConnectionReceiveSteps

  /** The packet is for this connection. */
  predicate Heard(s: RxState, control: bool) { s.state == Connected && control != s.control }

  /** Its position is in the window, or the window can still grow to it. */
  predicate Fits(s: RxState, p: int) {
    s.begin <= p && (p < s.End() || (!s.peerClosed && p < s.begin + s.capacity))
  }

  /** What is at a position after a packet has arrived at position `p`. */
  function SlotAfter(s: RxState, p: int, b: InBuffer, q: int): InBuffer
    requires s.begin <= q
  {
    if q < s.End() && s.Buf(q).Stored? then s.Buf(q) else if q == p then b else Unset
  }

  /** The slots after a packet `b` has been taken at position `p`: first come, first stored; the window ends just after
      the highest position taken. */
  ghost predicate SlotsAfter(s: RxState, t: RxState, p: int, b: InBuffer) {
    && t.begin == s.begin && t.End() == (if p < s.End() then s.End() else p + 1)
    && forall q :: s.begin <= q < t.End() ==> t.Buf(q) == SlotAfter(s, p, b, q)
  }

  /** The first missing position: everything before it has been stored, and nothing is stored there. */
  ghost predicate MissingFirst(t: RxState) {
    && t.begin <= t.unack <= t.End()
    && (forall q :: t.begin <= q < t.unack ==> t.Buf(q).Stored?)
    && (t.unack < t.End() ==> t.Buf(t.unack).Unset?)
  }

  lemma MissingFirstOf(t: RxState)
    requires RxWellFormed(t)
    ensures MissingFirst(t)
  {
  }

  lemma SlotsOfStore(s: RxState, k: nat, b: InBuffer)
    requires s.begin <= s.unack <= s.End() && b.Stored?
    ensures k < |Extend(s, k).window| && SlotsAfter(s, StoreAt(Extend(s, k), k, b), s.begin + k, b)
  {
    hide NextUnset;
    var t := StoreAt(Extend(s, k), k, b);
    forall q | s.begin <= q < t.End() ensures t.Buf(q) == SlotAfter(s, s.begin + k, b, q) {
      if q < s.End() { assert t.window[q - s.begin] == t.Buf(q); }
    }
  }

  /** The first missing position moves exactly when the packet fills it. */
  lemma UnackOfStore(s: RxState, k: nat, b: InBuffer)
    requires s.begin <= s.unack <= s.End() && k < |s.window|
    ensures var t := StoreAt(s, k, b);
            if s.begin + k == s.unack then t.unack > s.unack else t.unack == s.unack
  {
  }

  lemma ShapeOfStore(s: RxState, k: nat, b: InBuffer)
    requires s.begin <= s.unack <= s.End() && b.Stored? && k < |Extend(s, k).window|
    ensures var t := StoreAt(Extend(s, k), k, b);
            t == s.(window := t.window, unack := t.unack, needsAck := true, peerClosed := s.peerClosed || b.fin)
  {
  }

  /** The whole effect of a data packet. */
  lemma ArrivalExact(s: RxState, control: bool, id: nat, payload: seq<byte>, fin: bool)
    requires RxWellFormed(s) && Stored(fin, payload).Valid()
    ensures var r, p := HandleData(s, control, id, payload, fin), Restore(s.begin, id);
            && (!Heard(s, control) ==> r == DataResult(s, false, false))
            && (Heard(s, control) && p < s.begin ==> r == DataResult(s.(needsAck := true), true, false))
            && (Heard(s, control) && s.begin <= p && !Fits(s, p) ==> r == DataResult(s, false, false))
            && (Heard(s, control) && Fits(s, p) ==>
                  && r.ackToSend && (r.newData <==> p == s.unack)
                  && (if r.newData then r.next.unack > s.unack else r.next.unack == s.unack)
                  && r.next == s.(window := r.next.window, unack := r.next.unack, needsAck := true,
                                  peerClosed := s.peerClosed || fin)
                  && SlotsAfter(s, r.next, p, Stored(fin, payload)) && MissingFirst(r.next))
  {
    var p := Restore(s.begin, id);
    hide RxWellFormed, Restore, SlotsAfter, HandleData, Extend, StoreAt, MissingFirst;
    HandleDataKeeps(s, control, id, payload, fin);
    HandleDataCases(s, control, id, payload, fin);
    UnackInWindow(s);
    if Heard(s, control) && Fits(s, p) {
      var k, b := p - s.begin, Stored(fin, payload);
      SlotsOfStore(s, k, b);
      UnackOfStore(Extend(s, k), k, b);
      ShapeOfStore(s, k, b);
      MissingFirstOf(StoreAt(Extend(s, k), k, b));
    }
  }

  /** The ack packet of a receiver that has one to send: its id is the first missing position, and bit `j` says exactly
      whether the position `j + 1` after it has arrived.  Sending it clears the need for one. */
  lemma AckExact(s: RxState, j: nat)
    requires RxWellFormed(s) && s.needsAck && s.state == Connected
    ensures var r := Acknowledge(s);
            && IsAckPacket(r.packet, s) && r.next == s.(needsAck := false) && Acknowledge(r.next).packet == []
            && (BitmapBit(r.packet[2..], j) <==>
                  j < 64 && s.unack + 1 + j < s.End() && s.Buf(s.unack + 1 + j).Stored?)
  {
    AckBytesShape(s);
    BitmapRoundTrip(AckBits(s), j);
    assert s.begin <= s.unack;
    hide RxWellFormed, StoreBits, Trim, BitmapBit, AckBytes, LoadHeader;
    if j < 64 { assert AckBits(s)[j] == ArrivedAfter(s, j); }
  }

  /** An ack packet for the receiver's first missing position. */
  predicate IsAckPacket(packet: seq<byte>, s: RxState) {
    && 2 <= |packet| <= MAX_PACKET_SIZE
    && PacketKind(LoadHeader(packet)) == DATA_ACK_PACKET && ControlBit(LoadHeader(packet)) == s.control
    && PacketId(LoadHeader(packet)) == s.unack % ID_SPACE
  }

  /** Every packet that belongs to the connection and is not beyond the window is answered: the receiver's next packet
      is an ack of what it then has. */
  lemma ArrivalIsAcknowledged(s: RxState, control: bool, id: nat, payload: seq<byte>, fin: bool)
    requires RxWellFormed(s) && Stored(fin, payload).Valid() && Heard(s, control)
    requires Restore(s.begin, id) < s.begin || Fits(s, Restore(s.begin, id))
    ensures var r := HandleData(s, control, id, payload, fin);
            r.ackToSend && RxWellFormed(r.next) && IsAckPacket(Acknowledge(r.next).packet, r.next)
  {
    ArrivalExact(s, control, id, payload, fin);
    HandleDataKeeps(s, control, id, payload, fin);
    hide RxWellFormed, HandleData, Restore, Fits, SlotsAfter, MissingFirst;
    AckExact(HandleData(s, control, id, payload, fin).next, 0);
  }

  /** Space is advertised whenever the last advertisement has expired: the packet carries the position after the last
      one there is space for. */
  lemma AdvertiseExact(s: RxState, now: nat, micros: int)
    requires s.state == Connected
    ensures var r := Advertise(s, now, micros);
            && (now < s.himarkExpiration ==>
                  r.packet == [] && r.next == s && r.nextSendMicros == Min(micros, s.himarkExpiration - now))
            && (now >= s.himarkExpiration ==>
                  && |r.packet| == 2 && PacketKind(LoadHeader(r.packet)) == FLOW_CONTROL_PACKET
                  && ControlBit(LoadHeader(r.packet)) == s.control
                  && PacketId(LoadHeader(r.packet)) == (s.begin + s.capacity) % ID_SPACE
                  && r.next == s.(himarkExpiration := now + 100_000) && r.nextSendMicros == Min(micros, 100_000))
  {
    var h := Header(s.begin + s.capacity, FLOW_CONTROL_PACKET, s.control);
    HeaderRoundTrip(s.begin + s.capacity, FLOW_CONTROL_PACKET, s.control);
    PacketRoundTrip(h, []);
  }

  /** A read reports new space exactly when it has freed a slot; that space is then advertised at once. */
  lemma {:induction false} ReadFreesSpace(s: RxState, count: nat)
    requires RxWellFormed(s) && s.state == Connected
    ensures var r := ReadLoop(s, count);
            && (r.ready <==> r.next.begin > s.begin) && r.next.begin >= s.begin
            && r.next.himarkExpiration == (if r.ready then 0 else s.himarkExpiration)
            && r.next.needsAck == s.needsAck && r.next.capacity == s.capacity
    decreases |s.window|
  {
    hide RxWellFormed, ReadLoop;
    ReadRound(s, count);
    if s.window != [] && s.window[0].Stored? {
      var s2, n := PopRead(Touch(s)), |s.window[0].data| - Touch(s).reading.value;
      if count > n && !s.window[0].fin { ReadFreesSpace(s2, count - n); }
    }
  }
}
