/** The receiver: a slot array addressed by masked 16-bit sequence numbers (receiver.h, receiver.cpp).

Every method is specified by a function of `Reception`, applied to the ghost field `s`;
`Valid` ties the real fields to it.
*/
module Receivers {
  import opened Basics
  import opened SeqNums
  import opened RingBuffers
  import opened Protocol
  import opened InBuffers
  import opened Reception

  // ----- the slot array -----

  /** The slots hold the window, each element in the slot of its position. */
  ghost predicate Holding(slots: seq<InBuffer>, s: RxState) {
    && |slots| == s.capacity > 0
    && forall p :: s.begin <= p < s.End() ==> slots[Slot(p, s.capacity)] == s.Buf(p)
  }

  lemma SetSlot(slots: seq<InBuffer>, s: RxState, p: int, b: InBuffer)
    requires Holding(slots, s) && |s.window| <= s.capacity && s.begin <= p < s.End()
    ensures Holding(slots[Slot(p, s.capacity) := b], s.(window := s.window[p - s.begin := b]))
  {
    var t := s.(window := s.window[p - s.begin := b]);
    var after := slots[Slot(p, s.capacity) := b];
    forall q | t.begin <= q < t.End() ensures after[Slot(q, t.capacity)] == t.Buf(q) {
      if q != p {
        SlotsDiffer(p, q, s.capacity);
        assert t.Buf(q) == s.Buf(q);
      }
    }
  }

  lemma PushSlot(slots: seq<InBuffer>, s: RxState, b: InBuffer)
    requires Holding(slots, s) && |s.window| < s.capacity
    ensures Holding(slots[Slot(s.End(), s.capacity) := b], s.(window := s.window + [b]))
  {
    var t := s.(window := s.window + [b]);
    var after := slots[Slot(s.End(), s.capacity) := b];
    forall q | t.begin <= q < t.End() ensures after[Slot(q, t.capacity)] == t.Buf(q) {
      if q != s.End() {
        SlotsDiffer(s.End(), q, s.capacity);
        assert t.Buf(q) == s.Buf(q);
      }
    }
  }

  /** Removing the front slot, whose content no longer matters. */
  lemma PopSlot(slots: seq<InBuffer>, s: RxState, b: InBuffer, t: RxState)
    requires Holding(slots, s) && s.window != [] && |s.window| <= s.capacity
    requires t.begin == s.begin + 1 && t.window == s.window[1..] && t.capacity == s.capacity
    ensures Holding(slots[Slot(s.begin, s.capacity) := b], t)
  {
    var after := slots[Slot(s.begin, s.capacity) := b];
    forall q | t.begin <= q < t.End() ensures after[Slot(q, t.capacity)] == t.Buf(q) {
      SlotsDiffer(s.begin, q, s.capacity);
      assert t.Buf(q) == s.Buf(q);
    }
  }

  lemma SameSlots(slots: seq<InBuffer>, s: RxState, t: RxState)
    requires Holding(slots, s) && t.begin == s.begin && t.window == s.window && t.capacity == s.capacity
    ensures Holding(slots, t)
  {
    assert forall p :: s.begin <= p < s.End() ==> t.Buf(p) == s.Buf(p);
  }

  lemma EmptySlots(slots: seq<InBuffer>, s: RxState, t: RxState)
    requires Holding(slots, s) && t.window == [] && t.capacity == s.capacity
    ensures Holding(slots, t)
  {
  }

  lemma SlotHolds(slots: seq<InBuffer>, s: RxState, p: int)
    requires Holding(slots, s)
    ensures |slots| == s.capacity > 0
    ensures s.begin <= p < s.End() ==> slots[Slot(p, s.capacity)] == s.Buf(p) == s.window[p - s.begin]
  {
  }

  lemma RxNear(s: RxState)
    requires RxWellFormed(s)
    ensures |s.window| <= s.capacity <= MAX_CAPACITY && s.begin <= s.unack <= s.End()
    ensures s.reading.Some? ==> s.window != [] && CursorOk(s.window[0], s.reading.value)
    ensures s.state != Connected ==> s.window == [] && s.reading == None
  {
  }

  class Receiver {
    const inBuffers: array<InBuffer>
    const inRing: RingBuffer
    var state: LinkState
    var peerClosed: bool
    var endOfStream: bool
    var current: int
    var currentPos: nat
    var needsAck: bool
    var unackSeq: SeqNum
    var himarkExpiration: nat
    var controlBit: bool
    ghost var s: RxState

    ghost predicate RingFits()
      reads this, inRing
    {
      inRing.Valid() && (inRing.capacity, inRing.lo, inRing.hi) == (s.capacity, s.begin, s.End())
    }

    ghost predicate Fields()
      reads this, inRing
    {
      && RingFits()
      && s == s.(state := state, peerClosed := peerClosed, eos := endOfStream, needsAck := needsAck,
                 himarkExpiration := himarkExpiration, control := controlBit)
      && (s.state == Connected ==> unackSeq == Wrap(s.unack))
      && match s.reading {
           case None => current == -1
           case Some(pos) => current == Slot(s.begin, s.capacity) && currentPos == pos
         }
    }

    ghost predicate Valid()
      reads this, inBuffers, inRing
    {
      RxWellFormed(s) && Holding(inBuffers[..], s) && IsCapacity(s.capacity) && Fields()
    }

    constructor (recvbufLog2: nat)
      requires recvbufLog2 <= 10
      ensures Valid() && fresh(inBuffers) && fresh(inRing)
      ensures s.capacity == Pow2(recvbufLog2) && s.state == Idle && s.window == [] && s.reading == None
    {
      CapacityOfLog2(recvbufLog2);
      var capacity := Pow2(recvbufLog2);
      inBuffers := new InBuffer[capacity](_ => Unset);
      inRing := new RingBuffer(recvbufLog2, 0);
      state, peerClosed, endOfStream, current, currentPos := Idle, false, false, -1, 0;
      needsAck, unackSeq, himarkExpiration, controlBit := false, 0, 0, false;
      s := RxState(capacity, 0, [], Idle, false, false, None, false, 0, false, 0);
    }

    // ----- receiving -----

    /** Extends the window with unset slots so that it ends just after index `k`. */
    method ExtendTo(ghost k: nat, advance: nat)
      requires Holding(inBuffers[..], s) && Fields() && |s.window| <= k < s.capacity && IsCapacity(s.capacity)
      requires advance == k + 1 - |s.window| && s.state == Connected
      modifies inBuffers, inRing, `s
      ensures s == Extend(old(s), k)
      ensures Holding(inBuffers[..], s) && Fields()
    {
      hide Holding;
      ghost var w := s.window;
      var i := 0;
      while i < advance
        invariant 0 <= i <= advance && s == old(s).(window := w + Blank(i))
        invariant Holding(inBuffers[..], s) && Fields()
      {
        PushSlot(inBuffers[..], s, Unset);
        ghost var before := inBuffers[..];
        var seqNum := inRing.Push();
        var slot := inRing.OffsetFor(seqNum, s.End());
        SlotHolds(before, s, s.End());
        inBuffers[slot] := Unset;
        assert inBuffers[..] == before[slot := Unset];
        s := s.(window := s.window + [Unset]);
        assert w + Blank(i) + [Unset] == w + Blank(i + 1);
        i := i + 1;
      }
    }

    /** `in_ring_.contains(sn)`, and the slot of `sn` if so. */
    method Lookup(sn: SeqNum, ghost p: int) returns (inside: bool, b: InBuffer)
      requires Holding(inBuffers[..], s) && RingFits() && sn == Wrap(p) && s.begin - 0x8000 < p < s.begin + 0x8000
      ensures inside == (s.begin <= p < s.End()) && (inside ==> b == s.window[p - s.begin])
    {
      hide Holding, Wrap;
      SlotHolds(inBuffers[..], s, p);
      inside, b := inRing.Contains(sn, p), Unset;
      if inside { b := inBuffers[inRing.OffsetFor(sn, p)]; }
    }

    /** The loop that moves `unack_seq_` to the first position not received. */
    method AdvanceUnack(ghost k: nat)
      requires Holding(inBuffers[..], s) && Fields() && s.state == Connected && |s.window| <= s.capacity
               && IsCapacity(s.capacity)
      requires k < |s.window| && unackSeq == Wrap(s.begin + k)
      modifies `unackSeq
      ensures unackSeq == Wrap(s.begin + NextUnset(s.window, k + 1))
    {
      assert s.capacity <= MAX_CAPACITY;
      hide Holding, Wrap, NextUnset, IsCapacity;
      ghost var goal := NextUnset(s.window, k + 1);
      PlusWrap(s.begin + k, 1);
      unackSeq := Plus(unackSeq, 1);
      ghost var m := k + 1;
      while true
        invariant k < m <= |s.window| && unackSeq == Wrap(s.begin + m) && NextUnset(s.window, m) == goal
        decreases |s.window| - m
      {
        NextUnsetStep(s.window, m);
        var inside, b := Lookup(unackSeq, s.begin + m);
        if !inside || b.Unset? { break; }
        PlusWrap(s.begin + m, 1);
        unackSeq, m := Plus(unackSeq, 1), m + 1;
      }
    }

    method HandleDataPacket(control: bool, id: nat, payload: seq<byte>, isFinal: bool)
      returns (ackToSend: bool, newData: bool)
      requires Valid() && Stored(isFinal, payload).Valid()
      modifies this, inBuffers, inRing
      ensures Valid()
      ensures var r := HandleData(old(s), control, id, payload, isFinal);
              s == r.next && ackToSend == r.ackToSend && newData == r.newData
    {
      hide Holding, RxWellFormed, NextUnset, Restore, HandleData, Extend, StoreAt, Accepts, IsCapacity;
      ackToSend, newData := false, false;
      NotBroken(s);
      ghost var p := Restore(s.begin, id);
      HandleDataCases(s, control, id, payload, isFinal);
      HandleDataKeeps(s, control, id, payload, isFinal);
      if state == Connecting || state == Idle || control == controlBit { return; }
      ghost var s0 := s;
      var seqNum := inRing.RestorePosHighBits(id);
      var admitted;
      admitted, ackToSend := MakeRoom(p, seqNum);
      if admitted {
        hide Wrap;
        newData := StorePacket(p - s0.begin, seqNum, Stored(isFinal, payload));
        ackToSend := true;
      }
    }

    /** Finds or makes space in the window for a packet; asks for another ack of one already read. */
    method MakeRoom(ghost p: int, seqNum: SeqNum) returns (admitted: bool, stale: bool)
      requires Valid() && s.state == Connected && seqNum == Wrap(p) && s.begin - HALF_IDS <= p < s.begin + HALF_IDS
      modifies this, inBuffers, inRing
      ensures admitted == Accepts(old(s), p) && stale == (p < old(s).begin)
      ensures stale ==> s == old(s).(needsAck := true)
      ensures !stale && !admitted ==> s == old(s)
      ensures admitted ==> s == Extend(old(s), p - old(s).begin) && RxBounds(s) && p < s.End()
      ensures Holding(inBuffers[..], s) && Fields() && IsCapacity(s.capacity) && s.state == Connected
    {
      hide Holding, RxWellFormed;
      RxNear(s);
      assert RxBounds(s);
      admitted, stale := true, false;
      OrderExact(p, s.begin);
      if !inRing.Contains(seqNum, p) {
        admitted := false;
        if Less(seqNum, inRing.begin) {
          SameSlots(inBuffers[..], s, s.(needsAck := true));
          needsAck, stale := true, true;
          s := s.(needsAck := true);
          return;
        }
        if peerClosed { return; }
        DiffExact(p, s.End());
        var advance: nat := Diff(seqNum, inRing.end) + 1;
        if advance > inRing.SlotsFree() { return; }
        ExtendTo(p - s.begin, advance);
        admitted := true;
      }
    }

    /** Writes a packet into the slot of window index `k` unless something is stored there. */
    method WriteSlot(ghost k: nat, seqNum: SeqNum, b: InBuffer)
      requires Holding(inBuffers[..], s) && Fields() && RxBounds(s) && k < |s.window|
               && seqNum == Wrap(s.begin + k) && b.Stored?
      modifies inBuffers
      ensures Holding(inBuffers[..], Filled(s, k, b))
    {
      hide Holding, Wrap;
      SlotHolds(inBuffers[..], s, s.begin + k);
      var i := inRing.OffsetFor(seqNum, s.begin + k);
      ghost var before := inBuffers[..];
      if inBuffers[i].Unset? {
        SetSlot(before, s, s.begin + k, b);
        inBuffers[i] := b;
        assert inBuffers[..] == before[i := b];
        SameSlots(inBuffers[..], s.(window := s.window[k := b]), Filled(s, k, b));
      } else {
        SameSlots(before, s, Filled(s, k, b));
      }
    }

    /** As `WriteSlot`, and notes that the peer has closed and that an ack is due. */
    method FillSlot(ghost k: nat, seqNum: SeqNum, b: InBuffer)
      requires Holding(inBuffers[..], s) && Fields() && s.state == Connected && IsCapacity(s.capacity)
      requires RxBounds(s) && k < |s.window| && seqNum == Wrap(s.begin + k) && b.Stored?
      modifies this, inBuffers
      ensures s == Filled(old(s), k, b) && unackSeq == old(unackSeq)
      ensures Holding(inBuffers[..], s) && Fields()
    {
      hide Holding, Wrap, IsCapacity;
      WriteSlot(k, seqNum, b);
      if b.fin { peerClosed := true; }
      needsAck := true;
      s := Filled(s, k, b);
    }

    /** Stores a packet at window index `k` unless something is stored there, and updates the ack state. */
    method StorePacket(ghost k: nat, seqNum: SeqNum, b: InBuffer) returns (advanced: bool)
      requires Holding(inBuffers[..], s) && Fields() && s.state == Connected && IsCapacity(s.capacity)
      requires RxBounds(s) && k < |s.window| && seqNum == Wrap(s.begin + k) && b.Stored?
      modifies this, inBuffers
      ensures s == StoreAt(old(s), k, b) && advanced == (old(s).begin + k == old(s).unack)
      ensures Holding(inBuffers[..], s) && Fields()
    {
      hide Holding, NextUnset;
      OrderExact(s.begin + k, s.unack);
      FillSlot(k, seqNum, b);
      hide Wrap;
      advanced := seqNum == unackSeq;
      if advanced {
        AdvanceUnack(k);
        ghost var t := s.(unack := s.begin + NextUnset(s.window, k + 1));
        SameSlots(inBuffers[..], s, t);
        s := t;
      }
    }

    // ----- reading -----

    /** Points the read cursor at the front slot; shared by `tryRead`, `peek` and `availableForRead`. */
    method TouchFront()
      requires Valid() && s.state == Connected
      modifies this
      ensures Valid() && s == Touch(old(s))
    {
      hide Holding, RxWellFormed;
      TouchFacts(s);
      if current == -1 && !inRing.Empty() {
        SameSlots(inBuffers[..], s, Touch(s));
        current := inRing.OffsetFor(inRing.begin, s.begin);
        currentPos := 0;
      }
      s := Touch(s);
    }

    /** One round of the loop of `tryRead`. */
    method ReadOne(left: nat) returns (chunk: seq<byte>, popped: bool, more: bool)
      requires Valid() && s.state == Connected && ReadChecks(s, left)
      modifies this, inBuffers, inRing
      ensures Valid() && s.state == Connected && |chunk| <= left
      ensures more ==>
                && |s.window| < |old(s).window| && ReadChecks(s, left - |chunk|) && popped
                && var rest := ReadLoop(s, left - |chunk|);
                   ReadLoop(old(s), left) == ReadResult(rest.next, chunk + rest.bytes, true)
      ensures !more ==> ReadLoop(old(s), left) == ReadResult(s, chunk, popped)
    {
      hide Holding, RxWellFormed, ReadChecks, ReadLoop;
      chunk, popped, more := [], false, false;
      ReadRound(s, left);
      RxNear(Touch(s));
      if s.window != [] && s.window[0].Stored? { ReadChecksUnfold(s, left); }
      TouchFront();
      hide Touch;
      if current == -1 { return; }
      RxNear(s);
      SlotHolds(inBuffers[..], s, s.begin);
      var b := inBuffers[current];
      assert b == s.window[0];
      if b.Unset? { return; }
      assert |b.data| >= currentPos;  // CHECK_GE
      var available := |b.data| - currentPos;
      if left < available {
        chunk := b.data[currentPos..currentPos + left];
        AdvanceKeeps(s, currentPos + left);
        SameSlots(inBuffers[..], s, s.(reading := Some(currentPos + left)));
        currentPos := currentPos + left;
        s := s.(reading := Some(currentPos));
        return;
      }
      chunk := b.data[currentPos..];
      PopFrontSlot();
      popped := true;
      hide Fields;
      if b.fin {
        assert inRing.Empty();  // CHECK(in_ring_.empty())
        return;
      }
      more := left > available;
    }

    /** The front slot has been read: it is cleared and removed from the window. */
    method PopFrontSlot()
      requires Valid() && s.state == Connected && s.reading.Some? && s.window != [] && s.window[0].Stored?
      requires RxWellFormed(PopRead(s)) && RxBounds(s)
      modifies this, inBuffers, inRing
      ensures Valid() && s == PopRead(old(s)) && (s.window == [] <==> inRing.Empty())
    {
      hide Holding, RxWellFormed;
      ghost var before := inBuffers[..];
      SlotHolds(before, s, s.begin);
      var fin := inBuffers[current].fin;
      PopSlot(before, s, Unset, PopRead(s));
      inBuffers[current] := Unset;
      assert inBuffers[..] == before[Slot(s.begin, s.capacity) := Unset];
      current, himarkExpiration := -1, 0;
      var seqNum := inRing.Pop();
      if fin { endOfStream := true; }
      s := PopRead(s);
    }

    method TryRead(count: nat) returns (bytes: seq<byte>, ready: bool)
      requires Valid() && (s.state == Connected ==> ReadChecks(s, count))
      modifies this, inBuffers, inRing
      ensures Valid()
      ensures var r := Reception.TryRead(old(s), count); s == r.next && bytes == r.bytes && ready == r.ready
    {
      hide Holding, RxWellFormed, ReadChecks, ReadLoop;
      bytes, ready := [], false;
      NotBroken(s);
      if state == Connecting || state == Idle { return; }
      ghost var goal := ReadLoop(s, count);
      var left: nat := count;
      var more := true;
      while more
        invariant Valid() && s.state == Connected
        invariant more ==> ReadChecks(s, left)
        invariant more ==> var rest := ReadLoop(s, left);
                    goal == ReadResult(rest.next, bytes + rest.bytes, ready || rest.ready)
        invariant !more ==> goal == ReadResult(s, bytes, ready)
        decreases more, |s.window|
      {
        ghost var was := bytes;
        var chunk, popped;
        chunk, popped, more := ReadOne(left);
        bytes := bytes + chunk;
        left := left - |chunk|;
        ready := ready || popped;
        if more {
          assert was + (chunk + ReadLoop(s, left).bytes) == bytes + ReadLoop(s, left).bytes;
        }
      }
    }

    method AvailableForRead() returns (n: nat)
      requires Valid()
      modifies this
      ensures Valid() && s == Touch(old(s)) && n == Available(old(s))
    {
      hide Holding, RxWellFormed;
      RxNear(s);
      n := 0;
      if current == -1 && inRing.Empty() { return; }
      TouchFacts(s);
      TouchFront();
      SlotHolds(inBuffers[..], s, s.begin);
      var b := inBuffers[current];
      match b {
        case Unset => n := 0;
        case Stored(fin, data) => n := if fin then 1 else |data| - currentPos;
      }
    }

    // ----- acknowledging -----

    /** The loop that fills the 64-bit mask, most significant bit first. */
    method AckMask() returns (bits: seq<bool>)
      requires Valid() && s.state == Connected
      ensures bits == AckBits(s)
    {
      RxNear(s);
      hide Holding, RxWellFormed;
      PlusWrap(s.unack, 1);
      var inPos := Plus(unackSeq, 1);
      bits := [];
      while |bits| < 64
        invariant |bits| <= 64 && inPos == Wrap(s.unack + 1 + |bits|)
        invariant forall j :: 0 <= j < |bits| ==> bits[j] == ArrivedAfter(s, j)
        decreases 64 - |bits|
      {
        ghost var p := s.unack + 1 + |bits|;
        var inside, b := Lookup(inPos, p);
        if !inside { break; }
        assert b.Stored? == ArrivedAfter(s, |bits|);
        bits := bits + [b.Stored?];
        PlusWrap(p, 1);
        inPos := Plus(inPos, 1);
      }
      // The bits never reached stay zero.
      var rest := seq(64 - |bits|, _ => false);
      forall j | |bits| <= j < 64 ensures !ArrivedAfter(s, j) {}
      bits := bits + rest;
      assert bits == AckBits(s);
    }

    /** `ack`: the ack packet, empty when there is nothing to acknowledge. */
    method Ack() returns (packet: seq<byte>)
      requires Valid()
      modifies `needsAck, `s
      ensures Valid()
      ensures var r := Acknowledge(old(s)); s == r.next && packet == r.packet
    {
      packet := [];
      AcknowledgeKeeps(s);
      NotBroken(s);
      IdleNeedsNoAck(s);
      hide Holding, RxWellFormed, AckBits, StoreBits, Trim;
      if (state != Connected && state != Idle) || !needsAck { return; }
      var bits := AckMask();
      HeaderOfWrap(s.unack, DATA_ACK_PACKET, s.control);
      var header := Header(unackSeq, DATA_ACK_PACKET, controlBit);
      packet := Packet(header, Trim(StoreBits(bits)));
      SameSlots(inBuffers[..], s, s.(needsAck := false));
      needsAck := false;
      s := s.(needsAck := false);
    }

    /** `updateRecvHimark`: the flow-control packet, empty when it is not due. */
    method UpdateRecvHimark(now: nat, nextSendMicros: int) returns (packet: seq<byte>, micros: int)
      requires Valid()
      modifies `himarkExpiration, `s
      ensures Valid()
      ensures var r := Advertise(old(s), now, nextSendMicros);
              s == r.next && packet == r.packet && micros == r.nextSendMicros
    {
      hide Holding, RxWellFormed, Wrap;
      packet, micros := [], nextSendMicros;
      NotBroken(s);
      if state == Connecting || state == Idle { return; }
      if now < himarkExpiration {
        micros := Min(micros, himarkExpiration - now);
        return;
      }
      ghost var t := s.(himarkExpiration := now + HIMARK_TIMEOUT);
      HimarkKeeps(s, now + HIMARK_TIMEOUT);
      SameSlots(inBuffers[..], s, t);
      PlusWrap(s.begin, s.capacity);
      HeaderOfWrap(s.begin + s.capacity, FLOW_CONTROL_PACKET, s.control);
      packet := Packet(Header(Plus(inRing.begin, inRing.capacity), FLOW_CONTROL_PACKET, controlBit), []);
      himarkExpiration := now + HIMARK_TIMEOUT;
      micros := Min(micros, HIMARK_TIMEOUT);
      s := t;
    }

    // ----- connection state -----

    /** Needs only that the window is empty, which it checks; a read cursor left by `init` stays. */
    method SetConnected(peerSeqNum: SeqNum, control: bool)
      requires inRing.Valid() && inRing.lo == inRing.hi
      modifies this, inRing
      ensures inRing.Valid() && inRing.lo == inRing.hi == peerSeqNum
      ensures state == Connected && unackSeq == peerSeqNum && controlBit == control
      ensures current == old(current) && currentPos == old(currentPos) && needsAck == old(needsAck)
      ensures peerClosed == old(peerClosed) && endOfStream == old(endOfStream)
              && himarkExpiration == old(himarkExpiration)
      ensures old(Valid()) ==> Valid() && s == RxSetConnected(old(s), peerSeqNum, control)
    {
      ghost var t := RxSetConnected(s, peerSeqNum, control);
      if Valid() {
        assert s.window == [] && RxWellFormed(t);
        EmptySlots(inBuffers[..], s, t);
      }
      hide Holding, RxWellFormed;
      inRing.Reset(peerSeqNum);
      unackSeq, state, controlBit := peerSeqNum, Connected, control;
      s := t;
    }

    /** Clears and removes every slot of the window. */
    method ClearWindow()
      requires inRing.Valid() && inRing.capacity == inBuffers.Length == s.capacity
      modifies inBuffers, inRing
      ensures inRing.Valid() && inRing.lo == inRing.hi == old(inRing.hi)
      ensures Holding(inBuffers[..], s.(begin := s.End(), unack := s.End(), window := []))
    {
      while !inRing.Empty()
        invariant inRing.Valid() && inRing.hi == old(inRing.hi)
        decreases inRing.hi - inRing.lo
      {
        inBuffers[inRing.OffsetFor(inRing.begin, inRing.lo)] := Unset;
        var popped := inRing.Pop();
      }
    }

    method Reset()
      requires Valid()
      modifies this, inBuffers, inRing
      ensures Valid() && s == RxReset(old(s))
    {
      ghost var t := RxReset(s);
      assert RxWellFormed(t);
      hide RxWellFormed;
      ClearWindow();
      EmptySlots(inBuffers[..], s.(begin := s.End(), unack := s.End(), window := []), t);
      hide Holding;
      state, peerClosed, endOfStream, current, currentPos := Idle, false, false, -1, 0;
      needsAck, himarkExpiration := false, 0;
      s := t;
    }

    /** `init` empties the window but leaves the read cursor where it is.  A receiver with no read in
        progress is ready for the next connection; one that is reading keeps pointing at the old slot. */
    method Init()
      requires Valid()
      modifies this, inRing
      ensures old(s).reading == None ==> Valid() && s == RxInit(old(s))
      ensures current == old(current) && currentPos == old(currentPos) && inRing.Valid() && inRing.lo == inRing.hi
      ensures state == Connecting && !peerClosed && !endOfStream
    {
      ghost var t := RxInit(s);
      assert s.reading == None ==> RxWellFormed(t);
      EmptySlots(inBuffers[..], s, t);
      hide Holding, RxWellFormed;
      while !inRing.Empty()
        modifies inRing
        invariant inRing.Valid() && inRing.hi == old(inRing.hi)
        decreases inRing.hi - inRing.lo
      {
        var popped := inRing.Pop();
      }
      peerClosed, endOfStream, state := false, false, Connecting;
      s := t;
    }
  }

  lemma AcknowledgeKeeps(s: RxState)
    requires RxWellFormed(s)
    ensures RxWellFormed(s.(needsAck := false))
  {
  }

  lemma NextUnsetStep(w: seq<InBuffer>, k: nat)
    requires k <= |w|
    ensures k == |w| || w[k].Unset? ==> NextUnset(w, k) == k
    ensures k < |w| && w[k].Stored? ==> NextUnset(w, k) == NextUnset(w, k + 1)
  {
  }

  lemma HimarkKeeps(s: RxState, expiration: nat)
    requires RxWellFormed(s)
    ensures RxWellFormed(s.(himarkExpiration := expiration))
  {
  }

  lemma IdleNeedsNoAck(s: RxState)
    requires RxWellFormed(s)
    ensures s.state == Idle ==> !s.needsAck
  {
  }

  /** The window with a packet stored at index `k`, before the first missing position is updated. */
  ghost function Filled(s: RxState, k: nat, b: InBuffer): RxState
    requires k < |s.window| && b.Stored?
  {
    s.(window := if s.window[k].Unset? then s.window[k := b] else s.window,
       peerClosed := s.peerClosed || b.fin, needsAck := true)
  }

  /** The ends of the window and the first missing position are in order. */
  ghost predicate RxBounds(s: RxState) {
    |s.window| <= s.capacity <= MAX_CAPACITY && s.begin <= s.unack <= s.End()
  }

  lemma NotBroken(s: RxState)
    requires RxWellFormed(s)
    ensures s.state != Broken
  {
  }

  lemma ReadChecksUnfold(s: RxState, left: nat)
    requires RxWellFormed(s) && s.state == Connected && ReadChecks(s, left) && s.window != [] && s.window[0].Stored?
    ensures var s1 := Touch(s);
            var n := |s.window[0].data| - s1.reading.value;
            && s1.reading.Some? && RxWellFormed(PopRead(s1)) && PopRead(s1).state == Connected
            && (left >= n && s.window[0].fin ==> PopRead(s1).window == [])
            && (left > n && !s.window[0].fin ==> n >= 0 && ReadChecks(PopRead(s1), left - n))
  {
    TouchFacts(s);
    PopReadKeeps(Touch(s));
    hide RxWellFormed;
  }
}
