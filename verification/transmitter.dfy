/** The transmitter: a slot array addressed by masked 16-bit sequence numbers (transmitter.h, transmitter.cpp).

Every method is specified by the function of the same name in `Transmission`, applied to
the ghost field `s`; `Valid` ties the real fields to it.
*/
module Transmitters {
  import opened Basics
  import opened SeqNums
  import opened RingBuffers
  import opened Protocol
  import opened OutBuffers
  import opened Transmission

  // ----- the slot array -----

  /** The slots hold the buffers of the window, each in the slot of its position. */
  ghost predicate Represents(slots: seq<OutBuffer>, s: TxState) {
    && |slots| == s.capacity > 0
    && (forall i :: 0 <= i < |slots| ==> slots[i].Valid())
    && (forall p :: s.begin <= p < s.End() ==> slots[Slot(p, s.capacity)] == s.Buf(p))
  }

  lemma SetSlot(slots: seq<OutBuffer>, s: TxState, p: int, b: OutBuffer)
    requires Represents(slots, s) && |s.window| <= s.capacity && s.begin <= p < s.End() && b.Valid()
    ensures Represents(slots[Slot(p, s.capacity) := b], s.(window := s.window[p - s.begin := b]))
  {
    var t := s.(window := s.window[p - s.begin := b]);
    var after := slots[Slot(p, s.capacity) := b];
    forall q | t.begin <= q < t.End() ensures after[Slot(q, t.capacity)] == t.Buf(q) {
      if q != p {
        SlotsDiffer(p, q, s.capacity);
        assert t.Buf(q) == s.Buf(q);
      }
    }
  }

  lemma PushSlot(slots: seq<OutBuffer>, s: TxState, b: OutBuffer)
    requires Represents(slots, s) && |s.window| < s.capacity && b.Valid()
    ensures Represents(slots[Slot(s.End(), s.capacity) := b], s.(window := s.window + [b]))
  {
    var t := s.(window := s.window + [b]);
    var after := slots[Slot(s.End(), s.capacity) := b];
    forall q | t.begin <= q < t.End() ensures after[Slot(q, t.capacity)] == t.Buf(q) {
      if q != s.End() {
        SlotsDiffer(s.End(), q, s.capacity);
        assert t.Buf(q) == s.Buf(q);
      }
    }
  }

  lemma DropSlots(slots: seq<OutBuffer>, s: TxState, n: nat)
    requires Represents(slots, s) && n <= |s.window|
    ensures Represents(slots, s.(begin := s.begin + n, window := s.window[n..]))
  {
    var t := s.(begin := s.begin + n, window := s.window[n..]);
    forall q | t.begin <= q < t.End() ensures slots[Slot(q, t.capacity)] == t.Buf(q) {
      assert t.Buf(q) == s.Buf(q);
    }
  }

  lemma SameSlots(slots: seq<OutBuffer>, s: TxState, t: TxState)
    requires Represents(slots, s) && t.begin == s.begin && t.window == s.window && t.capacity == s.capacity
    ensures Represents(slots, t)
  {
    assert forall p :: s.begin <= p < s.End() ==> t.Buf(p) == s.Buf(p);
  }

  /** `current_out_buffer_` as an index into the slots; -1 stands for null. */
  ghost predicate PointsTo(slots: seq<OutBuffer>, current: int, s: TxState)
    requires Represents(slots, s)
  {
    match s.cursor
    case NoBuffer => current == -1
    case LastBuffer => s.window != [] && current == Slot(s.End() - 1, s.capacity)
    case Detached(room) => 0 <= current < |slots| && slots[current].Room() == room
    case Sealed => 0 <= current < |slots| && slots[current].flushed
  }

  class Transmitter {
    const outBuffers: array<OutBuffer>
    const outRing: RingBuffer
    var state: LinkState
    var endOfStream: bool
    var current: int
    var nextToSend: SeqNum
    var recvHimark: SeqNum
    var hasPendingEof: bool
    var peerReceiveBufferSize: nat
    var controlBit: bool
    ghost var s: TxState

    ghost predicate Valid()
      reads this, outBuffers, outRing
    {
      WellFormed(s) && Represents(outBuffers[..], s) && PointsTo(outBuffers[..], current, s) && BasicFields()
    }

    /** The fields other than the slots and the cursor. */
    ghost predicate BasicFields()
      reads this, outRing
    {
      && outRing.Valid() && (outRing.capacity, outRing.lo, outRing.hi) == (s.capacity, s.begin, s.End())
      && s == s.(state := state, eos := endOfStream, nextToSend := nextToSend, pendingEof := hasPendingEof,
                 peerSize := peerReceiveBufferSize, control := controlBit)
      && recvHimark == Wrap(s.himark)
    }

    constructor (sendbufLog2: nat)
      requires sendbufLog2 <= 10
      ensures Valid() && fresh(outBuffers) && fresh(outRing)
      ensures s.capacity == Pow2(sendbufLog2) && s.state == Idle && s.window == [] && s.begin == 0
    {
      CapacityOfLog2(sendbufLog2);
      var capacity := Pow2(sendbufLog2);
      var blank := OutBuffer(0, [], false, false, false, 0, 0);
      outBuffers := new OutBuffer[capacity](_ => blank);
      outRing := new RingBuffer(sendbufLog2, 0);
      state, endOfStream, current, nextToSend := Idle, false, -1, 0;
      recvHimark, hasPendingEof, peerReceiveBufferSize, controlBit := capacity, false, 0, false;
      s := TxState(capacity, 0, [], Idle, false, NoBuffer, 0, capacity, false, 0, false);
    }

    /** Replaces the slot of a position of the window. */
    method Store(ghost p: int, i: nat, b: OutBuffer)
      requires Represents(outBuffers[..], s) && |s.window| <= s.capacity
      requires s.begin <= p < s.End() && b.Valid() && i == Slot(p, s.capacity)
      modifies outBuffers, `s
      ensures s == old(s).(window := old(s).window[p - old(s).begin := b])
      ensures outBuffers[..] == old(outBuffers[..])[i := b]
      ensures Represents(outBuffers[..], s)
    {
      SetSlot(outBuffers[..], s, p, b);
      outBuffers[i] := b;
      assert outBuffers[..] == old(outBuffers[..])[i := b];
      s := s.(window := s.window[p - s.begin := b]);
    }

    /** Puts a buffer for the position at the end of the window into its slot. */
    method Append(b: OutBuffer) returns (i: nat)
      requires Represents(outBuffers[..], s) && b.Valid()
      requires outRing.Valid() && outRing.capacity == s.capacity && outRing.lo == s.begin && outRing.hi == s.End()
      requires |s.window| < s.capacity
      modifies outBuffers, outRing, `s
      ensures s == old(s).(window := old(s).window + [b])
      ensures outRing.Valid() && outRing.lo == s.begin && outRing.hi == s.End()
      ensures i == Slot(s.End() - 1, s.capacity)
      ensures outBuffers[..] == old(outBuffers[..])[i := b]
      ensures Represents(outBuffers[..], s)
    {
      PushSlot(outBuffers[..], s, b);
      var seqNum := outRing.Push();
      i := outRing.OffsetFor(seqNum, s.End());
      outBuffers[i] := b;
      assert outBuffers[..] == old(outBuffers[..])[i := b];
      s := s.(window := s.window + [b]);
    }

    // ----- writing -----

    /** Opens a new buffer at the end of the window. */
    method Open()
      requires Valid() && Writable(s) && s.cursor == NoBuffer && !Blocked(s)
      modifies this, outBuffers, outRing
      ensures s == Push(old(s))
      ensures Represents(outBuffers[..], s) && PointsTo(outBuffers[..], current, s) && BasicFields()
    {
      HeaderOfWrap(s.End(), DATA_PACKET, s.control);
      ghost var s0 := s;
      current := Append(Fresh(outRing.end, controlBit));
      SameSlots(outBuffers[..], s, s.(cursor := LastBuffer));
      s := s.(cursor := LastBuffer);
      assert s == Push(s0);
    }

    /** Writes into the current buffer and lets go of it when it is finished. */
    method WriteCurrent(data: seq<byte>) returns (n: nat, done: bool)
      requires Represents(outBuffers[..], s) && PointsTo(outBuffers[..], current, s) && BasicFields()
      requires s.cursor.LastBuffer? || s.cursor.Detached?
      requires |s.window| <= s.capacity && (s.cursor.Detached? ==> s.window == [])
      modifies this, outBuffers
      ensures var r := WriteChunk(old(s), data); s == r.next && n == r.written && done == r.ready
      ensures Represents(outBuffers[..], s) && PointsTo(outBuffers[..], current, s) && BasicFields()
    {
      ghost var before := outBuffers[..];
      CurrentSlot(before, current, s);
      WriteSlots(before, current, s, data);
      hide Represents, PointsTo;
      var b := outBuffers[current];
      n := if |data| < b.Room() then |data| else b.Room();
      var b' := b.Append(data[..n]);
      outBuffers[current] := b';
      assert outBuffers[..] == before[current := b'];
      done := b'.finished;
      if done { current := -1; }
      WriteKeepsShape(s, data);
      s := WriteChunk(s, data).next;
    }

    method TryWrite(data: seq<byte>) returns (written: nat, ready: bool)
      requires Valid()
      modifies this, outBuffers, outRing
      ensures Valid()
      ensures var r := Transmission.TryWrite(old(s), data); s == r.next && written == r.written && ready == r.ready
    {
      hide WellFormed, Represents, PointsTo, WriteRound, WriteLoop, Wrap;
      written, ready := 0, false;
      if |data| == 0 || endOfStream || state == Idle || state == Broken { return; }
      ghost var goal := WriteLoop(s, data);
      var rest := data;
      while |rest| > 0
        invariant Valid() && Writable(s)
        invariant written <= |data| && rest == data[written..]
        invariant var r := WriteLoop(s, rest); goal == WriteResult(r.next, written + r.written, ready || r.ready)
        decreases |rest|, s.cursor != NoBuffer
      {
        CreditFacts(s);
        WriteLoopStep(s, rest);
        CurrentIsNull(outBuffers[..], current, s);
        assert AtMost(outRing.end, recvHimark);  // CHECK_GE(recv_himark_, out_ring_.end())
        if current == -1 && (recvHimark == outRing.end || outRing.SlotsFree() == 0) { break; }
        ghost var round := WriteRound(s, rest);
        ghost var s1 := if s.cursor == NoBuffer then Push(s) else s;
        RoundShape(s, rest);
        if current == -1 { Open(); }
        var n, done := WriteCurrent(rest);
        hide WriteChunk, Push;
        assert s == round.next;
        written := written + n;
        rest := rest[n..];
        ready := ready || done;
      }
      if rest == [] { WriteLoopStep(s, rest); }
    }

    method Flush() returns (flushed: bool)
      requires Valid()
      modifies this, outBuffers
      ensures Valid()
      ensures s == Transmission.Flush(old(s)) && flushed == (old(s).cursor != NoBuffer)
      ensures current == old(current) && state == old(state) && hasPendingEof == old(hasPendingEof)
      ensures flushed ==> 0 <= current < outBuffers.Length && outBuffers[current].flushed
    {
      FlushKeeps(s);
      ghost var before := outBuffers[..];
      CurrentIsNull(before, current, s);
      FlushSlots(before, current, s);
      hide Represents, PointsTo, WellFormed;
      flushed := current != -1;
      if current != -1 {
        CurrentSlot(before, current, s);
        outBuffers[current] := outBuffers[current].Flush();
        assert outBuffers[..] == before[current := before[current].Flush()];
      }
      s := Transmission.Flush(s);
    }

    /** `addEosPacket`. */
    method AddEosPacket()
      requires Represents(outBuffers[..], s) && BasicFields() && |s.window| < s.capacity
      modifies outBuffers, outRing, `s
      ensures s == old(s).(window := old(s).window + [Eos(old(s).End(), old(s).control)])
      ensures Represents(outBuffers[..], s) && BasicFields()
      ensures forall i :: 0 <= i < outBuffers.Length ==> outBuffers[i] == old(outBuffers[i]) || outBuffers[i].flushed
    {
      hide Represents;
      HeaderOfWrap(s.End(), DATA_PACKET, s.control);
      ghost var b := Eos(s.End(), s.control);
      var i := Append(Fresh(outRing.end, controlBit).MarkFinal().Finish());
    }

    method Close()
      requires Valid()
      modifies this, outBuffers, outRing
      ensures Valid()
      ensures s == Transmission.Close(old(s))
    {
      hide Represents, PointsTo, WellFormed;
      CloseKeeps(s);
      CloseCases(s);
      if state == Broken {
        BrokenToIdle(s);
        SameSlots(outBuffers[..], s, s.(state := Idle));
        SamePointer(outBuffers[..], current, s, s.(state := Idle));
        state := Idle;
        s := s.(state := Idle);
        return;
      }
      if endOfStream || state == Idle { return; }
      ghost var s0 := s;
      CurrentIsNull(outBuffers[..], current, s);
      var flushed := Flush();
      Seal(s0);
    }

    /** Queues the final packet of a flushed stream, or leaves it pending when the window is full. */
    method Seal(ghost s0: TxState)
      requires Valid() && WellFormed(s0) && Writable(s0) && s == Transmission.Flush(s0)
      requires WellFormed(Transmission.Close(s0))
      requires current != -1 ==> 0 <= current < outBuffers.Length && outBuffers[current].flushed
      modifies this, outBuffers, outRing
      ensures Valid()
      ensures s == Transmission.Close(s0)
    {
      hide Represents, PointsTo, WellFormed;
      ghost var f, goal := s, Transmission.Close(s0);
      CurrentIsNull(outBuffers[..], current, f);
      CloseShape(s, goal);
      hide Transmission.Close;
      if outRing.SlotsFree() == 0 {
        hasPendingEof := true;
      } else {
        AddEosPacket();
      }
      endOfStream := true;
      SameSlots(outBuffers[..], s, goal);
      s := goal;
      SealedPointer(outBuffers[..], current, f, s);
    }

    // ----- sending -----

    /** One round of the loop of the fallback: the best candidate so far, and whether to go on. */
    method ScanRound(ghost k: nat, pos: SeqNum, toSend: SeqNum, minTime: nat, ghost c: Choice)
      returns (toSend': SeqNum, minTime': nat, more: bool, ghost c': Choice)
      requires Valid() && s.state == Connected && k <= |s.window| && pos == Wrap(s.begin + k) && minTime == c.time
      ensures minTime' == c'.time
      ensures (toSend' == toSend && c' == c) || (toSend' == pos && c'.index == Some(k) && k < |s.window|)
      ensures more ==> k < |s.window| && Scan(s, k, c) == Scan(s, k + 1, c')
      ensures !more ==> Scan(s, k, c) == c'
    {
      WindowIsNear(s);
      hide WellFormed, PointsTo, Represents, Wrap, Less, Scan;
      toSend', minTime', more, c' := toSend, minTime, false, c;
      OrderExact(s.begin + k, s.End());
      OrderExact(s.begin + k, s.himark);
      ScanStep(s, k, c);
      if !(Less(pos, outRing.end) && Less(pos, recvHimark)) { return; }
      SlotHolds(outBuffers[..], s, s.begin + k);
      var b := outBuffers[outRing.OffsetFor(pos, s.begin + k)];
      if !b.acked {
        if !b.flushed { return; }
        if !b.finished || b.expiration == 0 {
          toSend', minTime', c' := pos, 0, Choice(Some(k), 0);
          return;
        }
        if b.expiration < minTime {
          toSend', minTime', c' := pos, b.expiration, Choice(Some(k), b.expiration);
        }
      }
      more := true;
    }

    /** The scan of `getBufferToSend` for the buffer that is due first. */
    method ScanForDue() returns (toSend: SeqNum, minTime: nat)
      requires Valid() && s.state == Connected
      ensures var c := Scan(s, 0, Choice(None, UPTIME_MAX));
              && minTime == c.time
              && (c.index.Some? ==> c.index.value < |s.window| && toSend == Wrap(s.begin + c.index.value))
              && (c.index.None? ==> toSend == outRing.end)
    {
      hide WellFormed, PointsTo, Represents, Wrap, Scan;
      toSend, minTime := outRing.end, UPTIME_MAX;
      var pos, more := outRing.begin, true;
      ghost var k, c := 0, Choice(None, UPTIME_MAX);
      while more
        invariant 0 <= k <= |s.window| && pos == Wrap(s.begin + k) && minTime == c.time
        invariant c.index.Some? ==> c.index.value < |s.window| && toSend == Wrap(s.begin + c.index.value)
        invariant c.index.None? ==> toSend == outRing.end
        invariant Scan(s, 0, Choice(None, UPTIME_MAX)) == if more then Scan(s, k, c) else c
        decreases more, |s.window| - k
      {
        toSend, minTime, more, c := ScanRound(k, pos, toSend, minTime, c);
        if more {
          PlusWrap(s.begin + k, 1);
          pos, k := Plus(pos, 1), k + 1;
        }
      }
    }

    /** Closes the buffer in slot `i`, the one of window index `k`, if need be, and marks it sent. */
    method Transmit(ghost k: nat, pos: SeqNum, now: nat, draw: nat) returns (i: nat)
      requires Valid() && s.state == Connected && k < |s.window| && pos == Wrap(s.begin + k) && draw <= RANDOM_MAX
      modifies outBuffers, `nextToSend, `s
      ensures Valid()
      ensures s == SendBuffer(old(s), k, now, draw)
      ensures i == Slot(s.begin + k, s.capacity) && outBuffers[i] == s.window[k]
    {
      hide Represents, PointsTo, WellFormed, Wrap, SendBuffer, OutBuffer.Transmitted;
      ghost var before := outBuffers[..];
      ghost var t := SendBuffer(s, k, now, draw);
      i := outRing.OffsetFor(pos, s.begin + k);
      SendBufferKeeps(s, k, now, draw);
      SendSlots(before, current, s, k, now, draw);
      SlotHolds(before, s, s.begin + k);
      outBuffers[i] := outBuffers[i].Transmitted(now, draw);
      assert outBuffers[..] == before[i := t.window[k]];
      PlusWrap(s.begin + k, 1);
      nextToSend := Plus(pos, 1);
      s := t;
    }

    /** The empty window that claims to contain `next_to_send_`: a slot that is in no window goes out. */
    method TransmitStale(now: nat, draw: nat) returns (i: nat)
      requires Valid() && Misjudged(s) && draw <= RANDOM_MAX
      requires outBuffers[Slot(nextToSend, outRing.capacity)].sendCounter == 0
      modifies outBuffers, `nextToSend, `s
      ensures Valid() && s.window == [] && s.state == old(s).state && s.begin == old(s).begin
      ensures i == Slot(old(nextToSend), outRing.capacity) && i < outBuffers.Length
      ensures outBuffers[..] == old(outBuffers[..])[i := outBuffers[i]]
              && Resent(old(outBuffers[i]), outBuffers[i], now)
      ensures nextToSend == Plus(old(nextToSend), 1)
    {
      ghost var before := outBuffers[..];
      DistanceRestores(nextToSend, s.begin);
      SlotOfWrap(s.begin + (nextToSend - s.begin) % 0x1_0000, outRing.capacity);
      i := outRing.OffsetFor(nextToSend, s.begin + (nextToSend - s.begin) % 0x1_0000);
      SlotHolds(before, s, s.begin + (nextToSend - s.begin) % 0x1_0000);
      hide OutBuffer.Transmitted;
      var c := outBuffers[i].Transmitted(now, draw);
      outBuffers[i] := c;
      assert outBuffers[..] == before[i := c];
      nextToSend := Plus(nextToSend, 1);
      s := StaleSent(s, outBuffers[..], current, nextToSend);
      StaleSlots(before, outBuffers[..], i, current, old(s), nextToSend);
      hide WellFormed, Represents, PointsTo;
    }

    /** The fallback of `getBufferToSend`. */
    method SendDue(now: nat, draw: nat, nextSendMicros: int) returns (sent: int, micros: int)
      requires Valid() && s.state == Connected && draw <= RANDOM_MAX
      modifies outBuffers, `nextToSend, `s
      ensures Valid()
      ensures var c := Fallback(old(s));
              && (c.index.None? || c.time > now ==> s == old(s) && sent == -1 && outBuffers[..] == old(outBuffers[..]))
              && (c.index.None? ==> micros == nextSendMicros)
              && (c.index.Some? && c.time > now ==>
                    micros == if nextSendMicros < c.time - now then nextSendMicros else c.time - now)
              && (c.index.Some? && c.time <= now ==>
                    && s == SendBuffer(old(s), c.index.value, now, draw) && micros == 0
                    && sent == Slot(s.begin + c.index.value, s.capacity) && outBuffers[sent] == s.window[c.index.value])
    {
      hide WellFormed, Represents, PointsTo, Wrap, Less, AtMost, Scan, SendBuffer;
      sent, micros := -1, nextSendMicros;
      WindowIsNear(s);
      var toSend, minTime := ScanForDue();
      ghost var c := Scan(s, 0, Choice(None, UPTIME_MAX));
      if c.index.Some? { OrderExact(s.begin, s.begin + c.index.value); OrderExact(s.begin + c.index.value, s.End()); }
      else { OrderExact(s.End(), s.End()); }
      assert InWindow(outRing.begin, outRing.end, toSend) <==> c.index.Some?;
      if !InWindow(outRing.begin, outRing.end, toSend) {
        OrderExact(s.begin, s.himark);
        if outRing.SlotsUsed() != 1 || AtMost(recvHimark, outRing.begin) { return; }
        SlotHolds(outBuffers[..], s, s.begin);
        var b := outBuffers[outRing.OffsetFor(outRing.begin, s.begin)];
        if b.finished { return; }
        toSend, minTime, c := outRing.begin, 0, Choice(Some(0), 0);
      }
      assert c == Fallback(s);
      hide Fallback;
      if minTime > now {
        micros := if micros < minTime - now then micros else minTime - now;
        return;
      }
      sent := Transmit(c.index.value, toSend, now, draw);
      micros := 0;
    }

    /** The first test of `getBufferToSend`: the membership test of `next_to_send_` answers wrongly only for an empty
        window, and then it is the slot pointed at that counts. */
    method NextIsFresh() returns (yes: bool)
      requires Valid() && s.state == Connected
      ensures Slot(nextToSend, outRing.capacity) < outBuffers.Length
      ensures s.window != [] ==> (yes <==> FastIndex(s).Some? && FreshToSend(s.window[FastIndex(s).value]))
      ensures s.window == [] ==>
                (yes <==> Misjudged(s) && FreshToSend(outBuffers[Slot(nextToSend, outRing.capacity)]))
    {
      hide WellFormed, PointsTo, Represents, Wrap, Less;
      ghost var d := (nextToSend - s.begin) % 0x1_0000;
      WindowIsNear(s);
      InWindowExact(s.begin, s.End(), nextToSend);
      DistanceRestores(nextToSend, s.begin);
      SlotHolds(outBuffers[..], s, s.begin + d);
      SlotOfWrap(s.begin + d, outRing.capacity);
      hide InWindow, Slot;
      if !InWindow(outRing.begin, outRing.end, nextToSend) { return false; }
      var b := outBuffers[outRing.OffsetFor(nextToSend, s.begin + d)];
      return !b.acked && b.flushed && b.sendCounter == 0;
    }

    /** `getBufferToSend`: the slot to send, or -1.  The membership test of `next_to_send_` answers wrongly only for an
        empty window; then the slot it points at goes out with its old bytes if it was never sent, and nothing
        otherwise. */
    method GetBufferToSend(now: nat, draw: nat, nextSendMicros: int) returns (sent: int, micros: int)
      requires Valid() && draw <= RANDOM_MAX
      modifies this, outBuffers
      ensures Valid()
      ensures !Misjudged(old(s)) ==>
                var r := Send(old(s), now, draw, nextSendMicros);
                && s == r.next && micros == r.nextSendMicros
                && (r.sent.None? ==> sent == -1)
                && (r.sent.Some? ==>
                      sent == Slot(s.begin + r.sent.value, s.capacity) && outBuffers[sent] == s.window[r.sent.value])
      ensures Misjudged(old(s)) ==> s.window == [] && s.state == old(s).state && s.begin == old(s).begin
      ensures Slot(old(nextToSend), outRing.capacity) < outBuffers.Length
      ensures Misjudged(old(s)) ==>
                var i := Slot(old(nextToSend), outRing.capacity);
                var b := old(outBuffers[..])[i];
                if old(s).state == Connected && FreshToSend(b) then
                  && sent == i && micros == 0 && nextToSend == Plus(old(nextToSend), 1)
                  && outBuffers[..] == old(outBuffers[..])[i := outBuffers[i]] && Resent(b, outBuffers[i], now)
                else
                  sent == -1 && micros == nextSendMicros && nextToSend == old(nextToSend)
                    && outBuffers[..] == old(outBuffers[..])
    {
      hide WellFormed, PointsTo, Fallback, Represents, SendBuffer, Wrap, Less, Slot;
      sent, micros := -1, nextSendMicros;
      SlotHolds(outBuffers[..], s, nextToSend);
      if state != Connected { return; }
      var isFresh := NextIsFresh();
      if !isFresh {
        SendsDue(s, now, draw, nextSendMicros);
        sent, micros := SendDue(now, draw, nextSendMicros);
      } else if outRing.Empty() {
        sent := TransmitStale(now, draw);
        micros := 0;
      } else {
        ghost var k := FastIndex(s).value;
        SendsFast(s, k, now, draw, nextSendMicros);
        DistanceRestores(nextToSend, s.begin);
        sent := Transmit(k, nextToSend, now, draw);
        micros := 0;
      }
      hide Send;
    }

    // ----- acknowledgements -----

    /** One round of the loop of `ack` that removes acknowledged buffers. */
    method PopOne()
      requires Valid() && s.state == Connected && s.window != []
      modifies this, outBuffers, outRing
      ensures Valid() && s == PopFront(old(s), 1)
    {
      hide WellFormed, Represents, PointsTo, PopFront;
      ghost var goal := PopFront(s, 1);
      ghost var s0 := s;
      PopFrontKeeps(s, 1);
      PopOneShape(s);
      DropSlots(outBuffers[..], s, 1);
      var popped := outRing.Pop();
      s := s.(begin := s.begin + 1, window := s.window[1..]);
      if hasPendingEof {
        AddEosPacket();
        hasPendingEof := false;
      }
      SameSlots(outBuffers[..], s, goal);
      s := goal;
      PoppedPointer(old(outBuffers[..]), outBuffers[..], current, s0, s);
    }

    /** Changes the flags of the buffer at a position of the window. */
    method Decorate(ghost k: nat, pos: SeqNum, b: OutBuffer)
      requires Represents(outBuffers[..], s) && PointsTo(outBuffers[..], current, s) && BasicFields()
      requires k < |s.window| <= s.capacity && pos == Wrap(s.begin + k) && Decorated(s.window[k], b)
      modifies outBuffers, `s
      ensures s == old(s).(window := old(s).window[k := b])
      ensures Represents(outBuffers[..], s) && PointsTo(outBuffers[..], current, s) && BasicFields()
    {
      ghost var before := outBuffers[..];
      var i := outRing.OffsetFor(pos, s.begin + k);
      DecorateSlots(before, current, s, k, b);
      hide Represents, PointsTo;
      outBuffers[i] := b;
      assert outBuffers[..] == before[i := b];
      s := s.(window := s.window[k := b]);
    }

    /** What holds after the first `j` bits of the bitmap have been applied to the window `w` of `t`. */
    ghost predicate SkipAcked(t: TxState, bitmap: seq<byte>, j: nat, lastAcked: SeqNum)
      requires t.window != []
      reads this, outBuffers, outRing
    {
      && s == t.(window := Acks(t.window, bitmap, j))
      && lastAcked == Wrap(t.begin + LastIndex(bitmap, |t.window|, j))
      && Represents(outBuffers[..], s) && PointsTo(outBuffers[..], current, s) && BasicFields()
    }

    /** One bit of the bitmap. */
    method SkipAckBit(ghost t: TxState, ghost bitmap: seq<byte>, ghost j: nat, bit: bool, outPos: SeqNum,
        before: SeqNum)
      returns (lastAcked: SeqNum)
      requires 0 < |t.window| <= t.capacity <= MAX_CAPACITY && j <= 8 * MAX_PAYLOAD
      requires forall k :: 0 <= k < |t.window| ==> t.window[k].Valid()
      requires SkipAcked(t, bitmap, j, before) && outPos == Wrap(t.begin + j + 1) && bit == BitmapBit(bitmap, j)
      modifies outBuffers, `s
      ensures SkipAcked(t, bitmap, j + 1, lastAcked)
    {
      hide Represents, PointsTo, BitmapBit;
      lastAcked := before;
      AcksStep(t.window, bitmap, j);
      ghost var k := j + 1;
      hide Acks, LastIndex;
      if outRing.Contains(outPos, t.begin + k) && bit {
        SlotHolds(outBuffers[..], s, t.begin + k);
        var b := outBuffers[outRing.OffsetFor(outPos, t.begin + k)];
        assert b == s.window[k] == t.window[k];
        Decorate(k, outPos, b.Ack());
        lastAcked := outPos;
      }
    }

    /** The skip-ack loop over the bits of the bitmap; returns the last position acknowledged. */
    method ApplySkipAcks(bitmap: seq<byte>) returns (lastAcked: SeqNum)
      requires Represents(outBuffers[..], s) && PointsTo(outBuffers[..], current, s) && BasicFields()
      requires 0 < |s.window| <= s.capacity <= MAX_CAPACITY && (forall k :: 0 <= k < |s.window| ==> s.window[k].Valid())
      requires |bitmap| <= MAX_PAYLOAD
      modifies outBuffers, `s
      ensures SkipAcked(old(s), bitmap, 8 * |bitmap|, lastAcked)
    {
      hide Represents, PointsTo, Acks, LastIndex, BitOf, BitmapBit;
      ghost var t := s;
      PlusWrap(t.begin, 1);
      PlusWrap(t.begin, -1);
      AcksNone(t.window, bitmap);
      var outPos := Plus(outRing.begin, 1);
      lastAcked := Plus(outRing.begin, -1);
      var offset := 0;
      assert SkipAcked(t, bitmap, 0, lastAcked);
      hide SkipAcked, BasicFields, Wrap;
      while offset < |bitmap|
        invariant 0 <= offset <= |bitmap|
        invariant outPos == Wrap(t.begin + 8 * offset + 1) && SkipAcked(t, bitmap, 8 * offset, lastAcked)
      {
        var val := bitmap[offset];
        var i := 7;
        while i >= 0
          invariant -1 <= i <= 7
          invariant outPos == Wrap(t.begin + (8 * offset + 7 - i) + 1)
          invariant SkipAcked(t, bitmap, 8 * offset + 7 - i, lastAcked)
        {
          ghost var j := 8 * offset + 7 - i;
          BitOfByte(bitmap, offset, i);
          lastAcked := SkipAckBit(t, bitmap, j, BitOf(val, i), outPos, lastAcked);
          PlusWrap(t.begin + j + 1, 1);
          outPos := Plus(outPos, 1);
          i := i - 1;
        }
        offset := offset + 1;
      }
    }

    /** What holds after the skipped buffers before window index `m` have been made due. */
    ghost predicate Rushed(t: TxState, bitmap: seq<byte>, last: nat, m: nat, rushed: bool)
      requires m <= |t.window|
      reads this, outBuffers, outRing
    {
      && s == t.(window := Rushes(t.window, bitmap, last, m), nextToSend := nextToSend)
      && var first := FirstNacked(t.window, bitmap, last, 0);
      && rushed == (first.Some? && first.value < m)
      && nextToSend == (if rushed then Wrap(t.begin + first.value) else t.nextToSend)
      && Represents(outBuffers[..], s) && PointsTo(outBuffers[..], current, s) && BasicFields()
    }

    /** One round of the loop that rushes the re-delivery of skipped packets. */
    method RushOne(ghost t: TxState, ghost bitmap: seq<byte>, ghost last: nat, ghost m: nat, pos: SeqNum, before: bool)
      returns (rushed: bool)
      requires m < last < |t.window| <= t.capacity && pos == Wrap(t.begin + m)
      requires forall k :: 0 <= k < |t.window| ==> t.window[k].Valid()
      requires Rushed(t, bitmap, last, m, before)
      modifies outBuffers, `s, `nextToSend
      ensures Rushed(t, bitmap, last, m + 1, rushed)
    {
      hide Represents, PointsTo, BitmapBit;
      rushed := before;
      RushesStep(t.window, bitmap, last, m);
      FirstNackedStep(t.window, bitmap, last, m);
      hide Rushes, FirstNacked, Nacked;
      SlotHolds(outBuffers[..], s, t.begin + m);
      var b := outBuffers[outRing.OffsetFor(pos, t.begin + m)];
      assert b == s.window[m];
      if !b.acked && b.sendCounter == 1 {
        Decorate(m, pos, b.Rush());
        rushed := true;
        if !before {
          nextToSend := pos;
          SameSlots(outBuffers[..], s, s.(nextToSend := pos));
          SamePointer(outBuffers[..], current, s, s.(nextToSend := pos));
          s := s.(nextToSend := pos);
        }
      }
    }

    /** The loop that rushes the re-delivery of skipped packets. */
    method RushSkipped(ghost t: TxState, ghost bitmap: seq<byte>, ghost last: nat, lastAcked: SeqNum)
      returns (rushed: bool)
      requires last < |t.window| <= t.capacity <= MAX_CAPACITY
      requires forall k :: 0 <= k < |t.window| ==> t.window[k].Valid()
      requires Rushed(t, bitmap, last, 0, false) && lastAcked == Wrap(t.begin + if last > 0 then last else -1)
      modifies outBuffers, `s, `nextToSend
      ensures Rushed(t, bitmap, last, last, rushed)
    {
      hide Represents, PointsTo, Rushes, FirstNacked;
      rushed := false;
      var isIn := outRing.Contains(lastAcked, t.begin + if last > 0 then last else -1);
      var pos := outRing.begin;
      assert isIn <==> last > 0;
      assert pos == Wrap(t.begin);
      hide Rushed, BasicFields;
      if isIn {
        ghost var m := 0;
        while pos != lastAcked
          invariant 0 <= m <= last && pos == Wrap(t.begin + m) && Rushed(t, bitmap, last, m, rushed)
          decreases last - m
        {
          OrderExact(t.begin + m, t.begin + last);
          rushed := RushOne(t, bitmap, last, m, pos, rushed);
          PlusWrap(t.begin + m, 1);
          pos, m := Plus(pos, 1), m + 1;
        }
        OrderExact(t.begin + m, t.begin + last);
      }
    }

    /** The bitmap is applied and skipped packets are rushed. */
    method ApplyAckBitmap(bitmap: seq<byte>) returns (rushed: bool)
      requires Valid() && s.window != [] && |bitmap| <= MAX_PAYLOAD
      modifies outBuffers, `s, `nextToSend
      ensures Valid()
      ensures s == ApplyBitmap(old(s), bitmap).next && rushed == ApplyBitmap(old(s), bitmap).rushed
    {
      hide WellFormed, Represents, PointsTo, Acks, LastIndex, Rushes, FirstNacked, LastBit;
      ghost var t := s;
      WindowIsNear(t);
      ValidWindow(t);
      ApplyBitmapKeeps(t, bitmap);
      hide ApplyBitmap;
      ghost var last := LastBit(bitmap, |t.window| - 1);
      var lastAcked := ApplySkipAcks(bitmap);
      AllBits(t.window, bitmap);
      assert Rushed(t, bitmap, last, 0, false);
      hide SkipAcked, Rushed;
      rushed := RushSkipped(t, bitmap, last, lastAcked);
      RushedIsMarked(t, bitmap, last, last, rushed);
    }

    /** All skipped buffers have been handled. */
    lemma RushedIsMarked(t: TxState, bitmap: seq<byte>, last: nat, m: nat, rushed: bool)
      requires t.window != [] && last == LastBit(bitmap, |t.window| - 1) && m == last
      requires Rushed(t, bitmap, last, m, rushed)
      ensures s == ApplyBitmap(t, bitmap).next && rushed == ApplyBitmap(t, bitmap).rushed
      ensures Represents(outBuffers[..], s) && PointsTo(outBuffers[..], current, s) && BasicFields()
    {
      RushesAll(t.window, bitmap, last);
      var first := FirstNacked(t.window, bitmap, last, 0);
      assert first.Some? ==> first.value < last;
      hide Represents, PointsTo, Rushes, Marked, FirstNacked, LastBit;
    }

    method Ack(control: bool, id: nat, bitmap: seq<byte>) returns (rushed: bool)
      requires Valid() && |bitmap| <= MAX_PAYLOAD
      modifies this, outBuffers, outRing
      ensures Valid()
      ensures var r := Transmission.Ack(old(s), control, id, bitmap); s == r.next && rushed == r.rushed
    {
      hide WellFormed, Represents, PointsTo, PopFront, ApplyBitmap, Restore, Wrap, Less;
      rushed := false;
      if state != Connected || control == controlBit { return; }
      ghost var s0 := s;
      WindowIsNear(s0);
      var seqNum := outRing.RestorePosHighBits(id);
      ghost var p := Restore(s0.begin, id);
      OrderExact(s0.End(), p);
      if Less(outRing.end, seqNum) { return; }
      ghost var n := if p > s0.begin then p - s0.begin else 0;
      ghost var m := 0;
      PopNone(s0);
      while Less(outRing.begin, seqNum) && !outRing.Empty()
        invariant Valid() && 0 <= m <= n && s == PopFront(s0, m)
        invariant s.state == Connected && s.begin == s0.begin + m && s.End() >= s0.End()
        invariant m < n ==> s.window != []
        decreases n - m
      {
        OrderExact(s0.begin + m, p);
        PopAgain(s0, m);
        PopOne();
        m := m + 1;
      }
      OrderExact(s0.begin + m, p);
      assert m == n;
      if outRing.Empty() {
        if endOfStream { Reset(); }
        return;
      }
      rushed := ApplyAckBitmap(bitmap);
    }

    method UpdateRecvHimark(control: bool, id: nat) returns (accepted: bool)
      requires Valid()
      modifies `recvHimark, `s
      ensures Valid()
      ensures var r := Transmission.UpdateRecvHimark(old(s), control, id); s == r.next && accepted == r.accepted
    {
      hide Represents, PointsTo, BufferOk, Restore;
      accepted := false;
      if state != Connected || control == controlBit { return; }
      var h := outRing.RestorePosHighBits(id);
      ghost var p := Restore(s.begin, id);
      OrderExact(p, s.himark);
      OrderExact(p, s.End() + s.peerSize);
      PlusWrap(s.End(), s.peerSize);
      if Less(h, recvHimark) || Less(Plus(outRing.end, peerReceiveBufferSize), h) { return; }
      SameSlots(outBuffers[..], s, s.(himark := p));
      SamePointer(outBuffers[..], current, s, s.(himark := p));
      recvHimark := outRing.RestorePosHighBits(id);
      s := s.(himark := p);
      accepted := true;
    }

    // ----- connection state -----

    /** Empties the window, as `reset`, `init` and `setBroken` begin. */
    method PopAll()
      requires outRing.Valid()
      modifies outRing
      ensures outRing.Valid() && outRing.lo == outRing.hi == old(outRing.hi)
    {
      while !outRing.Empty()
        invariant outRing.Valid() && outRing.hi == old(outRing.hi)
        decreases outRing.hi - outRing.lo
      {
        var popped := outRing.Pop();
      }
    }

    method Reset()
      requires Valid()
      modifies this, outRing
      ensures Valid() && s == Transmission.Reset(old(s))
    {
      ResetKeeps(s);
      EmptySlots(outBuffers[..], s, Transmission.Reset(s));
      hide WellFormed, Represents;
      PopAll();
      endOfStream, state, current, hasPendingEof := false, Idle, -1, false;
      s := Transmission.Reset(s);
    }

    method Init(start: SeqNum)
      requires Valid()
      modifies this, outRing
      ensures Valid() && s == Transmission.Init(old(s), start)
    {
      InitKeeps(s, start);
      EmptySlots(outBuffers[..], s, Transmission.Init(s, start));
      hide WellFormed, Represents;
      PopAll();
      outRing.Reset(start);
      state, endOfStream, current, hasPendingEof := Connecting, false, -1, false;
      recvHimark, nextToSend := outRing.begin, outRing.begin;
      s := Transmission.Init(s, start);
    }

    method SetConnected(peerSize: nat, control: bool)
      requires Valid() && s.state == Connecting && 1 <= peerSize <= MAX_CAPACITY
      modifies this
      ensures Valid() && s == Transmission.SetConnected(old(s), peerSize, control)
    {
      SetConnectedKeeps(s, peerSize, control);
      ghost var t := Transmission.SetConnected(s, peerSize, control);
      hide WellFormed, Represents, PointsTo;
      SameSlots(outBuffers[..], s, t);
      SamePointer(outBuffers[..], current, s, t);
      PlusWrap(s.begin, peerSize);
      state, peerReceiveBufferSize, controlBit := Connected, peerSize, control;
      recvHimark := Plus(outRing.begin, peerSize);
      s := t;
    }

    method SetBroken()
      requires Valid()
      modifies this, outRing
      ensures Valid() && s == Transmission.SetBroken(old(s))
    {
      ghost var t := Transmission.SetBroken(s);
      SetBrokenKeeps(s);
      EmptySlots(outBuffers[..], s, t);
      BrokenPointer(outBuffers[..], current, s);
      hide WellFormed, Represents, PointsTo;
      PopAll();
      state := Broken;
      s := t;
    }
  }

  // ----- one write, on the slots -----

  lemma CurrentSlot(slots: seq<OutBuffer>, current: int, s: TxState)
    requires Represents(slots, s) && PointsTo(slots, current, s) && s.cursor != NoBuffer
    ensures 0 <= current < |slots| && slots[current].Valid()
  {
  }

  lemma CurrentIsNull(slots: seq<OutBuffer>, current: int, s: TxState)
    requires Represents(slots, s) && PointsTo(slots, current, s)
    ensures current == -1 <==> s.cursor == NoBuffer
  {
  }

  lemma WriteKeepsShape(s: TxState, data: seq<byte>)
    requires s.cursor.LastBuffer? || s.cursor.Detached?
    requires s.cursor.LastBuffer? ==> s.window != [] && Last(s).Valid()
    ensures var t := WriteChunk(s, data).next;
            t == s.(window := t.window, cursor := t.cursor) && |t.window| == |s.window|
  {
  }

  /** The round in terms of the buffer that is current once one has been opened. */
  /** One round of the writing loop. */
  lemma WriteLoopStep(s: TxState, data: seq<byte>)
    requires WellFormed(s) && Writable(s)
    ensures data == [] || (s.cursor == NoBuffer && Blocked(s)) ==> WriteLoop(s, data) == WriteResult(s, 0, false)
    ensures data != [] && !(s.cursor == NoBuffer && Blocked(s)) ==>
              var round := WriteRound(s, data);
              var rest := WriteLoop(round.next, data[round.written..]);
              WriteLoop(s, data) == WriteResult(rest.next, round.written + rest.written, round.ready || rest.ready)
  {
    hide WellFormed, WriteRound;
  }

  lemma RoundShape(s: TxState, data: seq<byte>)
    requires WellFormed(s) && Writable(s) && data != []
    requires s.cursor == NoBuffer ==> !Blocked(s)
    ensures var s1 := if s.cursor == NoBuffer then Push(s) else s;
            && (s1.cursor.LastBuffer? || s1.cursor.Detached?)
            && |s1.window| <= s1.capacity && (s1.cursor.Detached? ==> s1.window == [])
            && (s1.cursor.LastBuffer? ==> s1.window != [] && Last(s1).Valid())
            && WriteRound(s, data) == WriteChunk(s1, data)
  {
    hide WriteChunk;
  }

  lemma CreditFacts(s: TxState)
    requires WellFormed(s) && Writable(s)
    ensures AtMost(Wrap(s.End()), Wrap(s.himark))
    ensures Wrap(s.himark) == Wrap(s.End()) <==> s.himark == s.End()
  {
    hide BufferOk;
    OrderExact(s.End(), s.himark);
  }

  lemma WriteSlots(slots: seq<OutBuffer>, current: int, s: TxState, data: seq<byte>)
    requires Represents(slots, s) && PointsTo(slots, current, s) && 0 <= current < |slots| && slots[current].Valid()
    requires s.cursor.LastBuffer? || s.cursor.Detached?
    requires |s.window| <= s.capacity && (s.cursor.Detached? ==> s.window == [])
    ensures s.cursor.LastBuffer? ==> s.window != [] && Last(s).Valid()
    ensures var b := slots[current];
            var n := if |data| < b.Room() then |data| else b.Room();
            var b' := b.Append(data[..n]);
            var r := WriteChunk(s, data);
            && r.written == n && r.ready == b'.finished
            && Represents(slots[current := b'], r.next)
            && PointsTo(slots[current := b'], if b'.finished then -1 else current, r.next)
  {
    var b := slots[current];
    var n := if |data| < b.Room() then |data| else b.Room();
    var b' := b.Append(data[..n]);
    var r := WriteChunk(s, data);
    if s.cursor.LastBuffer? {
      assert b == s.Buf(s.End() - 1) == Last(s);
      SetSlot(slots, s, s.End() - 1, b');
      SameSlots(slots[current := b'], SetLast(s, b'), r.next);
    }
  }

  lemma FlushSlots(slots: seq<OutBuffer>, current: int, s: TxState)
    requires Represents(slots, s) && PointsTo(slots, current, s) && WellFormed(s)
    ensures var t := Transmission.Flush(s);
            && t == s.(window := t.window) && |t.window| == |s.window|
            && (s.cursor == NoBuffer ==> Represents(slots, t) && PointsTo(slots, current, t))
            && (s.cursor != NoBuffer ==>
                 && 0 <= current < |slots|
                 && Represents(slots[current := slots[current].Flush()], t)
                 && PointsTo(slots[current := slots[current].Flush()], current, t))
  {
    if s.cursor == LastBuffer {
      assert slots[current] == s.Buf(s.End() - 1) == Last(s);
      SetSlot(slots, s, s.End() - 1, Last(s).Flush());
    } else if s.cursor != NoBuffer {
      FlushDetached(slots, slots[current := slots[current].Flush()], current, s);
    }
    hide WellFormed;
  }

  /** Flushing a buffer that has left the window, or that is flushed already, changes nothing that matters. */
  lemma FlushDetached(before: seq<OutBuffer>, after: seq<OutBuffer>, current: nat, s: TxState)
    requires Represents(before, s) && PointsTo(before, current, s) && (s.cursor.Detached? || s.cursor == Sealed)
    requires s.cursor.Detached? ==> s.window == []
    requires current < |before| && after == before[current := before[current].Flush()]
    ensures Represents(after, s) && PointsTo(after, current, s)
  {
    if s.cursor == Sealed {
      assert after == before;
    }
  }

  lemma BrokenToIdle(s: TxState)
    requires WellFormed(s) && s.state == Broken
    ensures WellFormed(s.(state := Idle))
  {
    hide BufferOk;
  }

  lemma SamePointer(slots: seq<OutBuffer>, current: int, s: TxState, t: TxState)
    requires Represents(slots, s) && PointsTo(slots, current, s) && Represents(slots, t)
    requires t.begin == s.begin && |t.window| == |s.window| && t.capacity == s.capacity && t.cursor == s.cursor
    ensures PointsTo(slots, current, t)
  {
  }

  ghost predicate ClosedFrom(f: TxState, goal: TxState) {
    && goal == f.(window := goal.window, eos := true, pendingEof := goal.pendingEof, cursor := goal.cursor)
    && goal.cursor == (if f.cursor == NoBuffer then NoBuffer else Sealed)
    && (|f.window| == f.capacity ==> goal.window == f.window && goal.pendingEof)
    && (|f.window| < f.capacity ==>
        goal.window == f.window + [Eos(f.End(), f.control)] && goal.pendingEof == f.pendingEof)
  }

  lemma CloseShape(f: TxState, goal: TxState)
    requires exists s :: WellFormed(s) && Writable(s) && f == Transmission.Flush(s) && goal == Transmission.Close(s)
    ensures ClosedFrom(f, goal) && |f.window| <= f.capacity
  {
    var s :| WellFormed(s) && Writable(s) && f == Transmission.Flush(s) && goal == Transmission.Close(s);
    hide BufferOk;
  }

  /** When `close` has nothing to do but leave the broken state. */
  lemma CloseCases(s: TxState)
    requires WellFormed(s)
    ensures s.state == Broken ==> Transmission.Close(s) == s.(state := Idle)
    ensures s.state != Broken && (s.eos || s.state == Idle) ==> Transmission.Close(s) == s
  {
  }

  lemma SealedPointer(slots: seq<OutBuffer>, current: int, f: TxState, s: TxState)
    requires Represents(slots, s) && ClosedFrom(f, s)
    requires f.cursor == NoBuffer ==> current == -1
    requires f.cursor != NoBuffer ==> 0 <= current < |slots| && slots[current].flushed
    ensures PointsTo(slots, current, s)
  {
  }

  // ----- sending, on the slots -----

  lemma WindowIsNear(s: TxState)
    requires WellFormed(s)
    ensures |s.window| <= s.capacity <= MAX_CAPACITY && s.begin - 1 <= s.himark <= s.begin + HALF_IDS
  {
    hide BufferOk;
  }

  /** One round of the scan. */
  lemma ScanStep(s: TxState, k: nat, c: Choice)
    requires k <= |s.window|
    ensures k == |s.window| || s.begin + k >= s.himark ==> Scan(s, k, c) == c
    ensures k < |s.window| && s.begin + k < s.himark ==>
              var b := s.window[k];
              && (b.acked ==> Scan(s, k, c) == Scan(s, k + 1, c))
              && (!b.acked && !b.flushed ==> Scan(s, k, c) == c)
              && (!b.acked && b.flushed && (!b.finished || b.expiration == 0) ==> Scan(s, k, c) == Choice(Some(k), 0))
              && (!b.acked && b.flushed && b.finished && b.expiration != 0 ==>
                    Scan(s, k, c) == Scan(s, k + 1, if b.expiration < c.time then Choice(Some(k), b.expiration) else c))
  {
  }

  lemma SendSlots(slots: seq<OutBuffer>, current: int, s: TxState, k: nat, now: nat, draw: nat)
    requires Represents(slots, s) && PointsTo(slots, current, s) && WellFormed(s) && k < |s.window|
             && draw <= RANDOM_MAX
    ensures var t := SendBuffer(s, k, now, draw);
            var after := slots[Slot(s.begin + k, s.capacity) := t.window[k]];
            && t == s.(window := t.window, nextToSend := Wrap(s.begin + k + 1)) && |t.window| == |s.window|
            && s.window[k].Valid() && t.window[k] == s.window[k].Transmitted(now, draw)
            && Represents(after, t) && PointsTo(after, current, t)
  {
    hide WellFormed, SendBuffer, OutBuffer.Transmitted, Represents, PointsTo;
    var t, p := SendBuffer(s, k, now, draw), s.begin + k;
    WindowIsNear(s);
    SlotHolds(slots, s, p);
    SendShape(s, k, now, draw);
    SetSlot(slots, s, p, t.window[k]);
    var after := slots[Slot(p, s.capacity) := t.window[k]];
    SameSlots(after, s.(window := t.window), t);
    SentPointer(slots, after, Slot(p, s.capacity), current, s, t);
  }

  /** A transmission replaces one buffer, with one that is ready to be sent again. */
  lemma SendShape(s: TxState, k: nat, now: nat, draw: nat)
    requires WellFormed(s) && k < |s.window| && draw <= RANDOM_MAX
    ensures var t := SendBuffer(s, k, now, draw);
            && s.window[k].Valid()
            && t == s.(window := s.window[k := s.window[k].Transmitted(now, draw)], nextToSend := Wrap(s.begin + k + 1))
            && t.window[k].Valid() && t.window[k].flushed && !s.cursor.Detached?
  {
    assert BufferOk(s.window[k]);
    hide OutBuffer.Transmitted;
  }

  lemma SentPointer(slots: seq<OutBuffer>, after: seq<OutBuffer>, i: nat, current: int, s: TxState, t: TxState)
    requires Represents(slots, s) && PointsTo(slots, current, s) && Represents(after, t) && !s.cursor.Detached?
    requires i < |slots| == |after| && after == slots[i := after[i]] && after[i].flushed
    requires t == s.(window := t.window, nextToSend := t.nextToSend) && |t.window| == |s.window|
    ensures PointsTo(after, current, t)
  {
    hide Represents;
  }

  lemma DistanceRestores(x: SeqNum, b: int)
    ensures x == Wrap(b + (x - b) % 0x1_0000)
  {
    assert b + (x - b) % 0x1_0000 == x - 0x1_0000 * ((x - b) / 0x1_0000);
  }

  function StaleSent(s: TxState, slots: seq<OutBuffer>, current: int, next: SeqNum): TxState
    requires s.cursor.Detached? ==> 0 <= current < |slots| && slots[current].Valid()
  {
    s.(nextToSend := next, cursor := if s.cursor.Detached? then Detached(slots[current].Room()) else s.cursor)
  }

  lemma StaleSlots(before: seq<OutBuffer>, after: seq<OutBuffer>, i: nat, current: int, s: TxState, next: SeqNum)
    requires WellFormed(s) && s.window == [] && Represents(before, s) && PointsTo(before, current, s)
    requires i < |before| && |after| == |before| && after == before[i := after[i]] && after[i].Valid()
             && after[i].flushed
    ensures s.cursor.Detached? ==> 0 <= current < |after| && after[current].Valid()
    ensures var t := StaleSent(s, after, current, next);
            WellFormed(t) && Represents(after, t) && PointsTo(after, current, t)
  {
  }

  /** A buffer that went out for the first time, with the bytes it had. */
  predicate Resent(b: OutBuffer, c: OutBuffer, now: nat) {
    c.Bytes() == b.Bytes() && c.finished && c.sendCounter == b.sendCounter + 1 && c.expiration > now
  }

  lemma SlotHolds(slots: seq<OutBuffer>, s: TxState, p: int)
    requires Represents(slots, s)
    ensures |slots| == s.capacity > 0
    ensures s.begin <= p < s.End() ==> slots[Slot(p, s.capacity)] == s.Buf(p)
    ensures slots[Slot(p, s.capacity)].Valid()
  {
  }

  lemma SendsFast(s: TxState, k: nat, now: nat, draw: nat, micros: int)
    requires WellFormed(s) && draw <= RANDOM_MAX && s.state == Connected
    requires k == (s.nextToSend - s.begin) % 0x1_0000 && k < |s.window| && FreshToSend(s.window[k])
    ensures Send(s, now, draw, micros) == SendResult(SendBuffer(s, k, now, draw), Some(k), 0)
  {
    hide WellFormed, SendBuffer;
  }

  lemma SendsDue(s: TxState, now: nat, draw: nat, micros: int)
    requires WellFormed(s) && draw <= RANDOM_MAX && s.state == Connected
    requires FastIndex(s).Some? ==> !FreshToSend(s.window[FastIndex(s).value])
    ensures var c := Fallback(s);
            Send(s, now, draw, micros) ==
              if c.index.None? then SendResult(s, None, micros)
              else if c.time > now then SendResult(s, None, if micros < c.time - now then micros else c.time - now)
              else SendResult(SendBuffer(s, c.index.value, now, draw), c.index, 0)
  {
    hide WellFormed, SendBuffer, Fallback, FreshToSend;
  }

  // ----- acknowledgements, on the slots -----

  /** The bits of a bitmap, byte by byte from the highest. */
  lemma BitOfByte(bitmap: seq<byte>, offset: nat, i: nat)
    requires offset < |bitmap| && i < 8
    ensures BitmapBit(bitmap, 8 * offset + 7 - i) == BitOf(bitmap[offset], i)
  {
    var j := 8 * offset + 7 - i;
    assert j / 8 == offset && j % 8 == 7 - i;
  }

  lemma PopOneShape(s: TxState)
    requires WellFormed(s) && s.state == Connected && s.window != []
    ensures var t := PopFront(s, 1);
            && t == s.(begin := s.begin + 1, window := t.window, pendingEof := false, cursor := t.cursor)
            && t.window == s.window[1..] + (if s.pendingEof then [Eos(s.End(), s.control)] else [])
            && |s.window| <= s.capacity
            && t.cursor == (if s.cursor == LastBuffer && |s.window| == 1 then Detached(Last(s).Room()) else s.cursor)
            && (s.pendingEof ==> s.cursor == NoBuffer || s.cursor == Sealed)
  {
    hide BufferOk;
  }

  lemma PopOnePointer(slots: seq<OutBuffer>, current: int, s: TxState)
    requires Represents(slots, s) && PointsTo(slots, current, s) && s.window != [] && s.cursor == LastBuffer
    ensures 0 <= current < |slots| && slots[current] == Last(s)
  {
  }

  lemma PoppedPointer(before: seq<OutBuffer>, after: seq<OutBuffer>, current: int, s: TxState, t: TxState)
    requires Represents(before, s) && PointsTo(before, current, s) && Represents(after, t) && s.window != []
    requires WellFormed(s) && s.state == Connected && t == PopFront(s, 1)
    requires forall i :: 0 <= i < |after| ==> |before| == |after| && (after[i] == before[i] || after[i].flushed)
    requires !s.pendingEof ==> after == before
    ensures PointsTo(after, current, t)
  {
    PopOneShape(s);
    if s.cursor == LastBuffer {
      PopOnePointer(before, current, s);
    }
    hide WellFormed, PopFront;
  }

  /** The buffer after its flags, but neither its content nor its readiness, have changed. */
  ghost predicate Decorated(a: OutBuffer, b: OutBuffer) {
    b == a.(acked := b.acked, expiration := b.expiration) && a.Valid()
  }

  lemma DecorateSlots(slots: seq<OutBuffer>, current: int, s: TxState, k: nat, b: OutBuffer)
    requires Represents(slots, s) && PointsTo(slots, current, s) && k < |s.window| <= s.capacity
    requires Decorated(s.window[k], b)
    ensures var t := s.(window := s.window[k := b]);
            var after := slots[Slot(s.begin + k, s.capacity) := b];
            Represents(after, t) && PointsTo(after, current, t)
  {
    var p := s.begin + k;
    assert slots[Slot(p, s.capacity)] == s.Buf(p);
    SetSlot(slots, s, p, b);
  }

  /** The window after the first `j` bits of the bitmap have been applied. */
  function Acks(w: seq<OutBuffer>, bitmap: seq<byte>, j: nat): (r: seq<OutBuffer>)
    ensures |r| == |w|
    ensures forall k :: 0 <= k < |w| ==> r[k] == if 0 < k <= j && BitmapBit(bitmap, k - 1) then w[k].Ack() else w[k]
  {
    seq(|w|, k requires 0 <= k < |w| => if 0 < k <= j && BitmapBit(bitmap, k - 1) then w[k].Ack() else w[k])
  }

  /** The last window index acknowledged by the first `j` bits, or -1. */
  function LastIndex(bitmap: seq<byte>, n: nat, j: nat): int
    requires n > 0
  {
    var r := LastBit(bitmap, if j < n then j else n - 1);
    if r > 0 then r else -1
  }

  lemma AcksNone(w: seq<OutBuffer>, bitmap: seq<byte>)
    requires |w| > 0
    ensures Acks(w, bitmap, 0) == w && LastIndex(bitmap, |w|, 0) == -1
  {
  }

  lemma AcksStep(w: seq<OutBuffer>, bitmap: seq<byte>, j: nat)
    requires |w| > 0
    ensures var hit := j + 1 < |w| && BitmapBit(bitmap, j);
            && Acks(w, bitmap, j + 1) == (if hit then Acks(w, bitmap, j)[j + 1 := w[j + 1].Ack()] else Acks(w,
                bitmap, j))
            && LastIndex(bitmap, |w|, j + 1) == (if hit then j + 1 else LastIndex(bitmap, |w|, j))
            && (hit ==> Acks(w, bitmap, j)[j + 1] == w[j + 1])
  {
    hide BitmapBit;
    var a, b := Acks(w, bitmap, j), Acks(w, bitmap, j + 1);
    if j + 1 < |w| && BitmapBit(bitmap, j) {
      assert b == a[j + 1 := w[j + 1].Ack()];
    } else {
      assert b == a;
    }
  }

  lemma ValidWindow(s: TxState)
    requires WellFormed(s)
    ensures forall k :: 0 <= k < |s.window| ==> s.window[k].Valid()
  {
    assert forall k :: 0 <= k < |s.window| ==> BufferOk(s.window[k]);
  }

  /** The window with the whole bitmap applied and the skipped buffers before index `m` made due. */
  function Rushes(w: seq<OutBuffer>, bitmap: seq<byte>, last: nat, m: nat): (r: seq<OutBuffer>)
    ensures |r| == |w|
    ensures forall k :: 0 <= k < |w| ==>
              r[k] == (var b := if AckedAt(w, bitmap, k) then w[k].Ack() else w[k];
                       if k < m && Nacked(w, bitmap, last, k) then b.Rush() else b)
  {
    seq(|w|, k requires 0 <= k < |w| =>
      var b := if AckedAt(w, bitmap, k) then w[k].Ack() else w[k];
      if k < m && Nacked(w, bitmap, last, k) then b.Rush() else b)
  }

  lemma RushesStep(w: seq<OutBuffer>, bitmap: seq<byte>, last: nat, m: nat)
    requires m < |w| && w[m].Valid() && m < last
    ensures var a := Rushes(w, bitmap, last, m);
            && Rushes(w, bitmap, last, m + 1) == (if Nacked(w, bitmap, last, m) then a[m := a[m].Rush()] else a)
            && Nacked(w, bitmap, last, m) == (!a[m].acked && a[m].sendCounter == 1)
            && Decorated(a[m], a[m].Rush())
  {
    hide BitmapBit;
    var a, b := Rushes(w, bitmap, last, m), Rushes(w, bitmap, last, m + 1);
    assert a[m] == if AckedAt(w, bitmap, m) then w[m].Ack() else w[m];
    if Nacked(w, bitmap, last, m) {
      assert b == a[m := a[m].Rush()];
    } else {
      assert b == a;
    }
  }

  lemma FirstNackedStep(w: seq<OutBuffer>, bitmap: seq<byte>, last: nat, m: nat)
    requires m < |w|
    ensures var first := FirstNacked(w, bitmap, last, 0);
            && (first.Some? && first.value < m + 1 <==> (first.Some? && first.value < m) || Nacked(w, bitmap, last, m))
            && (!(first.Some? && first.value < m) && Nacked(w, bitmap, last, m) ==> first == Some(m))
  {
    hide Nacked;
    var first := FirstNacked(w, bitmap, last, 0);
    hide FirstNacked;
  }

  lemma RushesAll(w: seq<OutBuffer>, bitmap: seq<byte>, last: nat)
    ensures Rushes(w, bitmap, last, last) == Marked(w, bitmap, last)
  {
    hide BitmapBit;
    var a, b := Rushes(w, bitmap, last, last), Marked(w, bitmap, last);
    forall k | 0 <= k < |w| ensures a[k] == b[k] {
    }
  }

  /** After all bits have been read, the window is acknowledged as the bitmap says. */
  lemma AllBits(w: seq<OutBuffer>, bitmap: seq<byte>)
    requires w != []
    ensures var last := LastBit(bitmap, |w| - 1);
            && Acks(w, bitmap, 8 * |bitmap|) == Rushes(w, bitmap, last, 0)
            && LastIndex(bitmap, |w|, 8 * |bitmap|) == if last > 0 then last else -1
  {
    var n := 8 * |bitmap|;
    forall j: nat | j >= n ensures !BitmapBit(bitmap, j) {
      assert j / 8 >= |bitmap|;
    }
    hide BitmapBit;
    var last := LastBit(bitmap, |w| - 1);
    var a, b := Acks(w, bitmap, n), Rushes(w, bitmap, last, 0);
    forall k | 0 <= k < |w| ensures a[k] == b[k] {
      if k > n { assert !BitmapBit(bitmap, k - 1); }
      if w[k].acked { assert w[k].Ack() == w[k]; }
    }
    if n < |w| {
      LastBitCut(bitmap, n, |w| - 1);
    }
  }

  lemma {:induction false} LastBitCut(bitmap: seq<byte>, n: nat, k: nat)
    requires n <= k && forall j: nat :: j >= n ==> !BitmapBit(bitmap, j)
    ensures LastBit(bitmap, k) == LastBit(bitmap, n)
    decreases k
  {
    if n < k {
      assert !BitmapBit(bitmap, k - 1);
      LastBitCut(bitmap, n, k - 1);
    }
  }

  lemma PopNone(s: TxState)
    requires WellFormed(s) && s.state == Connected
    ensures PopFront(s, 0) == s
  {
  }

  lemma PopAgain(s: TxState, m: nat)
    requires WellFormed(s) && s.state == Connected && m < |s.window|
    ensures var t := PopFront(s, m);
            && WellFormed(t) && t.state == Connected && t.window != []
            && PopFront(t, 1) == PopFront(s, m + 1)
            && PopFront(s, m + 1).state == Connected && PopFront(s, m + 1).begin == s.begin + m + 1
            && PopFront(s, m + 1).End() >= s.End() && (m + 1 < |s.window| ==> PopFront(s, m + 1).window != [])
  {
    if s.pendingEof { PendingCursor(s); }
    hide WellFormed, Eos, OutBuffer.Room;
    PopFrontKeeps(s, m);
    var t := PopFront(s, m);
    if m > 0 {
      var tail := if s.pendingEof then [Eos(s.End(), s.control)] else [];
      PopTwice(s.window, tail, m);
      assert !s.pendingEof ==> t.window[|t.window| - 1] == s.window[|s.window| - 1];
    }
  }

  lemma PendingCursor(s: TxState)
    requires WellFormed(s) && s.pendingEof
    ensures s.cursor != LastBuffer
  {
  }

  lemma PopTwice(w: seq<OutBuffer>, tail: seq<OutBuffer>, m: nat)
    requires m < |w|
    ensures (w[m..] + tail)[1..] + [] == w[m + 1..] + tail
  {
  }

  /** An empty window is represented by any slots. */
  lemma EmptySlots(slots: seq<OutBuffer>, s: TxState, t: TxState)
    requires Represents(slots, s) && t.window == [] && t.capacity == s.capacity
    ensures Represents(slots, t)
  {
  }

  lemma BrokenPointer(slots: seq<OutBuffer>, current: int, s: TxState)
    requires Represents(slots, s) && PointsTo(slots, current, s) && WellFormed(s)
             && Represents(slots, Transmission.SetBroken(s))
    ensures PointsTo(slots, current, Transmission.SetBroken(s))
  {
    if s.cursor == LastBuffer {
      assert slots[current] == s.Buf(s.End() - 1) == Last(s);
    }
    hide WellFormed;
  }
}
