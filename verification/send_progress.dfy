/** Which packet is sent next: no wedge, and bounded bypass (transmitter.cpp, getBufferToSend). */
module SendProgress {
  import opened Basics
  import opened SeqNums
  import opened RingBuffers
  import opened Protocol
  import opened OutBuffers
  import opened Transmission

  /** When a buffer becomes due. */
  function Due(b: OutBuffer): nat { if b.finished then b.expiration else 0 }

  /** Buffer `k` takes part in the scan: it is unacknowledged, ready, within the credit, and no
      buffer that is not ready comes before it. */
  predicate Candidate(s: TxState, k: nat) {
    && k < |s.window| && s.begin + k < s.himark
    && !s.window[k].acked && s.window[k].flushed
    && forall i :: 0 <= i < k ==> s.window[i].acked || s.window[i].flushed
  }

  /** The scan finds the earliest due time among the candidates. */
  lemma {:induction false} ScanIsMinimal(s: TxState, k: nat, best: Choice)
    requires k <= |s.window|
    requires forall i :: 0 <= i < k ==> s.window[i].acked || s.window[i].flushed
    requires best.index.Some? ==>
             best.index.value < k && Candidate(s, best.index.value) && best.time == Due(s.window[best.index.value])
    requires best.index.None? ==> best.time == UPTIME_MAX
    requires best.time <= UPTIME_MAX
    ensures var c := Scan(s, k, best);
            && c.time <= best.time
            && (best.index.Some? ==> c.index.Some?)
            && (c.index.Some? ==> Candidate(s, c.index.value) && c.time == Due(s.window[c.index.value]))
            && (forall i :: k <= i < |s.window| && Candidate(s, i) && Due(s.window[i]) < UPTIME_MAX ==>
                  c.index.Some? && c.time <= Due(s.window[i]))
    decreases |s.window| - k
  {
    if k == |s.window| || s.begin + k >= s.himark {
    } else {
      var b := s.window[k];
      if b.acked {
        ScanIsMinimal(s, k + 1, best);
      } else if !b.flushed {
      } else if !b.finished || b.expiration == 0 {
        assert Candidate(s, k);
      } else if b.expiration < best.time {
        assert Candidate(s, k);
        ScanIsMinimal(s, k + 1, Choice(Some(k), b.expiration));
      } else {
        ScanIsMinimal(s, k + 1, best);
      }
    }
  }

  lemma FlushedBefore(s: TxState, t: nat)
    requires WellFormed(s) && t < |s.window|
    ensures forall i :: 0 <= i < t ==> s.window[i].flushed
    ensures t < |s.window| - 1 ==> s.window[t].flushed
  {
    hide BufferOk;
  }

  /** No wedge: if the front packet is within the credit, a packet goes out once the front one is
      due; a lone open packet is closed and sent at once. */
  lemma SendsWhenDue(s: TxState, now: nat, draw: nat, micros: int)
    requires WellFormed(s) && s.state == Connected && draw <= RANDOM_MAX && now < UPTIME_MAX
    requires s.window != [] && !s.window[0].acked && s.begin < s.himark && Due(s.window[0]) <= now
    ensures Send(s, now, draw, micros).sent.Some?
  {
    var none := Choice(None, UPTIME_MAX);
    ScanIsMinimal(s, 0, none);
    FlushedBefore(s, 0);
    FrontFacts(s);
    hide WellFormed, SendBuffer;
    var c := Scan(s, 0, none);
    if s.window[0].flushed {
      assert Candidate(s, 0);
    }
  }

  lemma FrontFacts(s: TxState)
    requires WellFormed(s) && s.window != []
    ensures !s.window[0].flushed ==> !s.window[0].finished && |s.window| == 1
  {
    assert BufferOk(s.window[0]);
  }

  /** When the front packet is due, whatever is sent is a first transmission or is due as well. */
  lemma SentIsEligible(s: TxState, t: nat, now: nat, draw: nat, micros: int)
    requires WellFormed(s) && s.state == Connected && draw <= RANDOM_MAX && now < UPTIME_MAX
    requires Waiting(s, t) && Due(s.window[t]) <= now
    ensures var r := Send(s, now, draw, micros);
            && r.sent.Some? && r.sent.value < |s.window|
            && r.next == SendBuffer(s, r.sent.value, now, draw)
            && Eligible(s.window[r.sent.value], Due(s.window[t]))
  {
    var none := Choice(None, UPTIME_MAX);
    ScanIsMinimal(s, 0, none);
    FlushedBefore(s, t);
    ValidOpen(s);
    hide WellFormed, SendBuffer;
    assert Candidate(s, t);
    var c := Scan(s, 0, none);
    assert c.index.Some? && c.time <= Due(s.window[t]);
  }

  lemma ValidOpen(s: TxState)
    requires WellFormed(s)
    ensures forall k :: 0 <= k < |s.window| && !s.window[k].finished ==> s.window[k].sendCounter == 0
  {
    assert forall k :: 0 <= k < |s.window| ==> BufferOk(s.window[k]);
  }

  // ----- bounded bypass -----

  /** A packet that is waiting to be sent again. */
  predicate Waiting(s: TxState, t: nat) {
    && t < |s.window| && s.begin + t < s.himark && !s.window[t].acked && s.window[t].flushed
  }

  /** A buffer that may go out before one that has been due since `e`. */
  predicate Eligible(b: OutBuffer, e: nat) {
    !b.acked && b.flushed && (b.sendCounter == 0 || Due(b) <= e)
  }

  /** How many buffers may go out before one that has been due since `e`. */
  function Competitors(w: seq<OutBuffer>, e: nat): (n: nat)
    ensures n <= |w|
  {
    if w == [] then 0
    else Competitors(w[..|w| - 1], e) + (if Eligible(w[|w| - 1], e) then 1 else 0)
  }

  lemma {:induction false} CompetitorsPositive(w: seq<OutBuffer>, t: nat, e: nat)
    requires t < |w| && Eligible(w[t], e)
    ensures Competitors(w, e) > 0
  {
    if t < |w| - 1 { CompetitorsPositive(w[..|w| - 1], t, e); }
  }

  lemma {:induction false} CompetitorsUpdate(w: seq<OutBuffer>, k: nat, b: OutBuffer, e: nat)
    requires k < |w| && Eligible(w[k], e) && !Eligible(b, e)
    ensures Competitors(w[k := b], e) == Competitors(w, e) - 1
  {
    var n := |w| - 1;
    var v := w[k := b];
    if k < n {
      CompetitorsUpdate(w[..n], k, b, e);
      assert v[..n] == w[..n][k := b];
    } else {
      assert v[..n] == w[..n];
    }
  }

  /** A transmission takes the packet out of the competition, for good. */
  lemma SendShrinks(s: TxState, k: nat, now: nat, draw: nat, e: nat)
    requires WellFormed(s) && k < |s.window| && draw <= RANDOM_MAX && e <= now && Eligible(s.window[k], e)
    ensures Competitors(SendBuffer(s, k, now, draw).window, e) == Competitors(s.window, e) - 1
  {
    var t := SendBuffer(s, k, now, draw);
    assert BufferOk(s.window[k]);
    assert t.window[k].finished && t.window[k].expiration > now && t.window[k].sendCounter > 0;
    assert t.window == s.window[k := t.window[k]];
    hide WellFormed, SendBuffer;
    CompetitorsUpdate(s.window, k, t.window[k], e);
  }

  datatype Call = Call(now: nat, draw: nat)

  predicate CallsAfter(calls: seq<Call>, e: nat) {
    forall i :: 0 <= i < |calls| ==> e <= calls[i].now < UPTIME_MAX && calls[i].draw <= RANDOM_MAX
  }

  /** The index of the first of a series of calls of `getBufferToSend` that sends buffer `t`. */
  function FirstSent(s: TxState, t: nat, calls: seq<Call>): Option<nat>
    requires WellFormed(s) && forall i :: 0 <= i < |calls| ==> calls[i].draw <= RANDOM_MAX
    decreases |calls|
  {
    if calls == [] then None
    else
      var r := Send(s, calls[0].now, calls[0].draw, 0);
      if r.sent == Some(t) then Some(0)
      else
        SendKeeps(s, calls[0].now, calls[0].draw);
        match FirstSent(r.next, t, calls[1..])
        case None => None
        case Some(i) => Some(i + 1)
  }

  lemma SendKeeps(s: TxState, now: nat, draw: nat)
    requires WellFormed(s) && draw <= RANDOM_MAX
    ensures WellFormed(Send(s, now, draw, 0).next)
  {
    hide WellFormed, SendBuffer, Fallback, FastIndex, FreshToSend;
    var r := Send(s, now, draw, 0);
    if r.sent.Some? { SendBufferKeeps(s, r.sent.value, now, draw); }
  }

  /** Bounded bypass: a waiting packet that is due is sent after fewer other transmissions than
      there are packets in the window, however the calls are timed. */
  lemma BoundedBypass(s: TxState, t: nat, calls: seq<Call>)
    requires WellFormed(s) && s.state == Connected && Waiting(s, t) && CallsAfter(calls, Due(s.window[t]))
    requires |calls| >= |s.window|
    ensures var i := FirstSent(s, t, calls); i.Some? && i.value < |s.window|
  {
    BypassCount(s, t, Due(s.window[t]), calls);
  }

  lemma {:induction false} BypassCount(s: TxState, t: nat, e: nat, calls: seq<Call>)
    requires WellFormed(s) && s.state == Connected && Waiting(s, t) && CallsAfter(calls, e) && e == Due(s.window[t])
    requires |calls| >= Competitors(s.window, e)
    ensures var i := FirstSent(s, t, calls); i.Some? && i.value < Competitors(s.window, e)
    decreases |calls|
  {
    hide WellFormed, Competitors;
    CompetitorsPositive(s.window, t, e);
    var now, draw := calls[0].now, calls[0].draw;
    var r := Send(s, now, draw, 0);
    SentIsEligible(s, t, now, draw, 0);
    var k := r.sent.value;
    SendShrinks(s, k, now, draw, e);
    if k != t {
      SendKeeps(s, now, draw);
      SendFrame(s, k, now, draw);
      hide Send, SendBuffer;
      assert CallsAfter(calls[1..], e);
      BypassCount(r.next, t, e, calls[1..]);
    }
  }

  lemma SendFrame(s: TxState, k: nat, now: nat, draw: nat)
    requires WellFormed(s) && k < |s.window| && draw <= RANDOM_MAX
    ensures var t := SendBuffer(s, k, now, draw);
            && t.begin == s.begin && t.himark == s.himark && t.state == s.state && |t.window| == |s.window|
            && forall i :: 0 <= i < |s.window| && i != k ==> t.window[i] == s.window[i]
  {
  }

  // ----- first transmissions -----

  /** A packet that `next_to_send_` points at, ready and never sent, goes out at once, whatever else is due. */
  lemma NextGoesFirst(s: TxState, k: nat, now: nat, draw: nat)
    requires WellFormed(s) && s.state == Connected && draw <= RANDOM_MAX && k < |s.window|
    requires s.nextToSend == Wrap(s.begin + k) && FreshToSend(s.window[k])
    ensures var r := Send(s, now, draw, 0);
            && WellFormed(r.next) && r.sent == Some(k) && |r.next.window| == |s.window|
            && r.next == s.(window := s.window[k := r.next.window[k]], nextToSend := Wrap(s.begin + k + 1))
            && r.next.window[k].sendCounter == 1
  {
    SmallDistance(s, k);
    SendKeeps(s, now, draw);
    assert BufferOk(s.window[k]);
    hide WellFormed, Fallback, OutBuffer.Transmitted;
  }

  lemma SmallDistance(s: TxState, k: nat)
    requires WellFormed(s) && k < |s.window|
    ensures (Wrap(s.begin + k) - s.begin) % 0x1_0000 == k
  {
    assert Wrap(s.begin + k) - s.begin == k - 0x1_0000 * ((s.begin + k) / 0x1_0000);
    hide BufferOk;
  }

  /** New packets go out in sequence, one with each call, whatever retransmissions are due. */
  lemma {:induction false} SendsInSequence(s: TxState, k: nat, t: nat, calls: seq<Call>)
    requires WellFormed(s) && s.state == Connected && s.nextToSend == Wrap(s.begin + k)
    requires k <= t < |s.window| && (forall i :: k <= i <= t ==> FreshToSend(s.window[i]))
    requires |calls| > t - k && forall i :: 0 <= i < |calls| ==> calls[i].draw <= RANDOM_MAX
    ensures FirstSent(s, t, calls) == Some(t - k)
    decreases |calls|
  {
    NextGoesFirst(s, k, calls[0].now, calls[0].draw);
    hide WellFormed, Send, Wrap, FreshToSend;
    if k < t {
      var u := Send(s, calls[0].now, calls[0].draw, 0).next;
      assert forall i :: k < i <= t ==> u.window[i] == s.window[i];
      SendsInSequence(u, k + 1, t, calls[1..]);
    }
  }

  // ----- flushing, closing and waiting -----

  /** A flush makes every buffer of the window ready to be sent, and changes nothing else. */
  lemma FlushExact(s: TxState)
    requires WellFormed(s)
    ensures var t := Flush(s);
            && t == s.(window := t.window) && |t.window| == |s.window|
            && forall k :: 0 <= k < |s.window| ==> t.window[k] == s.window[k].(flushed := true)
  {
    hide BufferOk;
  }

  /** A close makes everything ready to be sent and ends the stream with one empty final packet, which waits for a slot
      if there is none. */
  lemma CloseExact(s: TxState)
    requires WellFormed(s)
    ensures var t := Close(s);
            && (!Writable(s) ==> t == s.(state := if s.state == Broken then Idle else s.state))
            && (Writable(s) ==>
                  && t.eos && t.state == s.state && t.begin == s.begin && t.himark == s.himark
                  && t.pendingEof == (|s.window| == s.capacity)
                  && |t.window| == |s.window| + (if t.pendingEof then 0 else 1)
                  && (forall k :: 0 <= k < |s.window| ==> t.window[k] == s.window[k].(flushed := true))
                  && (!t.pendingEof ==> FinalBuffer(t.window[|s.window|], s.End(), s.control)))
  {
    FlushExact(s);
    FinalOk(s.End(), s.control);
    if Writable(s) { NotPending(s); }
    hide WellFormed, Flush, Eos, FinalBuffer;
  }

  /** A final packet that has not been sent. */
  predicate FinalBuffer(b: OutBuffer, pos: int, control: bool) {
    && b.IsFin() && b.payload == [] && b.finished && b.flushed && !b.acked && b.sendCounter == 0 && Due(b) == 0
    && PacketId(b.header) == pos % ID_SPACE && ControlBit(b.header) == control
  }

  lemma FinalOk(pos: int, control: bool)
    ensures FinalBuffer(Eos(pos, control), pos, control)
  {
    HeaderRoundTrip(pos, FIN_PACKET, control);
  }

  lemma NotPending(s: TxState)
    requires WellFormed(s) && Writable(s)
    ensures !s.pendingEof && |s.window| <= s.capacity
  {
    hide BufferOk;
  }

  /** The delay reported when nothing is sent: the loop wakes by the time the first packet is due, and not earlier
      than it was asked to or a packet is due; after a transmission it goes on at once. */
  lemma NeverSleepsPast(s: TxState, now: nat, draw: nat, micros: int)
    requires WellFormed(s) && s.state == Connected && draw <= RANDOM_MAX
    ensures var r := Send(s, now, draw, micros);
            && (r.sent.Some? ==> r.nextSendMicros == 0)
            && (r.sent.None? ==>
                  && r.nextSendMicros <= micros
                  && (forall k :: 0 <= k < |s.window| && Candidate(s, k) && Due(s.window[k]) < UPTIME_MAX ==>
                        now + r.nextSendMicros <= Due(s.window[k]))
                  && (r.nextSendMicros < micros ==>
                        exists k :: 0 <= k < |s.window| && Candidate(s, k)
                          && Due(s.window[k]) == now + r.nextSendMicros))
  {
    var none := Choice(None, UPTIME_MAX);
    ScanIsMinimal(s, 0, none);
    hide WellFormed, SendBuffer, Scan;
  }
}
