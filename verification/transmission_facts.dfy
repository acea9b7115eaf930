/** What the transmitter's operations keep of the packets already queued.

`Evolves` relates the send window before and after an operation: positions are
only dropped at the front and added at the end, headers never change, payloads
only grow, and a finished packet is frozen.
*/
module TransmissionFacts {
  import opened Basics
  import opened RingBuffers
  import opened Protocol
  import opened OutBuffers
  import opened Transmission

  /** The content of a packet, apart from its header. */
  datatype Pkt = Pkt(payload: seq<byte>, fin: bool)

  function PktOf(b: OutBuffer): Pkt { Pkt(b.payload, b.IsFin()) }

  function PktsOf(w: seq<OutBuffer>): (r: seq<Pkt>)
    ensures |r| == |w|
    ensures forall k :: 0 <= k < |w| ==> r[k] == PktOf(w[k])
  {
    seq(|w|, k requires 0 <= k < |w| => PktOf(w[k]))
  }

  /** The payloads of a run of packets, in order. */
  function Bytes(ps: seq<Pkt>): seq<byte> {
    if ps == [] then [] else Bytes(ps[..|ps| - 1]) + ps[|ps| - 1].payload
  }

  lemma {:induction false} BytesConcat(a: seq<Pkt>, b: seq<Pkt>)
    ensures Bytes(a + b) == Bytes(a) + Bytes(b)
    decreases |b|
  {
    if b == [] {
      assert a + b == a;
    } else {
      var n := |b| - 1;
      BytesConcat(a, b[..n]);
      assert (a + b)[..|a + b| - 1] == a + b[..n];
    }
  }

  lemma {:induction false} BytesPrefix(a: seq<Pkt>, n: nat)
    requires n <= |a|
    ensures Bytes(a[..n]) <= Bytes(a)
  {
    BytesConcat(a[..n], a[n..]);
    assert a == a[..n] + a[n..];
  }

  // ----- evolution of the window -----

  predicate Grows(a: OutBuffer, b: OutBuffer) {
    && b.header == a.header
    && (a.finished ==> b.finished && b.payload == a.payload)
  }

  predicate Evolves(s: TxState, t: TxState) {
    && t.capacity == s.capacity
    && s.begin <= t.begin <= s.End() <= t.End()
    && s.himark <= t.himark
    && forall p :: t.begin <= p < s.End() ==> Grows(s.Buf(p), t.Buf(p))
  }

  /** An operation that removes nothing and acknowledges nothing. */
  predicate Quiet(s: TxState, t: TxState) {
    && t.begin == s.begin && |t.window| >= |s.window|
    && (forall k :: 0 <= k < |s.window| ==> Grows(s.window[k], t.window[k]))
    && (forall k :: 0 <= k < |s.window| ==> t.window[k].acked == s.window[k].acked)
    && (forall k :: |s.window| <= k < |t.window| ==> !t.window[k].acked)
    && (forall k :: |s.window| <= k < |t.window| ==> PacketId(t.window[k].header) == (t.begin + k) % ID_SPACE)
    && t.capacity == s.capacity && t.himark == s.himark
    && t.control == s.control && t.peerSize == s.peerSize
  }

  lemma QuietEvolves(s: TxState, t: TxState)
    requires Quiet(s, t)
    ensures Evolves(s, t)
  {
  }

  lemma QuietTrans(s: TxState, t: TxState, u: TxState)
    requires Quiet(s, t) && Quiet(t, u)
    ensures Quiet(s, u)
  {
    forall k | 0 <= k < |s.window| ensures Grows(s.window[k], u.window[k]) {
      assert Grows(s.window[k], t.window[k]);
      assert Grows(t.window[k], u.window[k]);
    }
    forall k | |s.window| <= k < |u.window|
      ensures !u.window[k].acked && PacketId(u.window[k].header) == (u.begin + k) % ID_SPACE
    {
      if k < |t.window| { assert Grows(t.window[k], u.window[k]); }
    }
  }

  // ----- writing -----

  /** The operation appended exactly the bytes `accepted` to the packets of the window. */
  predicate Wrote(s: TxState, t: TxState, accepted: seq<byte>) {
    && Quiet(s, t)
    && Bytes(PktsOf(t.window)) == Bytes(PktsOf(s.window)) + accepted
    && (forall k :: |s.window| <= k < |t.window| ==> !t.window[k].IsFin())
    && (t.cursor.Detached? ==> t.cursor.room == 0)
    && t.state == s.state && t.eos == s.eos && t.pendingEof == s.pendingEof && t.nextToSend == s.nextToSend
  }

  lemma WroteTrans(s: TxState, t: TxState, u: TxState, a: seq<byte>, b: seq<byte>)
    requires Wrote(s, t, a) && Wrote(t, u, b)
    ensures Wrote(s, u, a + b)
  {
    QuietTrans(s, t, u);
    forall k | |s.window| <= k < |u.window| ensures !u.window[k].IsFin() {
      if k < |t.window| { assert Grows(t.window[k], u.window[k]); }
    }
    hide Quiet, PktsOf, Bytes;
    assert Bytes(PktsOf(s.window)) + a + b == Bytes(PktsOf(s.window)) + (a + b);
  }

  lemma PushWrote(s: TxState, data: seq<byte>)
    requires WellFormed(s) && Writable(s) && data != [] && s.cursor == NoBuffer && !Blocked(s)
    ensures var c := WriteChunk(Push(s), data); Wrote(s, c.next, data[..c.written])
  {
    hide WellFormed, WriteChunk;
    PushShape(s, data);
    var t, n := WriteChunk(Push(s), data).next, |s.window|;
    assert PktsOf(t.window)[..n] == PktsOf(s.window);
  }

  /** A new packet with the first bytes of some data is appended. */
  lemma PushShape(s: TxState, data: seq<byte>)
    requires WellFormed(s) && Writable(s) && data != [] && s.cursor == NoBuffer && !Blocked(s)
    ensures var c := WriteChunk(Push(s), data);
            var n := |s.window|;
            && |c.next.window| == n + 1 && c.next.window == s.window + [c.next.window[n]]
            && c.next.window[n].payload == data[..c.written] && !c.next.window[n].acked && !c.next.window[n].IsFin()
            && PacketId(c.next.window[n].header) == (s.begin + n) % ID_SPACE
            && c.next == s.(window := c.next.window, cursor := c.next.cursor) && !c.next.cursor.Detached?
  {
    hide WellFormed;
    HeaderRoundTrip(s.End(), DATA_PACKET, s.control);
  }

  lemma AppendQuiet(s: TxState, data: seq<byte>)
    requires WellFormed(s) && data != [] && s.cursor == LastBuffer
    ensures Quiet(s, WriteChunk(s, data).next)
  {
    AppendGrows(s, data);
    AppendShape(s, data);
    hide WellFormed, WriteChunk, BufferOk;
  }

  lemma AppendGrows(s: TxState, data: seq<byte>)
    requires WellFormed(s) && data != [] && s.cursor == LastBuffer
    ensures s.window != []
    ensures var t, n := WriteChunk(s, data).next, |s.window| - 1;
            |t.window| == n + 1 && Grows(s.window[n], t.window[n]) && t.window[n].acked == s.window[n].acked
  {
    assert s.window != [] && BufferOk(Last(s));
    hide WellFormed;
  }

  lemma AppendWrote(s: TxState, data: seq<byte>)
    requires WellFormed(s) && data != [] && s.cursor == LastBuffer
    ensures var c := WriteChunk(s, data); Wrote(s, c.next, data[..c.written])
  {
    AppendQuiet(s, data);
    hide Quiet;
    var c := WriteChunk(s, data);
    var n := |s.window| - 1;
    assert c.next.window[n].payload == s.window[n].payload + data[..c.written];
    hide WellFormed;
    assert PktsOf(c.next.window)[..n] == PktsOf(s.window)[..n];
  }

  lemma DetachedWrote(s: TxState, data: seq<byte>)
    requires WellFormed(s) && data != [] && s.cursor == Detached(0)
    ensures var c := WriteChunk(s, data); Wrote(s, c.next, data[..c.written])
  {
    var c := WriteChunk(s, data);
    assert c.written == 0 && c.next == s.(cursor := NoBuffer);
    assert data[..0] == [];
  }

  lemma RoundWrote(s: TxState, data: seq<byte>)
    requires WellFormed(s) && Writable(s) && data != []
    requires s.cursor == NoBuffer ==> !Blocked(s)
    requires s.cursor.Detached? ==> s.cursor.room == 0
    ensures var c := WriteRound(s, data);
            Wrote(s, c.next, data[..c.written]) && (c.next.cursor.Detached? ==> c.next.cursor.room == 0)
  {
    if s.cursor == NoBuffer {
      PushWrote(s, data);
    } else if s.cursor == LastBuffer {
      AppendWrote(s, data);
    } else {
      DetachedWrote(s, data);
    }
    hide Quiet, PktsOf, Bytes;
  }

  lemma WroteNothing(s: TxState)
    requires s.cursor.Detached? ==> s.cursor.room == 0
    ensures Wrote(s, s, [])
  {
  }

  /** What `tryWrite` accepts ends up, in order, in the packets of the window. */
  lemma {:induction false} WriteLoopWrote(s: TxState, data: seq<byte>)
    requires WellFormed(s) && Writable(s)
    requires s.cursor.Detached? ==> s.cursor.room == 0
    ensures var r := WriteLoop(s, data); Wrote(s, r.next, data[..r.written])
    decreases |data|, s.cursor != NoBuffer
  {
    hide WellFormed, Writable, WriteRound, Blocked, Wrote;
    var r := WriteLoop(s, data);
    if data == [] || (s.cursor == NoBuffer && Blocked(s)) {
      WroteNothing(s);
      assert data[..0] == [];
    } else {
      var c := WriteRound(s, data);
      RoundWrote(s, data);
      var data1 := data[c.written..];
      var rest := WriteLoop(c.next, data1);
      assert r.next == rest.next && r.written == c.written + rest.written;
      WriteLoopWrote(c.next, data1);
      WroteTrans(s, c.next, r.next, data[..c.written], data1[..rest.written]);
      assert data[..r.written] == data[..c.written] + data1[..rest.written];
    }
  }

  // ----- the other operations -----

  lemma FlushQuiet(s: TxState)
    requires WellFormed(s)
    ensures Quiet(s, Flush(s)) && PktsOf(Flush(s).window) == PktsOf(s.window)
    ensures Flush(s) == s.(window := Flush(s).window)
  {
  }

  lemma SendBufferQuiet(s: TxState, k: nat, now: nat, draw: nat)
    requires WellFormed(s) && k < |s.window| && draw <= RANDOM_MAX
    ensures var t := SendBuffer(s, k, now, draw);
            Quiet(s, t) && PktsOf(t.window) == PktsOf(s.window) && t.window[k].finished
  {
  }

  /** An acknowledgement removes a prefix of the window and changes no content. */
  lemma PopFrontEvolves(s: TxState, n: nat)
    requires WellFormed(s) && s.state == Connected && n <= |s.window|
    ensures var t := PopFront(s, n);
            && Evolves(s, t)
            && t.begin == s.begin + n && t.himark == s.himark && t.control == s.control && t.peerSize == s.peerSize
            && (forall p :: t.begin <= p < s.End() ==> t.Buf(p) == s.Buf(p))
            && (forall p :: s.End() <= p < t.End() ==>
                 var b := t.Buf(p); b.IsFin() && !b.acked && PacketId(b.header) == p % ID_SPACE)
  {
    hide WellFormed;
    HeaderRoundTrip(s.End(), FIN_PACKET, s.control);
  }

  lemma ApplyBitmapEvolves(s: TxState, bitmap: seq<byte>)
    requires WellFormed(s) && s.window != []
    ensures var t := ApplyBitmap(s, bitmap).next;
            && Evolves(s, t)
            && t == s.(window := t.window, nextToSend := t.nextToSend)
            && |t.window| == |s.window|
            && PktsOf(t.window) == PktsOf(s.window)
            && (forall k :: 0 <= k < |s.window| ==>
                 && t.window[k].header == s.window[k].header && t.window[k].finished == s.window[k].finished
                 && t.window[k].acked == AckedAt(s.window, bitmap, k))
  {
    var t := ApplyBitmap(s, bitmap).next;
    forall k | 0 <= k < |s.window|
      ensures PktOf(t.window[k]) == PktOf(s.window[k])
      ensures t.window[k].acked == AckedAt(s.window, bitmap, k)
      ensures t.window[k].header == s.window[k].header && t.window[k].finished == s.window[k].finished
    {
    }
  }
}
