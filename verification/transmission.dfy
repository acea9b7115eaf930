/** What the transmitter computes (transmitter.h, transmitter.cpp), over values.

Positions are unbounded and the send window is a sequence that starts at the
position `begin`.  The class `Transmitter` implements these functions with 16-bit
sequence numbers and a slot array; the protocol theorems are about these functions.
*/
module Transmission {
  import opened Basics
  import opened SeqNums
  import opened RingBuffers
  import opened Protocol
  import opened OutBuffers

  /** Where `current_out_buffer_` points: nowhere; at the last buffer of the window; at a
      buffer that an ack has already removed; or anywhere, once the stream is closed. */
  datatype Cursor = NoBuffer | LastBuffer | Detached(room: nat) | Sealed

  datatype TxState = TxState(
    capacity: nat,
    begin: int,
    window: seq<OutBuffer>,
    state: LinkState,
    eos: bool,
    cursor: Cursor,
    nextToSend: SeqNum,
    himark: int,
    pendingEof: bool,
    peerSize: nat,
    control: bool)
  {
    function End(): int { begin + |window| }

    /** The buffer at a position of the window. */
    function Buf(p: int): OutBuffer
      requires begin <= p < End()
    {
      window[p - begin]
    }

    predicate Open() { state == Connecting || state == Connected }
  }

  predicate BufferOk(b: OutBuffer) {
    && b.Valid()
    && (b.IsFin() ==> b.payload == [] && b.finished)
    && (!b.IsFin() ==> b.payload != [])
  }

  /** What every sequence of calls keeps. */
  predicate WellFormed(s: TxState) {
    && IsCapacity(s.capacity)
    && |s.window| <= s.capacity
    && s.peerSize <= MAX_CAPACITY
    && (forall k :: 0 <= k < |s.window| ==> BufferOk(s.window[k]))
    && (forall k :: 0 <= k < |s.window| && !s.window[k].flushed ==>
          k == |s.window| - 1 && s.cursor == LastBuffer)
    && s.End() - 1 <= s.himark <= s.begin + HALF_IDS
    && (s.Open() && (!s.eos || s.pendingEof) ==> s.End() <= s.himark)
    && (s.cursor == LastBuffer ==> s.window != [] && !s.window[|s.window| - 1].IsFin() && !s.eos)
    && (s.cursor.Detached? ==> s.window == [] && !s.eos && s.cursor.room <= MAX_PAYLOAD)
    && (s.cursor == Sealed ==> s.eos)
    && (s.pendingEof && s.Open() ==> s.eos && |s.window| == s.capacity)
    && (!s.Open() ==> s.window == [])
    && (s.state == Connecting ==> s.himark == s.begin && |s.window| <= 1 && !s.pendingEof && (s.window != [] ==> s.eos))
  }

  function SetLast(s: TxState, b: OutBuffer): TxState
    requires s.window != []
  {
    s.(window := s.window[|s.window| - 1 := b])
  }

  function Last(s: TxState): OutBuffer
    requires s.window != []
  {
    s.window[|s.window| - 1]
  }

  // ----- writing -----

  datatype WriteResult = WriteResult(next: TxState, written: nat, ready: bool)

  predicate Writable(s: TxState) { !s.eos && s.Open() }

  /** No credit or no free slot is left for another packet. */
  predicate Blocked(s: TxState) { s.himark == s.End() || |s.window| == s.capacity }

  function Push(s: TxState): TxState {
    s.(window := s.window + [Fresh(s.End(), s.control)], cursor := LastBuffer)
  }

  /** `current_out_buffer_->write(...)` and the check whether that buffer is now finished. */
  function WriteChunk(s: TxState, data: seq<byte>): (r: WriteResult)
    requires s.cursor.LastBuffer? || s.cursor.Detached?
    requires s.cursor.LastBuffer? ==> s.window != [] && Last(s).Valid()
    ensures r.written <= |data|
    ensures r.written == 0 && data != [] ==> r.next.cursor == NoBuffer
  {
    var room := if s.cursor.LastBuffer? then Last(s).Room() else s.cursor.room;
    var n := if |data| < room then |data| else room;
    var s1 := if s.cursor.LastBuffer? then SetLast(s, Last(s).Append(data[..n]))
              else s.(cursor := Detached(room - n));
    if n == room then WriteResult(s1.(cursor := NoBuffer), n, true) else WriteResult(s1, n, false)
  }

  /** One round of the loop of `tryWrite`: a new buffer if needed, then as much as fits. */
  function WriteRound(s: TxState, data: seq<byte>): (r: WriteResult)
    requires WellFormed(s) && Writable(s) && data != []
    requires s.cursor == NoBuffer ==> !Blocked(s)
    ensures WellFormed(r.next) && Writable(r.next)
    ensures r.written <= |data|
    ensures r.written == 0 ==> s.cursor != NoBuffer && r.next.cursor == NoBuffer
  {
    WriteChunkKeeps(s, data);
    WriteChunk(if s.cursor == NoBuffer then Push(s) else s, data)
  }

  /** The loop of `tryWrite`. */
  function WriteLoop(s: TxState, data: seq<byte>): (r: WriteResult)
    requires WellFormed(s) && Writable(s)
    ensures r.written <= |data|
    ensures WellFormed(r.next) && Writable(r.next)
    decreases |data|, s.cursor != NoBuffer
  {
    if data == [] || (s.cursor == NoBuffer && Blocked(s)) then WriteResult(s, 0, false)
    else
      var round := WriteRound(s, data);
      var rest := WriteLoop(round.next, data[round.written..]);
      WriteResult(rest.next, round.written + rest.written, round.ready || rest.ready)
  }

  lemma PushKeeps(s: TxState, data: seq<byte>)
    requires WellFormed(s) && Writable(s) && data != [] && s.cursor == NoBuffer && !Blocked(s)
    ensures var chunk := WriteChunk(Push(s), data);
            WellFormed(chunk.next) && Writable(chunk.next) && chunk.written > 0
  {
    var s1 := Push(s);
    var t := WriteChunk(s1, data).next;
    assert forall k :: 0 <= k < |s.window| ==> t.window[k] == s.window[k];
    assert BufferOk(Last(t));
  }

  lemma AppendKeeps(s: TxState, data: seq<byte>)
    requires WellFormed(s) && Writable(s) && data != [] && s.cursor == LastBuffer
    ensures var chunk := WriteChunk(s, data);
            WellFormed(chunk.next) && Writable(chunk.next)
  {
    AppendShape(s, data);
    hide BufferOk, WriteChunk, IsCapacity, OutBuffer.IsFin;
  }

  /** Some of the data goes into the last packet, which is finished when it is full. */
  lemma AppendShape(s: TxState, data: seq<byte>)
    requires WellFormed(s) && data != [] && s.cursor == LastBuffer
    ensures var t := WriteChunk(s, data).next;
            var n := |s.window|;
            && n > 0 && |t.window| == n && t == s.(window := s.window[n - 1 := t.window[n - 1]], cursor := t.cursor)
            && BufferOk(t.window[n - 1]) && !t.window[n - 1].IsFin()
            && (t.cursor == LastBuffer || (t.cursor == NoBuffer && t.window[n - 1].flushed))
  {
    assert s.window != [] && BufferOk(Last(s)) && !Last(s).IsFin();
    hide WellFormed;
  }

  /** One round of the loop keeps the invariant. */
  lemma WriteChunkKeeps(s: TxState, data: seq<byte>)
    requires WellFormed(s) && Writable(s) && data != []
    requires s.cursor == NoBuffer ==> !Blocked(s)
    ensures var s1 := if s.cursor == NoBuffer then Push(s) else s;
            var chunk := WriteChunk(s1, data);
            && WellFormed(chunk.next) && Writable(chunk.next)
            && (s.cursor == NoBuffer ==> chunk.written > 0)
  {
    if s.cursor == NoBuffer {
      PushKeeps(s, data);
      hide WellFormed;
    } else if s.cursor == LastBuffer {
      AppendKeeps(s, data);
      hide WellFormed;
    }
  }

  function TryWrite(s: TxState, data: seq<byte>): (r: WriteResult)
    requires WellFormed(s)
    ensures r.written <= |data| && WellFormed(r.next)
  {
    if data == [] || !Writable(s) then WriteResult(s, 0, false) else WriteLoop(s, data)
  }

  function Flush(s: TxState): TxState
    requires WellFormed(s)
  {
    if s.cursor == LastBuffer then SetLast(s, Last(s).Flush()) else s
  }

  /** `close`: flushes, then queues the final packet or leaves it pending when the window is full. */
  function Close(s: TxState): TxState
    requires WellFormed(s)
  {
    var s0 := if s.state == Broken then s.(state := Idle) else s;
    if s0.eos || s0.state == Idle then s0
    else
      var s1 := Flush(s0);
      var s2 := if |s1.window| == s1.capacity then s1.(pendingEof := true)
                else s1.(window := s1.window + [Eos(s1.End(), s1.control)]);
      s2.(eos := true, cursor := if s1.cursor == NoBuffer then NoBuffer else Sealed)
  }

  // ----- sending -----

  datatype SendResult = SendResult(next: TxState, sent: Option<nat>, nextSendMicros: int)

  /** The window index `next_to_send_` stands for, if it is in the window. */
  function FastIndex(s: TxState): (k: Option<nat>)
    ensures k.Some? ==> k.value < |s.window|
  {
    var d := (s.nextToSend - s.begin) % 0x1_0000;
    if d < |s.window| then Some(d) else None
  }

  /** The empty window whose membership test answers wrongly for `next_to_send_`. */
  predicate Misjudged(s: TxState) {
    s.window == [] && (s.nextToSend - s.begin) % 0x1_0000 == 0x8000
  }

  predicate FreshToSend(b: OutBuffer) { !b.acked && b.flushed && b.sendCounter == 0 }

  datatype Choice = Choice(index: Option<nat>, time: nat)

  /** The scan for the buffer that is due first, from window index `k` on. */
  function Scan(s: TxState, k: nat, best: Choice): Choice
    requires k <= |s.window|
    decreases |s.window| - k
  {
    if k == |s.window| || s.begin + k >= s.himark then best
    else
      var b := s.window[k];
      if b.acked then Scan(s, k + 1, best)
      else if !b.flushed then best
      else if !b.finished || b.expiration == 0 then Choice(Some(k), 0)
      else if b.expiration < best.time then Scan(s, k + 1, Choice(Some(k), b.expiration))
      else Scan(s, k + 1, best)
  }

  lemma {:induction false} ScanInWindow(s: TxState, k: nat, best: Choice)
    requires k <= |s.window|
    requires best.index.Some? ==> best.index.value < k
    ensures var c := Scan(s, k, best); c.index.Some? ==> c.index.value < |s.window|
    decreases |s.window| - k
  {
    if k == |s.window| || s.begin + k >= s.himark {
    } else {
      var b := s.window[k];
      if b.acked || (b.flushed && b.finished && b.expiration != 0 && b.expiration >= best.time) {
        ScanInWindow(s, k + 1, best);
      } else if b.flushed && b.finished && b.expiration != 0 {
        ScanInWindow(s, k + 1, Choice(Some(k), b.expiration));
      }
    }
  }

  /** The lone open buffer that may be closed and sent when nothing else is ready. */
  predicate AutoFlush(s: TxState) {
    |s.window| == 1 && s.begin < s.himark && !s.window[0].finished
  }

  /** Which buffer the fallback sends, and when. */
  function Fallback(s: TxState): (c: Choice)
    ensures c.index.Some? ==> c.index.value < |s.window|
  {
    ScanInWindow(s, 0, Choice(None, UPTIME_MAX));
    var c := Scan(s, 0, Choice(None, UPTIME_MAX));
    if c.index.None? && AutoFlush(s) then Choice(Some(0), 0) else c
  }

  /** Closes buffer `k` if it is still open and marks it sent. */
  function SendBuffer(s: TxState, k: nat, now: nat, draw: nat): TxState
    requires WellFormed(s) && k < |s.window| && draw <= RANDOM_MAX
  {
    s.(window := s.window[k := s.window[k].Transmitted(now, draw)], nextToSend := Wrap(s.begin + k + 1))
  }

  /** `getBufferToSend`: a first transmission in sequence if there is one, otherwise the
      buffer that is due first. */
  function Send(s: TxState, now: nat, draw: nat, nextSendMicros: int): (r: SendResult)
    requires WellFormed(s) && draw <= RANDOM_MAX
    ensures r.sent.Some? ==> r.sent.value < |r.next.window| == |s.window|
  {
    if s.state != Connected then SendResult(s, None, nextSendMicros)
    else
      var fast := FastIndex(s);
      if fast.Some? && FreshToSend(s.window[fast.value]) then
        SendResult(SendBuffer(s, fast.value, now, draw), fast, 0)
      else
        var c := Fallback(s);
        if c.index.None? then SendResult(s, None, nextSendMicros)
        else if c.time > now then
          SendResult(s, None, if nextSendMicros < c.time - now then nextSendMicros else c.time - now)
        else SendResult(SendBuffer(s, c.index.value, now, draw), c.index, 0)
  }

  // ----- acknowledgements and flow control -----

  datatype AckResult = AckResult(next: TxState, rushed: bool)

  function Reset(s: TxState): TxState {
    s.(begin := s.End(), window := [], eos := false, state := Idle, cursor := NoBuffer, pendingEof := false)
  }

  /** Removes the first `n` buffers; a pending final packet moves into the freed space. */
  function PopFront(s: TxState, n: nat): TxState
    requires WellFormed(s) && s.state == Connected && n <= |s.window|
  {
    if n == 0 then s
    else
      s.(begin := s.begin + n,
         window := s.window[n..] + (if s.pendingEof then [Eos(s.End(), s.control)] else []),
         pendingEof := false,
         cursor := if s.cursor == LastBuffer && n == |s.window| then Detached(Last(s).Room()) else s.cursor)
  }

  /** The last index of the window, at most `k`, whose bit is set in the bitmap; 0 if none. */
  function LastBit(bitmap: seq<byte>, k: nat): (r: nat)
    ensures r <= k
    ensures r > 0 ==> BitmapBit(bitmap, r - 1)
    ensures forall i :: r <= i < k ==> !BitmapBit(bitmap, i)
  {
    if k == 0 || BitmapBit(bitmap, k - 1) then k else LastBit(bitmap, k - 1)
  }

  function AckedAt(w: seq<OutBuffer>, bitmap: seq<byte>, k: nat): bool
    requires k < |w|
  {
    w[k].acked || (k > 0 && BitmapBit(bitmap, k - 1))
  }

  /** Buffer `k` was skipped: sent once, and a later one has arrived. */
  function Nacked(w: seq<OutBuffer>, bitmap: seq<byte>, last: nat, k: nat): bool
    requires k < |w|
  {
    k < last && !AckedAt(w, bitmap, k) && w[k].sendCounter == 1
  }

  /** The window with the bits of the bitmap acknowledged and the skipped buffers made due. */
  function Marked(w: seq<OutBuffer>, bitmap: seq<byte>, last: nat): (r: seq<OutBuffer>)
    ensures |r| == |w|
  {
    seq(|w|, k requires 0 <= k < |w| =>
      var b := if AckedAt(w, bitmap, k) then w[k].Ack() else w[k];
      if Nacked(w, bitmap, last, k) then b.Rush() else b)
  }

  /** The first skipped buffer from index `k` on. */
  function FirstNacked(w: seq<OutBuffer>, bitmap: seq<byte>, last: nat, k: nat): (r: Option<nat>)
    requires k <= |w|
    ensures r.Some? ==> k <= r.value < |w| && Nacked(w, bitmap, last, r.value)
    ensures r.Some? ==> forall i :: k <= i < r.value ==> !Nacked(w, bitmap, last, i)
    ensures r.None? ==> forall i :: k <= i < |w| ==> !Nacked(w, bitmap, last, i)
    decreases |w| - k
  {
    if k == |w| then None
    else if Nacked(w, bitmap, last, k) then Some(k)
    else FirstNacked(w, bitmap, last, k + 1)
  }

  function ApplyBitmap(s: TxState, bitmap: seq<byte>): AckResult
    requires s.window != []
  {
    var last := LastBit(bitmap, |s.window| - 1);
    var first := FirstNacked(s.window, bitmap, last, 0);
    AckResult(
      s.(window := Marked(s.window, bitmap, last),
         nextToSend := if first.Some? then Wrap(s.begin + first.value) else s.nextToSend),
      first.Some?)
  }

  /** `ack`: removes everything before the acknowledged position, then applies the skip-acks. */
  function Ack(s: TxState, control: bool, id: nat, bitmap: seq<byte>): AckResult
    requires WellFormed(s)
  {
    var p := Restore(s.begin, id);
    if s.state != Connected || control == s.control || p > s.End() then AckResult(s, false)
    else
      var s1 := PopFront(s, if p > s.begin then p - s.begin else 0);
      if s1.window == [] then AckResult(if s1.eos then Reset(s1) else s1, false)
      else ApplyBitmap(s1, bitmap)
  }

  datatype HimarkResult = HimarkResult(next: TxState, accepted: bool)

  function UpdateRecvHimark(s: TxState, control: bool, id: nat): HimarkResult {
    var h := Restore(s.begin, id);
    if s.state != Connected || control == s.control || h < s.himark || h > s.End() + s.peerSize
    then HimarkResult(s, false)
    else HimarkResult(s.(himark := h), true)
  }

  // ----- connection state -----

  function Init(s: TxState, start: SeqNum): TxState {
    s.(begin := start, window := [], state := Connecting, eos := false, cursor := NoBuffer,
       nextToSend := start, himark := start, pendingEof := false)
  }

  function SetConnected(s: TxState, peerSize: nat, control: bool): TxState {
    s.(state := Connected, peerSize := peerSize, control := control, himark := s.begin + peerSize)
  }

  function SetBroken(s: TxState): TxState
    requires WellFormed(s)
  {
    s.(begin := s.End(), window := [], state := Broken,
       cursor := if s.cursor == LastBuffer then Detached(Last(s).Room()) else s.cursor)
  }

  // ----- every operation keeps the invariant -----

  lemma FlushKeeps(s: TxState)
    requires WellFormed(s)
    ensures WellFormed(Flush(s))
  {
  }

  lemma CloseKeeps(s: TxState)
    requires WellFormed(s)
    ensures WellFormed(Close(s))
  {
    var s0 := if s.state == Broken then s.(state := Idle) else s;
    FlushKeeps(s0);
  }

  lemma SendBufferKeeps(s: TxState, k: nat, now: nat, draw: nat)
    requires WellFormed(s) && k < |s.window| && draw <= RANDOM_MAX
    ensures WellFormed(SendBuffer(s, k, now, draw))
  {
    var b := s.window[k];
    var closed := if b.finished then b else b.Finish();
    var c := closed.MarkSent(now, draw);
    assert c.header == b.header && c.payload == b.payload && c.finished && c.flushed;
    assert BufferOk(c);
  }

  lemma PopFrontKeeps(s: TxState, n: nat)
    requires WellFormed(s) && s.state == Connected && n <= |s.window|
    ensures WellFormed(PopFront(s, n))
  {
    var t := PopFront(s, n);
    if n > 0 {
      assert forall k :: 0 <= k < |s.window| - n ==> t.window[k] == s.window[n + k];
      if s.cursor == LastBuffer && n < |s.window| {
        assert Last(t) == Last(s);
      }
    }
  }

  lemma ApplyBitmapKeeps(s: TxState, bitmap: seq<byte>)
    requires WellFormed(s) && s.window != []
    ensures WellFormed(ApplyBitmap(s, bitmap).next)
  {
    var t := ApplyBitmap(s, bitmap).next;
    forall k | 0 <= k < |t.window|
      ensures BufferOk(t.window[k]) && t.window[k].flushed == s.window[k].flushed
      ensures t.window[k].IsFin() == s.window[k].IsFin()
    {
      assert BufferOk(s.window[k]);
    }
  }

  lemma ResetKeeps(s: TxState)
    requires WellFormed(s)
    ensures WellFormed(Reset(s))
  {
  }

  lemma InitKeeps(s: TxState, start: SeqNum)
    requires WellFormed(s)
    ensures WellFormed(Init(s, start))
  {
    hide BufferOk;
  }

  lemma SetConnectedKeeps(s: TxState, size: nat, control: bool)
    requires WellFormed(s) && s.state == Connecting && 1 <= size <= MAX_CAPACITY
    ensures WellFormed(SetConnected(s, size, control))
  {
    hide BufferOk;
  }

  lemma SetBrokenKeeps(s: TxState)
    requires WellFormed(s)
    ensures WellFormed(SetBroken(s))
  {
    if s.window != [] { assert BufferOk(Last(s)); }
    hide BufferOk;
  }
}
