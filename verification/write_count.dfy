/** How many bytes a write accepts (transmitter.cpp, tryWrite). */
module WriteCount {
  import opened Basics
  import opened Protocol
  import opened Transmission

  function Lesser(a: int, b: int): int { if a < b then a else b }

  /** The bytes that the current buffer still takes. */
  function CurrentRoom(s: TxState): nat
    requires WellFormed(s)
  {
    match s.cursor
    case LastBuffer => LastIsValid(s); Last(s).Room()
    case Detached(room) => room
    case _ => 0
  }

  /** The bytes there is room and credit for: the rest of the current buffer, and whole packets for as many free slots
      as the peer has given credit for. */
  function Space(s: TxState): int
    requires WellFormed(s)
  {
    CurrentRoom(s) + MAX_PAYLOAD * Lesser(s.capacity - |s.window|, s.himark - s.End())
  }

  lemma LastIsValid(s: TxState)
    requires WellFormed(s) && s.cursor == LastBuffer
    ensures s.window != [] && Last(s).Valid()
  {
    assert BufferOk(s.window[|s.window| - 1]);
  }

  lemma CreditIsThere(s: TxState)
    requires WellFormed(s) && Writable(s)
    ensures s.End() <= s.himark && |s.window| <= s.capacity && s.cursor != Sealed
  {
    hide BufferOk;
  }

  /** Writing into the last buffer. */
  lemma AppendCount(s: TxState, data: seq<byte>)
    requires WellFormed(s) && Writable(s) && data != [] && s.cursor == LastBuffer
    ensures var c := WriteChunk(s, data);
            && WellFormed(c.next) && Writable(c.next) && c.written == Lesser(|data|, CurrentRoom(s))
            && c.ready == (c.written == CurrentRoom(s))
            && CurrentRoom(c.next) == CurrentRoom(s) - c.written && |c.next.window| == |s.window|
            && c.next.begin == s.begin && c.next.himark == s.himark && c.next.capacity == s.capacity
            && (c.next.cursor == NoBuffer <==> c.ready)
  {
    AppendKeeps(s, data);
    LastIsValid(s);
    hide WellFormed;
  }

  /** Writing into a new buffer. */
  lemma PushCount(s: TxState, data: seq<byte>)
    requires WellFormed(s) && Writable(s) && data != [] && s.cursor == NoBuffer && !Blocked(s)
    ensures var c := WriteChunk(Push(s), data);
            && WellFormed(c.next) && Writable(c.next) && c.written == Lesser(|data|, MAX_PAYLOAD)
            && c.ready == (c.written == MAX_PAYLOAD)
            && CurrentRoom(c.next) == MAX_PAYLOAD - c.written && |c.next.window| == |s.window| + 1
            && c.next.begin == s.begin && c.next.himark == s.himark && c.next.capacity == s.capacity
            && (c.next.cursor == NoBuffer <==> c.ready)
  {
    PushKeeps(s, data);
    hide WellFormed;
  }

  /** Writing into a buffer that has left the window. */
  lemma DetachedCount(s: TxState, data: seq<byte>)
    requires WellFormed(s) && Writable(s) && data != [] && s.cursor.Detached?
    ensures var c := WriteChunk(s, data);
            && WellFormed(c.next) && Writable(c.next) && c.written == Lesser(|data|, CurrentRoom(s))
            && c.ready == (c.written == CurrentRoom(s))
            && CurrentRoom(c.next) == CurrentRoom(s) - c.written && |c.next.window| == |s.window|
            && c.next.begin == s.begin && c.next.himark == s.himark && c.next.capacity == s.capacity
            && (c.next.cursor == NoBuffer <==> c.ready)
  {
    WriteChunkKeeps(s, data);
    hide BufferOk;
  }

  /** One round of the loop uses up as much space as it accepts bytes. */
  lemma RoundCount(s: TxState, data: seq<byte>)
    requires WellFormed(s) && Writable(s) && data != []
    requires s.cursor == NoBuffer ==> s.himark != s.End() && |s.window| != s.capacity
    ensures var r := WriteRound(s, data);
            var first := if s.cursor == NoBuffer then MAX_PAYLOAD else CurrentRoom(s);
            && r.written == Lesser(|data|, first) && Space(r.next) == Space(s) - r.written
            && r.ready == (r.written == first) && (r.next.cursor == NoBuffer <==> r.ready)
  {
    CreditIsThere(s);
    hide WellFormed, WriteChunk, Push, CurrentRoom;
    if s.cursor == NoBuffer {
      RoomOfNone(s);
      PushCount(s, data);
    } else if s.cursor == LastBuffer {
      AppendCount(s, data);
    } else {
      DetachedCount(s, data);
    }
  }

  lemma RoomOfNone(s: TxState)
    requires WellFormed(s) && s.cursor == NoBuffer
    ensures CurrentRoom(s) == 0
  {
  }

  lemma {:induction false} LoopCount(s: TxState, data: seq<byte>)
    requires WellFormed(s) && Writable(s)
    ensures var r := WriteLoop(s, data);
            && r.written == Lesser(|data|, Space(s)) && Space(r.next) == Space(s) - r.written
    decreases |data|, s.cursor != NoBuffer
  {
    CreditIsThere(s);
    RoomIsNat(s);
    if data == [] {
    } else if s.cursor == NoBuffer && (s.himark == s.End() || |s.window| == s.capacity) {
      RoomOfNone(s);
    } else {
      RoundCount(s, data);
      var round := WriteRound(s, data);
      hide WellFormed, WriteRound, Space;
      LoopCount(round.next, data[round.written..]);
    }
  }

  lemma RoomIsNat(s: TxState)
    requires WellFormed(s) && Writable(s)
    ensures 0 <= CurrentRoom(s) <= Space(s)
  {
    CreditIsThere(s);
    hide WellFormed, CurrentRoom;
  }

  /** A write accepts exactly as many bytes as there are, or as there is space for; it uses up that much, so that a
      write which does not take everything leaves no room and either no slot or no credit. */
  lemma WriteExact(s: TxState, data: seq<byte>)
    requires WellFormed(s) && Writable(s)
    ensures var r := TryWrite(s, data);
            && r.written == Lesser(|data|, Space(s))
            && Space(r.next) == Space(s) - r.written
            && (r.written < |data| ==>
                  CurrentRoom(r.next) == 0
                  && (|r.next.window| == r.next.capacity || r.next.himark == r.next.End()))
  {
    LoopCount(s, data);
    RoomIsNat(s);
    var r := TryWrite(s, data);
    hide WellFormed, WriteLoop, CurrentRoom;
    if data != [] {
      CreditIsThere(r.next);
      RoomIsNat(r.next);
    }
  }

  /** The sender is told that there is something to send exactly when a buffer became full. */
  lemma WriteReady(s: TxState, data: seq<byte>)
    requires WellFormed(s) && Writable(s) && data != []
    ensures var r := TryWrite(s, data);
            r.ready <==> if s.cursor == NoBuffer then r.written >= MAX_PAYLOAD else r.written >= CurrentRoom(s)
  {
    CreditIsThere(s);
    RoomIsNat(s);
    LoopCount(s, data);
    if s.cursor == NoBuffer && (s.himark == s.End() || |s.window| == s.capacity) {
      RoomOfNone(s);
    } else {
      RoundCount(s, data);
      var round := WriteRound(s, data);
      hide WellFormed, WriteRound, Space, CurrentRoom;
    }
  }
}
