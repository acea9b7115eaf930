/** One slot of the send window (out_buffer.h, out_buffer.cpp).

The program stores the slots by value inside one array, so a slot is a value
here and is updated in place through the array cell that holds it.
*/
module OutBuffers {
  import opened Basics
  import opened SeqNums
  import opened Protocol
  import RetryBackoff

  datatype OutBuffer = OutBuffer(
    header: SeqNum,
    payload: seq<byte>,
    acked: bool,
    flushed: bool,
    finished: bool,
    expiration: nat,
    sendCounter: nat)
  {
    predicate Valid() {
      && |payload| <= MAX_PAYLOAD
      && (!finished ==> |payload| < MAX_PAYLOAD && sendCounter == 0)
      && (finished ==> flushed)
      && sendCounter <= 255
      && PacketKind(header) <= FIN_PACKET
    }

    predicate IsFin() { PacketKind(header) == FIN_PACKET }

    /** Bytes this buffer still accepts. */
    function Room(): nat
      requires Valid()
    {
      if finished then 0 else MAX_PAYLOAD - |payload|
    }

    /** `write` of a chunk that fits; a chunk that fills the buffer closes it. */
    function Append(data: seq<byte>): (b: OutBuffer)
      requires Valid() && |data| <= Room()
      ensures b.Valid()
    {
      if finished then this
      else if |data| == Room() then
        this.(payload := payload + data, flushed := true, finished := true, expiration := 0)
      else this.(payload := payload + data)
    }

    function Flush(): OutBuffer { this.(flushed := true) }

    function Finish(): OutBuffer { this.(flushed := true, finished := true, expiration := 0) }

    function MarkFinal(): OutBuffer
      requires Valid()
    {
      this.(header := SetFin(header))
    }

    function Ack(): OutBuffer { this.(acked := true) }

    function Rush(): OutBuffer { this.(expiration := 0) }

    /** `markSent`, with the random draw of the retry delay as a parameter: the next transmission is due after the
        capped delay for the new count, give or take a fifth of it. */
    function MarkSent(now: nat, draw: nat): (b: OutBuffer)
      requires Valid() && draw <= RANDOM_MAX
      ensures b == this.(sendCounter := b.sendCounter, expiration := b.expiration)
      ensures b.sendCounter == if sendCounter < 255 then sendCounter + 1 else 255
      ensures var d := RetryBackoff.Base(5000, 200_000, b.sendCounter);
              && 5000 <= d <= 200_000
              && now + d - d / 5 <= b.expiration < now + d + d / 5
    {
      var counter := if sendCounter < 255 then sendCounter + 1 else sendCounter;
      RetryBackoff.BackoffRange(5000, 200_000, counter, draw, RANDOM_MAX);
      this.(sendCounter := counter,
            expiration := now + RetryBackoff.Backoff(5000, 200_000, counter, draw, RANDOM_MAX))
    }

    /** A buffer as it goes out: closed to further writes, and marked sent. */
    function Transmitted(now: nat, draw: nat): (b: OutBuffer)
      requires Valid() && draw <= RANDOM_MAX
      ensures b == this.(flushed := true, finished := true, sendCounter := b.sendCounter, expiration := b.expiration)
      ensures b.Valid() && b.finished && b.expiration > now
              && b.sendCounter == if sendCounter < 255 then sendCounter + 1 else 255
    {
      (if finished then this else Finish()).MarkSent(now, draw)
    }

    /** What goes on the wire. */
    function Bytes(): seq<byte> { Packet(header, payload) }
  }

  /** `init`: an open, empty data packet for a position. */
  function Fresh(pos: int, control: bool): (b: OutBuffer)
    ensures b.Valid() && !b.IsFin()
  {
    HeaderRoundTrip(pos, DATA_PACKET, control);
    OutBuffer(Header(pos, DATA_PACKET, control), [], false, false, false, 0, 0)
  }

  /** `addEosPacket`: an empty final packet, closed and ready to be sent. */
  function Eos(pos: int, control: bool): (b: OutBuffer)
    ensures b.Valid() && b.IsFin() && b.finished && b.payload == []
    ensures b.header == Header(pos, FIN_PACKET, control)
  {
    HeaderRoundTrip(pos, DATA_PACKET, control);
    HeaderRoundTrip(pos, FIN_PACKET, control);
    Fresh(pos, control).MarkFinal().Finish()
  }
}
