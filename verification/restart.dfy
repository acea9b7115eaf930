/** Starting a receiver again through `init` and `setConnected`, which leave the read cursor alone (receiver.cpp). */
module Restart {
  import opened Basics
  import opened RingBuffers
  import opened InBuffers
  import opened Reception
  import opened Receivers

  datatype Outcome = Aborted | Returned(bytes: seq<byte>)

  /** `tryRead` on the raw fields, for a window of `used <= 1` slots whose front slot is `front`. */
  function RawRead(slots: seq<InBuffer>, front: nat, used: nat, current: int, pos: nat, count: nat): Outcome
    requires front < |slots| && used <= 1 && -1 <= current < |slots|
  {
    if current == -1 && used == 0 then Returned([])
    else
      var b, at := if current == -1 then slots[front] else slots[current], if current == -1 then 0 else pos;
      if b.Unset? then Returned([])
      else if |b.data| < at then Aborted  // CHECK_GE
      else if count < |b.data| - at then Returned(b.data[at..at + count])
      else if used == 0 then Aborted  // the check of `pop`
      else Returned(b.data[at..])
  }

  /** The first reads of the new connection: nothing before its first packet, then that packet. */
  ghost predicate StartsClean(slots: seq<InBuffer>, front: nat, current: int, pos: nat)
    requires front < |slots| && -1 <= current < |slots|
  {
    && (forall count: nat :: RawRead(slots, front, 0, current, pos, count) == Returned([]))
    && (forall data: seq<byte>, count: nat :: data != [] ==> ReadsFirst(slots, front, current, pos, data, count))
  }

  /** Once a packet is stored in the front slot, a read returns its first `count` bytes, or all of them. */
  ghost predicate ReadsFirst(slots: seq<InBuffer>, front: nat, current: int, pos: nat, data: seq<byte>, count: nat)
    requires front < |slots| && -1 <= current < |slots|
  {
    RawRead(slots[front := Stored(false, data)], front, 1, current, pos, count)
    == Returned(data[..if count < |data| then count else |data|])
  }

  /** A receiver in use that is started again at position `start` reads the new connection's bytes, and
      nothing else, exactly when no read was in progress, or the read was waiting at the very slot that
      the first new packet goes to.  Otherwise it returns bytes of the old connection, aborts, or stays
      at a slot that is not the first. */
  lemma StartsCleanExactly(slots: seq<InBuffer>, s: RxState, current: int, pos: nat, start: int)
    requires RxWellFormed(s) && Holding(slots, s)
    requires if s.reading.None? then current == -1
             else current == Slot(s.begin, s.capacity) && pos == s.reading.value
    ensures StartsClean(slots, Slot(start, s.capacity), current, pos)
            <==> current == -1 || (current == Slot(start, s.capacity) && slots[current].Unset?)
  {
    var front := Slot(start, s.capacity);
    SlotHolds(slots, s, s.begin);
    RxNear(s);
    hide RxWellFormed, Holding;
    if current != -1 && slots[current].Stored? {
      var count := |slots[current].data|;
      assert RawRead(slots, front, 0, current, pos, count) != Returned([]);
    } else if current != -1 && current != front {
      assert !ReadsFirst(slots, front, current, pos, [0], 1);
    }
  }

  /** A read interrupted after one byte hands the old connection's second byte to the new one. */
  lemma StaleByteAfterRestart()
    ensures RawRead([Stored(false, [7, 8, 9])], 0, 0, 0, 1, 1) == Returned([8])
  {
  }
}
