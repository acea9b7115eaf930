/** The fields and buffer behind the transmit ring (pico/reliable_uart_dma.cpp).

Each method is one critical section of the spin lock, except `CopyChunk`, which runs without it.  The ghost
field `r` is the ring of `TxRing` that the fields stand for.
*/
module UartTx {
  import opened Basics
  import opened TxRing

  class Uart {
    const txBuffer: array<byte>
    var txHead: nat
    var txTail: nat
    var txInflight: nat
    ghost var r: Ring

    ghost predicate Same()
      reads this, txBuffer
    {
      txBuffer[..] == r.buf && txBuffer.Length == SIZE && txHead == r.head && txTail == r.tail
        && txInflight == r.inflight
    }

    ghost predicate Valid()
      reads this, txBuffer
    {
      Same() && Inv(r)
    }

    constructor (buffer: array<byte>)
      requires buffer.Length == SIZE
      ensures Valid() && txBuffer == buffer && r == Fresh(buffer[..])
    {
      txBuffer, txHead, txTail, txInflight := buffer, 0, 0, 0;
      FreshInv(buffer[..]);
      r := Fresh(buffer[..]);
    }

    /** Reads the free space; a chunk of zero bytes means that there is none. */
    method TakeChunk(left: seq<byte>) returns (chunk: nat)
      requires Valid() && r.writer == AtTop(left)
      modifies `r
      ensures Valid() && r == StepCheckFree(old(r))
      ensures chunk == 0 ==> r == old(r) && |r.published| == r.released + SIZE
      ensures chunk > 0 ==> r.writer == Copying(left, chunk, 0)
    {
      CountersExact(r);
      CheckFreeKeeps(r);
      hide Inv, W32;
      var free := SIZE - W32(txHead - txTail);
      chunk := if free == 0 then 0 else Least(|left|, Least(free, SIZE - txHead % SIZE));
      r := StepCheckFree(r);
    }

    /** The copy of a chunk into the free part of the ring. */
    method CopyChunk(left: seq<byte>, chunk: nat)
      requires Valid() && r.writer == Copying(left, chunk, 0)
      modifies txBuffer, `r
      ensures Valid() && r.writer == Copying(left, chunk, chunk)
      ensures r == old(r).(buf := r.buf, writer := r.writer)
    {
      var offset := txHead % SIZE;
      var i := 0;
      while i < chunk
        invariant Valid() && 0 <= i <= chunk && r.writer == Copying(left, chunk, i)
        invariant r == old(r).(buf := r.buf, writer := r.writer)
      {
        CopyByteKeeps(r);
        ghost var t := StepCopyByte(r);
        hide Inv;
        txBuffer[offset + i] := left[i];
        r := t;
        i := i + 1;
      }
    }

    method StartTx()
      requires Same()
      modifies `txInflight, `r
      ensures Same() && r == TxRing.StartTx(old(r))
    {
      txInflight := Least(W32(txHead - txTail), SIZE - txTail % SIZE);
      r := TxRing.StartTx(r);
    }

    /** Publishes a copied chunk and starts a transfer if none is under way. */
    method PublishChunk(left: seq<byte>, chunk: nat)
      requires Valid() && r.writer == Copying(left, chunk, chunk)
      modifies `txHead, `txInflight, `r
      ensures Valid() && r == StepPublish(old(r))
    {
      PublishKeeps(r);
      ghost var goal := StepPublish(r);
      hide Inv;
      txHead := W32(txHead + chunk);
      r := r.(head := txHead, published := r.published + left[..chunk],
              writer := if chunk == |left| then Away else AtTop(left[chunk..]));
      if txInflight == 0 { StartTx(); }
      assert r == goal;
    }

    /** The part of the interrupt handler that holds the lock. */
    method TxIrq()
      requires Valid() && r.irq.Handling?
      modifies `txTail, `txInflight, `r
      ensures Valid() && r == StepTxIrq(old(r))
    {
      TxIrqKeeps(r);
      ghost var goal := StepTxIrq(r);
      hide Inv;
      txTail := W32(txTail + txInflight);
      r := r.(tail := txTail, released := r.released + txInflight, inflight := 0, irq := Quiet);
      txInflight := 0;
      StartTx();
      assert r == goal;
    }
  }
}
