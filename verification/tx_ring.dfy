/** The transmit ring that a writer thread shares with the DMA channel and its completion interrupt
(pico/reliable_uart_dma.cpp).

A step is one critical section of the spin lock, one byte of the unlocked copy, or one byte moved by the
DMA channel; a run interleaves them arbitrarily.  `head`, `tail` and `inflight` are the 32-bit words of the
code.  `input`, `published`, `sent` and `released` only record what has happened.
*/
module TxRing {
  import opened Basics
  import opened RingBuffers

  const SIZE := 8192
  const WORD := 0x1_0000_0000

  function W32(x: int): (r: nat)
    ensures r < WORD
  {
    x % WORD
  }

  function Least(a: nat, b: nat): nat { if a < b then a else b }

  /** Where the writer is: between calls, at the top of its loop, or copying a chunk. */
  datatype Writer =
    | Away
    | AtTop(left: seq<byte>)
    | Copying(left: seq<byte>, chunk: nat, copied: nat)

  datatype Irq = Quiet | Raised | Handling

  datatype Ring = Ring(
    buf: seq<byte>, head: nat, tail: nat, inflight: nat,
    dmaFrom: nat, dmaLeft: nat, irq: Irq, writer: Writer,
    input: seq<byte>, published: seq<byte>, sent: seq<byte>, released: nat)

  /** The ring as constructed, with a buffer of unknown content. */
  function Fresh(buf: seq<byte>): Ring { Ring(buf, 0, 0, 0, 0, 0, Quiet, Away, [], [], [], 0) }

  /** `startTx`: hands the next contiguous segment to the DMA channel. */
  function StartTx(s: Ring): Ring {
    var n := Least(W32(s.head - s.tail), SIZE - s.tail % SIZE);
    if n != 0 then s.(inflight := n, dmaFrom := s.tail % SIZE, dmaLeft := n) else s.(inflight := 0)
  }

  function Free(s: Ring): int { SIZE - W32(s.head - s.tail) }

  function Chunk(s: Ring, left: seq<byte>): nat
    requires Free(s) >= 0
  {
    Least(|left|, Least(Free(s), SIZE - s.head % SIZE))
  }

  datatype Event = Write(bytes: seq<byte>) | CheckFree | CopyByte | Publish | DmaByte | EnterIrq | TxIrq

  function Next(s: Ring, e: Event): Ring
    requires Inv(s)
  {
    match e
    case Write(bytes) =>
      if !s.writer.Away? then s
      else s.(writer := if bytes == [] then Away else AtTop(bytes), input := s.input + bytes)
    case CheckFree => StepCheckFree(s)
    case CopyByte => StepCopyByte(s)
    case Publish => StepPublish(s)
    case DmaByte => StepDmaByte(s)
    case EnterIrq => if s.irq.Raised? then s.(irq := Handling) else s
    case TxIrq => StepTxIrq(s)
  }

  /** Reads the free space under the lock; the loop starts over when there is none. */
  function StepCheckFree(s: Ring): Ring
    requires Counters(s)
  {
    CountersExact(s);
    if !s.writer.AtTop? || Free(s) == 0 then s
    else s.(writer := Copying(s.writer.left, Chunk(s, s.writer.left), 0))
  }

  /** One byte of the copy, which runs without the lock. */
  function StepCopyByte(s: Ring): Ring
    requires |s.buf| == SIZE && WriterOk(s)
  {
    if !s.writer.Copying? || s.writer.copied == s.writer.chunk then s
    else
      var k := s.writer.copied;
      s.(buf := s.buf[s.head % SIZE + k := s.writer.left[k]], writer := s.writer.(copied := k + 1))
  }

  function StepPublish(s: Ring): Ring
    requires WriterOk(s)
  {
    if !s.writer.Copying? || s.writer.copied < s.writer.chunk then s
    else
      var n, left := s.writer.chunk, s.writer.left;
      var t := s.(head := W32(s.head + n), published := s.published + left[..n],
                  writer := if n == |left| then Away else AtTop(left[n..]));
      if t.inflight == 0 then StartTx(t) else t
  }

  function StepDmaByte(s: Ring): Ring
    requires |s.buf| == SIZE && SegmentOk(s)
  {
    if s.dmaLeft == 0 then s
    else s.(sent := s.sent + [s.buf[s.dmaFrom]], dmaFrom := s.dmaFrom + 1, dmaLeft := s.dmaLeft - 1,
            irq := if s.dmaLeft == 1 then Raised else s.irq)
  }

  function StepTxIrq(s: Ring): Ring {
    if !s.irq.Handling? then s
    else StartTx(s.(tail := W32(s.tail + s.inflight), released := s.released + s.inflight, inflight := 0, irq := Quiet))
  }

  // ----- the invariant -----

  /** The 32-bit counters stand for the bytes published and released. */
  ghost predicate Counters(s: Ring) {
    && s.head == W32(|s.published|) && s.tail == W32(s.released)
    && s.released <= |s.published| <= s.released + SIZE
  }

  /** Every byte published and not released is in its place. */
  ghost predicate Held(buf: seq<byte>, published: seq<byte>, released: nat) {
    |buf| == SIZE && forall p :: released <= p < |published| ==> buf[Slot(p, SIZE)] == published[p]
  }

  /** The part of the chunk that has been copied lies just past the published bytes. */
  ghost predicate WriterOk(s: Ring) {
    && (s.writer.AtTop? ==> s.writer.left != [])
    && (s.writer.Copying? ==>
          && 0 < s.writer.chunk <= |s.writer.left| && s.writer.copied <= s.writer.chunk
          && s.head % SIZE + s.writer.chunk <= SIZE)
  }

  ghost predicate CopiedOk(s: Ring) {
    s.writer.Copying? ==>
      && |s.published| + s.writer.chunk <= s.released + SIZE
      && |s.buf| == SIZE && s.writer.copied <= |s.writer.left|
      && forall p :: |s.published| <= p < |s.published| + s.writer.copied ==>
           s.buf[Slot(p, SIZE)] == s.writer.left[p - |s.published|]
  }

  /** The DMA segment is the oldest part of the ring, and the interrupt is raised when it is done. */
  ghost predicate SegmentOk(s: Ring) {
    && s.dmaLeft <= s.inflight && s.released + s.inflight <= |s.published|
    && (s.inflight == 0 ==> s.released == |s.published| && s.irq.Quiet?)
    && (s.inflight > 0 ==>
          && s.tail % SIZE + s.inflight <= SIZE
          && s.dmaFrom == s.tail % SIZE + (s.inflight - s.dmaLeft)
          && (s.dmaLeft == 0 <==> !s.irq.Quiet?))
  }

  function Left(w: Writer): seq<byte> { if w.Away? then [] else w.left }

  ghost predicate HistoryOk(s: Ring) {
    && s.dmaLeft <= s.inflight
    && s.published + Left(s.writer) == s.input
    && |s.sent| == s.released + (s.inflight - s.dmaLeft) <= |s.published|
    && s.sent == s.published[..|s.sent|]
  }

  ghost predicate Inv(s: Ring) {
    Counters(s) && Held(s.buf, s.published, s.released) && WriterOk(s) && CopiedOk(s) && SegmentOk(s) && HistoryOk(s)
  }

  // ----- arithmetic of the ring -----

  /** Masking a wrapped counter gives the slot of the count. */
  lemma MaskExact(n: int)
    ensures W32(n) % SIZE == Slot(n, SIZE)
  {
    var q := n / WORD;
    assert n == W32(n) + SIZE * (0x8_0000 * q);
    ModPlusMultiple(W32(n), 0x8_0000 * q, SIZE);
  }

  lemma CountersExact(s: Ring)
    requires Counters(s)
    ensures W32(s.head - s.tail) == |s.published| - s.released && 0 <= Free(s) <= SIZE
    ensures s.head % SIZE == Slot(|s.published|, SIZE) && s.tail % SIZE == Slot(s.released, SIZE)
  {
    var h, t := |s.published|, s.released;
    MaskExact(h);
    MaskExact(t);
    assert h - t == s.head - s.tail + WORD * (h / WORD - t / WORD);
  }

  /** Adding to a wrapped counter. */
  lemma AddExact(n: nat, k: nat)
    ensures W32(W32(n) + k) == W32(n + k)
  {
    assert n + k == W32(n) + k + WORD * (n / WORD);
  }

  /** Slots of consecutive positions are consecutive up to the end of the ring. */
  lemma SlotsRun(p: int, k: nat)
    requires Slot(p, SIZE) + k < SIZE
    ensures Slot(p + k, SIZE) == Slot(p, SIZE) + k
  {
  }

  // ----- every step keeps the invariant -----

  lemma WriteKeeps(s: Ring, bytes: seq<byte>)
    requires Inv(s)
    ensures Inv(Next(s, Write(bytes)))
  {
    if s.writer.Away? { assert s.published + bytes == s.input + bytes; }
  }

  lemma CheckFreeKeeps(s: Ring)
    requires Inv(s)
    ensures Inv(StepCheckFree(s))
  {
    CountersExact(s);
  }

  /** The byte copied goes to a slot that no published byte occupies. */
  lemma CopyMisses(s: Ring, p: int)
    requires Counters(s) && WriterOk(s) && CopiedOk(s) && s.writer.Copying? && s.writer.copied < s.writer.chunk
    requires s.released <= p < |s.published| + s.writer.copied
    ensures Slot(p, SIZE) != s.head % SIZE + s.writer.copied == Slot(|s.published| + s.writer.copied, SIZE)
  {
    CountersExact(s);
    SlotsRun(|s.published|, s.writer.copied);
    SlotsDiffer(p, |s.published| + s.writer.copied, SIZE);
  }

  lemma CopyByteKeeps(s: Ring)
    requires Inv(s)
    ensures Inv(StepCopyByte(s))
  {
    var t := StepCopyByte(s);
    if s.writer.Copying? && s.writer.copied < s.writer.chunk {
      var h := |s.published|;
      CountersExact(s);
      SlotsRun(h, s.writer.copied);
      forall p | s.released <= p < h + s.writer.copied ensures t.buf[Slot(p, SIZE)] == s.buf[Slot(p, SIZE)] {
        CopyMisses(s, p);
      }
    }
  }

  /** Starting a transfer when none is under way. */
  lemma StartTxKeeps(s: Ring)
    requires Counters(s) && Held(s.buf, s.published, s.released) && WriterOk(s) && CopiedOk(s) && HistoryOk(s)
    requires s.inflight == 0 && s.irq.Quiet?
    ensures Inv(StartTx(s))
  {
    CountersExact(s);
  }

  /** The state after the chunk is published, before a transfer is started. */
  lemma PublishedKeeps(s: Ring, t: Ring)
    requires Inv(s) && s.writer.Copying? && s.writer.copied == s.writer.chunk
    requires var n, left := s.writer.chunk, s.writer.left;
             t == s.(head := W32(s.head + n), published := s.published + left[..n],
                     writer := if n == |left| then Away else AtTop(left[n..]))
    ensures Counters(t) && Held(t.buf, t.published, t.released) && WriterOk(t) && CopiedOk(t) && HistoryOk(t)
    ensures s.inflight > 0 ==> SegmentOk(t)
  {
    var n, left := s.writer.chunk, s.writer.left;
    AddExact(|s.published|, n);
    assert left[..n] + left[n..] == left;
    assert t.published + Left(t.writer) == s.published + left;
    assert t.published[..|s.sent|] == s.published[..|s.sent|];
  }

  lemma PublishKeeps(s: Ring)
    requires Inv(s)
    ensures Inv(StepPublish(s))
  {
    if s.writer.Copying? && s.writer.copied == s.writer.chunk {
      var n, left := s.writer.chunk, s.writer.left;
      var t := s.(head := W32(s.head + n), published := s.published + left[..n],
                  writer := if n == |left| then Away else AtTop(left[n..]));
      PublishedKeeps(s, t);
      if s.inflight == 0 {
        hide Counters, Held, WriterOk, CopiedOk, HistoryOk, StartTx;
        StartTxKeeps(t);
      }
    }
  }

  lemma DmaByteKeeps(s: Ring)
    requires Inv(s)
    ensures Inv(StepDmaByte(s))
  {
    if s.dmaLeft > 0 {
      CountersExact(s);
      SlotsRun(s.released, s.inflight - s.dmaLeft);
      var t := StepDmaByte(s);
      assert s.buf[s.dmaFrom] == s.published[|s.sent|];
      assert t.sent == t.published[..|t.sent|];
    }
  }

  lemma TxIrqKeeps(s: Ring)
    requires Inv(s)
    ensures Inv(StepTxIrq(s))
  {
    if s.irq.Handling? {
      var t := s.(tail := W32(s.tail + s.inflight), released := s.released + s.inflight, inflight := 0, irq := Quiet);
      AddExact(s.released, s.inflight);
      assert CopiedOk(t) && HistoryOk(t);
      hide CopiedOk, HistoryOk, StartTx, WriterOk;
      StartTxKeeps(t);
    }
  }

  lemma NextKeeps(s: Ring, e: Event)
    requires Inv(s)
    ensures Inv(Next(s, e))
  {
    match e
    case Write(bytes) => WriteKeeps(s, bytes);
    case CheckFree => CheckFreeKeeps(s);
    case CopyByte => CopyByteKeeps(s);
    case Publish => PublishKeeps(s);
    case DmaByte => DmaByteKeeps(s);
    case EnterIrq => {}
    case TxIrq => TxIrqKeeps(s);
  }

  lemma FreshInv(buf: seq<byte>)
    requires |buf| == SIZE
    ensures Inv(Fresh(buf))
  {
  }

  // ----- what holds over every run -----

  /** The state after a run from the constructor's state. */
  ghost function Run(buf: seq<byte>, events: seq<Event>): (s: Ring)
    requires |buf| == SIZE
    ensures Inv(s)
    decreases |events|
  {
    FreshInv(buf);
    if events == [] then Fresh(buf)
    else
      var s := Run(buf, events[..|events| - 1]);
      NextKeeps(s, events[|events| - 1]);
      Next(s, events[|events| - 1])
  }

  /** What has been sent is a prefix of what has been written; head and tail tell when all of it has. */
  ghost predicate SentInOrder(s: Ring) {
    && s.sent <= s.published <= s.input
    && (s.inflight == 0 ==> s.head == s.tail)
    && (s.head == s.tail ==> s.sent == s.published)
    && (s.writer.Away? ==> s.published == s.input)
  }

  lemma SentState(s: Ring)
    requires Inv(s)
    ensures SentInOrder(s)
  {
    CountersExact(s);
    assert s.published == s.input[..|s.published|];
    if s.head == s.tail { assert s.published[..|s.sent|] == s.published; }
  }

  /** Over every interleaving: the bytes the DMA channel has moved are a prefix of those passed to
      `write`; when no transfer is in flight the 32-bit head and tail are equal; and they are equal, as
      `flush` waits for, only when everything published has been moved. */
  lemma SentIsPrefix(buf: seq<byte>, events: seq<Event>)
    requires |buf| == SIZE
    ensures SentInOrder(Run(buf, events))
  {
    hide SentInOrder, Inv;
    SentState(Run(buf, events));
  }

  /** The byte the writer is about to copy lands on no slot of the segment in flight and on no slot that
      waits to be sent, and the DMA channel is about to read the next published byte. */
  ghost predicate CopyIsSafe(s: Ring) {
    && (s.writer.Copying? && s.writer.copied < s.writer.chunk ==>
          && s.head % SIZE + s.writer.copied < SIZE
          && !(s.tail % SIZE <= s.head % SIZE + s.writer.copied < s.tail % SIZE + s.inflight)
          && (forall p :: s.released <= p < |s.published| ==> Slot(p, SIZE) != s.head % SIZE + s.writer.copied))
    && (s.dmaLeft > 0 ==>
          s.dmaFrom < |s.buf| == SIZE && |s.sent| < |s.published| && s.buf[s.dmaFrom] == s.published[|s.sent|])
  }

  lemma CopyState(s: Ring)
    requires Inv(s)
    ensures CopyIsSafe(s)
  {
    CountersExact(s);
    if s.writer.Copying? && s.writer.copied < s.writer.chunk {
      forall p | s.released <= p < |s.published| ensures Slot(p, SIZE) != s.head % SIZE + s.writer.copied {
        CopyMisses(s, p);
      }
      SegmentMisses(s);
    }
    if s.dmaLeft > 0 { SlotsRun(s.released, s.inflight - s.dmaLeft); }
  }

  /** Over every interleaving: no byte in flight or waiting is ever overwritten. */
  lemma NothingOverwritten(buf: seq<byte>, events: seq<Event>)
    requires |buf| == SIZE
    ensures CopyIsSafe(Run(buf, events))
  {
    hide CopyIsSafe, Inv;
    CopyState(Run(buf, events));
  }

  lemma SegmentMisses(s: Ring)
    requires Inv(s) && s.writer.Copying? && s.writer.copied < s.writer.chunk
    ensures var at := s.head % SIZE + s.writer.copied; !(s.tail % SIZE <= at < s.tail % SIZE + s.inflight)
  {
    CountersExact(s);
    var at := s.head % SIZE + s.writer.copied;
    var k := at - s.tail % SIZE;
    if 0 <= k < s.inflight {
      SlotsRun(s.released, k);
      CopyMisses(s, s.released + k);
    }
  }

  // ----- the hardware drains the ring -----

  /** The step the hardware has pending, if any. */
  function Pending(s: Ring): Event {
    if s.dmaLeft > 0 then DmaByte else if s.irq.Raised? then EnterIrq else TxIrq
  }

  function Rank(i: Irq): nat { match i case Quiet => 0 case Raised => 2 case Handling => 1 }

  /** The state after some events, from any state of the invariant. */
  ghost function After(s: Ring, events: seq<Event>): (t: Ring)
    requires Inv(s)
    ensures Inv(t)
    decreases |events|
  {
    if events == [] then s
    else
      NextKeeps(s, events[0]);
      After(Next(s, events[0]), events[1..])
  }

  lemma AfterFirst(s: Ring, e: Event, rest: seq<Event>)
    requires Inv(s)
    ensures Inv(Next(s, e)) && After(s, [e] + rest) == After(Next(s, e), rest)
  {
    NextKeeps(s, e);
    assert ([e] + rest)[1..] == rest;
    hide Inv, Next;
  }

  lemma {:induction false} AfterConcat(s: Ring, a: seq<Event>, b: seq<Event>)
    requires Inv(s)
    ensures After(s, a + b) == After(After(s, a), b)
    decreases |a|
  {
    hide Inv, Next;
    if a == [] {
      assert a + b == b;
    } else {
      NextKeeps(s, a[0]);
      assert (a + b)[1..] == a[1..] + b;
      AfterConcat(Next(s, a[0]), a[1..], b);
    }
  }

  predicate IsHardware(e: Event) { e.DmaByte? || e.EnterIrq? || e.TxIrq? }

  /** Progress: from every state, transfers and interrupts alone, with no help from a writer, send
      everything that has been published. */
  lemma {:induction false} Drained(s: Ring) returns (events: seq<Event>)
    requires Inv(s)
    ensures forall i :: 0 <= i < |events| ==> IsHardware(events[i])
    ensures var t := After(s, events);
            && t.sent == t.published == s.published && t.head == t.tail && t.inflight == 0
            && t.writer == s.writer && t.input == s.input
    decreases |s.published| - |s.sent|, Rank(s.irq)
  {
    if s.inflight == 0 {
      CountersExact(s);
      assert s.published[..|s.sent|] == s.published;
      events := [];
    } else {
      PendingHelps(s);
      hide Inv, Next, After;
      var rest := Drained(Next(s, Pending(s)));
      AfterFirst(s, Pending(s), rest);
      events := [Pending(s)] + rest;
    }
  }

  /** A pending step of the hardware brings the end of the transfers closer. */
  lemma PendingHelps(s: Ring)
    requires Inv(s) && s.inflight != 0
    ensures var t := Next(s, Pending(s));
            && Inv(t) && t.published == s.published && t.writer == s.writer && t.input == s.input
            && (|s.sent| < |t.sent| <= |s.published| || (t.sent == s.sent && Rank(t.irq) < Rank(s.irq)))
  {
    NextKeeps(s, Pending(s));
  }

  /** How far the writer is from the end of its chunk. */
  function Toil(w: Writer): nat {
    match w
    case Away => 0
    case AtTop(_) => SIZE + 2
    case Copying(_, chunk, copied) => if copied <= chunk then 1 + chunk - copied else 0
  }

  /** Progress of the writer: from every state, its own steps and those of the hardware complete the call, and send
      everything that was written. */
  lemma {:induction false} Completed(s: Ring) returns (events: seq<Event>)
    requires Inv(s)
    ensures forall i :: 0 <= i < |events| ==> !events[i].Write?
    ensures var t := After(s, events);
            t.writer.Away? && t.sent == t.published == t.input == s.input
    decreases |Left(s.writer)|, Toil(s.writer)
  {
    assert s.published + Left(s.writer) == s.input;
    if s.writer.Away? {
      events := Drained(s);
    } else if s.writer.AtTop? {
      hide Inv, Next, After;
      var first := Drained(s);
      var d := After(s, first);
      CheckExact(d);
      CountersExact(d);
      NextKeeps(d, CheckFree);
      var rest := Completed(Next(d, CheckFree));
      AfterFirst(d, CheckFree, rest);
      AfterConcat(s, first, [CheckFree] + rest);
      events := first + ([CheckFree] + rest);
    } else {
      var e := if s.writer.copied < s.writer.chunk then CopyByte else Publish;
      WriterAdvances(s, e);
      hide Inv, Next, After;
      var rest := Completed(Next(s, e));
      AfterFirst(s, e, rest);
      events := [e] + rest;
    }
  }

  /** A byte copied, or a chunk published, brings the end of the call closer. */
  lemma WriterAdvances(s: Ring, e: Event)
    requires Inv(s) && s.writer.Copying? && e == if s.writer.copied < s.writer.chunk then CopyByte else Publish
    ensures var t := Next(s, e);
            && Inv(t) && t.input == s.input
            && (|Left(t.writer)| < |Left(s.writer)|
                || (Left(t.writer) == Left(s.writer) && Toil(t.writer) < Toil(s.writer)))
  {
    NextKeeps(s, e);
  }

  /** A writer gets as much as it has to write and as fits into the free slots before the end of the ring; it waits
      only when the ring is full. */
  lemma CheckExact(s: Ring)
    requires Inv(s) && s.writer.AtTop?
    ensures var t, free := Next(s, CheckFree), SIZE - (|s.published| - s.released);
            && (free == 0 ==> t == s)
            && (free != 0 ==>
                  && t == s.(writer := Copying(s.writer.left, t.writer.chunk, 0)) && t.writer.chunk > 0
                  && t.writer.chunk <= |s.writer.left| && t.writer.chunk <= free
                  && t.writer.chunk <= SIZE - Slot(|s.published|, SIZE)
                  && (t.writer.chunk == |s.writer.left| || t.writer.chunk == free
                      || t.writer.chunk == SIZE - Slot(|s.published|, SIZE)))
  {
    CountersExact(s);
  }

  // ----- the receive position across a renewal of the DMA count -----

  /** `produced`: the 32-bit position nearest to an estimate that has the ring offset of the write address. */
  function Resolve(estimate: nat, offset: nat): nat {
    var ahead := (offset - estimate) % SIZE;
    W32(estimate + (if ahead > SIZE / 2 then ahead - SIZE else ahead))
  }

  /** The committed position is recovered, across wrap of ring and counter, exactly when the sampled count is
      off by less than half a ring (or behind by exactly half). */
  lemma ResolvesExactly(position: int, estimate: int)
    requires -0x8000_0000 <= position - estimate < 0x8000_0000
    ensures Resolve(W32(estimate), Slot(position, SIZE)) == W32(position)
            <==> -(SIZE / 2) < position - estimate <= SIZE / 2
  {
    var e, d := W32(estimate), position - estimate;
    var ahead := (Slot(position, SIZE) - e) % SIZE;
    assert ahead == d % SIZE by { OffsetDistance(position, estimate); }
    var step := if ahead > SIZE / 2 then ahead - SIZE else ahead;
    assert d - step == SIZE * (d / SIZE) + (ahead - step);
    WordsEqual(estimate, step, d);
  }

  lemma OffsetDistance(position: int, estimate: int)
    ensures (Slot(position, SIZE) - W32(estimate)) % SIZE == (position - estimate) % SIZE
  {
    var a, b := position / SIZE, estimate / WORD;
    assert position - estimate == Slot(position, SIZE) - W32(estimate) + SIZE * (a - 0x8_0000 * b);
    ModPlusMultiple(Slot(position, SIZE) - W32(estimate), a - 0x8_0000 * b, SIZE);
  }

  /** Two steps from one position give the same word exactly when they are the same, if both are short. */
  lemma WordsEqual(estimate: int, step: int, d: int)
    requires -0x8000_0000 <= d < 0x8000_0000 && -SIZE <= step <= SIZE
    ensures W32(W32(estimate) + step) == W32(estimate + d) <==> step == d
  {
    var b := estimate / WORD;
    assert estimate + step == W32(estimate) + step + WORD * b;
    assert W32(W32(estimate) + step) == W32(estimate + step);
    if step != d {
      var x, y := estimate + step, estimate + d;
      assert x - y == W32(x) - W32(y) + WORD * (x / WORD - y / WORD);
    }
  }
}
