/** What holds over every run of a connection. */
module ConnectionTheorems {
  import opened Basics
  import opened SeqNums
  import opened RingBuffers
  import opened Protocol
  import opened InBuffers
  import opened Transmission
  import opened TransmissionFacts
  import opened Reception
  import opened ReceptionLog
  import opened Connection
  import opened ConnectionInvariant
  import opened ConnectionSendSteps
  import opened ConnectionReceiveSteps
  import opened ConnectionFeedbackSteps
  import SendProgress

  lemma InitCapacity(tx: TxState)
    requires WellFormed(tx)
    ensures tx.capacity > 0
  {
    hide BufferOk;
  }

  lemma InitialRx(rx: RxState, start: SeqNum, control: bool)
    requires RxWellFormed(rx) && rx.reading == None
    ensures var r := RxSetConnected(RxInit(rx), start, control);
            Refines(r, Log(start, map[], [])) && r.capacity > 0
  {
    assert RxWellFormed(RxInit(rx));
    ConnectedRefines(RxInit(rx), start, control);
    assert rx.capacity > 0;
    hide RxWellFormed, Refines;
  }

  lemma InitialStates(tx: TxState, rx: RxState, start: SeqNum, control: bool)
    requires WellFormed(tx) && RxWellFormed(rx) && rx.reading == None
    ensures var w := Initial(tx, rx, start, control);
            TxOk(w) && RxOk(w) && FlowOk(w) && NextOk(w) && WindowOk(w.tx, start, [])
  {
    hide WellFormed, RxWellFormed, Refines;
    var w := Initial(tx, rx, start, control);
    InitKeeps(tx, start);
    InitialRx(rx, start, control);
    InitCapacity(tx);
  }

  lemma InitialInv(tx: TxState, rx: RxState, start: SeqNum, control: bool)
    requires WellFormed(tx) && RxWellFormed(rx) && rx.reading == None
    ensures Inv(Initial(tx, rx, start, control))
  {
    hide TxOk, RxOk, FlowOk, NextOk, WindowOk, RxWellFormed, WellFormed;
    InitialStates(tx, rx, start, control);
    var w := Initial(tx, rx, start, control);
    assert Bytes([]) == [];
    hide Bytes;
    assert FinOk(w.tx, w.packets, w.closed) && AckedOk(w.tx, w.log.store, w.back);
    hide FinOk, AckedOk;
    assert FwdOk(w) && BackOk(w) && StoreOk(w.tx, w.log.base, w.packets, w.log.store);
    hide FwdOk, BackOk, StoreOk;
  }

  lemma NextKeeps(w: World, e: Step)
    requires Inv(w) && Connection.Legal(e)
    ensures WellFormed(w.tx) && RxWellFormed(w.rx) && Inv(Connection.Next(w, e))
  {
    hide TxOk, WindowOk, StoreOk, RxOk, FlowOk, FwdOk, BackOk, AckedOk, FinOk, NextOk, Bytes, WellFormed,
         RxWellFormed, Inv,
         StepConnect, StepWrite, StepClose, StepSend, StepDeliver, StepSendAck, StepSendHimark, StepFeedback,
         StepRead, Observe;
    InvStates(w);
    match e
    case Connect => ConnectStepKeeps(w);
    case Write(data) => WriteKeeps(w, data);
    case FlushOut => FlushStepKeeps(w);
    case CloseOut => CloseStepKeeps(w);
    case SendData(now, draw) => SendStepKeeps(w, now, draw);
    case LoseData(i) => LoseDataKeeps(w, i);
    case DeliverData => DeliverStepKeeps(w);
    case SendAck => SendAckKeeps(w);
    case SendHimark(now) => SendHimarkKeeps(w, now);
    case LoseFeedback(i) => LoseFeedbackKeeps(w, i);
    case DeliverFeedback => FeedbackStepKeeps(w);
    case Read(count) => ReadStepKeeps(w, count);
    case Poll => PollKeeps(w);
  }

  ghost predicate LegalRun(steps: seq<Step>) { forall i :: 0 <= i < |steps| ==> Connection.Legal(steps[i]) }

  /** The state after a step. */
  ghost function After(w: World, e: Step): (v: World)
    requires Inv(w) && Connection.Legal(e)
    ensures Inv(v)
  {
    NextKeeps(w, e);
    Connection.Next(w, e)
  }

  /** The state after a run. */
  ghost function Run(w: World, steps: seq<Step>): (v: World)
    requires Inv(w) && LegalRun(steps)
    ensures Inv(v)
    decreases |steps|
  {
    if steps == [] then w else Run(After(w, steps[0]), steps[1..])
  }

  lemma RunUnfolds(w: World, steps: seq<Step>)
    requires Inv(w) && LegalRun(steps)
    ensures steps == [] ==> Run(w, steps) == w
    ensures steps != [] ==>
              && WellFormed(w.tx) && RxWellFormed(w.rx) && Connection.Legal(steps[0]) && LegalRun(steps[1..])
              && Inv(Connection.Next(w, steps[0])) && Run(w, steps) == Run(Connection.Next(w, steps[0]), steps[1..])
  {
    hide Inv, WellFormed, RxWellFormed, Connection.Next;
    if steps != [] { NextKeeps(w, steps[0]); }
  }

  lemma {:induction false} RunConcat(w: World, a: seq<Step>, b: seq<Step>)
    requires Inv(w) && LegalRun(a) && LegalRun(b)
    ensures LegalRun(a + b) && Run(w, a + b) == Run(Run(w, a), b)
    decreases |a|
  {
    hide Inv, Run, Connection.Next, WellFormed, RxWellFormed;
    RunUnfolds(w, a);
    if a == [] {
      assert a + b == b;
    } else {
      RunUnfolds(w, a + b);
      assert (a + b)[1..] == a[1..] + b;
      RunConcat(Connection.Next(w, a[0]), a[1..], b);
    }
  }

  /** A run and one more step. */
  lemma RunThen(w: World, steps: seq<Step>, e: Step)
    requires Inv(w) && LegalRun(steps) && Connection.Legal(e)
    ensures LegalRun(steps + [e])
    ensures var v := Run(w, steps);
            WellFormed(v.tx) && RxWellFormed(v.rx) && Run(w, steps + [e]) == Connection.Next(v, e)
  {
    hide Inv, Run, Connection.Next, WellFormed, RxWellFormed;
    RunConcat(w, steps, [e]);
    var v := Run(w, steps);
    RunUnfolds(v, [e]);
    RunUnfolds(Connection.Next(v, e), [e][1..]);
  }

  // ----- end-to-end safety -----

  /** The stored packets up to a position spell out the packets queued up to it. */
  lemma {:induction false} TextIsBytes(tx: TxState, base: int, packets: seq<Pkt>, store: Store, n: nat)
    requires StoreOk(tx, base, packets, store) && n <= |packets|
    requires forall p :: base <= p < base + n ==> p in store
    ensures Text(store, base, base + n) == Bytes(packets[..n])
    decreases n
  {
    if n > 0 {
      TextIsBytes(tx, base, packets, store, n - 1);
      assert packets[..n][..n - 1] == packets[..n - 1];
      assert store[base + n - 1] == Stored(packets[n - 1].fin, packets[n - 1].payload);
    }
  }

  lemma RxInPackets(w: World)
    requires RxOk(w) && WindowOk(w.tx, w.log.base, w.packets)
    ensures w.log.base <= w.rx.begin <= w.rx.unack <= w.log.base + |w.packets|
    ensures forall p :: w.log.base <= p < w.rx.unack ==> p in w.log.store
  {
    CapacityFacts(w.rx);
    hide RxWellFormed, Holds, Text, PartlyRead;
  }

  /** In every state: what has been read is a prefix of what has been written, and the reader
      is told that the stream has ended only after everything written before a close was read. */
  lemma SafeState(w: World)
    requires Inv(w)
    ensures w.log.read <= w.written
    ensures w.rx.eos ==> w.closed && w.log.read == w.written
  {
    hide WellFormed, FlowOk, FwdOk, BackOk, AckedOk, NextOk, RxWellFormed, Holds, FirstMissing, PartlyRead, StoreOk,
         FinOk,
         WindowOk, Bytes, Text, TxOk;
    RxInPackets(w);
    StoredPrefix(w);
    ReadBeforeMissing(w.rx, w.log);
    if w.rx.eos {
      EosFacts(w);
      assert w.log.read == Text(w.log.store, w.log.base, w.rx.begin);
    }
  }

  lemma StoredPrefix(w: World)
    requires Inv(w)
    ensures Text(w.log.store, w.log.base, w.rx.unack) <= w.written
    ensures w.rx.begin - w.log.base == |w.packets| ==> Text(w.log.store, w.log.base, w.rx.begin) == w.written
  {
    hide TxOk, FlowOk, FwdOk, BackOk, AckedOk, NextOk, FinOk, RxOk, WindowOk, StoreOk, Bytes, Text;
    RxInPackets(w);
    var n := w.rx.unack - w.log.base;
    TextIsBytes(w.tx, w.log.base, w.packets, w.log.store, n);
    BytesPrefix(w.packets, n);
    if w.rx.begin - w.log.base == |w.packets| {
      TextIsBytes(w.tx, w.log.base, w.packets, w.log.store, |w.packets|);
      assert w.packets[..|w.packets|] == w.packets;
    }
  }

  lemma EosFacts(w: World)
    requires Inv(w) && w.rx.eos
    ensures w.rx.begin - w.log.base == |w.packets| && w.closed && PartlyRead(w.rx) == []
  {
    hide WellFormed, StoreOk, FlowOk, FwdOk, BackOk, AckedOk, NextOk, Holds, FirstMissing, Text, Bytes;
    assert w.rx.window == [];
  }

  /** End-to-end safety of one direction of a connection, over every run: any interleaving of
      writes, flushes, close, transmissions and retransmissions, acks, flow control, losses,
      deliveries and reads, from any earlier state of the two endpoints. */
  lemma EndToEnd(tx: TxState, rx: RxState, start: SeqNum, control: bool, steps: seq<Step>)
    requires WellFormed(tx) && RxWellFormed(rx) && rx.reading == None && LegalRun(steps)
    ensures Inv(Initial(tx, rx, start, control))
    ensures var w := Run(Initial(tx, rx, start, control), steps);
            && w.log.read <= w.written == Bytes(w.packets)
            && (w.rx.eos ==> w.closed && w.log.read == w.written)
  {
    InitialInv(tx, rx, start, control);
    hide Run, LegalRun, Initial, Bytes, TxOk, WindowOk, StoreOk, RxOk, FlowOk, FwdOk, BackOk, AckedOk, FinOk, NextOk,
         WellFormed, RxWellFormed;
    SafeState(Run(Initial(tx, rx, start, control), steps));
  }

  // ----- what the invariant says in every reachable state -----

  /** 12-bit ids suffice: every packet in flight is taken for the position it was sent for,
      except that a flow-control packet may carry the position just out of reach, and is then rejected. */
  lemma IdsSuffice(w: World)
    requires Inv(w)
    ensures forall i :: 0 <= i < |w.fwd| ==>
              |w.fwd[i].bytes| >= 2 && Restore(w.rx.begin, PacketId(LoadHeader(w.fwd[i].bytes))) == w.fwd[i].pos
    ensures forall i :: 0 <= i < |w.back| && IsAck(w.back[i].bytes) ==>
              Restore(w.tx.begin, PacketId(LoadHeader(w.back[i].bytes))) == w.back[i].value
    ensures forall i :: 0 <= i < |w.back| && IsHimark(w.back[i].bytes) ==>
              var h := Restore(w.tx.begin, PacketId(LoadHeader(w.back[i].bytes)));
              h == w.back[i].value || (w.back[i].value == w.tx.begin + HALF_IDS && h < w.tx.himark)
  {
    hide StoreOk, AckedOk, NextOk, Bytes, RxOk, TxOk, WindowOk, FinOk, FlowOk, Restore, LoadHeader, PacketId, Claims;
    forall i | 0 <= i < |w.fwd|
      ensures |w.fwd[i].bytes| >= 2 && Restore(w.rx.begin, PacketId(LoadHeader(w.fwd[i].bytes))) == w.fwd[i].pos
    {
      assert FwdItemOk(w.tx, w.rx, w.log.base, w.packets, w.sentTo, w.fwd[i]);
      DataIdExact(w, w.fwd[i]);
    }
    forall i | 0 <= i < |w.back| && IsAck(w.back[i].bytes)
      ensures Restore(w.tx.begin, PacketId(LoadHeader(w.back[i].bytes))) == w.back[i].value
    {
      assert BackItemOk(w.tx, w.rx, w.log.base, w.log.store, w.back[i]);
      AckIdExact(w, w.back[i]);
    }
    forall i | 0 <= i < |w.back| && IsHimark(w.back[i].bytes)
      ensures var h := Restore(w.tx.begin, PacketId(LoadHeader(w.back[i].bytes)));
              h == w.back[i].value || (w.back[i].value == w.tx.begin + HALF_IDS && h < w.tx.himark)
    {
      assert BackItemOk(w.tx, w.rx, w.log.base, w.log.store, w.back[i]);
      HimarkIdExactOrRejected(w, w.back[i]);
    }
  }

  /** Flow control: the transmitter's credit never exceeds the receiver's space, what is queued
      stays within the credit except for the final packet, which exceeds it by at most one, and a
      data packet in flight never finds the receive window too small. */
  lemma FlowControlIsSafe(w: World)
    requires Inv(w)
    ensures w.tx.himark <= w.rx.begin + w.rx.capacity
    ensures w.tx.Open() && !w.closed ==> w.tx.End() <= w.tx.himark
    ensures w.tx.End() <= w.tx.himark + 1
    ensures forall i :: 0 <= i < |w.fwd| && w.fwd[i].pos >= w.rx.End() && !w.packets[w.fwd[i].pos - w.log.base].fin ==>
              w.fwd[i].pos - w.rx.End() + 1 <= w.rx.Free() && !w.rx.peerClosed
  {
    hide StoreOk, BackOk, AckedOk, NextOk, Bytes, Refines, BufferOk, PktOk;
    forall i | 0 <= i < |w.fwd| && w.fwd[i].pos >= w.rx.End() && !w.packets[w.fwd[i].pos - w.log.base].fin
      ensures w.fwd[i].pos - w.rx.End() + 1 <= w.rx.Free() && !w.rx.peerClosed
    {
      assert FwdItemOk(w.tx, w.rx, w.log.base, w.packets, w.sentTo, w.fwd[i]);
      hide Frozen, DataBytes;
    }
  }

  /** Skip-acks: every buffer removed from the window or marked acked is one the receiver has
      stored, so no packet it lacks is abandoned; the front of the window is never marked acked. */
  lemma AcksAreSound(w: World, p: int)
    requires Inv(w) && w.log.base <= p < w.tx.End()
    ensures p < w.tx.begin || w.tx.Buf(p).acked ==> p in w.log.store
    ensures p == w.tx.begin ==> !w.tx.Buf(p).acked
  {
    hide WellFormed, StoreOk, FlowOk, FwdOk, BackOk, NextOk, Bytes, FinOk, WindowOk;
    RxInPackets(w);
    hide RxOk;
  }

  /** The checks in the code that abort the program never fire: the credit check of `tryWrite`,
      the check of `tryRead` that a final packet is the last one; and `next_to_send_` is never the
      one value for which the membership test of an empty window is wrong. */
  lemma ChecksNeverFire(w: World)
    requires Inv(w)
    ensures Writable(w.tx) ==> w.tx.End() <= w.tx.himark
    ensures FinIsLast(w.rx) && RxWellFormed(w.rx) && w.rx.state == Connected
    ensures forall count :: ReadChecks(w.rx, count)
    ensures !Misjudged(w.tx)
  {
    hide WindowOk, StoreOk, RxOk, FlowOk, FwdOk, BackOk, AckedOk, Bytes, BufferOk, FinOk, FinIsLast, NextOk;
    FinalPacketIsLast(w);
    InvStates(w);
    ReadChecksAlways(w.rx);
    NeverMisjudged(w);
    hide Misjudged;
  }

  lemma ReadChecksAlways(s: RxState)
    requires RxWellFormed(s) && s.state == Connected && FinIsLast(s)
    ensures forall count :: ReadChecks(s, count)
  {
    forall count ensures ReadChecks(s, count) { FinLastChecks(s, count); }
  }

  lemma NeverMisjudged(w: World)
    requires WellFormed(w.tx) && RxOk(w) && NextOk(w)
    ensures !Misjudged(w.tx)
  {
    CapacityFacts(w.rx);
    hide Refines, BufferOk;
    if w.tx.window == [] {
      WrapMinus(w.next, w.tx.begin);
    }
  }

  /** No wedge: in every state, once the front packet is due and within the credit, `getBufferToSend` returns a
      packet. */
  lemma NoWedge(w: World, now: nat, draw: nat)
    requires Inv(w) && w.tx.state == Connected && w.tx.window != [] && w.tx.begin < w.tx.himark
    requires SendProgress.Due(w.tx.window[0]) <= now < UPTIME_MAX && draw <= RANDOM_MAX
    ensures WellFormed(w.tx) && Send(w.tx, now, draw, 0).sent.Some?
  {
    hide TxOk, WindowOk, StoreOk, RxOk, FlowOk, FwdOk, BackOk, AckedOk, FinOk, NextOk, Bytes, WellFormed;
    InvStates(w);
    WindowInv(w);
    AcksAreSound(w, w.tx.begin);
    assert w.tx.Buf(w.tx.begin) == w.tx.window[0];
    hide Inv, Send;
    SendProgress.SendsWhenDue(w.tx, now, draw, 0);
  }

  // ----- frozen packets -----

  /** The packet at position `p`, frozen in `w`, is the same in `v`; if it is still in the window, so are its bytes. */
  ghost predicate StillThere(w: World, v: World, p: int) {
    && v.log.base == w.log.base <= p < v.tx.End() && Frozen(v.tx, p)
    && w.tx.begin <= v.tx.begin
    && p - w.log.base < |w.packets| && p - w.log.base < |v.packets|
    && v.packets[p - w.log.base] == w.packets[p - w.log.base]
    && (v.tx.begin <= p ==> p < w.tx.End() && v.tx.Buf(p).Bytes() == w.tx.Buf(p).Bytes())
  }

  lemma StillThereTrans(w: World, u: World, v: World, p: int)
    requires StillThere(w, u, p) && StillThere(u, v, p)
    ensures StillThere(w, v, p)
  {
    hide Frozen;
  }

  /** Steps never change a packet that has been sent or stored, nor the bytes of a frozen buffer. */
  lemma FrozenForever(w: World, e: Step, p: int)
    requires Inv(w) && Connection.Legal(e) && w.log.base <= p < w.tx.End() && Frozen(w.tx, p)
    ensures WellFormed(w.tx) && RxWellFormed(w.rx)
    ensures StillThere(w, Connection.Next(w, e), p)
  {
    hide TxOk, StoreOk, RxOk, FlowOk, FwdOk, BackOk, AckedOk, FinOk, NextOk, Bytes, WellFormed, RxWellFormed;
    InvStates(w);
    var v := Connection.Next(w, e);
    NextEvolves(w, e);
    hide Connection.Next, History;
    HistoryAt(w.packets, w.log.base, w.tx, v.tx, p);
    hide Inv, WindowOk;
  }

  /** Every step lets the window evolve, and the history records it. */
  ghost predicate StepEvolves(w: World, v: World) {
    Evolves(w.tx, v.tx) && v.log.base == w.log.base && v.packets == History(w.packets, w.log.base, v.tx)
  }

  lemma SameTxEvolves(w: World, v: World)
    requires Inv(w) && v.tx == w.tx && v.packets == w.packets && v.log.base == w.log.base
    ensures StepEvolves(w, v)
  {
    hide TxOk, WindowOk, StoreOk, RxOk, FlowOk, FwdOk, BackOk, AckedOk, FinOk, NextOk, Bytes, History;
    Unchanged(w);
  }

  lemma WriteEvolves(w: World, data: seq<byte>)
    requires Inv(w) && WellFormed(w.tx)
    ensures StepEvolves(w, StepWrite(w, data))
  {
    hide WellFormed, WindowOk, StoreOk, RxOk, FlowOk, FwdOk, BackOk, AckedOk, FinOk, NextOk, Bytes, Wrote, WriteLoop,
         History, PktsOf;
    if data == [] || !Writable(w.tx) {
      hide Quiet;
      Unchanged(w);
      SameTxEvolves(w, Observe(w, w.tx));
    } else {
      WriteLoopWrote(w.tx, data);
      var r := TryWrite(w.tx, data);
      WroteFacts(w.tx, r.next, data[..r.written]);
      hide Quiet;
      QuietEvolves(w.tx, r.next);
    }
  }

  lemma CloseEvolves(w: World)
    requires Inv(w) && WellFormed(w.tx)
    ensures StepEvolves(w, StepClose(w))
  {
    hide WellFormed, WindowOk, StoreOk, RxOk, FlowOk, FwdOk, BackOk, AckedOk, FinOk, NextOk, Bytes, Close, History,
         PktsOf, Quiet;
    if Writable(w.tx) {
      QuietOfClose(w.tx);
      QuietEvolves(w.tx, Close(w.tx));
    } else {
      CloseUnchanged(w);
      SameTxEvolves(w, w);
    }
  }

  lemma ConnectEvolves(w: World)
    requires Inv(w)
    ensures StepEvolves(w, StepConnect(w))
  {
    hide WindowOk, StoreOk, RxOk, FlowOk, FwdOk, BackOk, AckedOk, FinOk, NextOk, Bytes, History, PktsOf;
    if w.tx.state == Connecting {
      assert forall p :: w.tx.begin <= p < w.tx.End() ==> StepConnect(w).tx.Buf(p) == w.tx.Buf(p);
    } else {
      SameTxEvolves(w, w);
    }
  }

  lemma SendEvolves(w: World, now: nat, draw: nat)
    requires Inv(w) && WellFormed(w.tx) && draw <= RANDOM_MAX
    ensures StepEvolves(w, StepSend(w, now, draw))
  {
    hide WellFormed, WindowOk, StoreOk, RxOk, FlowOk, FwdOk, BackOk, AckedOk, FinOk, NextOk, Bytes, History, PktsOf,
         Fallback, FastIndex, FreshToSend, SendBuffer, Quiet;
    var r := Send(w.tx, now, draw, 0);
    if r.sent.None? {
      Unchanged(w);
      SameTxEvolves(w, w);
    } else {
      SendBufferQuiet(w.tx, r.sent.value, now, draw);
      QuietEvolves(w.tx, r.next);
    }
  }

  lemma EvolvesTrans(s: TxState, t: TxState, u: TxState)
    requires Evolves(s, t) && Evolves(t, u) && u.begin <= s.End()
    ensures Evolves(s, u)
  {
    forall p | u.begin <= p < s.End() ensures Grows(s.Buf(p), u.Buf(p)) {
      assert Grows(s.Buf(p), t.Buf(p));
      assert Grows(t.Buf(p), u.Buf(p));
    }
  }

  lemma AckEvolves(w: World)
    requires Inv(w) && w.back != [] && IsAck(w.back[0].bytes) && WellFormed(w.tx)
    ensures Evolves(w.tx, ReceiveFeedback(w.tx, w.back[0].bytes))
  {
    hide WellFormed, WindowOk, StoreOk, RxOk, FlowOk, FwdOk, BackOk, AckedOk, FinOk, NextOk, Bytes, History, PktsOf,
         PopFront,
         ApplyBitmap, IsAck, Claims, Evolves, TxOk;
    AckStepShape(w);
    var b := w.back[0];
    if w.tx.state == Connected {
      var n := b.value - w.tx.begin;
      var s := PopFront(w.tx, n);
      PopFrontEvolves(w.tx, n);
      PopBounds(w, n);
      var t := ReceiveFeedback(w.tx, b.bytes);
      hide ReceiveFeedback;
      if s.window != [] {
        MarkShape(s, b.bytes[2..]);
        EvolvesTrans(w.tx, s, t);
      } else if s.eos {
        ResetEvolves(s);
        EvolvesTrans(w.tx, s, t);
      }
    } else {
      SelfEvolves(w.tx);
    }
  }

  lemma ResetEvolves(s: TxState)
    requires s.window == []
    ensures Evolves(s, Reset(s))
  {
  }

  lemma SelfEvolves(s: TxState)
    ensures Evolves(s, s)
  {
  }

  lemma FeedbackEvolves(w: World)
    requires Inv(w) && WellFormed(w.tx)
    ensures StepEvolves(w, StepFeedback(w))
  {
    hide WellFormed, WindowOk, StoreOk, RxOk, FlowOk, FwdOk, AckedOk, FinOk, NextOk, Bytes, History, PktsOf, IsAck,
         IsHimark, TxOk,
         AckItemOk, HimarkItemOk, InOrder, ReceiveFeedback;
    if w.back == [] {
      SameTxEvolves(w, w);
    } else {
      assert BackItemOk(w.tx, w.rx, w.log.base, w.log.store, w.back[0]);
      hide BackOk;
      if IsAck(w.back[0].bytes) {
        AckEvolves(w);
      } else {
        HimarkStepShape(w);
      }
    }
  }

  lemma NextEvolves(w: World, e: Step)
    requires Inv(w) && Connection.Legal(e) && WellFormed(w.tx) && RxWellFormed(w.rx)
    ensures StepEvolves(w, Connection.Next(w, e))
  {
    hide TxOk, WindowOk, StoreOk, RxOk, FlowOk, FwdOk, BackOk, AckedOk, FinOk, NextOk, Bytes, WellFormed,
         RxWellFormed, Inv,
         StepConnect, StepWrite, StepClose, StepSend, StepFeedback, History, PktsOf, StepEvolves, Flush, TryRead,
         ReceiveData, Acknowledge;
    match e
    case Connect => ConnectEvolves(w);
    case Write(data) => WriteEvolves(w, data);
    case FlushOut => FlushEvolves(w);
    case CloseOut => CloseEvolves(w);
    case SendData(now, draw) => SendEvolves(w, now, draw);
    case LoseData(i) => SameTxEvolves(w, Connection.Next(w, e));
    case DeliverData => SameTxEvolves(w, Connection.Next(w, e));
    case SendAck => SameTxEvolves(w, Connection.Next(w, e));
    case SendHimark(now) => SameTxEvolves(w, Connection.Next(w, e));
    case LoseFeedback(i) => SameTxEvolves(w, Connection.Next(w, e));
    case DeliverFeedback => FeedbackEvolves(w);
    case Read(count) => SameTxEvolves(w, Connection.Next(w, e));
    case Poll => SameTxEvolves(w, Connection.Next(w, e));
  }

  lemma FlushEvolves(w: World)
    requires Inv(w) && WellFormed(w.tx)
    ensures StepEvolves(w, Observe(w, Flush(w.tx)))
  {
    hide WellFormed, WindowOk, StoreOk, RxOk, FlowOk, FwdOk, BackOk, AckedOk, FinOk, NextOk, Bytes, History, PktsOf,
         Flush, Quiet;
    FlushQuiet(w.tx);
    QuietEvolves(w.tx, Flush(w.tx));
  }

  /** Over every run: once the packet at a position is frozen (as it is when first sent), its content
      never changes, and while it is in the window every transmission of it carries the same bytes. */
  lemma {:induction false} FrozenAlways(w: World, steps: seq<Step>, p: int)
    requires Inv(w) && LegalRun(steps) && w.log.base <= p < w.tx.End() && Frozen(w.tx, p)
    ensures StillThere(w, Run(w, steps), p)
    decreases |steps|
  {
    hide Inv, WellFormed, RxWellFormed, Frozen;
    if steps == [] {
      WindowInv(w);
    } else {
      FrozenForever(w, steps[0], p);
      NextKeeps(w, steps[0]);
      var v := Connection.Next(w, steps[0]);
      hide Connection.Next;
      FrozenAlways(v, steps[1..], p);
      StillThereTrans(w, v, Run(v, steps[1..]), p);
      hide StillThere;
    }
  }

  lemma WindowInv(w: World)
    requires Inv(w)
    ensures |w.packets| == w.tx.End() - w.log.base && w.log.base <= w.tx.begin
  {
    hide TxOk, StoreOk, RxOk, FlowOk, FwdOk, BackOk, AckedOk, FinOk, NextOk, Bytes;
  }

  // ----- packets in flight -----

  /** The packets in flight carry a control bit. */
  ghost predicate AllCarry(fwd: seq<InFlight>, bit: bool) {
    forall i :: 0 <= i < |fwd| ==> |fwd[i].bytes| >= 2 && ControlBit(LoadHeader(fwd[i].bytes)) == bit
  }

  /** The queue after a step: old packets, or a copy of one in the window. */
  lemma FwdAfter(w: World, e: Step, i: nat)
    requires WellFormed(w.tx) && RxWellFormed(w.rx) && Connection.Legal(e) && i < |Connection.Next(w, e).fwd|
    ensures var v := Connection.Next(w, e);
            (v.fwd[i] in w.fwd || exists k :: 0 <= k < |v.tx.window| && v.fwd[i].bytes == v.tx.window[k].Bytes())
  {
  }
}
