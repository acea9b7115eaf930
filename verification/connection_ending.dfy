/** The end of the stream is reported: in every run, a reader that has taken the final packet has been told. */
module ConnectionEnding {
  import opened Basics
  import opened RingBuffers
  import opened Protocol
  import opened Transmission
  import opened TransmissionFacts
  import opened Reception
  import ReceptionLog
  import opened Connection
  import opened ConnectionInvariant
  import opened ConnectionReceiveSteps
  import opened ConnectionTheorems

  /** Once the final packet has been read, the reader has been told. */
  ghost predicate Ended(w: World) {
    LastIsFin(w.packets) && w.rx.begin == w.log.base + |w.packets| ==> w.rx.eos
  }

  /** Reading past a final packet reports it. */
  lemma {:induction false} ReadPastFin(s: RxState, count: nat)
    requires RxWellFormed(s) && s.state == Connected && FinIsLast(s)
    ensures var t := ReadLoop(s, count).next;
            && (s.eos ==> t.eos)
            && (EndsWithFin(s) && t.begin == s.End() ==> t.eos)
    decreases |s.window|
  {
    hide RxWellFormed, ReadLoop;
    ReadRound(s, count);
    if s.window != [] && s.window[0].Stored? {
      var s2, n := PopRead(Touch(s)), |s.window[0].data| - Touch(s).reading.value;
      assert forall k :: 0 <= k < |s2.window| ==> s2.window[k] == s.window[k + 1];
      if count > n && !s.window[0].fin { ReadPastFin(s2, count - n); }
    }
  }

  /** The last packet ever queued does not become or cease to be final. */
  lemma LastFinStays(w: World, v: World)
    requires Inv(w) && Inv(v) && StepEvolves(w, v) && |v.packets| == |w.packets|
    ensures LastIsFin(v.packets) ==> LastIsFin(w.packets)
  {
    hide TxOk, StoreOk, RxOk, FlowOk, FwdOk, BackOk, AckedOk, FinOk, NextOk, Bytes;
    if w.packets != [] {
      var p := w.tx.End() - 1;
      if p < v.tx.begin {
        assert v.packets[p - w.log.base] == w.packets[p - w.log.base];
      } else {
        assert Grows(w.tx.Buf(p), v.tx.Buf(p));
        assert w.packets[p - w.log.base] == PktOf(w.tx.Buf(p)) && v.packets[p - w.log.base] == PktOf(v.tx.Buf(p));
      }
    }
  }

  /** Steps other than reading leave the reader's side of the receiver alone. */
  lemma ReaderFrame(w: World, e: Step)
    requires WellFormed(w.tx) && RxWellFormed(w.rx) && Connection.Legal(e) && !e.Read?
    ensures var v := Connection.Next(w, e);
            v.rx.begin == w.rx.begin && v.rx.eos == w.rx.eos && v.log.base == w.log.base
  {
    hide WellFormed, RxWellFormed, TryWrite, Close, Send, ReceiveFeedback, ReceiveData, AckBytes, Header, History,
         ReceptionLog.LogArrive, Flush, IsData;
    if e.DeliverData? && w.fwd != [] {
      DataFrame(w.rx, w.fwd[0].bytes);
      LogFrame(w);
    }
  }

  lemma DataFrame(s: RxState, bytes: seq<byte>)
    requires RxWellFormed(s)
    ensures ReceiveData(s, bytes).begin == s.begin && ReceiveData(s, bytes).eos == s.eos
    ensures ReceiveData(s, bytes).himarkExpiration == s.himarkExpiration
  {
    hide RxWellFormed, NextUnset, LoadHeader, Restore, ControlBit, PacketKind, PacketId;
  }

  lemma LogFrame(w: World)
    requires RxWellFormed(w.rx) && w.fwd != []
    ensures StepDeliver(w).log.base == w.log.base && StepDeliver(w).log.read == w.log.read
  {
    hide RxWellFormed, ReceiveData, LoadHeader, Restore, IsData;
  }

  lemma GrowingPackets(w: World, v: World)
    requires Inv(w) && Inv(v) && StepEvolves(w, v)
    ensures |v.packets| >= |w.packets| && w.rx.begin <= w.log.base + |w.packets|
  {
    RxInPackets(w);
    hide TxOk, StoreOk, RxOk, FlowOk, FwdOk, BackOk, AckedOk, FinOk, NextOk, Bytes;
  }

  lemma NextEnded(w: World, e: Step)
    requires Inv(w) && Ended(w) && Connection.Legal(e)
    ensures WellFormed(w.tx) && RxWellFormed(w.rx) && Ended(Connection.Next(w, e))
  {
    hide Inv, WellFormed, RxWellFormed, Connection.Next, StepEvolves;
    NextKeeps(w, e);
    var v := Connection.Next(w, e);
    NextEvolves(w, e);
    GrowingPackets(w, v);
    if e.Read? {
      ReadEnded(w, e.count);
      ReadIsStep(w, e.count);
    } else {
      ReaderFrame(w, e);
      if |v.packets| == |w.packets| { LastFinStays(w, v); }
    }
  }

  lemma ReadIsStep(w: World, count: nat)
    requires WellFormed(w.tx) && RxWellFormed(w.rx)
    ensures Connection.Next(w, Read(count)) == StepRead(w, count)
  {
  }

  lemma ReadEnded(w: World, count: nat)
    requires Inv(w) && Ended(w) && RxWellFormed(w.rx)
    ensures Ended(StepRead(w, count))
  {
    hide TxOk, FlowOk, FwdOk, BackOk, AckedOk, NextOk, Bytes, RxWellFormed, ReadLoop;
    InvStates(w);
    FinalPacketIsLast(w);
    ReadPastFin(w.rx, count);
    ReadLoopMoves(w.rx, count);
    UnackInWindow(ReadLoop(w.rx, count).next);
    var v := StepRead(w, count);
    if LastIsFin(v.packets) && v.rx.begin == v.log.base + |v.packets| && w.rx.begin < v.rx.begin {
      FinalStored(w);
    }
  }

  /** A final packet that has arrived ends the receive window. */
  lemma FinalStored(w: World)
    requires Inv(w) && LastIsFin(w.packets) && w.rx.begin < w.log.base + |w.packets| <= w.rx.End()
    requires w.log.base + |w.packets| <= w.rx.unack
    ensures EndsWithFin(w.rx) && w.rx.End() == w.log.base + |w.packets|
  {
    hide TxOk, FlowOk, FwdOk, BackOk, AckedOk, NextOk, Bytes, RxWellFormed, FinOk, ReceptionLog.Text;
    RxInPackets(w);
    var p := w.log.base + |w.packets| - 1;
    assert p in w.log.store;
    assert w.rx.window[p - w.rx.begin] == ReceptionLog.At(w.log.store, p);
  }

  /** Over every run, the reader of a final packet has been told. */
  lemma {:induction false} RunEnded(w: World, steps: seq<Step>)
    requires Inv(w) && Ended(w) && LegalRun(steps)
    ensures Ended(Run(w, steps))
    decreases |steps|
  {
    hide Inv, Run, Ended, Connection.Next, WellFormed, RxWellFormed;
    RunUnfolds(w, steps);
    if steps != [] {
      NextEnded(w, steps[0]);
      RunEnded(Connection.Next(w, steps[0]), steps[1..]);
    }
  }
}
