/** The receive window refines a first-write-wins map from positions to packets.

`Log` is the simple form: every packet ever accepted, by position, and every byte
ever handed to the reader.  Whatever the order or repetition of arrivals, the
window holds exactly the part of the map that has not been read, `unack` is the
first position the map lacks, and the bytes read are the packets in order.
*/
module ReceptionLog {
  import opened Basics
  import opened RingBuffers
  import opened InBuffers
  import opened Reception

  type Store = map<int, InBuffer>

  datatype Log = Log(base: int, store: Store, read: seq<byte>)

  function DataAt(store: Store, p: int): seq<byte> {
    if p in store && store[p].Stored? then store[p].data else []
  }

  /** The bytes of the packets at positions `a` up to `b`, in order. */
  function Text(store: Store, a: int, b: int): seq<byte>
    decreases b - a
  {
    if b <= a then [] else Text(store, a, b - 1) + DataAt(store, b - 1)
  }

  lemma {:induction false} TextLocal(m: Store, n: Store, a: int, b: int)
    requires forall p :: a <= p < b ==> DataAt(m, p) == DataAt(n, p)
    ensures Text(m, a, b) == Text(n, a, b)
    decreases b - a
  {
    if a < b { TextLocal(m, n, a, b - 1); }
  }

  function At(store: Store, p: int): InBuffer {
    if p in store then store[p] else Unset
  }

  predicate Holds(store: Store, base: int, s: RxState) {
    && (forall p :: p in store ==> base <= p < s.End() && store[p].Stored?)
    && (forall k :: 0 <= k < |s.window| ==> s.window[k] == At(store, s.begin + k))
  }

  /** Everything before the first missing position is there, and that position is not. */
  predicate FirstMissing(store: Store, base: int, u: int) {
    && base <= u && u !in store
    && forall p :: base <= p < u ==> p in store
  }

  function PartlyRead(s: RxState): seq<byte> {
    if s.reading.Some? && s.window != [] && s.window[0].Stored? && s.reading.value <= |s.window[0].data|
    then s.window[0].data[..s.reading.value] else []
  }

  predicate Refines(s: RxState, log: Log) {
    && RxWellFormed(s) && s.state == Connected
    && log.base <= s.begin
    && Holds(log.store, log.base, s)
    && FirstMissing(log.store, log.base, s.unack)
    && log.read == Text(log.store, log.base, s.begin) + PartlyRead(s)
  }

  // ----- one event -----

  function FirstWrite(store: Store, p: int, b: InBuffer): Store {
    if p in store then store else store[p := b]
  }

  function LogArrive(s: RxState, log: Log, control: bool, id: nat, payload: seq<byte>, fin: bool): Log {
    var p := Restore(s.begin, id);
    if control != s.control && Accepts(s, p)
    then log.(store := FirstWrite(log.store, p, Stored(fin, payload))) else log
  }

  lemma ExtendHolds(s: RxState, log: Log, k: nat)
    requires Holds(log.store, log.base, s)
    ensures Holds(log.store, log.base, Extend(s, k))
  {
    var t := Extend(s, k);
    forall i | 0 <= i < |t.window| ensures t.window[i] == At(log.store, t.begin + i) {
      if i < |s.window| { assert t.window[i] == s.window[i]; }
    }
  }

  lemma ExtendRefines(s: RxState, log: Log, k: nat)
    requires Refines(s, log) && k < s.capacity
    ensures Refines(Extend(s, k), log) && k < |Extend(s, k).window|
  {
    ExtendKeeps(s, k);
    ExtendHolds(s, log, k);
    assert PartlyRead(Extend(s, k)) == PartlyRead(s);
    hide RxWellFormed, Holds, FirstMissing, Text, PartlyRead;
  }

  lemma StoreAtHolds(s: RxState, log: Log, k: nat, b: InBuffer)
    requires Refines(s, log) && k < |s.window| && b.Stored? && b.Valid()
    ensures Holds(FirstWrite(log.store, s.begin + k, b), log.base, StoreAt(s, k, b))
  {
    hide RxWellFormed, FirstMissing, Text, PartlyRead, NextUnset;
    UnackInWindow(s);
    var t := StoreAt(s, k, b);
    var store := FirstWrite(log.store, s.begin + k, b);
    assert s.window[k] == At(log.store, s.begin + k);
    forall i | 0 <= i < |t.window| ensures t.window[i] == At(store, t.begin + i) {
      assert s.window[i] == At(log.store, s.begin + i);
    }
  }

  lemma StoreAtFirstMissing(s: RxState, log: Log, k: nat, b: InBuffer)
    requires Refines(s, log) && k < |s.window| && b.Stored? && b.Valid()
    ensures FirstMissing(FirstWrite(log.store, s.begin + k, b), log.base, StoreAt(s, k, b).unack)
  {
    var t := StoreAt(s, k, b);
    var store := FirstWrite(log.store, s.begin + k, b);
    StoreAtHolds(s, log, k, b);
    StoreAtKeeps(s, k, b);
    forall p | log.base <= p < t.unack ensures p in store {
      if p >= s.begin {
        assert t.window[p - s.begin] == At(store, p);
      }
    }
    if t.unack < t.End() {
      assert t.window[t.unack - t.begin] == At(store, t.unack);
    }
  }

  lemma StoreAtRefines(s: RxState, log: Log, k: nat, b: InBuffer)
    requires Refines(s, log) && k < |s.window| && b.Stored? && b.Valid()
    ensures Refines(StoreAt(s, k, b), log.(store := FirstWrite(log.store, s.begin + k, b)))
  {
    var t := StoreAt(s, k, b);
    var store := FirstWrite(log.store, s.begin + k, b);
    StoreAtKeeps(s, k, b);
    StoreAtHolds(s, log, k, b);
    StoreAtFirstMissing(s, log, k, b);
    TextLocal(log.store, store, log.base, s.begin);
    assert PartlyRead(t) == PartlyRead(s);
  }

  /** A packet that arrives, at whatever position its id is taken for. */
  lemma ArriveRefines(s: RxState, log: Log, control: bool, id: nat, payload: seq<byte>, fin: bool)
    requires Refines(s, log) && Stored(fin, payload).Valid()
    ensures Refines(HandleData(s, control, id, payload, fin).next, LogArrive(s, log, control, id, payload, fin))
  {
    hide RxWellFormed, Holds, FirstMissing, Text, PartlyRead;
    var p := Restore(s.begin, id);
    if control != s.control && Accepts(s, p) {
      var k := p - s.begin;
      WindowFits(s);
      ExtendRefines(s, log, k);
      StoreAtRefines(Extend(s, k), log, k, Stored(fin, payload));
    } else {
      NeedsAckRefines(s, log, true);
    }
  }

  lemma WindowFits(s: RxState)
    requires RxWellFormed(s)
    ensures |s.window| <= s.capacity
  {
  }

  lemma NeedsAckRefines(s: RxState, log: Log, needed: bool)
    requires Refines(s, log)
    ensures Refines(s.(needsAck := needed), log)
  {
    assert PartlyRead(s.(needsAck := needed)) == PartlyRead(s);
  }

  lemma TouchRefines(s: RxState, log: Log)
    requires Refines(s, log)
    ensures Refines(Touch(s), log)
  {
    TouchFacts(s);
    assert PartlyRead(Touch(s)) == PartlyRead(s);
  }

  lemma AdvanceText(s: RxState, pos: nat)
    requires s.window != [] && s.reading.Some? && s.window[0].Stored? && s.reading.value <= pos <= |s.window[0].data|
    ensures PartlyRead(s.(reading := Some(pos))) == PartlyRead(s) + s.window[0].data[s.reading.value..pos]
  {
    var data := s.window[0].data;
    assert data[..s.reading.value] + data[s.reading.value..pos] == data[..pos];
  }

  lemma HoldsFrame(store: Store, base: int, s: RxState, t: RxState)
    requires Holds(store, base, s) && t.begin == s.begin && t.window == s.window
    ensures Holds(store, base, t)
  {
  }

  lemma AdvanceRefines(s: RxState, log: Log, pos: nat)
    requires Refines(s, log) && s.window != [] && s.reading.Some? && s.window[0].Stored?
    requires s.reading.value <= pos && CursorOk(s.window[0], pos)
    ensures Refines(s.(reading := Some(pos)), log.(read := log.read + s.window[0].data[s.reading.value..pos]))
  {
    hide RxWellFormed, FirstMissing, Text, Holds, PartlyRead;
    var t := s.(reading := Some(pos));
    AdvanceKeeps(s, pos);
    HoldsFrame(log.store, log.base, s, t);
    AdvanceText(s, pos);
    var more := s.window[0].data[s.reading.value..pos];
    assert Text(log.store, log.base, s.begin) + (PartlyRead(s) + more)
        == Text(log.store, log.base, s.begin) + PartlyRead(s) + more;
  }

  lemma PopReadHolds(s: RxState, log: Log)
    requires Holds(log.store, log.base, s) && s.window != []
    ensures Holds(log.store, log.base, PopRead(s))
  {
    var t := PopRead(s);
    forall k | 0 <= k < |t.window| ensures t.window[k] == At(log.store, t.begin + k) {
      assert s.window[k + 1] == At(log.store, s.begin + (k + 1));
    }
  }

  lemma PopReadText(s: RxState, log: Log)
    requires Refines(s, log) && s.reading.Some? && s.window != [] && s.window[0].Stored?
    ensures s.reading.value <= |s.window[0].data|
    ensures Text(log.store, log.base, s.begin + 1) == log.read + s.window[0].data[s.reading.value..]
  {
    hide FirstMissing;
    var data := s.window[0].data;
    assert s.window[0] == At(log.store, s.begin + 0);
    assert data[..s.reading.value] + data[s.reading.value..] == data;
    assert Text(log.store, log.base, s.begin + 1) == Text(log.store, log.base, s.begin) + data;
  }

  lemma PopReadRefines(s: RxState, log: Log)
    requires Refines(s, log) && s.reading.Some? && s.window != [] && s.window[0].Stored?
    ensures s.reading.value <= |s.window[0].data|
    ensures Refines(PopRead(s), log.(read := log.read + s.window[0].data[s.reading.value..]))
  {
    hide RxWellFormed, Holds, FirstMissing, Text;
    PopReadKeeps(s);
    PopReadHolds(s, log);
    PopReadText(s, log);
  }

  /** Reading hands out the next bytes of the packets in order. */
  lemma {:induction false} ReadLoopRefines(s: RxState, log: Log, count: nat)
    requires Refines(s, log)
    ensures var r := ReadLoop(s, count);
            Refines(r.next, log.(read := log.read + r.bytes))
    decreases |s.window|
  {
    hide RxWellFormed, Holds, FirstMissing, Text, PartlyRead, ReadLoop;
    var s1 := Touch(s);
    TouchRefines(s, log);
    ReadRound(s, count);
    var r := ReadLoop(s, count);
    if s.window == [] || s.window[0].Unset? {
      assert log.read + r.bytes == log.read;
    } else {
      hide Touch, PopRead;
      var data, pos := s.window[0].data, s1.reading.value;
      if count < |data| - pos {
        AdvanceRefines(s1, log, pos + count);
      } else {
        PopReadRefines(s1, log);
        var log1 := log.(read := log.read + data[pos..]);
        var left := count - (|data| - pos);
        if left > 0 && !s.window[0].fin {
          var rest := ReadLoop(PopRead(s1), left);
          ReadLoopRefines(PopRead(s1), log1, left);
          assert log.read + r.bytes == log1.read + rest.bytes;
        }
      }
    }
    hide Refines;
  }

  // ----- runs -----

  datatype Event =
    | Arrive(control: bool, id: nat, payload: seq<byte>, fin: bool)
    | Read(count: nat)
    | Poll
    | SendAck
    | SendHimark(now: nat)

  /** The packets the channel passes on: at most 248 bytes, and only final ones may be empty. */
  predicate Legal(e: Event) { e.Arrive? ==> Stored(e.fin, e.payload).Valid() }

  datatype Run = Run(s: RxState, log: Log)

  function Next(r: Run, e: Event): Run
    requires Refines(r.s, r.log)
  {
    match e
    case Arrive(control, id, payload, fin) =>
      Run(HandleData(r.s, control, id, payload, fin).next, LogArrive(r.s, r.log, control, id, payload, fin))
    case Read(count) =>
      var x := TryRead(r.s, count); Run(x.next, r.log.(read := r.log.read + x.bytes))
    case Poll => Run(Touch(r.s), r.log)
    case SendAck => Run(Acknowledge(r.s).next, r.log)
    case SendHimark(now) => Run(Advertise(r.s, now, 0).next, r.log)
  }

  lemma NextRefines(r: Run, e: Event)
    requires Refines(r.s, r.log) && Legal(e)
    ensures Refines(Next(r, e).s, Next(r, e).log)
  {
    match e
    case Arrive(control, id, payload, fin) => ArriveRefines(r.s, r.log, control, id, payload, fin);
    case Read(count) => ReadLoopRefines(r.s, r.log, count);
    case Poll => TouchRefines(r.s, r.log);
    case SendAck => NeedsAckRefines(r.s, r.log, false);
    case SendHimark(now) => assert PartlyRead(Advertise(r.s, now, 0).next) == PartlyRead(r.s);
  }

  function After(r: Run, events: seq<Event>): (t: Run)
    requires Refines(r.s, r.log) && forall i :: 0 <= i < |events| ==> Legal(events[i])
    ensures Refines(t.s, t.log)
    decreases |events|
  {
    if events == [] then r
    else NextRefines(r, events[0]); After(Next(r, events[0]), events[1..])
  }

  /** A receiver that has just been connected refines the empty log. */
  lemma ConnectedRefines(s: RxState, start: int, control: bool)
    requires RxWellFormed(s) && s.reading == None && 0 <= start < 0x1_0000
    ensures Refines(RxSetConnected(s, start, control), Log(start, map[], []))
  {
  }

  /** Over every run of arrivals (in any order, lost, repeated, conflicting or bogus),
      reads, polls and acks: the bytes read so far are a prefix of the packets stored before
      the first missing position, in order. */
  lemma ReadsArePrefix(s: RxState, start: int, control: bool, events: seq<Event>)
    requires RxWellFormed(s) && s.reading == None && 0 <= start < 0x1_0000
    requires forall i :: 0 <= i < |events| ==> Legal(events[i])
    ensures Refines(RxSetConnected(s, start, control), Log(start, map[], []))
    ensures var t := After(Run(RxSetConnected(s, start, control), Log(start, map[], [])), events);
            && FirstMissing(t.log.store, start, t.s.unack)
            && t.log.read <= Text(t.log.store, start, t.s.unack)
  {
    ConnectedRefines(s, start, control);
    var r := Run(RxSetConnected(s, start, control), Log(start, map[], []));
    BaseFixed(r, events);
    var t := After(r, events);
    ReadBeforeMissing(t.s, t.log);
  }

  lemma {:induction false} BaseFixed(r: Run, events: seq<Event>)
    requires Refines(r.s, r.log) && forall i :: 0 <= i < |events| ==> Legal(events[i])
    ensures After(r, events).log.base == r.log.base
    decreases |events|
  {
    if events != [] {
      NextRefines(r, events[0]);
      BaseFixed(Next(r, events[0]), events[1..]);
    }
  }

  lemma {:induction false} TextPrefix(store: Store, a: int, b: int, c: int)
    requires a <= b <= c
    ensures Text(store, a, b) <= Text(store, a, c)
    decreases c - b
  {
    if b < c { TextPrefix(store, a, b, c - 1); }
  }

  lemma ReadBeforeMissing(s: RxState, log: Log)
    requires Refines(s, log)
    ensures log.read <= Text(log.store, log.base, s.unack)
  {
    TextPrefix(log.store, log.base, s.begin, s.unack);
    if PartlyRead(s) != [] {
      assert s.window[0] == At(log.store, s.begin + 0);
      assert s.unack > s.begin;
      assert Text(log.store, log.base, s.begin + 1) == Text(log.store, log.base, s.begin) + s.window[0].data;
      TextPrefix(log.store, log.base, s.begin + 1, s.unack);
    }
  }

  /** A read stops short of what was asked for only at the first missing position. */
  lemma {:induction false} ReadLoopStops(s: RxState, count: nat)
    requires RxWellFormed(s) && s.state == Connected && FinIsLast(s)
    ensures var r := ReadLoop(s, count);
            && r.next.unack == s.unack
            && (|r.bytes| == count || (r.next.begin == s.unack && PartlyRead(r.next) == []))
    decreases |s.window|
  {
    hide RxWellFormed, PartlyRead, ReadLoop;
    ReadRound(s, count);
    AtGap(s);
    if s.window != [] && s.window[0].Stored? {
      var s2, n := PopRead(Touch(s)), |s.window[0].data| - Touch(s).reading.value;
      AtGap(s2);
      assert forall k :: 0 <= k < |s2.window| ==> s2.window[k] == s.window[k + 1];
      if count > n && !s.window[0].fin { ReadLoopStops(s2, count - n); }
    }
  }

  lemma AtGap(s: RxState)
    requires RxWellFormed(s)
    ensures s.window == [] || s.window[0].Unset? ==>
            s.begin == s.unack && PartlyRead(s) == [] && PartlyRead(Touch(s)) == []
  {
  }

  /** Reading is exact: it returns the next bytes of the packets stored before the first missing position, as
      many as were asked for or as there are. */
  lemma ReadsExactly(s: RxState, log: Log, count: nat)
    requires Refines(s, log) && FinIsLast(s)
    ensures var text := Text(log.store, log.base, s.unack);
            var end := if |log.read| + count < |text| then |log.read| + count else |text|;
            |log.read| <= |text| && log.read + ReadLoop(s, count).bytes == text[..end]
  {
    hide RxWellFormed, Holds, FirstMissing, FinIsLast, ReadLoop, Text, PartlyRead;
    var r := ReadLoop(s, count);
    ReadLoopRefines(s, log, count);
    ReadLoopStops(s, count);
    var log1 := log.(read := log.read + r.bytes);
    ReadBeforeMissing(s, log);
    ReadBeforeMissing(r.next, log1);
    if |r.bytes| != count {
      assert log1.read == Text(log.store, log.base, s.unack) + [];
    }
  }
}
