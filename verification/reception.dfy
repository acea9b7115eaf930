/** What the receiver computes (receiver.h, receiver.cpp), over values.

As on the sending side, positions are unbounded and the receive window is a
sequence that starts at the position `begin`; the class `Receiver` implements
these functions with 16-bit sequence numbers and a slot array.
*/
module Reception {
  import opened Basics
  import opened SeqNums
  import opened RingBuffers
  import opened Protocol
  import opened InBuffers

  datatype RxState = RxState(
    capacity: nat,
    begin: int,
    window: seq<InBuffer>,
    state: LinkState,
    peerClosed: bool,
    eos: bool,
    reading: Option<nat>,  // offset in the front slot, once `current_in_buffer_` points at it
    needsAck: bool,
    unack: int,
    control: bool,
    himarkExpiration: nat)
  {
    function End(): int { begin + |window| }

    /** The slot at a position of the window. */
    function Buf(p: int): InBuffer
      requires begin <= p < End()
    {
      window[p - begin]
    }

    function Free(): int { capacity - |window| }
  }

  /** What every sequence of calls keeps. */
  predicate RxWellFormed(s: RxState) {
    && IsCapacity(s.capacity)
    && |s.window| <= s.capacity
    && (forall k :: 0 <= k < |s.window| ==> s.window[k].Valid())
    && s.state != Broken
    && (s.state != Connected ==> s.window == [] && s.reading == None)
    && (s.state == Idle ==> !s.needsAck)
    && s.begin <= s.unack <= s.End()
    && (forall k :: 0 <= k < s.unack - s.begin ==> s.window[k].Stored?)
    && (s.unack < s.End() ==> s.window[s.unack - s.begin].Unset?)
    && (s.reading.Some? ==> s.window != [] && CursorOk(s.window[0], s.reading.value))
  }

  predicate CursorOk(b: InBuffer, pos: nat) {
    match b
    case Unset => pos == 0
    case Stored(fin, data) => if fin then pos <= |data| else pos < |data|
  }

  // ----- receiving -----

  /** The first index from `k` on whose slot is unset, or the window size. */
  function NextUnset(w: seq<InBuffer>, k: nat): (r: nat)
    requires k <= |w|
    ensures k <= r <= |w|
    ensures forall i :: k <= i < r ==> w[i].Stored?
    ensures r < |w| ==> w[r].Unset?
    decreases |w| - k
  {
    if k == |w| || w[k].Unset? then k else NextUnset(w, k + 1)
  }

  datatype DataResult = DataResult(next: RxState, ackToSend: bool, newData: bool)

  function Blank(n: nat): (r: seq<InBuffer>)
    ensures |r| == n
    ensures forall i :: 0 <= i < n ==> r[i] == Unset
  {
    seq(n, _ => Unset)
  }

  /** Stores a packet at window index `k`, if nothing is stored there yet. */
  function StoreAt(s: RxState, k: nat, b: InBuffer): RxState
    requires k < |s.window|
    requires s.begin <= s.unack <= s.End()
  {
    var w := if s.window[k].Unset? then s.window[k := b] else s.window;
    s.(window := w,
       peerClosed := s.peerClosed || (b.Stored? && b.fin),
       needsAck := true,
       unack := if s.begin + k == s.unack then s.begin + NextUnset(w, k + 1) else s.unack)
  }

  /** The window grown with unset slots so that it ends just after index `k`. */
  function Extend(s: RxState, k: nat): RxState {
    if k < |s.window| then s else s.(window := s.window + Blank(k + 1 - |s.window|))
  }

  /** A packet for position `p` is taken into the window. */
  predicate Accepts(s: RxState, p: int) {
    s.begin <= p && (p < s.End() || (!s.peerClosed && p < s.begin + s.capacity))
  }

  /** `handleDataPacket`. */
  function HandleData(s: RxState, control: bool, id: nat, payload: seq<byte>, fin: bool): DataResult
    requires RxWellFormed(s)
  {
    if s.state != Connected || control == s.control then DataResult(s, false, false)
    else
      var p := Restore(s.begin, id);
      if p < s.begin then DataResult(s.(needsAck := true), true, false)
      else if !Accepts(s, p) then DataResult(s, false, false)
      else
        var k := p - s.begin;
        DataResult(StoreAt(Extend(s, k), k, Stored(fin, payload)), true, p == s.unack)
  }

  // ----- reading -----

  datatype ReadResult = ReadResult(next: RxState, bytes: seq<byte>, ready: bool)

  /** Points the read cursor at the front slot, as reading, peeking and polling do. */
  function Touch(s: RxState): RxState {
    if s.reading.None? && s.window != [] then s.(reading := Some(0)) else s
  }

  /** Removes the front slot after all its bytes have been read. */
  function PopRead(s: RxState): RxState
    requires s.window != []
  {
    s.(begin := s.begin + 1, window := s.window[1..], reading := None, himarkExpiration := 0,
       eos := s.eos || (s.window[0].Stored? && s.window[0].fin))
  }

  lemma TouchFacts(s: RxState)
    requires RxWellFormed(s) && s.state == Connected
    ensures RxWellFormed(Touch(s)) && Touch(s).state == Connected && Touch(s).window == s.window
    ensures s.window != [] ==> Touch(s).reading.Some? && CursorOk(s.window[0], Touch(s).reading.value)
  {
  }

  /** The loop of `tryRead`. */
  function ReadLoop(s: RxState, count: nat): (r: ReadResult)
    requires RxWellFormed(s) && s.state == Connected
    ensures |r.bytes| <= count
    ensures RxWellFormed(r.next) && r.next.state == Connected
    decreases |s.window|
  {
    var s1 := Touch(s);
    TouchFacts(s);
    if s.window == [] || s.window[0].Unset? then ReadResult(s1, [], false)
    else
      var data, pos := s.window[0].data, s1.reading.value;
      if count < |data| - pos then
        AdvanceKeeps(s1, pos + count);
        ReadResult(s1.(reading := Some(pos + count)), data[pos..pos + count], false)
      else
        var s2 := PopRead(s1);
        PopReadKeeps(s1);
        var left := count - (|data| - pos);
        if s.window[0].fin || left == 0 then ReadResult(s2, data[pos..], true)
        else
          var rest := ReadLoop(s2, left);
          ReadResult(rest.next, data[pos..] + rest.bytes, true)
  }

  function TryRead(s: RxState, count: nat): (r: ReadResult)
    requires RxWellFormed(s)
    ensures |r.bytes| <= count
  {
    if s.state != Connected then ReadResult(s, [], false) else ReadLoop(s, count)
  }

  /** A final packet sits at the end of the window only: `tryRead` checks this and aborts otherwise. */
  predicate FinIsLast(s: RxState) {
    forall k :: 0 <= k < |s.window| - 1 ==> !(s.window[k].Stored? && s.window[k].fin)
  }

  /** The check of `tryRead` that nothing follows a final packet it has read, for one call. */
  predicate ReadChecks(s: RxState, count: nat)
    requires RxWellFormed(s) && s.state == Connected
    decreases |s.window|
  {
    var s1 := Touch(s);
    TouchFacts(s);
    if s.window == [] || s.window[0].Unset? then true
    else
      var left := count - (|s.window[0].data| - s1.reading.value);
      if left < 0 then true
      else if s.window[0].fin then |s.window| == 1
      else
        PopReadKeeps(s1);
        left == 0 || ReadChecks(PopRead(s1), left)
  }

  /** With a final packet only at the end of the window the check holds for every call. */
  lemma {:induction false} FinLastChecks(s: RxState, count: nat)
    requires RxWellFormed(s) && s.state == Connected && FinIsLast(s)
    ensures ReadChecks(s, count)
    decreases |s.window|
  {
    TouchFacts(s);
    if s.window != [] && s.window[0].Stored? {
      var s1 := Touch(s);
      PopReadKeeps(s1);
      var s2, left := PopRead(s1), count - (|s.window[0].data| - s1.reading.value);
      assert forall k :: 0 <= k < |s2.window| ==> s2.window[k] == s.window[k + 1];
      hide RxWellFormed;
      if left > 0 && !s.window[0].fin { FinLastChecks(s2, left); }
    }
  }

  /** `availableForRead`: the bytes left in the front slot, or 1 for a final packet. */
  function Available(s: RxState): nat
    requires RxWellFormed(s)
  {
    if s.window == [] || s.window[0].Unset? then 0
    else if s.window[0].fin then 1
    else |s.window[0].data| - Touch(s).reading.value
  }

  // ----- acknowledging -----

  /** Whether the position `j + 1` past the first missing one has arrived. */
  function ArrivedAfter(s: RxState, j: nat): bool
    requires s.begin <= s.unack
  {
    var k := s.unack - s.begin + 1 + j;
    k < |s.window| && s.window[k].Stored?
  }

  function AckBits(s: RxState): (bits: seq<bool>)
    requires s.begin <= s.unack
    ensures |bits| == 64
  {
    seq(64, j requires 0 <= j < 64 => ArrivedAfter(s, j))
  }

  function AckBytes(s: RxState): seq<byte>
    requires s.begin <= s.unack
  {
    Packet(Header(s.unack, DATA_ACK_PACKET, s.control), Trim(StoreBits(AckBits(s))))
  }

  datatype PacketResult = PacketResult(next: RxState, packet: seq<byte>)

  /** `ack`: an empty packet when there is nothing to acknowledge. */
  function Acknowledge(s: RxState): PacketResult
    requires RxWellFormed(s)
  {
    if (s.state != Connected && s.state != Idle) || !s.needsAck then PacketResult(s, [])
    else PacketResult(s.(needsAck := false), AckBytes(s))
  }

  const HIMARK_TIMEOUT := 100_000

  datatype HimarkPacket = HimarkPacket(next: RxState, packet: seq<byte>, nextSendMicros: int)

  function Min(a: int, b: int): int { if a < b then a else b }

  /** `updateRecvHimark`: advertises the position past the last one there is space for. */
  function Advertise(s: RxState, now: nat, nextSendMicros: int): HimarkPacket {
    if s.state == Connecting || s.state == Idle then HimarkPacket(s, [], nextSendMicros)
    else if now < s.himarkExpiration then
      HimarkPacket(s, [], Min(nextSendMicros, s.himarkExpiration - now))
    else
      HimarkPacket(s.(himarkExpiration := now + HIMARK_TIMEOUT),
                   Packet(Header(s.begin + s.capacity, FLOW_CONTROL_PACKET, s.control), []),
                   Min(nextSendMicros, HIMARK_TIMEOUT))
  }

  // ----- connection state -----

  /** `init`, when no read is in progress. */
  function RxInit(s: RxState): RxState {
    s.(begin := s.End(), unack := s.End(), window := [], peerClosed := false, eos := false, state := Connecting)
  }

  function RxSetConnected(s: RxState, start: SeqNum, control: bool): RxState {
    s.(begin := start, unack := start, window := [], state := Connected, control := control)
  }

  function RxReset(s: RxState): RxState {
    s.(begin := s.End(), unack := s.End(), window := [], state := Idle, peerClosed := false, eos := false,
       reading := None, needsAck := false, himarkExpiration := 0)
  }

  // ----- every operation keeps the invariant -----

  lemma PopReadKeeps(s: RxState)
    requires RxWellFormed(s) && s.state == Connected && s.window != [] && s.window[0].Stored?
    ensures RxWellFormed(PopRead(s))
  {
    var t := PopRead(s);
    assert s.unack > s.begin;
    assert forall k :: 0 <= k < |t.window| ==> t.window[k] == s.window[k + 1];
  }

  lemma StoreAtKeeps(s: RxState, k: nat, b: InBuffer)
    requires RxWellFormed(s) && s.state == Connected && k < |s.window| && b.Stored? && b.Valid()
    ensures RxWellFormed(StoreAt(s, k, b))
  {
    var t := StoreAt(s, k, b);
    assert s.unack - s.begin != k ==> t.window[s.unack - s.begin..] == t.window[s.unack - s.begin..];
  }

  lemma ExtendKeeps(s: RxState, k: nat)
    requires RxWellFormed(s) && s.state == Connected && k < s.capacity
    ensures RxWellFormed(Extend(s, k)) && k < |Extend(s, k).window|
  {
  }

  lemma HandleDataKeeps(s: RxState, control: bool, id: nat, payload: seq<byte>, fin: bool)
    requires RxWellFormed(s) && Stored(fin, payload).Valid()
    ensures RxWellFormed(HandleData(s, control, id, payload, fin).next)
  {
    var p := Restore(s.begin, id);
    if s.state == Connected && control != s.control && Accepts(s, p) {
      var k := p - s.begin;
      ExtendKeeps(s, k);
      StoreAtKeeps(Extend(s, k), k, Stored(fin, payload));
    }
  }

  lemma AdvanceKeeps(s: RxState, pos: nat)
    requires RxWellFormed(s) && s.state == Connected && s.window != [] && CursorOk(s.window[0], pos)
    ensures RxWellFormed(s.(reading := Some(pos)))
  {
  }

  /** One round of the reading loop. */
  lemma ReadRound(s: RxState, count: nat)
    requires RxWellFormed(s) && s.state == Connected
    ensures var s1 := Touch(s); RxWellFormed(s1) && s1.state == Connected && s1.window == s.window
    ensures s.window == [] || s.window[0].Unset? ==> ReadLoop(s, count) == ReadResult(Touch(s), [], false)
    ensures s.window != [] ==> Touch(s).reading.Some? && CursorOk(s.window[0], Touch(s).reading.value)
    ensures s.window != [] && s.window[0].Stored? ==>
              var s1, data := Touch(s), s.window[0].data;
              var s2, pos := PopRead(s1), s1.reading.value;
              && pos <= |data| && RxWellFormed(s2) && s2.state == Connected && |s2.window| < |s.window|
              && (count < |data| - pos ==>
                    && RxWellFormed(s1.(reading := Some(pos + count)))
                    && ReadLoop(s, count) == ReadResult(s1.(reading := Some(pos + count)), data[pos..pos + count],
                        false))
              && (count >= |data| - pos && (s.window[0].fin || count == |data| - pos) ==>
                    ReadLoop(s, count) == ReadResult(s2, data[pos..], true))
              && (count > |data| - pos && !s.window[0].fin ==>
                    var rest := ReadLoop(s2, count - (|data| - pos));
                    ReadLoop(s, count) == ReadResult(rest.next, data[pos..] + rest.bytes, true))
  {
    TouchFacts(s);
    if s.window != [] && s.window[0].Stored? {
      PopReadKeeps(Touch(s));
      var data, pos := s.window[0].data, Touch(s).reading.value;
      if count < |data| - pos { AdvanceKeeps(Touch(s), pos + count); }
    }
    hide RxWellFormed;
  }

  /** What `handleDataPacket` does, case by case. */
  lemma HandleDataCases(s: RxState, control: bool, id: nat, payload: seq<byte>, fin: bool)
    requires RxWellFormed(s)
    ensures var r := HandleData(s, control, id, payload, fin);
            var p := Restore(s.begin, id);
            && (s.state != Connected || control == s.control ==> r == DataResult(s, false, false))
            && (s.state == Connected && control != s.control ==>
                  && (p < s.begin ==> r == DataResult(s.(needsAck := true), true, false) && !Accepts(s, p))
                  && (s.begin <= p && !Accepts(s, p) ==> r == DataResult(s, false, false))
                  && (Accepts(s, p) ==>
                        var t := Extend(s, p - s.begin);
                        && t.begin == s.begin && t.unack == s.unack
                        && p - s.begin < |t.window| && t.begin <= t.unack <= t.End()
                        && r == DataResult(StoreAt(t, p - s.begin, Stored(fin, payload)), true, p == s.unack)))
  {
  }

  lemma UnackInWindow(s: RxState)
    requires RxWellFormed(s)
    ensures s.begin <= s.unack <= s.End()
  {
  }
}
