/** What an ack does to the send window, position by position (transmitter.cpp, ack). */
module AckEffect {
  import opened Basics
  import opened SeqNums
  import opened RingBuffers
  import opened Protocol
  import opened OutBuffers
  import opened Transmission
  import opened SendProgress

  /** The ack is for this connection and for a position that has been queued. */
  predicate Heeded(s: TxState, control: bool, id: nat) {
    s.state == Connected && control != s.control && Restore(s.begin, id) <= s.End()
  }

  /** How many buffers an ack of `id` removes. */
  function Removed(s: TxState, id: nat): (n: nat)
    requires Restore(s.begin, id) <= s.End()
    ensures n <= |s.window|
  {
    if Restore(s.begin, id) > s.begin then Restore(s.begin, id) - s.begin else 0
  }

  /** What is left of the window: the final packet moves in if it was waiting for space. */
  function Left(s: TxState, n: nat): seq<OutBuffer>
    requires n <= |s.window|
  {
    s.window[n..] + (if n > 0 && s.pendingEof then [Eos(s.End(), s.control)] else [])
  }

  /** Buffer `k` was sent once and has not arrived, but some later one has. */
  ghost predicate Skipped(w: seq<OutBuffer>, bitmap: seq<byte>, k: nat)
    requires k < |w|
  {
    && !w[k].acked && !(k > 0 && BitmapBit(bitmap, k - 1)) && w[k].sendCounter == 1
    && exists i :: k <= i < |w| - 1 && BitmapBit(bitmap, i)
  }

  /** Buffer `c` is `b` with two things changed: whether it has arrived, and when it is due. */
  predicate Remarked(b: OutBuffer, c: OutBuffer, arrived: bool, due: nat) {
    c == b.(acked := arrived, expiration := due)
  }

  lemma LastBitReaches(bitmap: seq<byte>, m: nat, k: nat)
    ensures k < LastBit(bitmap, m) <==> exists i :: k <= i < m && BitmapBit(bitmap, i)
  {
    var last := LastBit(bitmap, m);
    if k < last {
      assert BitmapBit(bitmap, last - 1);
    }
  }

  lemma NackedIsSkipped(w: seq<OutBuffer>, bitmap: seq<byte>, k: nat)
    requires k < |w|
    ensures Nacked(w, bitmap, LastBit(bitmap, |w| - 1), k) <==> Skipped(w, bitmap, k)
  {
    LastBitReaches(bitmap, |w| - 1, k);
    hide LastBit;
  }

  /** The bitmap, applied: bit `i` marks buffer `i + 1` as arrived; the skipped buffers are due at once, and the first
      of them is next; nothing else changes. */
  lemma BitmapExact(s: TxState, bitmap: seq<byte>)
    requires s.window != []
    ensures var r := ApplyBitmap(s, bitmap);
            && r.next == s.(window := r.next.window, nextToSend := r.next.nextToSend) && |r.next.window| == |s.window|
            && (forall k :: 0 <= k < |s.window| ==>
                  Remarked(s.window[k], r.next.window[k], s.window[k].acked || (k > 0 && BitmapBit(bitmap, k - 1)),
                           if Skipped(s.window, bitmap, k) then 0 else s.window[k].expiration))
            && (r.rushed <==> exists k :: 0 <= k < |s.window| && Skipped(s.window, bitmap, k))
            && (!r.rushed ==> r.next.nextToSend == s.nextToSend)
            && (r.rushed ==> FirstSkipped(s.window, bitmap, s.begin, r.next.nextToSend))
  {
    var last := LastBit(bitmap, |s.window| - 1);
    var first := FirstNacked(s.window, bitmap, last, 0);
    var r := ApplyBitmap(s, bitmap);
    forall k | 0 <= k < |s.window| ensures Nacked(s.window, bitmap, last, k) <==> Skipped(s.window, bitmap, k) {
      NackedIsSkipped(s.window, bitmap, k);
    }
    hide LastBit, Skipped, BitmapBit, FirstNacked;
    if first.Some? { assert Skipped(s.window, bitmap, first.value); }
  }

  /** The position is that of the first skipped buffer. */
  ghost predicate FirstSkipped(w: seq<OutBuffer>, bitmap: seq<byte>, begin: int, next: SeqNum) {
    exists k :: 0 <= k < |w| && Skipped(w, bitmap, k) && next == Wrap(begin + k)
                && forall i :: 0 <= i < k ==> !Skipped(w, bitmap, i)
  }

  /** The whole effect of an ack: exactly the buffers before its position are removed, and the bitmap is applied to
      the rest; when nothing is left of a closed stream, the transmitter goes idle. */
  lemma AckExact(s: TxState, control: bool, id: nat, bitmap: seq<byte>)
    requires WellFormed(s)
    ensures !Heeded(s, control, id) ==> Ack(s, control, id, bitmap) == AckResult(s, false)
    ensures Heeded(s, control, id) ==>
              var r, n := Ack(s, control, id, bitmap), Removed(s, id);
              var w := Left(s, n);
              && (w == [] ==> r.next.window == [] && !r.rushed && r.next.begin == s.begin + n
                              && r.next.state == if s.eos then Idle else Connected)
              && (w != [] ==>
                    && r.next.begin == s.begin + n && r.next.state == Connected && |r.next.window| == |w|
                    && r.next.himark == s.himark && r.next.eos == s.eos && (n > 0 ==> !r.next.pendingEof)
                    && (forall k :: 0 <= k < |w| ==>
                          Remarked(w[k], r.next.window[k], w[k].acked || (k > 0 && BitmapBit(bitmap, k - 1)),
                                   if Skipped(w, bitmap, k) then 0 else w[k].expiration))
                    && (r.rushed <==> exists k :: 0 <= k < |w| && Skipped(w, bitmap, k))
                    && (!r.rushed ==> r.next.nextToSend == s.nextToSend)
                    && (r.rushed ==> FirstSkipped(w, bitmap, r.next.begin, r.next.nextToSend)))
  {
    if Heeded(s, control, id) {
      var n := Removed(s, id);
      PopShape(s, n);
      hide WellFormed, PopFront, ApplyBitmap, Skipped, FirstSkipped, Remarked, BitmapBit, Left;
      if Left(s, n) != [] { BitmapExact(PopFront(s, n), bitmap); }
    }
  }

  lemma PopShape(s: TxState, n: nat)
    requires WellFormed(s) && s.state == Connected && n <= |s.window|
    ensures var t := PopFront(s, n);
            && t.window == Left(s, n) && t.begin == s.begin + n && t.state == Connected && t.himark == s.himark
            && t.eos == s.eos && t.nextToSend == s.nextToSend && (n > 0 ==> !t.pendingEof)
  {
    hide WellFormed;
    if n == 0 { assert s.window[0..] + [] == s.window; }
  }

  /** A rush takes effect at once: when an ack reports skipped buffers and the first of them is within the credit,
      `getBufferToSend` sends, at every time, a buffer that was made due or one that was never sent. */
  lemma RushedGoesOut(s: TxState, control: bool, id: nat, bitmap: seq<byte>, k: nat, now: nat, draw: nat, micros: int)
    requires WellFormed(s) && Heeded(s, control, id)
    requires var w := Left(s, Removed(s, id)); k < |w| && Skipped(w, bitmap, k)
    requires s.begin + Removed(s, id) + k < s.himark && draw <= RANDOM_MAX && now < UPTIME_MAX
    ensures var r := Ack(s, control, id, bitmap);
            && r.rushed && WellFormed(r.next)
            && var out := Send(r.next, now, draw, micros).sent;
               out.Some? && out.value < |r.next.window|
               && (Due(r.next.window[out.value]) == 0 || r.next.window[out.value].sendCounter == 0)
  {
    var n := Removed(s, id);
    var w := Left(s, n);
    AckExact(s, control, id, bitmap);
    AckKeeps(s, control, id, bitmap);
    var t := Ack(s, control, id, bitmap).next;
    assert Remarked(w[k], t.window[k], false, 0);
    SentFlushed(s, n, k);
    hide Ack, Send, WellFormed;
    SentIsEligible(t, k, now, draw, micros);
  }

  /** A buffer that has been sent is ready to be sent again. */
  lemma SentFlushed(s: TxState, n: nat, k: nat)
    requires WellFormed(s) && n <= |s.window| && k < |Left(s, n)| && Left(s, n)[k].sendCounter > 0
    ensures Left(s, n)[k].flushed && Left(s, n)[k].finished
  {
    if n + k < |s.window| { assert BufferOk(s.window[n + k]); }
  }

  lemma AckKeeps(s: TxState, control: bool, id: nat, bitmap: seq<byte>)
    requires WellFormed(s) && Heeded(s, control, id)
    ensures WellFormed(Ack(s, control, id, bitmap).next)
  {
    var n := Removed(s, id);
    PopFrontKeeps(s, n);
    var t := PopFront(s, n);
    hide WellFormed, PopFront, ApplyBitmap;
    if t.window == [] { ResetKeeps(t); } else { ApplyBitmapKeeps(t, bitmap); }
  }
}
