/** The handshake fields of a channel, updated under the handshake mutex (channel.cpp).

Each method is one critical section; the callback it returns is invoked after the
mutex has been released.  The ghost field `e` is the endpoint the fields stand for.
*/
module Channels {
  import opened Basics
  import opened Handshake
  import RetryBackoff

  class Channel {
    var myStreamId: nat
    var peerStreamId: nat
    var ackedByPeer: bool
    var needsHandshakeAck: bool
    var transmitterState: LinkState
    var receiverState: LinkState
    var front: nat
    var receiverEmpty: bool
    var handshakeRetries: nat
    var nextHandshakeUpdate: nat
    var disconnectFn: Option<nat>
    ghost var e: Endpoint

    ghost predicate Valid()
      reads this
    {
      e == e.(myId := myStreamId, peerId := peerStreamId, acked := ackedByPeer, needsAck := needsHandshakeAck,
              tx := transmitterState, rx := receiverState, front := front, empty := receiverEmpty, fn := disconnectFn)
    }

    constructor ()
      ensures Valid() && e == Start
    {
      myStreamId, peerStreamId, ackedByPeer, needsHandshakeAck := 0, 0, false, false;
      transmitterState, receiverState, front, receiverEmpty, disconnectFn := Idle, Idle, 0, true, None;
      handshakeRetries, nextHandshakeUpdate := 0, 0;
      e := Start;
    }

    /** Returns the callback of the previous connection, to be invoked outside the lock. */
    method Connect(id: nat, start: nat, hasFn: bool) returns (oldFn: Option<nat>)
      requires Valid() && id != 0
      modifies this
      ensures Valid() && e == Handshake.Connect(old(e), id, start, hasFn)
      ensures oldFn == old(e).fn && handshakeRetries == 0 && nextHandshakeUpdate == 0
    {
      oldFn := disconnectFn;
      disconnectFn := if hasFn then Some(id) else None;
      ackedByPeer, peerStreamId, myStreamId := false, 0, id;
      transmitterState, front, receiverState, receiverEmpty := Connecting, start, Connecting, true;
      needsHandshakeAck, handshakeRetries, nextHandshakeUpdate := false, 0, 0;
      e := Handshake.Connect(e, id, start, hasFn);
    }

    method Disconnect(id: nat) returns (fn: Option<nat>)
      requires Valid()
      modifies this
      ensures Valid() && e == Handshake.Disconnect(old(e), id)
      ensures fn == (if old(e).myId == id then old(e).fn else None)
    {
      fn := None;
      if myStreamId != id { return; }
      e := Handshake.Disconnect(e, id);
      myStreamId, ackedByPeer, peerStreamId := 0, false, 0;
      transmitterState, receiverState, receiverEmpty := Idle, Idle, true;
      fn, disconnectFn := disconnectFn, None;
    }

    /** `conn`: the fields of the packet to send, if any.  While connecting, packets are spaced by the retry
        backoff, and the caller learns how long to wait for the next one. */
    method Conn(now: nat, draw: nat, nextSendMicros: int)
      returns (send: bool, frontId: nat, self: nat, ack: nat, want: bool, micros: int)
      requires Valid() && draw <= RANDOM_MAX
      modifies this
      ensures Valid() && send == (Sends(old(e)) && (old(e).tx == Connecting ==> old(nextHandshakeUpdate) <= now))
      ensures send && old(e).ids != [] ==>
                var p := Sent(old(e)); frontId == p.front && self == p.self && ack == p.ack && want == p.want
      ensures e == if send then old(e).(needsAck := false) else old(e)
      ensures send && e.tx == Connecting ==>
                var delay := RetryBackoff.Backoff(1000, 1_000_000, old(handshakeRetries), draw, RANDOM_MAX);
                && 800 <= delay < 1_200_000 && handshakeRetries == old(handshakeRetries) + 1
                && nextHandshakeUpdate == now + delay && micros == Lesser(nextSendMicros, delay)
      ensures !(send && e.tx == Connecting) ==>
                handshakeRetries == old(handshakeRetries) && nextHandshakeUpdate == old(nextHandshakeUpdate)
      ensures !send && e.tx == Connecting ==> micros == Lesser(nextSendMicros, nextHandshakeUpdate - now)
      ensures e.tx != Connecting ==> micros == nextSendMicros
    {
      send, frontId, self, ack, want, micros := false, 0, 0, 0, false, nextSendMicros;
      if transmitterState == Idle || transmitterState == Broken { return; }
      if transmitterState == Connected && !needsHandshakeAck { return; }
      if transmitterState == Connecting {
        if now < nextHandshakeUpdate {
          micros := Lesser(micros, nextHandshakeUpdate - now);
          return;
        }
        BackoffBounds(handshakeRetries, draw);
        var delay := RetryBackoff.Backoff(1000, 1_000_000, handshakeRetries, draw, RANDOM_MAX);
        handshakeRetries := handshakeRetries + 1;
        nextHandshakeUpdate := now + delay;
        micros := Lesser(micros, delay);
      }
      needsHandshakeAck := false;
      e := e.(needsAck := false);
      send, frontId, self, ack, want := true, front % 4096, myStreamId, peerStreamId, transmitterState != Connected;
    }

    /** The case of a receiver that waits for the peer's stream id. */
    method HandleConnecting(peerId: nat, ackId: nat, wantAck: bool, ghost closed: bool, ghost p: Packet)
      returns (fn: Option<nat>)
      requires Valid() && p.Conn? && p.self == peerId && p.ack == ackId && p.want == wantAck && e.rx == Connecting
      requires !(peerId == e.myId && p.front == e.front)
      requires Handle(e, p, closed).Ok?
      modifies this
      ensures Valid() && Handle(old(e), p, closed) == Ok(e)
      ensures e.claimed == old(e).claimed + (if fn.Some? then [fn.value] else [])
    {
      fn := None;
      ghost var goal := Handle(e, p, closed).next;
      if ackId != 0 && ackId != myStreamId {
        e := goal;
      } else if peerId == myStreamId {
        fn, disconnectFn := disconnectFn, None;
        if receiverEmpty { receiverState := Idle; }
        transmitterState := Broken;
        myStreamId := 0;
        e := goal;
      } else {
        assert receiverEmpty;  // CHECK(receiver_.empty())
        Accept(peerId, ackId, wantAck, p, goal);
      }
    }

    /** The peer's stream id is accepted, and its ack of ours if there is one. */
    method Accept(peerId: nat, ackId: nat, wantAck: bool, ghost p: Packet, ghost goal: Endpoint)
      requires Valid() && p.Conn? && p.self == peerId && p.ack == ackId && p.want == wantAck
      requires var c := ConnectRx(e.(heard := p.epoch), p);
               goal == (if ackId == e.myId then ConnectTx(c, p) else c).(needsAck := wantAck)
      modifies this
      ensures Valid() && e == goal
    {
      peerStreamId := peerId;
      receiverState := Connected;
      if ackId == myStreamId {
        ackedByPeer := true;
        transmitterState := Connected;
      }
      needsHandshakeAck := wantAck;
      e := goal;
    }

    /** The case of a connected receiver. */
    method HandleConnected(peerId: nat, ackId: nat, wantAck: bool, closed: bool, ghost p: Packet)
      returns (fn: Option<nat>)
      requires Valid() && p.Conn? && p.self == peerId && p.ack == ackId && p.want == wantAck && e.rx == Connected
      requires !(peerId == e.myId && p.front == e.front)
      requires Handle(e, p, closed).Ok?
      modifies this
      ensures Valid() && Handle(old(e), p, closed) == Ok(e)
      ensures e.claimed == old(e).claimed + (if fn.Some? then [fn.value] else [])
    {
      fn := None;
      ghost var goal := Handle(e, p, closed).next;
      if wantAck && peerStreamId != peerId && ackId == 0 {
        fn, disconnectFn := disconnectFn, None;
        if !(closed && receiverEmpty) {
          transmitterState := if transmitterState == Connected then Broken else Idle;
          myStreamId := 0;
          if receiverEmpty { receiverState := Idle; }
        } else {
          transmitterState, myStreamId, receiverState := Idle, 0, Idle;
        }
      } else {
        if ackId == myStreamId && !ackedByPeer {
          assert myStreamId != 0;  // CHECK(my_stream_id_ != 0)
          ackedByPeer := true;
          transmitterState := Connected;
        }
        needsHandshakeAck := wantAck;
      }
      e := goal;
    }

    /** `handleHandshakePacket`; returns the callback to invoke outside the lock.  The source aborts where `Handle`
        does. */
    method HandleHandshakePacket(peerFront: nat, peerId: nat, ackId: nat, wantAck: bool, closed: bool, ghost p: Packet)
      returns (fn: Option<nat>)
      requires Valid() && p.Conn? && p.front == peerFront && p.self == peerId && p.ack == ackId && p.want == wantAck
      requires Handle(e, p, closed).Ok?
      modifies this
      ensures Valid() && Handle(old(e), p, closed) == Ok(e)
      ensures e.claimed == old(e).claimed + (if fn.Some? then [fn.value] else [])
    {
      fn := None;
      if peerId == myStreamId && peerFront == front {
        e := e.(heard := p.epoch);
        return;
      }
      match receiverState {
        case Connecting => fn := HandleConnecting(peerId, ackId, wantAck, closed, p);
        case Connected => fn := HandleConnected(peerId, ackId, wantAck, closed, p);
        case _ => e := e.(heard := p.epoch);
      }
    }
  }

  function Lesser(a: int, b: int): int { if a < b then a else b }

  lemma BackoffBounds(retries: nat, draw: nat)
    requires draw <= RANDOM_MAX
    ensures 800 <= RetryBackoff.Backoff(1000, 1_000_000, retries, draw, RANDOM_MAX) < 1_200_000
  {
    RetryBackoff.BackoffRange(1000, 1_000_000, retries, draw, RANDOM_MAX);
  }
}
