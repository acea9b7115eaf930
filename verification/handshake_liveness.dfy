/** The handshake gets on: requests are answered, and without losses it completes (channel.cpp). */
module HandshakeLiveness {
  import opened Basics
  import opened Handshake

  const PeerSend := Event(false, DoSend)
  const WeSend := Event(true, DoSend)
  const PeerReceive := Event(false, DoReceive(false, false))
  const WeReceive := Event(true, DoReceive(false, false))

  /** A packet from us to the peer, and one from the peer to us, sent and received. */
  const ToPeer := [WeSend, PeerReceive]
  const ToUs := [PeerSend, WeReceive]

  /** The state after some events, if no check fails. */
  function Steps(n: Net, events: seq<Event>): Option<Net>
    decreases |events|
  {
    if events == [] then Some(n)
    else match Step(n, events[0])
      case None => None
      case Some(m) => Steps(m, events[1..])
  }

  lemma {:induction false} StepsConcat(n: Net, a: seq<Event>, b: seq<Event>)
    requires Steps(n, a).Some?
    ensures Steps(n, a + b) == Steps(Steps(n, a).value, b)
    decreases |a|
  {
    hide Step;
    if a == [] {
      assert a + b == b;
    } else {
      assert (a + b)[1..] == a[1..] + b;
      StepsConcat(Step(n, a[0]).value, a[1..], b);
    }
  }

  lemma TwoSteps(n: Net, d: Event, e: Event, m: Net, k: Net)
    requires Step(n, d) == Some(m) && Step(m, e) == Some(k)
    ensures Steps(n, [d, e]) == Some(k)
  {
    hide Step;
    assert [d, e][1..] == [e] && [e][1..] == [];
    assert Steps(k, []) == Some(k);
    assert Steps(m, [e]) == Some(k);
  }

  /** A repeated request is answered: when both halves of an endpoint are connected and the peer asks again, the next
      packet acknowledges the peer's stream. */
  lemma RepeatIsAnswered(n: Net, events: seq<Event>, closed: bool)
    requires Reachable(n, events) && n.a.tx == Connected && n.a.rx == Connected
    requires n.ba != [] && n.ba[0].Conn? && n.ba[0].want && n.ba[0].self == n.a.peerId
    ensures var r := Handle(n.a, n.ba[0], closed);
            && r == Ok(n.a.(heard := n.ba[0].epoch, needsAck := true))
            && Sends(r.next) && r.next.ids != [] && Sent(r.next).ack == n.ba[0].self && !Sent(r.next).want
  {
    ReachableOk(n, events);
    hide Reachable, NetOk, EndpointOk;
    NetParts(n);
    RepeatHandled(n.a, n.ba[0], closed);
  }

  lemma RepeatHandled(x: Endpoint, p: Packet, closed: bool)
    requires EndpointOk(x) && x.tx == Connected && x.rx == Connected
    requires p.Conn? && p.want && p.self == x.peerId && p.self != x.myId
    ensures var r := Handle(x, p, closed);
            && r == Ok(x.(heard := p.epoch, needsAck := true))
            && Sends(r.next) && r.next.ids != [] && Sent(r.next).ack == p.self && !Sent(r.next).want
  {
    ConnectedFacts(x);
    hide EndpointOk;
  }

  lemma ConnectedFacts(x: Endpoint)
    requires EndpointOk(x) && x.tx == Connected
    ensures x.acked && x.myId != 0 && x.ids != [] && x.peerId != 0
  {
  }

  lemma ConnectingFacts(x: Endpoint)
    requires EndpointOk(x) && x.tx == Connecting
    ensures !x.acked && x.myId != 0 && x.ids != [] && Sends(x) && Sent(x).want && Sent(x).self == x.myId
    ensures x.rx == Connecting ==> x.empty && x.peerId == 0 && Sent(x).ack == 0
    ensures x.rx == Connecting || x.rx == Connected || x.peerId == 0
  {
  }

  /** An acknowledgement of the current stream connects the transmitter. */
  lemma AckConnects(x: Endpoint, p: Packet, closed: bool)
    requires EndpointOk(x) && x.tx == Connecting && (x.rx == Connecting || x.rx == Connected)
    requires p.Conn? && p.ack == x.myId && p.self != x.myId && p.self != 0
    ensures var r := Handle(x, p, closed);
            && r.Ok? && r.next.tx == Connected && r.next.rx == Connected && r.next.myId == x.myId
            && r.next.needsAck == p.want && r.next.peerId == (if x.rx == Connecting then p.self else x.peerId)
  {
    ConnectingFacts(x);
  }

  /** The peer sends its request. */
  lemma PeerSendsStep(n: Net)
    requires Sends(n.b) && n.b.ids != []
    ensures Step(n, PeerSend) == Some(n.(b := n.b.(needsAck := false), ba := n.ba + [Sent(n.b)]))
  {
  }

  lemma WeSendStep(n: Net)
    requires Sends(n.a) && n.a.ids != []
    ensures Step(n, WeSend) == Some(n.(a := n.a.(needsAck := false), ab := n.ab + [Sent(n.a)]))
  {
  }

  lemma WeReceiveStep(n: Net)
    requires n.ba != [] && n.ba[0].Conn? && Handle(n.a, n.ba[0], false).Ok?
    ensures Step(n, WeReceive)
            == Some(n.(a := Handle(n.a, n.ba[0], false).next, ba := n.ba[1..]))
  {
    hide Handle;
  }

  lemma PeerReceivesStep(n: Net)
    requires n.ab != [] && n.ab[0].Conn? && Handle(n.b, n.ab[0], false).Ok?
    ensures Step(n, PeerReceive)
            == Some(n.(b := Handle(n.b, n.ab[0], false).next, ab := n.ab[1..]))
  {
    hide Handle;
  }

  /** One endpoint is connected to the peer's current stream, and the peer's transmitter still waits for the ack. */
  ghost predicate HalfDone(n: Net) {
    && n.a.tx == Connected && n.a.rx == Connected && n.b.tx == Connecting
      && (n.b.rx == Connecting || n.b.rx == Connected)
    && n.a.peerId == n.b.myId && n.ab == [] && n.ba == []
  }

  lemma NetParts(n: Net)
    requires NetOk(n)
    ensures EndpointOk(n.a) && EndpointOk(n.b)
    ensures n.ba != [] && n.ba[0].Conn? ==> n.ba[0].self != n.a.myId && n.ba[0].self != 0
    ensures n.ab != [] && n.ab[0].Conn? ==> n.ab[0].self != n.b.myId && n.ab[0].self != 0
  {
    hide EndpointOk, Knows, PacketOk, Disjoint;
    if n.ba != [] && n.ba[0].Conn? { assert PacketOk(n.b, n.a, n.ba[0]); NoEcho(n.a, n.b, n.ba[0]); }
    if n.ab != [] && n.ab[0].Conn? {
      assert PacketOk(n.a, n.b, n.ab[0]);
      DisjointSwap(n.a, n.b);
      NoEcho(n.b, n.a, n.ab[0]);
    }
  }

  lemma DisjointSwap(x: Endpoint, y: Endpoint)
    requires Disjoint(x, y)
    ensures Disjoint(y, x)
  {
  }

  /** Two events in a row, each of which keeps the invariant. */
  lemma TwoKept(n: Net, d: Event, e: Event, m: Net, k: Net)
    requires NetOk(n) && EnabledAt(n, d) && Step(n, d) == Some(m) && EnabledAt(m, e) && Step(m, e) == Some(k)
    ensures Steps(n, [d, e]) == Some(k) && NetOk(k)
  {
    hide NetOk, Step, EnabledAt, Steps;
    StepKeeps(n, d);
    StepKeeps(m, e);
    TwoSteps(n, d, e, m, k);
  }

  /** An endpoint that owes an ack sends it, and the peer's transmitter is connected. */
  lemma AckRound(n: Net)
    requires NetOk(n) && n.a.tx == Connected && n.a.needsAck && n.b.tx == Connecting
    requires (n.b.rx == Connecting || n.b.rx == Connected) && n.a.peerId == n.b.myId && n.ab == [] && n.ba == []
    ensures var r := Steps(n, ToPeer);
            && r.Some?
            && var m := r.value;
               && m.b.tx == Connected && m.b.rx == Connected && m.b.myId == n.b.myId
               && m.a == n.a.(needsAck := false) && m.ab == [] && m.ba == []
               && (n.b.rx == Connected ==> m.b.peerId == n.b.peerId)
  {
    hide NetOk, EndpointOk, Handle, Step, Steps;
    NetParts(n);
    ConnectedFacts(n.a);
    WeSendStep(n);
    StepKeeps(n, WeSend);
    var m := Step(n, WeSend).value;
    NetParts(m);
    AckConnects(m.b, m.ab[0], false);
    PeerReceivesStep(m);
    TwoKept(n, WeSend, PeerReceive, m, Step(m, PeerReceive).value);
  }

  /** The peer repeats its request, and we owe it an ack. */
  lemma AskedAgain(n: Net)
    requires NetOk(n) && HalfDone(n)
    ensures var r := Steps(n, ToUs);
            && r.Some?
            && var m := r.value;
               && NetOk(m) && m.b == n.b.(needsAck := false) && m.ab == [] && m.ba == []
               && m.a.tx == Connected && m.a.rx == Connected && m.a.myId == n.a.myId && m.a.peerId == n.a.peerId
               && m.a.needsAck
  {
    hide NetOk, EndpointOk, Handle, Step, Steps;
    NetParts(n);
    ConnectingFacts(n.b);
    PeerSendsStep(n);
    StepKeeps(n, PeerSend);
    var m := Step(n, PeerSend).value;
    NetParts(m);
    RepeatHandled(m.a, m.ba[0], false);
    WeReceiveStep(m);
    TwoKept(n, PeerSend, WeReceive, m, Step(m, WeReceive).value);
  }

  /** Recovery from a lost ack: from every such state, the four events "the peer asks again, we receive, we answer, the
      peer receives" connect the peer's transmitter. */
  lemma RecoversFromLostAck(n: Net, events: seq<Event>)
    requires Reachable(n, events) && HalfDone(n)
    ensures var r := Steps(n, ToUs + ToPeer);
            && r.Some?
            && var m := r.value;
               && m.b.tx == Connected && m.b.rx == Connected && m.b.myId == n.b.myId && m.a.peerId == m.b.myId
               && m.a.tx == Connected && m.a.rx == Connected && m.a.myId == n.a.myId && m.ab == [] && m.ba == []
  {
    ReachableOk(n, events);
    hide Reachable, NetOk, Steps, ToUs, ToPeer;
    AskedAgain(n);
    AckRound(Steps(n, ToUs).value);
    StepsConcat(n, ToUs, ToPeer);
  }

  /** The peer hears of our stream. */
  lemma FirstThird(n: Net)
    requires NetOk(n) && n.a.rx == Connecting && n.b.rx == Connecting && n.ab == [] && n.ba == []
    ensures var r := Steps(n, ToPeer);
            && r.Some?
            && var m := r.value;
               && NetOk(m) && m.a == n.a.(needsAck := false) && m.b.myId == n.b.myId && m.ab == [] && m.ba == []
               && m.b.tx == Connecting && m.b.rx == Connected && m.b.peerId == m.a.myId
  {
    hide NetOk, EndpointOk, Handle, Step, Steps;
    NetParts(n);
    WaitingFacts(n.a);
    ConnectingFacts(n.a);
    WeSendStep(n);
    StepKeeps(n, WeSend);
    var m := Step(n, WeSend).value;
    NetParts(m);
    FirstHeard(m.b, m.ab[0]);
    PeerReceivesStep(m);
    TwoKept(n, WeSend, PeerReceive, m, Step(m, PeerReceive).value);
  }

  /** We hear of the peer's stream, and that it has heard of ours. */
  lemma SecondThird(n: Net)
    requires NetOk(n) && n.a.rx == Connecting && n.ab == [] && n.ba == []
    requires n.b.tx == Connecting && n.b.rx == Connected && n.b.peerId == n.a.myId
    ensures var r := Steps(n, ToUs);
            && r.Some?
            && var m := r.value;
               && NetOk(m) && m.b == n.b.(needsAck := false) && m.a.myId == n.a.myId && m.ab == [] && m.ba == []
               && m.a.tx == Connected && m.a.rx == Connected && m.a.peerId == m.b.myId && m.a.needsAck
  {
    hide NetOk, EndpointOk, Handle, Step, Steps;
    NetParts(n);
    WaitingFacts(n.a);
    ConnectingFacts(n.b);
    PeerSendsStep(n);
    StepKeeps(n, PeerSend);
    var m := Step(n, PeerSend).value;
    NetParts(m);
    AckConnects(m.a, m.ba[0], false);
    WeReceiveStep(m);
    TwoKept(n, PeerSend, WeReceive, m, Step(m, WeReceive).value);
  }

  /** Both endpoints are connected, to each other's current streams. */
  ghost predicate Joined(n: Net) {
    && n.a.tx == Connected && n.a.rx == Connected && n.a.peerId == n.b.myId
    && n.b.tx == Connected && n.b.rx == Connected && n.b.peerId == n.a.myId
  }

  const ThreePackets := ToPeer + ToUs + ToPeer

  lemma ThreeConnect(n: Net)
    requires NetOk(n) && n.a.rx == Connecting && n.b.rx == Connecting && n.ab == [] && n.ba == []
    ensures var r := Steps(n, ThreePackets);
            r.Some? && Joined(r.value) && r.value.a.myId == n.a.myId && r.value.b.myId == n.b.myId
  {
    hide NetOk, Steps, ToUs, ToPeer;
    FirstThird(n);
    var u := Steps(n, ToPeer).value;
    SecondThird(u);
    var v := Steps(u, ToUs).value;
    AckRound(v);
    StepsConcat(n, ToPeer, ToUs);
    StepsConcat(n, ToPeer + ToUs, ToPeer);
  }

  /** The three-way handshake completes: two endpoints that have called `connect` are both connected, to each other's
      current streams, after three packets. */
  lemma HandshakeCompletes(n: Net, events: seq<Event>)
    requires Reachable(n, events) && n.a.rx == Connecting && n.b.rx == Connecting && n.ab == [] && n.ba == []
    ensures var r := Steps(n, ThreePackets);
            r.Some? && Joined(r.value) && r.value.a.myId == n.a.myId && r.value.b.myId == n.b.myId
  {
    ReachableOk(n, events);
    hide Reachable, NetOk, Steps, ThreePackets;
    ThreeConnect(n);
  }

  /** A new stream of the peer ends the old one: the transmitter stops, the disconnect callback is claimed, and only a
      receiver that still holds data stays connected. */
  lemma NewStreamBreaks(n: Net, events: seq<Event>, closed: bool)
    requires Reachable(n, events) && n.a.rx == Connected && n.ba != [] && n.ba[0].Conn?
    requires n.ba[0].want && n.ba[0].ack == 0 && n.ba[0].self != n.a.peerId
    ensures var r := Handle(n.a, n.ba[0], closed);
            && r.Ok? && Dropped(n.a, r.next)
            && r.next.tx == if n.a.tx == Connected && !(closed && n.a.empty) then Broken else Idle
  {
    ReachableOk(n, events);
    hide Reachable, NetOk, EndpointOk, Handle;
    NetParts(n);
    BreakHandled(n.a, n.ba[0], closed);
  }

  predicate Dropped(x: Endpoint, y: Endpoint) {
    && !y.Open() && y.myId == 0 && y.fn == None
    && y.claimed == x.claimed + (if x.fn.Some? then [x.fn.value] else [])
    && y.rx == if x.empty then Idle else Connected
  }

  lemma BreakHandled(x: Endpoint, p: Packet, closed: bool)
    requires x.rx == Connected && p.Conn? && p.want && p.ack == 0 && p.self != x.peerId && p.self != x.myId
    ensures var r := Handle(x, p, closed);
            && r.Ok? && Dropped(x, r.next)
            && r.next.tx == if x.tx == Connected && !(closed && x.empty) then Broken else Idle
  {
  }

  /** The peer's first packet arrives at an endpoint that is still connected to an older stream. */
  lemma PeerIsBack(n: Net)
    requires NetOk(n) && n.a.rx == Connected && n.b.rx == Connecting && n.a.peerId != n.b.myId
    requires n.ab == [] && n.ba == []
    ensures var r := Steps(n, ToUs);
            && r.Some?
            && var m := r.value;
               && NetOk(m) && m.b == n.b.(needsAck := false) && m.ab == [] && m.ba == []
               && Dropped(n.a, m.a) && m.a.ids == n.a.ids
  {
    hide NetOk, EndpointOk, Handle, Step, Steps;
    NetParts(n);
    WaitingFacts(n.b);
    ConnectingFacts(n.b);
    PeerSendsStep(n);
    StepKeeps(n, PeerSend);
    var m := Step(n, PeerSend).value;
    NetParts(m);
    BreakHandled(m.a, m.ba[0], false);
    HandleKeepsIds(m.a, m.ba[0], false);
    WeReceiveStep(m);
    TwoKept(n, PeerSend, WeReceive, m, Step(m, WeReceive).value);
  }

  lemma HandleKeepsIds(x: Endpoint, p: Packet, closed: bool)
    requires p.Conn? && Handle(x, p, closed).Ok?
    ensures Handle(x, p, closed).next.ids == x.ids
  {
  }

  lemma ConnectAgain(n: Net, id: nat, start: nat, hasFn: bool)
    requires NetOk(n) && Enabled(n, DoConnect(id, start, hasFn))
    ensures var e := Event(true, DoConnect(id, start, hasFn));
            && Steps(n, [e]).Some? && NetOk(Steps(n, [e]).value)
            && var m := Steps(n, [e]).value;
               m.b == n.b && m.ab == n.ab && m.ba == n.ba && m.a.rx == Connecting && m.a.myId == id
  {
    StepKeeps(n, Event(true, DoConnect(id, start, hasFn)));
    hide NetOk;
  }

  /** The link heals after a restart of the peer: its first packet ends our old stream and has our callback claimed;
      when the application then connects again, three packets join the two new streams. */
  lemma RestartHeals(n: Net, events: seq<Event>, id: nat, start: nat, hasFn: bool)
    requires Reachable(n, events) && n.a.rx == Connected && n.b.rx == Connecting && n.a.peerId != n.b.myId
    requires n.ab == [] && n.ba == [] && Enabled(n, DoConnect(id, start, hasFn))
    ensures var r := Steps(n, ToUs + [Event(true, DoConnect(id, start, hasFn))] + ThreePackets);
            r.Some? && Joined(r.value) && r.value.a.myId == id && r.value.b.myId == n.b.myId
  {
    ReachableOk(n, events);
    hide Reachable, NetOk, Steps, ToUs, ThreePackets;
    PeerIsBack(n);
    var u := Steps(n, ToUs).value;
    ConnectAgain(u, id, start, hasFn);
    var again := [Event(true, DoConnect(id, start, hasFn))];
    ThreeConnect(Steps(u, again).value);
    StepsConcat(n, ToUs, again);
    StepsConcat(n, ToUs + again, ThreePackets);
  }

  lemma WaitingFacts(x: Endpoint)
    requires EndpointOk(x) && x.rx == Connecting
    ensures x.tx == Connecting
  {
  }

  /** The first packet of the peer tells a waiting receiver the peer's stream. */
  lemma FirstHeard(x: Endpoint, p: Packet)
    requires EndpointOk(x) && x.rx == Connecting && p.Conn? && p.ack == 0 && p.self != x.myId && p.self != 0
    ensures var r := Handle(x, p, false);
            && r.Ok? && r.next.rx == Connected && r.next.tx == Connecting && r.next.peerId == p.self
            && r.next.myId == x.myId
  {
    ConnectingFacts(x);
  }
}
