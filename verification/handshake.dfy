/** The three-way handshake across reconnects (Channel::connect, disconnect, conn and
handleHandshakePacket in channel.cpp).

`Endpoint` holds the fields that the handshake mutex guards, and the states of the
transmitter and the receiver.  The fields after `fn` are history: every stream id an
endpoint has drawn, in order, with the initial sequence number drawn for it, and every
connection its receiver has made.  An id is identified by its index in that order, its epoch.
*/
module Handshake {
  import opened Basics

  /** The receiver connected, in the endpoint's epoch `own`, to the peer's epoch `peer` at position `start`. */
  datatype Link = Link(own: nat, peer: nat, start: nat)

  datatype Endpoint = Endpoint(
    myId: nat,
    peerId: nat,
    acked: bool,
    needsAck: bool,
    tx: LinkState,
    rx: LinkState,
    front: nat,
    empty: bool,            // the receive window holds no packet
    fn: Option<nat>,        // the stream id the installed disconnect callback belongs to
    ids: seq<nat>,
    starts: seq<nat>,
    links: set<Link>,
    peerEpoch: int,         // epoch of peerId
    ackedBy: int,           // epoch of the peer that acknowledged our stream id
    heard: int,             // largest epoch of a packet received
    installed: set<nat>,    // stream ids that came with a disconnect callback
    claimed: seq<nat>)      // disconnect callbacks taken out to be invoked, in order
  {
    function Epoch(): int { |ids| - 1 }

    predicate Open() { tx == Connecting || tx == Connected }
  }

  /** A packet in flight.  Of data packets, and of acks and flow-control packets, only history is of interest here:
      the sender's epoch, and the peer's epoch that the feedback is about.  So are `epoch`, `ackEpoch` and
      `established` of a handshake packet. */
  datatype Packet =
    | Conn(front: nat, self: nat, ack: nat, want: bool, epoch: nat, ackEpoch: int, established: bool)
    | Data(epoch: nat)
    | Feedback(epoch: nat, about: nat)

  // ----- the operations -----

  function Claim(e: Endpoint): Endpoint {
    e.(fn := None, claimed := if e.fn.Some? then e.claimed + [e.fn.value] else e.claimed)
  }

  /** `connect`, with the drawn stream id and initial sequence number. */
  function Connect(e: Endpoint, id: nat, start: nat, hasFn: bool): Endpoint {
    Claim(e).(myId := id, peerId := 0, acked := false, needsAck := false, tx := Connecting, rx := Connecting,
              front := start, empty := true,
              fn := if hasFn then Some(id) else None,
              ids := e.ids + [id], starts := e.starts + [start], peerEpoch := -1, ackedBy := -1,
              installed := if hasFn then e.installed + {id} else e.installed)
  }

  /** `disconnect` of a stream id; a stale one is ignored. */
  function Disconnect(e: Endpoint, id: nat): Endpoint {
    if e.myId != id then e
    else Claim(e).(myId := 0, acked := false, peerId := 0, tx := Idle, rx := Idle, empty := true,
                   peerEpoch := -1, ackedBy := -1)
  }

  /** `conn` sends a handshake packet in this state (the backoff only delays it). */
  predicate Sends(e: Endpoint) { e.tx == Connecting || (e.tx == Connected && e.needsAck) }

  function Sent(e: Endpoint): Packet
    requires e.ids != []
  {
    Conn(e.front % 4096, e.myId, e.peerId, e.tx != Connected, e.Epoch(), e.peerEpoch, e.tx == Connected)
  }

  datatype Outcome = Ok(next: Endpoint) | Aborted

  /** The receiver learns the peer's stream. */
  function ConnectRx(e: Endpoint, p: Packet): Endpoint
    requires p.Conn?
  {
    e.(peerId := p.self, peerEpoch := p.epoch, rx := Connected,
       links := if e.ids == [] then e.links else e.links + {Link(e.Epoch(), p.epoch, p.front)})
  }

  /** The peer has acknowledged our stream id. */
  function ConnectTx(e: Endpoint, p: Packet): Endpoint {
    e.(acked := true, tx := Connected, ackedBy := p.epoch)
  }

  /** `handleHandshakePacket`; whether the stream being received has ended is an input.  `Aborted` where a check
      fails. */
  function Handle(e0: Endpoint, p: Packet, closed: bool): Outcome
    requires p.Conn?
  {
    var e := e0.(heard := p.epoch);
    if p.self == e.myId && p.front == e.front then Ok(e)
    else match e.rx
      case Connecting =>
        if p.ack != 0 && p.ack != e.myId then Ok(e)
        else if p.self == e.myId then Ok(Claim(e).(rx := if e.empty then Idle else e.rx, tx := Broken, myId := 0))
        else if !e.empty then Aborted  // CHECK(receiver_.empty()), and the checks behind setConnected
        else
          var c := ConnectRx(e, p);
          Ok((if p.ack == e.myId then ConnectTx(c, p) else c).(needsAck := p.want))
      case Connected =>
        if p.want && e.peerId != p.self && p.ack == 0 then
          if closed && e.empty then Ok(Claim(e).(tx := Idle, myId := 0, rx := Idle))
          else Ok(Claim(e).(tx := if e.tx == Connected then Broken else Idle, myId := 0,
                            rx := if e.empty then Idle else Connected))
        else if p.ack == e.myId && !e.acked then
          if e.myId == 0 then Aborted else Ok(ConnectTx(e, p).(needsAck := p.want))
        else Ok(e.(needsAck := p.want))
      case _ => Ok(e)
  }

  /** A data packet arrives; whether it finds a place in the receive window is an input. */
  function Store(e: Endpoint, stored: bool): Endpoint {
    if e.rx == Connected && stored then e.(empty := false) else e
  }

  // ----- the network -----

  /** Two endpoints and the queues from each to the other, which handshake packets, data and feedback share. */
  datatype Net = Net(a: Endpoint, b: Endpoint, ab: seq<Packet>, ba: seq<Packet>)

  datatype Action =
    | DoConnect(id: nat, start: nat, hasFn: bool)
    | DoDisconnect(id: nat)
    | DoSend
    | DoSendData
    | DoSendFeedback
    | DoReceive(closed: bool, stored: bool)
    | DoLose(i: nat)           // a packet on its way to this endpoint
    | DoAdvance(front: nat)    // data is acknowledged: the front of the send window moves
    | DoFinish                 // the stream is closed and acknowledged: the transmitter goes idle
    | DoClose                  // close of a broken transmitter
    | DoDrain                  // everything that has arrived is read

  datatype Event = Event(atA: bool, action: Action)

  function Swap(n: Net): Net { Net(n.b, n.a, n.ba, n.ab) }

  /** Stream ids are drawn at random; they are taken to be fresh, and never zero. */
  predicate Enabled(n: Net, action: Action) {
    action.DoConnect? ==> action.id != 0 && action.id !in n.a.ids && action.id !in n.b.ids && action.start < 0x0FFF
  }

  /** An action of endpoint `a`; `Aborted` if a check fails. */
  function Act(n: Net, action: Action): Option<Net> {
    match action
    case DoConnect(id, start, hasFn) => Some(n.(a := Connect(n.a, id, start, hasFn)))
    case DoDisconnect(id) => Some(if id == 0 then n else n.(a := Disconnect(n.a, id)))
    case DoSend =>
      if Sends(n.a) && n.a.ids != [] then Some(n.(a := n.a.(needsAck := false), ab := n.ab + [Sent(n.a)])) else Some(n)
    case DoSendData => Some(if n.a.tx == Connected && n.a.ids != [] then n.(ab := n.ab + [Data(n.a.Epoch())]) else n)
    case DoSendFeedback =>
      Some(if n.a.peerEpoch >= 0 && n.a.ids != [] then n.(ab := n.ab + [Feedback(n.a.Epoch(), n.a.peerEpoch)]) else n)
    case DoReceive(closed, stored) =>
      if n.ba == [] then Some(n)
      else if !n.ba[0].Conn? then
        Some(n.(a := if n.ba[0].Data? then Store(n.a, stored) else n.a, ba := n.ba[1..]))
      else
        var r := Handle(n.a, n.ba[0], closed);
        if r.Aborted? then None else Some(n.(a := r.next, ba := n.ba[1..]))
    case DoLose(i) => Some(if i < |n.ba| then n.(ba := n.ba[..i] + n.ba[i + 1..]) else n)
    case DoAdvance(front) => Some(if n.a.tx == Connected then n.(a := n.a.(front := front)) else n)
    case DoFinish => Some(if n.a.tx == Connected then n.(a := n.a.(tx := Idle)) else n)
    case DoClose => Some(if n.a.tx == Broken then n.(a := n.a.(tx := Idle)) else n)
    case DoDrain => Some(if n.a.rx == Connected then n.(a := n.a.(empty := true)) else n)
  }

  predicate EnabledAt(n: Net, e: Event) { Enabled(if e.atA then n else Swap(n), e.action) }

  function Step(n: Net, e: Event): Option<Net> {
    if e.atA then Act(n, e.action)
    else match Act(Swap(n), e.action)
      case None => None
      case Some(m) => Some(Swap(m))
  }

  // ----- the invariant -----

  ghost predicate Distinct(s: seq<nat>) { forall i, j :: 0 <= i < j < |s| ==> s[i] != s[j] }

  /** One link per epoch, to epochs of the peer that never go back. */
  ghost predicate LinksOk(e: Endpoint) {
    && (forall l :: l in e.links ==> l.own < |e.ids| && l.peer <= e.heard)
    && (forall l, m :: l in e.links && m in e.links && l.own == m.own ==> l == m)
    && (forall l, m :: l in e.links && m in e.links && l.own < m.own ==> l.peer <= m.peer)
  }

  ghost predicate EndpointOk(e: Endpoint) {
    && |e.ids| == |e.starts| && Distinct(e.ids)
    && (forall i :: 0 <= i < |e.ids| ==> e.ids[i] != 0)
    && (forall i :: 0 <= i < |e.starts| ==> e.starts[i] < 0x0FFF)
    && (e.myId != 0 ==> e.ids != [] && e.myId == e.ids[e.Epoch()])
    && (e.Open() ==> e.myId != 0)
    && (e.tx == Connecting ==> e.front == e.starts[e.Epoch()])
    && (e.rx == Connecting ==>
          && e.tx == Connecting && e.peerId == 0 && !e.acked
          && forall l :: l in e.links ==> l.own != e.Epoch())
    && (e.tx == Connecting && e.peerId != 0 ==> e.rx == Connected)
    && (e.rx == Connected ==> e.peerId != 0)
    && (e.rx != Connected ==> e.empty)
    && (e.myId != 0 && !e.acked ==> e.tx == Connecting)
    && (e.tx == Connected ==> e.acked && e.peerId != 0 && e.ackedBy >= 0)
    && (e.acked ==> e.tx != Connecting)
    && (e.peerId == 0 <==> e.peerEpoch == -1) && -1 <= e.peerEpoch <= e.heard
    && -1 <= e.heard
    && LinksOk(e)
    && (e.tx == Connected ==> e.ackedBy <= e.heard)
    // After the peer has opened a new stream, the old one is never heard of again.
    && (e.rx == Connected && e.myId == 0 && !e.acked ==> e.peerEpoch < e.heard)
  }

  /** The receiver of `y` is past the handshake of its epoch `k`. */
  ghost predicate Settled(y: Endpoint, k: int) {
    0 <= k < |y.ids| && (k < y.Epoch() || exists l :: l in y.links && l.own == k)
  }

  /** What `x` knows about `y`. */
  ghost predicate Knows(x: Endpoint, y: Endpoint) {
    && x.heard < |y.ids|
    && |y.ids| == |y.starts|
    && (forall l :: l in x.links ==> l.peer < |y.ids| && l.start == y.starts[l.peer])
    && (x.peerId != 0 ==> 0 <= x.peerEpoch < |y.ids| && x.peerId == y.ids[x.peerEpoch])
    && (x.peerId != 0 ==>
          x.ids != [] && Link(x.Epoch(), x.peerEpoch, y.starts[x.peerEpoch]) in x.links)
    && (x.tx == Connected ==>
          && Settled(y, x.peerEpoch)
          && 0 <= x.ackedBy < |y.ids| && 0 < |x.ids| == |x.starts|
          && Link(x.ackedBy, x.Epoch(), x.starts[x.Epoch()]) in y.links)
  }

  /** A handshake packet on its way from `x` to `y`. */
  ghost predicate ConnOk(x: Endpoint, y: Endpoint, p: Packet)
    requires p.Conn?
  {
    && p.epoch < |x.ids| == |x.starts| && p.self == x.ids[p.epoch]
    && (!p.established ==> p.want && p.front == x.starts[p.epoch])
    && (p.ack == 0 <==> p.ackEpoch == -1)
    && (p.established ==> p.ack != 0 && Settled(y, p.ackEpoch))
    && (p.ack != 0 ==>
          && 0 <= p.ackEpoch < |y.ids| == |y.starts| && p.ack == y.ids[p.ackEpoch]
          && Link(p.epoch, p.ackEpoch, y.starts[p.ackEpoch]) in x.links)
  }

  /** A packet on its way from `x` to `y`: data is sent on streams that `y` has been connected to, and feedback is
      about a stream that `x` was connected to when it was sent. */
  ghost predicate PacketOk(x: Endpoint, y: Endpoint, p: Packet) {
    && p.epoch < |x.ids| && y.heard <= p.epoch
    && match p {
         case Conn(_, _, _, _, _, _, _) => ConnOk(x, y, p)
         case Data(epoch) => exists l :: l in y.links && l.peer == epoch
         case Feedback(epoch, about) => about < |y.ids| && exists l :: l in x.links && l.own == epoch && l.peer == about
       }
  }

  ghost predicate QueueOk(x: Endpoint, y: Endpoint, q: seq<Packet>) {
    && (forall i :: 0 <= i < |q| ==> PacketOk(x, y, q[i]))
    && (forall i, j :: 0 <= i < j < |q| ==> q[i].epoch <= q[j].epoch)
  }

  ghost predicate Disjoint(x: Endpoint, y: Endpoint) {
    forall i, j :: 0 <= i < |x.ids| && 0 <= j < |y.ids| ==> x.ids[i] != y.ids[j]
  }

  ghost predicate NetOk(n: Net) {
    && EndpointOk(n.a) && EndpointOk(n.b) && Disjoint(n.a, n.b)
    && Knows(n.a, n.b) && Knows(n.b, n.a)
    && QueueOk(n.a, n.b, n.ab) && QueueOk(n.b, n.a, n.ba)
  }

  lemma SwapOk(n: Net)
    requires NetOk(n)
    ensures NetOk(Swap(n))
  {
    hide EndpointOk, Knows, QueueOk;
  }

  // ----- connect -----

  lemma ConnectOk(e: Endpoint, id: nat, start: nat, hasFn: bool)
    requires EndpointOk(e) && id != 0 && id !in e.ids && start < 0x0FFF
    ensures EndpointOk(Connect(e, id, start, hasFn))
  {
    var f := Connect(e, id, start, hasFn);
    assert forall i :: 0 <= i < |e.ids| ==> f.ids[i] == e.ids[i] && f.ids[i] in e.ids;
  }

  lemma ConnectKnows(x: Endpoint, y: Endpoint, id: nat, start: nat, hasFn: bool)
    requires Knows(x, y) && Knows(y, x) && EndpointOk(x)
    ensures Knows(Connect(x, id, start, hasFn), y) && Knows(y, Connect(x, id, start, hasFn))
  {
    var f := Connect(x, id, start, hasFn);
    assert forall i :: 0 <= i < |x.ids| ==> f.ids[i] == x.ids[i] && f.starts[i] == x.starts[i];
  }

  lemma ConnectQueues(n: Net, id: nat, start: nat, hasFn: bool)
    requires QueueOk(n.a, n.b, n.ab) && QueueOk(n.b, n.a, n.ba) && EndpointOk(n.a)
    ensures QueueOk(Connect(n.a, id, start, hasFn), n.b, n.ab) && QueueOk(n.b, Connect(n.a, id, start, hasFn), n.ba)
  {
    var f := Connect(n.a, id, start, hasFn);
    assert forall i :: 0 <= i < |n.a.ids| ==> f.ids[i] == n.a.ids[i] && f.starts[i] == n.a.starts[i];
    forall i | 0 <= i < |n.ab| ensures PacketOk(f, n.b, n.ab[i]) { assert PacketOk(n.a, n.b, n.ab[i]); }
    forall i | 0 <= i < |n.ba| ensures PacketOk(n.b, f, n.ba[i]) { assert PacketOk(n.b, n.a, n.ba[i]); }
  }

  lemma ConnectKeeps(n: Net, id: nat, start: nat, hasFn: bool)
    requires NetOk(n) && Enabled(n, DoConnect(id, start, hasFn))
    ensures NetOk(n.(a := Connect(n.a, id, start, hasFn)))
  {
    hide EndpointOk, Knows, QueueOk, Connect, Disjoint;
    ConnectOk(n.a, id, start, hasFn);
    ConnectKnows(n.a, n.b, id, start, hasFn);
    ConnectQueues(n, id, start, hasFn);
    ConnectDisjoint(n.a, n.b, id, start, hasFn);
  }

  lemma ConnectDisjoint(x: Endpoint, y: Endpoint, id: nat, start: nat, hasFn: bool)
    requires Disjoint(x, y) && id !in y.ids
    ensures Disjoint(Connect(x, id, start, hasFn), y)
  {
  }

  // ----- steps that only change the state of one endpoint -----

  /** The endpoint keeps its history; what it says about the peer gets weaker or stays. */
  ghost predicate Retreats(x: Endpoint, x': Endpoint) {
    && x'.ids == x.ids && x'.starts == x.starts && x'.links == x.links && x'.heard == x.heard
    && (x'.peerId != 0 ==> x'.peerId == x.peerId && x'.peerEpoch == x.peerEpoch)
    && (x'.myId == x.myId || x'.myId == 0)
    && (x'.tx == Connected ==>
        x.tx == Connected && x'.peerId != 0 && x'.ackedBy == x.ackedBy && x'.peerEpoch == x.peerEpoch)
  }

  lemma RetreatKeeps(n: Net, x: Endpoint)
    requires NetOk(n) && Retreats(n.a, x) && EndpointOk(x)
    ensures NetOk(n.(a := x))
  {
    forall i | 0 <= i < |n.ab| ensures PacketOk(x, n.b, n.ab[i]) { assert PacketOk(n.a, n.b, n.ab[i]); }
    forall i | 0 <= i < |n.ba| ensures PacketOk(n.b, x, n.ba[i]) { assert PacketOk(n.b, n.a, n.ba[i]); }
    assert Knows(x, n.b) && Knows(n.b, x);
    hide EndpointOk, PacketOk, Knows;
  }

  // ----- send -----

  lemma SentOk(x: Endpoint, y: Endpoint)
    requires EndpointOk(x) && EndpointOk(y) && Knows(x, y) && Knows(y, x) && Sends(x)
    ensures x.ids != [] && PacketOk(x, y, Sent(x))
  {
    var p := Sent(x);
    if x.peerId != 0 {
      assert Link(x.Epoch(), x.peerEpoch, y.starts[x.peerEpoch]) in x.links;
    }
  }

  lemma SendKeeps(n: Net)
    requires NetOk(n) && Sends(n.a)
    ensures n.a.ids != [] && NetOk(n.(a := n.a.(needsAck := false), ab := n.ab + [Sent(n.a)]))
  {
    var x := n.a.(needsAck := false);
    SentOk(n.a, n.b);
    assert EndpointOk(x);
    RetreatKeeps(n, x);
    var q := n.ab + [Sent(n.a)];
    forall i, j | 0 <= i < j < |q| ensures q[i].epoch <= q[j].epoch {
      assert PacketOk(n.a, n.b, n.ab[i]);
    }
    forall i | 0 <= i < |q| ensures PacketOk(x, n.b, q[i]) {
      assert PacketOk(n.a, n.b, q[i]);
    }
    hide EndpointOk, Knows, PacketOk;
  }

  // ----- receive -----

  /** Hearing of a later epoch keeps what is known of packets in both directions. */
  lemma HeardPackets(x: Endpoint, y: Endpoint, heard: int, p: Packet)
    ensures PacketOk(x, y, p) ==> PacketOk(x.(heard := heard), y, p)
    ensures PacketOk(y, x, p) && heard <= p.epoch ==> PacketOk(y, x.(heard := heard), p)
  {
  }

  lemma HeardEndpoint(x: Endpoint, y: Endpoint, heard: int)
    requires EndpointOk(x) && Knows(x, y) && Knows(y, x) && x.heard <= heard < |y.ids|
    ensures var z := x.(heard := heard); EndpointOk(z) && Knows(z, y) && Knows(y, z)
  {
  }

  /** The packet is taken off the queue, and its epoch is the latest heard. */
  lemma HearKeeps(n: Net)
    requires NetOk(n) && n.ba != []
    ensures var p := n.ba[0]; var x := n.a.(heard := p.epoch);
            NetOk(n.(a := x, ba := n.ba[1..])) && PacketOk(n.b, x, p)
  {
    var p := n.ba[0];
    var x := n.a.(heard := p.epoch);
    assert PacketOk(n.b, n.a, p);
    assert n.a.heard <= p.epoch < |n.b.ids|;
    hide EndpointOk, Knows, PacketOk;
    HeardEndpoint(n.a, n.b, p.epoch);
    HeardPackets(n.a, n.b, p.epoch, p);
    forall i | 0 <= i < |n.ab| ensures PacketOk(x, n.b, n.ab[i]) { HeardPackets(n.a, n.b, p.epoch, n.ab[i]); }
    forall i | 0 <= i < |n.ba[1..]| ensures PacketOk(n.b, x, n.ba[1..][i]) {
      HeardPackets(n.a, n.b, p.epoch, n.ba[i + 1]);
      assert n.ba[0].epoch <= n.ba[i + 1].epoch;
    }
  }

  /** The peer's packets never carry our own stream id. */
  lemma NoEcho(x: Endpoint, y: Endpoint, p: Packet)
    requires p.Conn?
    requires EndpointOk(x) && EndpointOk(y) && Disjoint(x, y) && PacketOk(y, x, p)
    ensures p.self != x.myId && p.self != 0
  {
  }

  /** An ack of our current stream id is an ack of our current epoch. */
  lemma AckIsCurrent(x: Endpoint, y: Endpoint, p: Packet)
    requires p.Conn?
    requires EndpointOk(x) && PacketOk(y, x, p) && x.myId != 0 && p.ack == x.myId
    ensures p.ackEpoch == x.Epoch()
  {
  }

  lemma BreakOk(x: Endpoint, y: Endpoint, p: Packet, tx: LinkState, rx: LinkState)
    requires p.Conn?
    requires EndpointOk(x) && EndpointOk(y) && Knows(x, y) && PacketOk(y, x, p) && x.heard == p.epoch
    requires x.rx == Connected && x.peerId != p.self
    requires (tx == Idle || tx == Broken) && ((rx == Idle && x.empty) || rx == Connected)
    ensures var z := Claim(x).(tx := tx, myId := 0, rx := rx); EndpointOk(z) && Retreats(x, z)
  {
  }

  /** In the waiting state the receiver learns the initial sequence number and nothing else. */
  lemma FirstContact(x: Endpoint, y: Endpoint, p: Packet)
    requires p.Conn?
    requires EndpointOk(x) && PacketOk(y, x, p) && x.rx == Connecting && (p.ack == 0 || p.ack == x.myId)
    ensures p.front == y.starts[p.epoch]
  {
    if p.established {
      AckIsCurrent(x, y, p);
    }
  }

  lemma ConnectRxOk(x: Endpoint, y: Endpoint, p: Packet)
    requires p.Conn?
    requires EndpointOk(x) && EndpointOk(y) && Knows(x, y) && PacketOk(y, x, p) && x.heard == p.epoch && p.self != 0
    requires x.rx == Connecting && p.front == y.starts[p.epoch]
    ensures var z := ConnectRx(x, p);
            && EndpointOk(z) && Knows(z, y) && PacketOk(y, z, p) && x.links <= z.links
  {
    var z := ConnectRx(x, p);
    forall k | Settled(x, k) ensures Settled(z, k) { SettledGrows(x, z, k); }
  }

  lemma SettledGrows(x: Endpoint, z: Endpoint, k: int)
    requires Settled(x, k) && z.ids == x.ids && x.links <= z.links
    ensures Settled(z, k)
  {
    if k == x.Epoch() {
      var l :| l in x.links && l.own == k;
      assert l in z.links;
    }
  }

  /** More links on one side keep everything the other side and the queues rely on. */
  lemma LinksGrow(n: Net, z: Endpoint)
    requires NetOk(n) && EndpointOk(z) && Knows(z, n.b)
    requires z.ids == n.a.ids && z.starts == n.a.starts && n.a.links <= z.links && z.heard == n.a.heard
    ensures NetOk(n.(a := z))
  {
    forall k | Settled(n.a, k) ensures Settled(z, k) { SettledGrows(n.a, z, k); }
    assert Knows(n.b, z);
    forall i | 0 <= i < |n.ab| ensures PacketOk(z, n.b, n.ab[i]) { assert PacketOk(n.a, n.b, n.ab[i]); }
    forall i | 0 <= i < |n.ba| ensures PacketOk(n.b, z, n.ba[i]) { assert PacketOk(n.b, n.a, n.ba[i]); }
    hide EndpointOk, PacketOk, Knows, Settled;
  }

  lemma ConnectTxOk(x: Endpoint, y: Endpoint, p: Packet)
    requires p.Conn?
    requires EndpointOk(x) && EndpointOk(y) && Knows(x, y) && PacketOk(y, x, p) && x.heard == p.epoch
    requires x.rx == Connected && x.myId != 0 && p.ack == x.myId && !x.acked
    ensures EndpointOk(ConnectTx(x, p)) && Knows(ConnectTx(x, p), y)
  {
    AckIsCurrent(x, y, p);
    var l := Link(p.epoch, p.ackEpoch, x.starts[p.ackEpoch]);
    assert l in y.links;
    assert Settled(y, x.peerEpoch) by {
      if x.peerEpoch == p.epoch { assert l.own == x.peerEpoch; }
    }
  }

  lemma NeedsAckKeeps(n: Net, needed: bool)
    requires NetOk(n)
    ensures NetOk(n.(a := n.a.(needsAck := needed)))
  {
    assert EndpointOk(n.a.(needsAck := needed));
    RetreatKeeps(n, n.a.(needsAck := needed));
    hide NetOk;
  }

  /** Receiving in the connecting state. */
  lemma ReceiveConnecting(n: Net, p: Packet, closed: bool)
    requires p.Conn?
    requires NetOk(n) && PacketOk(n.b, n.a, p) && n.a.heard == p.epoch && n.a.rx == Connecting
    ensures var r := Handle(n.a, p, closed); r.Ok? && NetOk(n.(a := r.next))
  {
    hide EndpointOk, Knows, QueueOk, PacketOk, Disjoint;
    NoEcho(n.a, n.b, p);
    ConnectingHasId(n.a);
    if p.ack != 0 && p.ack != n.a.myId {
      assert Handle(n.a, p, closed).next == n.a;
    } else {
      FirstContact(n.a, n.b, p);
      ConnectRxOk(n.a, n.b, p);
      var c := ConnectRx(n.a, p);
      LinksGrow(n, c);
      var m := n.(a := c);
      if p.ack == n.a.myId {
        ConnectTxOk(c, n.b, p);
        var d := ConnectTx(c, p);
        LinksGrow(m, d);
        NeedsAckKeeps(n.(a := d), p.want);
      } else {
        NeedsAckKeeps(m, p.want);
      }
    }
  }

  lemma ConnectingHasId(x: Endpoint)
    requires EndpointOk(x) && x.rx == Connecting
    ensures x.myId != 0 && !x.acked && x.empty
  {
  }

  /** The check that our stream id is not zero never fails. */
  lemma NeverAborts(x: Endpoint, y: Endpoint, p: Packet)
    requires p.Conn?
    requires EndpointOk(x) && EndpointOk(y) && Knows(x, y) && PacketOk(y, x, p) && x.heard == p.epoch
             && x.rx == Connected
    requires p.ack == x.myId && !x.acked && !(p.want && x.peerId != p.self && p.ack == 0)
    ensures x.myId != 0
  {
  }

  /** Receiving in the connected state. */
  lemma ReceiveConnected(n: Net, p: Packet, closed: bool)
    requires p.Conn?
    requires NetOk(n) && PacketOk(n.b, n.a, p) && n.a.heard == p.epoch && n.a.rx == Connected
    ensures var r := Handle(n.a, p, closed); r.Ok? && NetOk(n.(a := r.next))
  {
    hide EndpointOk, Knows, QueueOk, PacketOk, Disjoint, Retreats;
    NoEcho(n.a, n.b, p);
    var r := Handle(n.a, p, closed);
    if p.want && n.a.peerId != p.self && p.ack == 0 {
      var tx := if !(closed && n.a.empty) && n.a.tx == Connected then Broken else Idle;
      var rx := if n.a.empty then Idle else Connected;
      BreakOk(n.a, n.b, p, tx, rx);
      var z := Claim(n.a).(tx := tx, myId := 0, rx := rx);
      RetreatKeeps(n, z);
      assert r == Ok(z);
    } else if p.ack == n.a.myId && !n.a.acked {
      NeverAborts(n.a, n.b, p);
      ConnectTxOk(n.a, n.b, p);
      var d := ConnectTx(n.a, p);
      LinksGrow(n, d);
      NeedsAckKeeps(n.(a := d), p.want);
    } else {
      NeedsAckKeeps(n, p.want);
    }
  }

  lemma ReceiveKeeps(n: Net, closed: bool)
    requires NetOk(n) && n.ba != [] && n.ba[0].Conn?
    ensures var r := Handle(n.a, n.ba[0], closed); r.Ok? && NetOk(n.(a := r.next, ba := n.ba[1..]))
  {
    hide EndpointOk, Knows, QueueOk, PacketOk, Disjoint;
    var p := n.ba[0];
    HearKeeps(n);
    var m := n.(a := n.a.(heard := p.epoch), ba := n.ba[1..]);
    assert Handle(n.a, p, closed) == Handle(m.a, p, closed);
    match n.a.rx
    case Connecting => ReceiveConnecting(m, p, closed);
    case Connected => ReceiveConnected(m, p, closed);
    case _ =>
  }

  // ----- data and feedback -----

  /** Appends a packet of the current epoch. */
  lemma AppendKeeps(n: Net, p: Packet)
    requires NetOk(n) && PacketOk(n.a, n.b, p) && p.epoch == n.a.Epoch()
    ensures NetOk(n.(ab := n.ab + [p]))
  {
    var q := n.ab + [p];
    forall i, j | 0 <= i < j < |q| ensures q[i].epoch <= q[j].epoch {
      assert PacketOk(n.a, n.b, n.ab[i]);
    }
    hide EndpointOk, Knows, PacketOk;
  }

  lemma SendDataKeeps(n: Net)
    requires NetOk(n) && n.a.tx == Connected
    ensures n.a.ids != [] && NetOk(n.(ab := n.ab + [Data(n.a.Epoch())]))
  {
    hide QueueOk, Disjoint;
    var p := Data(n.a.Epoch());
    var l := Link(n.a.ackedBy, n.a.Epoch(), n.a.starts[n.a.Epoch()]);
    assert l in n.b.links && l.peer == p.epoch;
    assert PacketOk(n.a, n.b, p);
    hide NetOk, PacketOk;
    AppendKeeps(n, p);
  }

  lemma SendFeedbackKeeps(n: Net)
    requires NetOk(n) && n.a.peerEpoch >= 0
    ensures n.a.ids != [] && NetOk(n.(ab := n.ab + [Feedback(n.a.Epoch(), n.a.peerEpoch)]))
  {
    hide QueueOk, Disjoint;
    var p := Feedback(n.a.Epoch(), n.a.peerEpoch);
    var l := Link(n.a.Epoch(), n.a.peerEpoch, n.b.starts[n.a.peerEpoch]);
    assert l in n.a.links && l.own == p.epoch && l.peer == p.about;
    assert PacketOk(n.a, n.b, p);
    hide NetOk, PacketOk;
    AppendKeeps(n, p);
  }

  /** Data or feedback is taken off the queue. */
  lemma TakeKeeps(n: Net, stored: bool)
    requires NetOk(n) && n.ba != []
    ensures NetOk(n.(a := Store(n.a, stored), ba := n.ba[1..])) && NetOk(n.(ba := n.ba[1..]))
  {
    LoseKeeps(n, 0);
    assert n.ba[..0] + n.ba[1..] == n.ba[1..];
    var m := n.(ba := n.ba[1..]);
    if n.a.rx == Connected && stored {
      EmptyOk(n.a, false);
      hide NetOk;
      RetreatKeeps(m, n.a.(empty := false));
    }
  }

  // ----- every action -----

  lemma DisconnectOk(e: Endpoint, id: nat)
    requires EndpointOk(e) && id != 0
    ensures EndpointOk(Disconnect(e, id)) && Retreats(e, Disconnect(e, id))
  {
  }

  lemma ProgressOk(e: Endpoint, front: nat)
    requires EndpointOk(e)
    ensures e.tx == Connected ==> EndpointOk(e.(front := front)) && EndpointOk(e.(tx := Idle))
    ensures e.tx == Broken ==> EndpointOk(e.(tx := Idle))
    ensures Retreats(e, e.(front := front)) && Retreats(e, e.(tx := Idle))
  {
  }

  lemma EmptyOk(e: Endpoint, empty: bool)
    requires EndpointOk(e) && e.rx == Connected
    ensures EndpointOk(e.(empty := empty)) && Retreats(e, e.(empty := empty))
  {
  }

  lemma LoseKeeps(n: Net, i: nat)
    requires NetOk(n) && i < |n.ba|
    ensures NetOk(n.(ba := n.ba[..i] + n.ba[i + 1..]))
  {
    hide EndpointOk, Knows, PacketOk;
    var q := n.ba[..i] + n.ba[i + 1..];
    assert forall k :: 0 <= k < |q| ==> q[k] == n.ba[if k < i then k else k + 1];
  }

  lemma ActKeeps(n: Net, action: Action)
    requires NetOk(n) && Enabled(n, action)
    ensures Act(n, action).Some? && NetOk(Act(n, action).value)
  {
    hide EndpointOk, Knows, QueueOk, PacketOk, Disjoint, Retreats, Handle, Connect, Disconnect, Sends;
    match action
    case DoConnect(id, start, hasFn) => ConnectKeeps(n, id, start, hasFn);
    case DoDisconnect(id) =>
      if id != 0 {
        DisconnectOk(n.a, id);
        RetreatKeeps(n, Disconnect(n.a, id));
      }
    case DoSend => if Sends(n.a) { SendKeeps(n); }
    case DoSendData => if n.a.tx == Connected { SendDataKeeps(n); }
    case DoSendFeedback => if n.a.peerEpoch >= 0 { SendFeedbackKeeps(n); }
    case DoReceive(closed, stored) =>
      if n.ba != [] {
        if n.ba[0].Conn? { ReceiveKeeps(n, closed); } else { TakeKeeps(n, stored); }
      }
    case DoLose(i) => if i < |n.ba| { LoseKeeps(n, i); }
    case DoAdvance(front) =>
      ProgressOk(n.a, front);
      if n.a.tx == Connected { RetreatKeeps(n, n.a.(front := front)); }
    case DoFinish =>
      ProgressOk(n.a, 0);
      if n.a.tx == Connected { RetreatKeeps(n, n.a.(tx := Idle)); }
    case DoClose =>
      ProgressOk(n.a, 0);
      if n.a.tx == Broken { RetreatKeeps(n, n.a.(tx := Idle)); }
    case DoDrain => if n.a.rx == Connected { EmptyOk(n.a, true); RetreatKeeps(n, n.a.(empty := true)); }
  }

  lemma StepKeeps(n: Net, e: Event)
    requires NetOk(n) && EnabledAt(n, e)
    ensures Step(n, e).Some? && NetOk(Step(n, e).value)
  {
    hide NetOk, Act;
    if e.atA {
      ActKeeps(n, e.action);
    } else {
      SwapOk(n);
      ActKeeps(Swap(n), e.action);
      SwapOk(Act(Swap(n), e.action).value);
    }
  }

  // ----- runs -----

  const Start := Endpoint(0, 0, false, false, Idle, Idle, 0, true, None, [], [], {}, -1, -1, -1, {}, [])

  lemma StartOk()
    ensures NetOk(Net(Start, Start, [], []))
  {
  }

  /** A state that a run of enabled events leads to. */
  ghost predicate Reachable(n: Net, events: seq<Event>)
    decreases |events|
  {
    if events == [] then n == Net(Start, Start, [], [])
    else
      var before, last := events[..|events| - 1], events[|events| - 1];
      exists m :: Reachable(m, before) && EnabledAt(m, last) && Step(m, last) == Some(n)
  }

  lemma {:induction false} ReachableOk(n: Net, events: seq<Event>)
    requires Reachable(n, events)
    ensures NetOk(n)
    decreases |events|
  {
    if events == [] {
      StartOk();
    } else {
      var before, last := events[..|events| - 1], events[|events| - 1];
      var m :| Reachable(m, before) && EnabledAt(m, last) && Step(m, last) == Some(n);
      ReachableOk(m, before);
      StepKeeps(m, last);
    }
  }

  /** Agreement: over all runs with fresh ids, whenever a transmitter is connected on its current stream,
      the peer's receiver had been connected to that stream, at exactly the initial sequence number
      drawn for it; and no receiver is ever connected at any other position. */
  lemma Agreement(n: Net, events: seq<Event>)
    requires Reachable(n, events)
    ensures n.a.tx == Connected ==>
              && n.a.ids != [] && n.a.myId == n.a.ids[n.a.Epoch()] && n.a.ackedBy >= 0 && |n.a.starts| == |n.a.ids|
              && Link(n.a.ackedBy, n.a.Epoch(), n.a.starts[n.a.Epoch()]) in n.b.links
    ensures n.b.tx == Connected ==>
              && n.b.ids != [] && n.b.myId == n.b.ids[n.b.Epoch()] && n.b.ackedBy >= 0 && |n.b.starts| == |n.b.ids|
              && Link(n.b.ackedBy, n.b.Epoch(), n.b.starts[n.b.Epoch()]) in n.a.links
    ensures forall l :: l in n.b.links ==> l.peer < |n.a.starts| && l.start == n.a.starts[l.peer]
    ensures forall l :: l in n.a.links ==> l.peer < |n.b.starts| && l.start == n.b.starts[l.peer]
  {
    ReachableOk(n, events);
    hide QueueOk, Disjoint, Settled;
  }

  /** Streams stay apart: over all runs, in which data, acks and flow control share the queues with the handshake
      packets of any number of reconnects, a connected receiver only ever gets data of the very stream it is
      connected to, and a connected transmitter only feedback on its current stream. */
  lemma StreamsStayApart(n: Net, events: seq<Event>)
    requires Reachable(n, events)
    ensures n.ba != [] && n.ba[0].Data? && n.a.rx == Connected ==> n.ba[0].epoch == n.a.peerEpoch
    ensures n.ba != [] && n.ba[0].Feedback? && n.a.tx == Connected ==> n.ba[0].about == n.a.Epoch()
    ensures n.ab != [] && n.ab[0].Data? && n.b.rx == Connected ==> n.ab[0].epoch == n.b.peerEpoch
    ensures n.ab != [] && n.ab[0].Feedback? && n.b.tx == Connected ==> n.ab[0].about == n.b.Epoch()
  {
    ReachableOk(n, events);
    hide Reachable, EndpointOk, Knows, PacketOk;
    if n.ba != [] { OwnStreamOnly(n.a, n.b, n.ba[0]); }
    if n.ab != [] { OwnStreamOnly(n.b, n.a, n.ab[0]); }
  }

  /** What a packet on its way to `x` can be about. */
  lemma OwnStreamOnly(x: Endpoint, y: Endpoint, p: Packet)
    requires EndpointOk(x) && EndpointOk(y) && Knows(x, y) && Knows(y, x) && PacketOk(y, x, p)
    ensures p.Data? && x.rx == Connected ==> p.epoch == x.peerEpoch
    ensures p.Feedback? && x.tx == Connected ==> p.about == x.Epoch()
  {
    if p.Data? && x.rx == Connected {
      var l :| l in x.links && l.peer == p.epoch;
      var now := Link(x.Epoch(), x.peerEpoch, y.starts[x.peerEpoch]);
      assert now in x.links && l.own <= now.own;
    }
    if p.Feedback? && x.tx == Connected {
      var l :| l in y.links && l.own == p.epoch && l.peer == p.about;
      var acked := Link(x.ackedBy, x.Epoch(), x.starts[x.Epoch()]);
      assert acked in y.links && acked.own <= l.own;
    }
  }

  /** How a connection starts: when a receiver is connected to a stream for the first time, the peer's transmitter has
      sent nothing on that stream, there is neither data nor feedback of it in flight, and the position is the one
      drawn for it. */
  lemma FirstLinkIsClean(n: Net, events: seq<Event>)
    requires Reachable(n, events) && n.ba != [] && n.ba[0].Conn? && n.a.rx == Connecting
    requires n.ba[0].ack == 0 || n.ba[0].ack == n.a.myId
    requires forall l :: l in n.a.links ==> l.peer != n.ba[0].epoch
    ensures var k := n.ba[0].epoch;
            && k < |n.b.starts| && n.ba[0].front == n.b.starts[k]
            && !(n.b.tx == Connected && n.b.Epoch() == k)
            && (forall i :: 0 <= i < |n.ba| && n.ba[i].Data? ==> n.ba[i].epoch != k)
            && (forall i :: 0 <= i < |n.ab| && n.ab[i].Feedback? ==> n.ab[i].about != k)
  {
    ReachableOk(n, events);
    hide Reachable, Disjoint;
    var p := n.ba[0];
    assert PacketOk(n.b, n.a, p);
    FirstContact(n.a, n.b, p);
    forall i | 0 <= i < |n.ba| && n.ba[i].Data? ensures n.ba[i].epoch != p.epoch {
      assert PacketOk(n.b, n.a, n.ba[i]);
    }
    forall i | 0 <= i < |n.ab| && n.ab[i].Feedback? ensures n.ab[i].about != p.epoch {
      assert PacketOk(n.a, n.b, n.ab[i]);
    }
    hide QueueOk, EndpointOk, ConnOk, Settled;
  }

  /** No check fails in any run: every enabled event can happen.  The checks are that the receiver is empty when it
      is connected to a stream, and that an acknowledged stream id is not zero. */
  lemma NoAbort(n: Net, events: seq<Event>, e: Event)
    requires Reachable(n, events) && EnabledAt(n, e)
    ensures Step(n, e).Some?
  {
    ReachableOk(n, events);
    StepKeeps(n, e);
  }

  // ----- the two halves of a connection -----

  /** The transmitter was acknowledged by the very stream that the receiver is connected to. */
  predicate Paired(e: Endpoint) { e.ackedBy == e.peerEpoch }

  /** Extends a run by one event. */
  lemma Extend(m: Net, before: seq<Event>, e: Event) returns (n: Net, events: seq<Event>)
    requires Reachable(m, before) && EnabledAt(m, e) && Step(m, e).Some?
    ensures Step(m, e) == Some(n) && Reachable(n, events)
  {
    n, events := Step(m, e).value, before + [e];
    assert events[..|events| - 1] == before;
    hide Step, EnabledAt;
  }

  /** Both sides connect and send. */
  lemma OpeningRun() returns (n: Net, events: seq<Event>)
    ensures Reachable(n, events)
    ensures n == Net(Connect(Start, 1, 10, false), Connect(Start, 2, 20, false),
                     [Conn(10, 1, 0, true, 0, -1, false)], [Conn(20, 2, 0, true, 0, -1, false)])
  {
    n, events := Net(Start, Start, [], []), [];
    assert Reachable(n, events);
    hide Reachable;
    n, events := Extend(n, events, Event(true, DoConnect(1, 10, false)));
    var a := Connect(Start, 1, 10, false);
    assert n == Net(a, Start, [], []);
    assert Sent(a) == Conn(10, 1, 0, true, 0, -1, false);
    hide Connect;
    n, events := Extend(n, events, Event(true, DoSend));
    assert n == Net(a, Start, [Sent(a)], []);
    n, events := Extend(n, events, Event(false, DoConnect(2, 20, false)));
    var b := Connect(Start, 2, 20, false);
    assert n == Net(a, b, [Sent(a)], []);
    PeerSends(a, b, [Sent(a)]);
    n, events := Extend(n, events, Event(false, DoSend));
  }

  lemma PeerSends(a: Endpoint, b: Endpoint, ab: seq<Packet>)
    requires b == Connect(Start, 2, 20, false)
    ensures Step(Net(a, b, ab, []), Event(false, DoSend)) == Some(Net(a, b, ab, [Conn(20, 2, 0, true, 0, -1, false)]))
  {
    var p := Conn(20, 2, 0, true, 0, -1, false);
    assert Sent(b) == p && b.(needsAck := false) == b;
    assert [] + [p] == [p];
    assert Act(Net(b, a, [], ab), DoSend) == Some(Net(b, a, [p], ab));
  }

  /** The peer's first packet arrives; ours is still on its way. */
  lemma CrossingRun() returns (n: Net, events: seq<Event>)
    ensures Reachable(n, events)
    ensures n.ab == [Conn(10, 1, 0, true, 0, -1, false)] && n.ba == []
    ensures n.a.rx == Connected && n.a.myId == 1 && !n.a.acked && n.a.peerEpoch == 0 && n.a.peerId == 2
            && n.a.ids == [1]
    ensures n.b.ids == [2]
  {
    hide Reachable;
    n, events := OpeningRun();
    n, events := Extend(n, events, Event(true, DoReceive(false, false)));
  }

  /** The two halves are not always paired: after a reconnect of the peer, an ack of its new stream connects
      the transmitter while the receiver is still connected to the old stream. */
  lemma HalfOpenRun() returns (n: Net, events: seq<Event>)
    ensures Reachable(n, events) && n.a.tx == Connected && n.a.rx == Connected && !Paired(n.a)
  {
    hide Reachable;
    n, events := CrossingRun();
    n, events := Extend(n, events, Event(false, DoConnect(3, 30, false)));
    n, events := Extend(n, events, Event(false, DoReceive(false, false)));
    assert n.b.peerId == 1 && n.b.tx == Connecting && n.b.myId == 3 && n.b.ids == [2, 3] && n.b.front == 30;
    n, events := Extend(n, events, Event(false, DoSend));
    assert n.ba == [Conn(30, 3, 1, true, 1, 0, false)];
    n, events := Extend(n, events, Event(true, DoReceive(false, false)));
  }

  /** Two copies of our first packet are on their way; the peer's is lost. */
  lemma RepeatedRun() returns (n: Net, events: seq<Event>)
    ensures Reachable(n, events)
    ensures n.a == Connect(Start, 1, 10, false) && n.b == Connect(Start, 2, 20, false) && n.ba == []
    ensures n.ab == [Conn(10, 1, 0, true, 0, -1, false), Conn(10, 1, 0, true, 0, -1, false)]
  {
    hide Reachable;
    n, events := OpeningRun();
    n, events := Extend(n, events, Event(true, DoLose(0)));
    assert n.ba == [];
    n, events := Extend(n, events, Event(true, DoSend));
  }

  /** The peer answers the first copy. */
  lemma AnsweredRun() returns (n: Net, events: seq<Event>)
    ensures Reachable(n, events)
    ensures n.ab == [Conn(10, 1, 0, true, 0, -1, false)] && n.ba == [Conn(20, 2, 1, true, 0, 0, false)]
    ensures n.a == Connect(Start, 1, 10, false) && n.b.ids == [2] && n.b.links == {Link(0, 0, 10)}
  {
    hide Reachable;
    n, events := RepeatedRun();
    n, events := Extend(n, events, Event(false, DoReceive(false, false)));
    assert n.b.tx == Connecting && n.b.myId == 2 && n.b.peerId == 1 && n.b.front == 20 && n.b.peerEpoch == 0
      && n.b.ids == [2];
    assert n.b.links == {Link(0, 0, 10)} && n.a == Connect(Start, 1, 10, false);
    n, events := Extend(n, events, Event(false, DoSend));
  }

  /** A second link to a stream need not be clean: a repeated packet connects the peer's next receiver to a stream that
      is under way, and data sent to its previous receiver reaches it. */
  lemma RelinkedRun() returns (n: Net, events: seq<Event>)
    ensures Reachable(n, events)
    ensures n.b.rx == Connected && n.b.peerEpoch == 0 && {Link(0, 0, 10), Link(1, 0, 10)} <= n.b.links
            && n.ab == [Data(0)]
  {
    hide Reachable;
    n, events := AnsweredRun();
    n, events := Extend(n, events, Event(true, DoReceive(false, false)));
    assert n.a.tx == Connected && n.a.ids == [1] && n.ab == [Conn(10, 1, 0, true, 0, -1, false)] && n.ba == [];
    n, events := Extend(n, events, Event(true, DoSendData));
    assert n.ab == [Conn(10, 1, 0, true, 0, -1, false), Data(0)];
    n, events := Extend(n, events, Event(false, DoConnect(3, 30, false)));
    n, events := Extend(n, events, Event(false, DoReceive(false, false)));
  }

  /** Exactly when an acknowledgement pairs the two halves: when it comes from the stream that the receiver is
      connected to.  For a receiver that is still connecting this is always so. */
  lemma PairedIff(n: Net, events: seq<Event>, closed: bool)
    requires Reachable(n, events) && n.ba != [] && n.ba[0].Conn? && n.a.tx == Connecting
    requires var r := Handle(n.a, n.ba[0], closed); r.Ok? && r.next.tx == Connected
    ensures Paired(Handle(n.a, n.ba[0], closed).next) <==> n.a.rx == Connecting || n.ba[0].self == n.a.peerId
  {
    ReachableOk(n, events);
    var p := n.ba[0];
    assert PacketOk(n.b, n.a, p);
    hide QueueOk, Settled, Reachable;
  }

  /** `my_control_bit`. */
  predicate ControlBit(mine: nat, peer: nat) { mine > peer }

  /** When the halves are paired, the two sides use opposite control bits. */
  lemma PairedControlBits(n: Net, events: seq<Event>)
    requires Reachable(n, events) && n.a.tx == Connected && Paired(n.a)
    ensures 0 <= n.a.ackedBy < |n.b.ids| && n.b.ids[n.a.ackedBy] == n.a.peerId
    ensures ControlBit(n.a.myId, n.a.peerId) == !ControlBit(n.b.ids[n.a.ackedBy], n.a.myId)
  {
    ReachableOk(n, events);
    hide QueueOk, Settled, Reachable;
  }

  // ----- disconnect callbacks -----

  /** A callback stays installed while its stream is current, and is claimed once when it no longer is. */
  ghost predicate CallbacksOk(e: Endpoint) {
    && (forall id :: id in e.installed ==> id in e.ids)
    && Distinct(e.claimed)
    && (forall id :: id in e.claimed <==> id in e.installed && id != e.myId)
    && e.fn == (if e.myId != 0 && e.myId in e.installed then Some(e.myId) else None)
  }

  lemma ClaimOk(e: Endpoint)
    requires CallbacksOk(e) && EndpointOk(e)
    ensures CallbacksOk(Claim(e).(myId := 0))
    ensures e.myId in e.installed ==> Claim(e).claimed == e.claimed + [e.myId]
  {
    var f := Claim(e);
    assert 0 !in e.installed by { assert forall i :: 0 <= i < |e.ids| ==> e.ids[i] != 0; }
    if e.fn.Some? {
      assert e.myId !in e.claimed;
      assert f.claimed == e.claimed + [e.myId];
      assert forall id :: id in f.claimed <==> id in e.claimed || id == e.myId;
    }
  }

  /** The fields that the callbacks concern are the same. */
  ghost predicate SameCallbacks(e: Endpoint, f: Endpoint) {
    f.ids == e.ids && f.installed == e.installed && f.claimed == e.claimed && f.myId == e.myId && f.fn == e.fn
  }

  lemma CallbacksFrame(e: Endpoint, f: Endpoint)
    requires CallbacksOk(e) && SameCallbacks(e, f)
    ensures CallbacksOk(f)
  {
  }

  lemma ConnectCallbacks(e: Endpoint, id: nat, start: nat, hasFn: bool)
    requires CallbacksOk(e) && EndpointOk(e) && id != 0 && id !in e.ids
    ensures CallbacksOk(Connect(e, id, start, hasFn))
  {
    ClaimOk(e);
    var f := Connect(e, id, start, hasFn);
    var c := Claim(e).(myId := 0);
    assert id !in c.claimed && id !in e.installed;
    assert forall i :: i in e.ids ==> i in f.ids;
    assert id == f.ids[|e.ids|];
  }

  lemma HandleFields(e: Endpoint, p: Packet, closed: bool)
    requires p.Conn? && Handle(e, p, closed).Ok?
    ensures var f := Handle(e, p, closed).next; SameCallbacks(e, f) || SameCallbacks(Claim(e).(myId := 0), f)
  {
    var f, z := Handle(e, p, closed).next, Claim(e).(myId := 0);
    if p.self == e.myId && p.front == e.front {
      assert SameCallbacks(e, f);
    } else if e.rx == Connecting && (p.ack == 0 || p.ack == e.myId) && p.self == e.myId {
      assert SameCallbacks(z, f);
    } else if e.rx == Connected && p.want && e.peerId != p.self && p.ack == 0 {
      assert SameCallbacks(z, f);
    } else {
      assert SameCallbacks(e, f);
    }
    hide Handle, SameCallbacks, Claim;
  }

  lemma HandleCallbacks(e: Endpoint, p: Packet, closed: bool)
    requires p.Conn? && CallbacksOk(e) && EndpointOk(e) && Handle(e, p, closed).Ok?
    ensures CallbacksOk(Handle(e, p, closed).next)
  {
    hide CallbacksOk, EndpointOk, Handle, SameCallbacks;
    HandleFields(e, p, closed);
    ClaimOk(e);
    var f := Handle(e, p, closed).next;
    if SameCallbacks(e, f) {
      CallbacksFrame(e, f);
    } else {
      CallbacksFrame(Claim(e).(myId := 0), f);
    }
  }

  /** Conservation: every action keeps the rule that an installed callback is claimed exactly once, exactly when its
      stream stops being current, however often the callbacks themselves connect again. */
  lemma CallbacksConserved(n: Net, action: Action)
    requires NetOk(n) && Enabled(n, action) && CallbacksOk(n.a)
    ensures Act(n, action).Some? && CallbacksOk(Act(n, action).value.a)
  {
    ActKeeps(n, action);
    var m := Act(n, action).value;
    EndpointOfNet(n);
    hide NetOk, Handle, Connect, Disconnect, CallbacksOk, EndpointOk;
    match action
    case DoConnect(id, start, hasFn) => ConnectCallbacks(n.a, id, start, hasFn);
    case DoDisconnect(id) => if id != 0 { DisconnectCallbacks(n.a, id); }
    case DoReceive(closed, stored) =>
      if n.ba != [] && n.ba[0].Conn? { HandleCallbacks(n.a, n.ba[0], closed); } else { OtherCallbacks(n, action); }
    case _ => OtherCallbacks(n, action);
  }

  lemma EndpointOfNet(n: Net)
    requires NetOk(n)
    ensures EndpointOk(n.a)
  {
  }

  lemma DisconnectCallbacks(e: Endpoint, id: nat)
    requires CallbacksOk(e) && EndpointOk(e)
    ensures CallbacksOk(Disconnect(e, id))
  {
    if e.myId == id {
      ClaimOk(e);
      CallbacksFrame(Claim(e).(myId := 0), Disconnect(e, id));
    }
  }

  /** Actions that have nothing to do with the callbacks. */
  lemma OtherCallbacks(n: Net, action: Action)
    requires CallbacksOk(n.a) && !action.DoConnect? && !action.DoDisconnect?
    requires action.DoReceive? && n.ba != [] ==> !n.ba[0].Conn?
    ensures Act(n, action).Some? && CallbacksOk(Act(n, action).value.a)
  {
    hide CallbacksOk;
    CallbacksFrame(n.a, Act(n, action).value.a);
  }

  /** Actions of the peer leave our callbacks alone. */
  lemma PeerLeavesCallbacks(n: Net, action: Action)
    requires Act(n, action).Some?
    ensures Act(n, action).value.b == n.b
  {
  }

  lemma {:induction false} CallbacksAlways(n: Net, events: seq<Event>)
    requires Reachable(n, events)
    ensures CallbacksOk(n.a) && CallbacksOk(n.b)
    decreases |events|
  {
    if events == [] {
    } else {
      var before, last := events[..|events| - 1], events[|events| - 1];
      var m :| Reachable(m, before) && EnabledAt(m, last) && Step(m, last) == Some(n);
      ReachableOk(m, before);
      CallbacksAlways(m, before);
      hide CallbacksOk, NetOk, Act;
      if last.atA {
        CallbacksConserved(m, last.action);
        PeerLeavesCallbacks(m, last.action);
      } else {
        SwapOk(m);
        CallbacksConserved(Swap(m), last.action);
        PeerLeavesCallbacks(Swap(m), last.action);
      }
    }
  }
}
