/** What the RPC server owes its callers (rpc/server.cpp).

A step is one critical section of the server's mutex, or one response handed to the messaging layer after
the mutex was released; a run interleaves dispatch, handler replies, the deadline thread, resets and
restarts arbitrarily.  `accepted`, `dropped`, `unsent` and `wire` record what has happened.
*/
module RpcAccounting {
  import opened Basics

  const DEADLINE_EXCEEDED := 4

  /** An accepted request; `number` counts acceptances. */
  datatype Request = Request(conn: nat, stream: nat, deadline: nat, number: nat)

  /** A response that one thread has claimed the right to send. */
  datatype Response = Response(number: nat, conn: nat, stream: nat, status: nat, claimedAt: nat)

  datatype Thread = NotStarted | Scanning | Asleep(until: nat)

  datatype Server = Server(
    active: bool, connection: nat, pending: map<nat, Request>, thread: Thread,
    accepted: seq<Request>, dropped: seq<bool>, unsent: seq<Response>, wire: seq<Response>)
  {
    /** Request `n` is in the table. */
    predicate IsPending(n: nat)
      requires n < |accepted|
    {
      accepted[n].stream in pending && pending[accepted[n].stream].number == n
    }
  }

  const Start := Server(false, 0, map[], NotStarted, [], [], [], [])

  // ----- the critical sections -----

  /** `notify_all` on the deadline thread's condition variable. */
  function Notified(t: Thread): Thread { if t.Asleep? then Scanning else t }

  /** Clears the table. */
  function Clear(s: Server): Server
    requires |s.dropped| == |s.accepted|
  {
    s.(pending := map[], thread := Notified(s.thread),
       dropped := seq(|s.accepted|, n requires 0 <= n < |s.accepted| => s.dropped[n] || s.IsPending(n)))
  }

  function Reconnected(s: Server, conn: nat): Server
    requires |s.dropped| == |s.accepted|
  {
    if conn == s.connection then s else Clear(s.(connection := conn))
  }

  function ConnectionReset(s: Server, conn: nat): Server
    requires |s.dropped| == |s.accepted|
  {
    if conn != s.connection then s else Clear(s).(connection := 0)
  }

  /** The part of `handleRequest` that registers a request; a deadline of `UPTIME_MAX` means none. */
  function Register(s: Server, conn: nat, stream: nat, deadline: nat): Server {
    if stream in s.pending || !s.active then s
    else
      var r := Request(conn, stream, deadline, |s.accepted|);
      s.(pending := s.pending[stream := r], accepted := s.accepted + [r], dropped := s.dropped + [false],
         thread := if deadline < UPTIME_MAX && s.thread.NotStarted? then Scanning else Notified(s.thread))
  }

  /** Removes an entry and leaves its response to be sent. */
  function Claim(s: Server, stream: nat, status: nat, now: nat): Server
    requires stream in s.pending
  {
    var r := s.pending[stream];
    s.(pending := s.pending - {stream}, unsent := s.unsent + [Response(r.number, r.conn, r.stream, status, now)])
  }

  /** The condition under which `prepForResponse` returns true. */
  predicate Claims(s: Server, conn: nat, stream: nat) {
    conn == s.connection && stream in s.pending && s.pending[stream].conn == conn
  }

  /** A handler's reply, up to the release of the mutex (`prepForResponse`). */
  function Reply(s: Server, conn: nat, stream: nat, status: nat, now: nat): Server {
    if !Claims(s, conn, stream) then s
    else
      var expired := s.pending[stream].deadline <= now;
      Claim(s, stream, if expired then DEADLINE_EXCEEDED else status, now).(thread := Notified(s.thread))
  }

  datatype Choice = Choice(stream: Option<nat>, deadline: nat)

  /** The scan of the deadline thread over the table, visited in the given order. */
  function Earliest(pending: map<nat, Request>, order: seq<nat>): (c: Choice)
    requires forall i :: 0 <= i < |order| ==> order[i] in pending
    ensures c.deadline <= UPTIME_MAX
    ensures forall i :: 0 <= i < |order| ==> c.deadline <= pending[order[i]].deadline
    ensures c.stream.Some? ==> c.stream.value in order && pending[c.stream.value].deadline == c.deadline < UPTIME_MAX
    ensures c.stream.None? ==> c.deadline == UPTIME_MAX
  {
    if order == [] then Choice(None, UPTIME_MAX)
    else
      var last := order[|order| - 1];
      var c := Earliest(pending, order[..|order| - 1]);
      if pending[last].deadline < c.deadline then Choice(Some(last), pending[last].deadline) else c
  }

  /** The order in which an iteration visits a table. */
  ghost predicate Enumerates(order: seq<nat>, pending: map<nat, Request>) {
    && (forall i :: 0 <= i < |order| ==> order[i] in pending)
    && (forall k :: k in pending ==> k in order)
  }

  /** One round of the deadline thread. */
  function DeadlineRound(s: Server, order: seq<nat>, now: nat): Server
    requires forall i :: 0 <= i < |order| ==> order[i] in s.pending
  {
    if !s.thread.Scanning? then s
    else if !s.active then s.(thread := NotStarted)
    else
      var c := Earliest(s.pending, order);
      if c.stream.None? then s.(thread := Asleep(UPTIME_MAX))
      else if c.deadline > now then s.(thread := Asleep(c.deadline))
      else Claim(s, c.stream.value, DEADLINE_EXCEEDED, now)
  }

  datatype Event =
    | Begin
    | End
    | Reconnect(conn: nat)
    | Reset(conn: nat)
    | Arrive(conn: nat, stream: nat, deadline: nat)
    | Answer(conn: nat, stream: nat, status: nat, now: nat)
    | Round(order: seq<nat>, now: nat)
    | Wake
    | Send(i: nat)

  ghost function Next(s: Server, e: Event): Server
    requires |s.dropped| == |s.accepted|
  {
    match e
    case Begin => if s.thread.NotStarted? then s.(active := true) else s  // `end` has joined the thread
    case End => Clear(s.(active := false))
    case Reconnect(conn) => Reconnected(s, conn)
    case Reset(conn) => ConnectionReset(s, conn)
    case Arrive(conn, stream, deadline) => Register(s, conn, stream, deadline)
    case Answer(conn, stream, status, now) => Reply(s, conn, stream, status, now)
    case Round(order, now) => if Enumerates(order, s.pending) then DeadlineRound(s, order, now) else s
    case Wake => s.(thread := Notified(s.thread))  // the wait timed out, or woke for no reason
    case Send(i) =>
      if i < |s.unsent| then s.(wire := s.wire + [s.unsent[i]], unsent := s.unsent[..i] + s.unsent[i + 1..]) else s
  }

  // ----- accounting -----

  /** How many responses are for request `n`. */
  function Count(rs: seq<Response>, n: nat): nat {
    if rs == [] then 0 else Count(rs[..|rs| - 1], n) + (if rs[|rs| - 1].number == n then 1 else 0)
  }

  lemma {:induction false} CountConcat(a: seq<Response>, b: seq<Response>, n: nat)
    ensures Count(a + b, n) == Count(a, n) + Count(b, n)
  {
    if b == [] {
      assert a + b == a;
    } else {
      var c := a + b;
      assert c[..|c| - 1] == a + b[..|b| - 1];
      CountConcat(a, b[..|b| - 1], n);
    }
  }

  lemma CountOne(r: Response, n: nat)
    ensures Count([r], n) == if r.number == n then 1 else 0
  {
    assert [r][..0] == [];
  }

  lemma CountRemove(a: seq<Response>, i: nat, n: nat)
    requires i < |a|
    ensures Count(a, n) == Count(a[..i] + a[i + 1..], n) + Count([a[i]], n)
  {
    assert a == a[..i] + ([a[i]] + a[i + 1..]);
    CountConcat(a[..i], [a[i]] + a[i + 1..], n);
    CountConcat([a[i]], a[i + 1..], n);
    CountConcat(a[..i], a[i + 1..], n);
  }

  function One(b: bool): nat { if b then 1 else 0 }

  /** Where request `n` is: in the table, dropped, or answered by a response sent or about to be. */
  function Places(s: Server, n: nat): nat
    requires n < |s.accepted| == |s.dropped|
  {
    One(s.IsPending(n)) + One(s.dropped[n]) + Count(s.unsent, n) + Count(s.wire, n)
  }

  /** A response goes where its request came from; unless it says so, the deadline had not passed when it was
      claimed. */
  predicate ResponseOk(accepted: seq<Request>, r: Response) {
    && r.number < |accepted|
    && r.conn == accepted[r.number].conn && r.stream == accepted[r.number].stream
    && (r.status != DEADLINE_EXCEEDED ==> r.claimedAt < accepted[r.number].deadline)
  }

  ghost predicate TableOk(s: Server) {
    && |s.dropped| == |s.accepted|
    && (forall n :: 0 <= n < |s.accepted| ==> s.accepted[n].number == n)
    && (forall m, n :: 0 <= n < m < |s.accepted| && s.IsPending(n) ==> s.accepted[m].stream != s.accepted[n].stream)
    && (forall k :: k in s.pending ==>
          var r := s.pending[k]; r.stream == k && r.number < |s.accepted| && s.accepted[r.number] == r)
  }

  ghost predicate Conserved(s: Server)
    requires TableOk(s)
  {
    forall n :: 0 <= n < |s.accepted| ==> Places(s, n) == 1
  }

  ghost predicate ResponsesOk(s: Server) {
    && (forall i :: 0 <= i < |s.unsent| ==> ResponseOk(s.accepted, s.unsent[i]))
    && (forall i :: 0 <= i < |s.wire| ==> ResponseOk(s.accepted, s.wire[i]))
  }

  /** When the deadline thread sleeps, no request in the table is due before it wakes. */
  function SleepsUntil(t: Thread): nat {
    match t case NotStarted => UPTIME_MAX case Scanning => 0 case Asleep(until) => until
  }

  ghost predicate AlarmOk(s: Server) {
    forall k :: k in s.pending ==> s.pending[k].deadline >= SleepsUntil(s.thread)
  }

  ghost predicate Inv(s: Server) {
    TableOk(s) && Conserved(s) && ResponsesOk(s) && AlarmOk(s) && (!s.active ==> s.pending == map[])
  }

  // ----- every step keeps the invariant -----

  lemma ClearKeeps(s: Server)
    requires TableOk(s) && Conserved(s) && ResponsesOk(s)
    ensures Inv(Clear(s))
  {
    var t := Clear(s);
    forall n | 0 <= n < |t.accepted| ensures Places(t, n) == 1 {
      assert Places(s, n) == 1;
    }
  }

  lemma RegisterKeeps(s: Server, conn: nat, stream: nat, deadline: nat)
    requires Inv(s)
    ensures Inv(Register(s, conn, stream, deadline))
  {
    var t := Register(s, conn, stream, deadline);
    if stream !in s.pending && s.active {
      forall n | 0 <= n < |t.accepted| ensures Places(t, n) == 1 {
        if n < |s.accepted| {
          assert Places(s, n) == 1;
        } else {
          NoneFor(s, s.unsent, n);
          NoneFor(s, s.wire, n);
        }
      }
    }
  }

  /** No response is for a request that has not been accepted. */
  lemma {:induction false} NoneFor(s: Server, rs: seq<Response>, n: nat)
    requires n >= |s.accepted| && forall i :: 0 <= i < |rs| ==> ResponseOk(s.accepted, rs[i])
    ensures Count(rs, n) == 0
  {
    if rs != [] { NoneFor(s, rs[..|rs| - 1], n); }
  }

  lemma ClaimKeeps(s: Server, stream: nat, status: nat, now: nat)
    requires Inv(s) && stream in s.pending && (status != DEADLINE_EXCEEDED ==> now < s.pending[stream].deadline)
    ensures Inv(Claim(s, stream, status, now))
  {
    var t := Claim(s, stream, status, now);
    var r := Response(s.pending[stream].number, s.pending[stream].conn, stream, status, now);
    assert t.unsent == s.unsent + [r] && ResponseOk(s.accepted, r);
    assert TableOk(t);
    forall n | 0 <= n < |t.accepted| ensures Places(t, n) == 1 {
      assert Places(s, n) == 1;
      CountConcat(s.unsent, [r], n);
      CountOne(r, n);
    }
  }

  lemma NotifiedKeeps(s: Server)
    requires Inv(s)
    ensures Inv(s.(thread := Notified(s.thread)))
  {
    var t := s.(thread := Notified(s.thread));
    forall n | 0 <= n < |t.accepted| ensures Places(t, n) == 1 { assert Places(s, n) == 1; }
  }

  lemma ReplyKeeps(s: Server, conn: nat, stream: nat, status: nat, now: nat)
    requires Inv(s)
    ensures Inv(Reply(s, conn, stream, status, now))
  {
    if Claims(s, conn, stream) {
      var claimed := if s.pending[stream].deadline <= now then DEADLINE_EXCEEDED else status;
      ClaimKeeps(s, stream, claimed, now);
      hide Inv;
      NotifiedKeeps(Claim(s, stream, claimed, now));
    }
  }

  /** Changing what the thread sleeps for, within what the table allows. */
  lemma ThreadKeeps(s: Server, thread: Thread)
    requires Inv(s) && forall k :: k in s.pending ==> s.pending[k].deadline >= SleepsUntil(thread)
    ensures Inv(s.(thread := thread))
  {
    var t := s.(thread := thread);
    forall n | 0 <= n < |t.accepted| ensures Places(t, n) == 1 { assert Places(s, n) == 1; }
  }

  lemma RoundKeeps(s: Server, order: seq<nat>, now: nat)
    requires Inv(s) && Enumerates(order, s.pending)
    ensures Inv(DeadlineRound(s, order, now))
  {
    hide Conserved, ResponsesOk, Claim;
    if s.thread.Scanning? {
      if !s.active {
        ThreadKeeps(s, NotStarted);
      } else {
        var c := Earliest(s.pending, order);
        EarliestOfAll(s.pending, order);
        hide Inv;
        if c.stream.None? {
          ThreadKeeps(s, Asleep(UPTIME_MAX));
        } else if c.deadline > now {
          ThreadKeeps(s, Asleep(c.deadline));
        } else {
          ClaimKeeps(s, c.stream.value, DEADLINE_EXCEEDED, now);
        }
      }
    }
  }

  /** The scan finds the earliest deadline of the whole table, whatever the order of the visit. */
  lemma EarliestOfAll(pending: map<nat, Request>, order: seq<nat>)
    requires Enumerates(order, pending)
    ensures forall k :: k in pending ==> Earliest(pending, order).deadline <= pending[k].deadline
  {
    forall k | k in pending ensures Earliest(pending, order).deadline <= pending[k].deadline {
      assert k in order;
    }
  }

  lemma SendKeeps(s: Server, i: nat)
    requires Inv(s) && i < |s.unsent|
    ensures Inv(Next(s, Send(i)))
  {
    var t := Next(s, Send(i));
    forall n | 0 <= n < |t.accepted| ensures Places(t, n) == 1 {
      assert Places(s, n) == 1;
      CountRemove(s.unsent, i, n);
      CountConcat(s.wire, [s.unsent[i]], n);
    }
  }

  lemma ActiveKeeps(s: Server)
    requires Inv(s)
    ensures Inv(s.(active := true))
  {
    var t := s.(active := true);
    forall n | 0 <= n < |t.accepted| ensures Places(t, n) == 1 { assert Places(s, n) == 1; }
  }

  /** Fields that the table's accounting does not mention. */
  lemma OtherFields(s: Server, active: bool, conn: nat)
    requires TableOk(s) && Conserved(s)
    ensures var t := s.(active := active, connection := conn); TableOk(t) && Conserved(t)
  {
    var t := s.(active := active, connection := conn);
    forall n | 0 <= n < |t.accepted| ensures Places(t, n) == 1 { assert Places(s, n) == 1; }
  }

  lemma ClearedKeeps(s: Server, active: bool, conn: nat)
    requires Inv(s)
    ensures Inv(Clear(s.(active := active, connection := conn)))
  {
    OtherFields(s, active, conn);
    hide Conserved, Clear;
    ClearKeeps(s.(active := active, connection := conn));
  }

  lemma NextKeeps(s: Server, e: Event)
    requires Inv(s)
    ensures Inv(Next(s, e))
  {
    assert |s.dropped| == |s.accepted|;
    hide Inv, Enumerates, Reply, Register, DeadlineRound;
    match e
    case Begin => ActiveKeeps(s);
    case End => ClearedKeeps(s, false, s.connection);
    case Reconnect(conn) => ClearedKeeps(s, s.active, conn);
    case Reset(conn) => ResetKeeps(s);
    case Arrive(conn, stream, deadline) => RegisterKeeps(s, conn, stream, deadline);
    case Answer(conn, stream, status, now) => ReplyKeeps(s, conn, stream, status, now);
    case Round(order, now) => if Enumerates(order, s.pending) { RoundKeeps(s, order, now); }
    case Wake => NotifiedKeeps(s);
    case Send(i) => if i < |s.unsent| { SendKeeps(s, i); }
  }

  lemma ResetKeeps(s: Server)
    requires Inv(s)
    ensures |s.dropped| == |s.accepted| && Inv(Clear(s).(connection := 0))
  {
    ClearedKeeps(s, s.active, 0);
    var t := s.(active := s.active, connection := 0);
    assert Clear(t).dropped == Clear(s).dropped;
    hide Inv, Clear;
    assert Clear(t) == Clear(s).(connection := 0) by { ClearCommutes(s); }
  }

  lemma ClearCommutes(s: Server)
    requires |s.dropped| == |s.accepted|
    ensures Clear(s.(connection := 0)) == Clear(s).(connection := 0)
  {
    assert Clear(s.(connection := 0)).dropped == Clear(s).dropped;
  }

  // ----- what holds over every run -----

  ghost function Run(events: seq<Event>): (s: Server)
    ensures Inv(s)
    decreases |events|
  {
    if events == [] then Start
    else
      var s := Run(events[..|events| - 1]);
      NextKeeps(s, events[|events| - 1]);
      Next(s, events[|events| - 1])
  }

  /** Over every interleaving, each accepted request is in exactly one place: in the table, dropped by a
      reset or shutdown, or with exactly one response sent or about to be. */
  lemma EachRequestOnce(events: seq<Event>, n: nat)
    requires n < |Run(events).accepted|
    ensures var s := Run(events); |s.dropped| == |s.accepted| && Places(s, n) == 1
  {
    var s := Run(events);
    hide Run;
  }

  /** Over every interleaving, the peer never gets two responses for one request. */
  lemma AtMostOneResponse(events: seq<Event>, i: nat, j: nat)
    requires i < j < |Run(events).wire|
    ensures Run(events).wire[i].number != Run(events).wire[j].number
  {
    var s := Run(events);
    hide Run;
    var n := s.wire[i].number;
    assert ResponseOk(s.accepted, s.wire[i]) && Places(s, n) == 1;
    hide Inv;
    if s.wire[j].number == n { TwoCount(s.wire, i, j); }
  }

  lemma TwoCount(rs: seq<Response>, i: nat, j: nat)
    requires i < j < |rs| && rs[i].number == rs[j].number
    ensures Count(rs, rs[i].number) >= 2
  {
    var n := rs[i].number;
    assert rs == rs[..j] + rs[j..];
    CountConcat(rs[..j], rs[j..], n);
    CountAt(rs[..j], i);
    CountAt(rs[j..], 0);
  }

  lemma CountAt(rs: seq<Response>, i: nat)
    requires i < |rs|
    ensures Count(rs, rs[i].number) >= 1
  {
    CountRemove(rs, i, rs[i].number);
    CountOne(rs[i], rs[i].number);
  }

  /** Over every interleaving, a response goes to the connection and stream its request came on, and one
      with another status than "deadline exceeded" was claimed before the deadline. */
  lemma ResponsesAreHonest(events: seq<Event>, i: nat)
    requires i < |Run(events).wire|
    ensures ResponseOk(Run(events).accepted, Run(events).wire[i])
  {
    var s := Run(events);
    hide Run;
  }

  /** A reply claims request `n` exactly when the request is pending and the reply is for its connection and stream
      id while that connection is the current one; every other reply changes nothing about it. */
  lemma ReplyClaimsExactly(events: seq<Event>, conn: nat, stream: nat, status: nat, now: nat, n: nat)
    requires n < |Run(events).accepted|
    ensures var s := Run(events);
            var t := Reply(s, conn, stream, status, now);
            && t.accepted == s.accepted && t.dropped == s.dropped && t.wire == s.wire
            && (Count(t.unsent, n) != Count(s.unsent, n) <==>
                  s.IsPending(n) && conn == s.connection == s.accepted[n].conn && stream == s.accepted[n].stream)
            && (t.IsPending(n) != s.IsPending(n) <==> Count(t.unsent, n) != Count(s.unsent, n))
  {
    var s := Run(events);
    hide Run;
    if Claims(s, conn, stream) {
      var r := Reply(s, conn, stream, status, now).unsent[|s.unsent|];
      CountConcat(s.unsent, [r], n);
      CountOne(r, n);
    }
  }

  /** The reply of the handler of request `m`, through the handle it was given. */
  function HandlerReply(s: Server, m: nat, status: nat, now: nat): Server
    requires m < |s.accepted|
  {
    Reply(s, s.accepted[m].conn, s.accepted[m].stream, status, now)
  }

  /** When the handle of one request claims another: exactly when the other came later, on the same connection and
      stream id, and is pending while that connection is current.  The request of the handle is then no longer
      pending. */
  lemma HandleClaimsOther(events: seq<Event>, m: nat, n: nat, status: nat, now: nat)
    requires m < |Run(events).accepted| && n < |Run(events).accepted| && m != n
    ensures var s := Run(events);
            && (Count(HandlerReply(s, m, status, now).unsent, n) != Count(s.unsent, n) <==>
                  && m < n && s.IsPending(n) && s.connection == s.accepted[n].conn
                  && s.accepted[n].conn == s.accepted[m].conn && s.accepted[n].stream == s.accepted[m].stream)
            && (Count(HandlerReply(s, m, status, now).unsent, n) != Count(s.unsent, n) ==> !s.IsPending(m))
  {
    var s := Run(events);
    ReplyClaimsExactly(events, s.accepted[m].conn, s.accepted[m].stream, status, now, n);
    hide Run, Reply, Count;
  }

  /** A run in which that happens: the client uses stream id 5 again after its answer, and a second reply of the first
      handler answers the second request. */
  const ReuseRun := [Begin, Reconnect(1), Arrive(1, 5, UPTIME_MAX), Answer(1, 5, 0, 0), Arrive(1, 5, UPTIME_MAX)]

  lemma StaleHandleClaims()
    ensures var s := Run(ReuseRun);
            && |s.accepted| == 2 && s.IsPending(1) && !s.IsPending(0)
            && HandlerReply(s, 0, 0, 0).unsent == s.unsent + [Response(1, 1, 5, 0, 0)]
  {
    hide Inv, Run, Clear, Register, Reply, Next;
    var e := ReuseRun;
    ReuseStates();
    RunNothing();
    assert e[..0] == [] && [] + [e[0]] == e[..1] && e[..1] + [e[1]] == e[..2];
    RunStep([], e[0]);
    RunStep(e[..1], e[1]);
    assert e[..2] + [e[2]] == e[..3] && e[..3] + [e[3]] == e[..4] && e[..4] + [e[4]] == e;
    RunStep(e[..2], e[2]);
    RunStep(e[..3], e[3]);
    RunStep(e[..4], e[4]);
  }

  const First := Request(1, 5, UPTIME_MAX, 0)
  const Second := Request(1, 5, UPTIME_MAX, 1)

  lemma ReuseStates()
    ensures Next(Start, Begin) == Start.(active := true)
    ensures Next(Start.(active := true), Reconnect(1)) == Server(true, 1, map[], NotStarted, [], [], [], [])
    ensures Next(Server(true, 1, map[], NotStarted, [], [], [], []), Arrive(1, 5, UPTIME_MAX))
            == Server(true, 1, map[5 := First], NotStarted, [First], [false], [], [])
    ensures Next(Server(true, 1, map[5 := First], NotStarted, [First], [false], [], []), Answer(1, 5, 0, 0))
            == Server(true, 1, map[], NotStarted, [First], [false], [Response(0, 1, 5, 0, 0)], [])
    ensures var s := Next(Server(true, 1, map[], NotStarted, [First], [false], [Response(0, 1, 5, 0, 0)], []),
                          Arrive(1, 5, UPTIME_MAX));
            && |s.accepted| == 2 && s.IsPending(1) && !s.IsPending(0)
            && HandlerReply(s, 0, 0, 0).unsent == s.unsent + [Response(1, 1, 5, 0, 0)]
  {
    assert map[5 := First] - {5} == map[];
  }

  lemma RunNothing()
    ensures Run([]) == Start
  {
  }

  lemma RunStep(events: seq<Event>, e: Event)
    ensures |Run(events).dropped| == |Run(events).accepted| && Run(events + [e]) == Next(Run(events), e)
  {
    assert (events + [e])[..|events|] == events;
  }

  /** Over every interleaving, while the deadline thread sleeps no request in the table is due before it
      wakes, and while it does not run no request has a deadline. */
  lemma NeverOversleeps(events: seq<Event>, k: nat)
    requires k in Run(events).pending
    ensures var s := Run(events); s.pending[k].deadline >= SleepsUntil(s.thread)
  {
    var s := Run(events);
    hide Run;
  }

  /** What has become of a request stays so. */
  lemma FateIsFinal(s: Server, e: Event, n: nat)
    requires Inv(s) && n < |s.accepted| && !s.IsPending(n)
    ensures var t := Next(s, e);
            && TableOk(t) && n < |t.accepted| && t.accepted[n] == s.accepted[n] && !t.IsPending(n)
            && t.dropped[n] == s.dropped[n]
            && Count(t.unsent, n) + Count(t.wire, n) == Count(s.unsent, n) + Count(s.wire, n)
  {
    NextKeeps(s, e);
    var t := Next(s, e);
    FinalStep(s, e, n);
    assert Places(s, n) == 1 && Places(t, n) == 1;
  }

  lemma FinalStep(s: Server, e: Event, n: nat)
    requires Inv(s) && n < |s.accepted| && !s.IsPending(n)
    ensures var t := Next(s, e);
            && |s.accepted| <= |t.accepted| == |t.dropped| && t.accepted[n] == s.accepted[n]
            && !t.IsPending(n) && t.dropped[n] == s.dropped[n]
  {
    hide Conserved, ResponsesOk, AlarmOk;
  }

  // ----- what each critical section does to the account -----

  /** A request is accepted exactly when its stream id is free and the server runs; it is then pending, as it came. */
  lemma RegisterExact(s: Server, conn: nat, stream: nat, deadline: nat)
    requires Inv(s)
    ensures var t, n := Register(s, conn, stream, deadline), |s.accepted|;
            if s.active && stream !in s.pending then
              && |t.accepted| == n + 1 && t.accepted[..n] == s.accepted && t.IsPending(n)
              && t.accepted[n] == Request(conn, stream, deadline, n)
              && (forall m :: 0 <= m < n ==> t.IsPending(m) == s.IsPending(m))
            else t == s
  {
    hide Conserved, ResponsesOk, AlarmOk;
  }

  /** A reset of the current connection, the arrival of another one and the end of the server drop everything that is
      pending, and nothing that is not; a reset of another connection drops nothing. */
  lemma ClearsExactly(s: Server, e: Event, n: nat)
    requires Inv(s) && n < |s.accepted| && (e.End? || e.Reconnect? || e.Reset?)
    ensures var t := Next(s, e);
            var clears := e.End? || (e.Reconnect? && e.conn != s.connection) || (e.Reset? && e.conn == s.connection);
            && |t.accepted| == |t.dropped| == |s.accepted|
            && (clears ==> t.pending == map[] && !t.IsPending(n) && t.dropped[n] == (s.dropped[n] || s.IsPending(n)))
            && (!clears ==> t == s)
  {
    hide Conserved, ResponsesOk, AlarmOk;
  }

  /** When a request is due, a round of the deadline thread fails one that is due, with the earliest deadline of all. */
  lemma RoundExpires(s: Server, order: seq<nat>, now: nat, k: nat)
    requires Inv(s) && s.active && s.thread.Scanning? && Enumerates(order, s.pending)
    requires k in s.pending && s.pending[k].deadline <= now && s.pending[k].deadline < UPTIME_MAX
    ensures var t := DeadlineRound(s, order, now);
            && |t.unsent| == |s.unsent| + 1
            && var r := t.unsent[|s.unsent|];
               && r.status == DEADLINE_EXCEEDED && r.number < |s.accepted|
               && s.IsPending(r.number) && !t.IsPending(r.number) && s.accepted[r.number].deadline <= now
               && forall j :: j in s.pending ==> s.accepted[r.number].deadline <= s.pending[j].deadline
  {
    EarliestOfAll(s.pending, order);
    hide Conserved, ResponsesOk, AlarmOk, Earliest;
  }
}
