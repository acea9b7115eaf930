/** The table of pending calls of the RPC server, updated under its mutex (rpc/server.cpp).

Each method is one critical section.  The ghost field `s` is the server of `RpcAccounting` that the fields
stand for.
*/
module RpcServers {
  import opened Basics
  import opened RpcAccounting

  class RpcServer {
    var active: bool
    var connectionId: nat
    var pendingCalls: map<nat, Request>
    var deadlineThread: bool
    ghost var s: Server

    ghost predicate Valid()
      reads this
    {
      && Inv(s)
      && s == s.(active := active, connection := connectionId, pending := pendingCalls)
      && deadlineThread == !s.thread.NotStarted?
    }

    constructor ()
      ensures Valid() && s == Start
    {
      active, connectionId, pendingCalls, deadlineThread := false, 0, map[], false;
      s := Start;
    }

    method Reconnected(conn: nat)
      requires Valid()
      modifies this
      ensures Valid() && s == RpcAccounting.Reconnected(old(s), conn)
    {
      NextKeeps(s, Reconnect(conn));
      ghost var goal := RpcAccounting.Reconnected(s, conn);
      hide Inv;
      if conn != connectionId {
        connectionId := conn;
        pendingCalls := map[];
      }
      s := goal;
    }

    method ConnectionReset(conn: nat)
      requires Valid()
      modifies this
      ensures Valid() && s == RpcAccounting.ConnectionReset(old(s), conn)
    {
      NextKeeps(s, Reset(conn));
      ghost var goal := RpcAccounting.ConnectionReset(s, conn);
      hide Inv;
      if conn == connectionId {
        pendingCalls := map[];
        connectionId := 0;
      }
      s := goal;
    }

    /** Registers a request; `number` distinguishes it from all others in the account of the run. */
    method Register(conn: nat, stream: nat, deadline: nat, number: nat) returns (accepted: bool)
      requires Valid() && number == |s.accepted|
      modifies this
      ensures Valid() && s == RpcAccounting.Register(old(s), conn, stream, deadline)
      ensures accepted == (|s.accepted| > |old(s).accepted|)
    {
      NextKeeps(s, Arrive(conn, stream, deadline));
      ghost var goal := RpcAccounting.Register(s, conn, stream, deadline);
      hide Inv;
      accepted := false;
      if stream in pendingCalls { return; }
      if !active { return; }
      pendingCalls := pendingCalls[stream := Request(conn, stream, deadline, number)];
      if deadline < UPTIME_MAX && !deadlineThread { deadlineThread := true; }
      accepted := true;
      s := goal;
    }

    /** Claims the right to respond, once; the status becomes "deadline exceeded" if the deadline has passed. */
    method PrepForResponse(conn: nat, stream: nat, status: nat, now: nat) returns (claimed: bool, actual: nat)
      requires Valid()
      modifies this
      ensures Valid() && s == Reply(old(s), conn, stream, status, now)
      ensures claimed == Claims(old(s), conn, stream)
      ensures claimed ==> |s.unsent| > 0 && s.unsent[|s.unsent| - 1].status == actual
    {
      NextKeeps(s, Answer(conn, stream, status, now));
      ghost var goal := Reply(s, conn, stream, status, now);
      hide Inv;
      claimed, actual := false, status;
      if conn != connectionId { return; }
      if stream !in pendingCalls { return; }
      var request := pendingCalls[stream];
      if request.conn != conn { return; }
      if request.deadline <= now { actual := DEADLINE_EXCEEDED; }
      pendingCalls := pendingCalls - {stream};
      claimed := true;
      s := goal;
    }

    /** The loop that looks for the earliest deadline, over the table in its iteration order. */
    method Scan(order: seq<nat>) returns (next: Option<nat>, deadline: nat)
      requires forall i :: 0 <= i < |order| ==> order[i] in pendingCalls
      ensures Earliest(pendingCalls, order) == Choice(next, deadline)
    {
      next, deadline := None, UPTIME_MAX;
      var i := 0;
      while i < |order|
        invariant 0 <= i <= |order|
        invariant Earliest(pendingCalls, order[..i]) == Choice(next, deadline)
      {
        assert order[..i + 1][..i] == order[..i];
        if pendingCalls[order[i]].deadline < deadline {
          next, deadline := Some(order[i]), pendingCalls[order[i]].deadline;
        }
        i := i + 1;
      }
      assert order[..|order|] == order;
    }

    /** One round of the deadline thread while it holds the mutex: the request to fail, if one is due. */
    method DeadlineRound(order: seq<nat>, now: nat) returns (due: Option<Request>)
      requires Valid() && s.thread.Scanning? && Enumerates(order, s.pending)
      modifies this
      ensures Valid() && s == RpcAccounting.DeadlineRound(old(s), order, now)
      ensures due.None? ==> s.pending == old(s).pending
      ensures due.None? && active ==>
                forall k :: k in pendingCalls ==>
                  pendingCalls[k].deadline > now || pendingCalls[k].deadline >= UPTIME_MAX
      ensures due.Some? ==> due.value.stream in old(s).pending && due.value.deadline <= now
    {
      NextKeeps(s, Round(order, now));
      ghost var goal := RpcAccounting.DeadlineRound(s, order, now);
      TableStreams(s);
      RoundCases(s, order, now);
      EarliestOfAll(s.pending, order);
      hide Inv, Enumerates, Earliest, RpcAccounting.DeadlineRound;
      due := None;
      if active { due := TakeDue(order, now); } else { deadlineThread := false; }
      s := goal;
    }

    /** Removes the request with the earliest deadline from the table, if it is due. */
    method TakeDue(order: seq<nat>, now: nat) returns (due: Option<Request>)
      requires forall i :: 0 <= i < |order| ==> order[i] in pendingCalls
      modifies `pendingCalls
      ensures var c := Earliest(old(pendingCalls), order);
              if c.stream.Some? && c.deadline <= now then
                && c.stream.value in old(pendingCalls) && due == Some(old(pendingCalls)[c.stream.value])
                && pendingCalls == old(pendingCalls) - {c.stream.value}
              else due == None && pendingCalls == old(pendingCalls)
    {
      due := None;
      var next, deadline := Scan(order);
      if next.Some? && deadline <= now {
        due := Some(pendingCalls[next.value]);
        pendingCalls := pendingCalls - {next.value};
      }
    }
  }

  /** The table and the thread after a round, case by case. */
  lemma RoundCases(s: Server, order: seq<nat>, now: nat)
    requires s.thread.Scanning? && Enumerates(order, s.pending)
    ensures var t, c := RpcAccounting.DeadlineRound(s, order, now), Earliest(s.pending, order);
            && t.active == s.active && t.connection == s.connection && (t.thread.NotStarted? <==> !s.active)
            && (c.stream.Some? ==> c.stream.value in s.pending && s.pending[c.stream.value].deadline == c.deadline)
            && (c.stream.None? ==> c.deadline == UPTIME_MAX)
            && t.pending == if s.active && c.stream.Some? && c.deadline <= now then s.pending - {c.stream.value}
                            else s.pending
  {
    hide Earliest;
  }

  lemma TableStreams(s: Server)
    requires Inv(s)
    ensures forall k :: k in s.pending ==> s.pending[k].stream == k
  {
  }
}
