/** What the RPC client promises about completion callbacks (rpc/client.cpp).

A step is one critical section: of the registry's mutex, or of one call's own mutex, which is held while its
callback runs.  Any number of senders, responses and resets interleave arbitrarily.  Calls are numbered in
the order of their registration; `runs` and `reused` record what has happened.
*/
module RpcCalls {
  const LAST_ID := 0x00FF_FFFF

  /** How far the sender of a call has got. */
  datatype Phase = Sending | Accepted | Failing | Erased | Unavailable

  datatype Call = Call(
    id: nat,         // stream id
    cb: bool,        // the callback has not been taken
    running: bool,   // the callback runs, under the call's mutex
    claims: nat,     // threads that took the call out of the registry and have not completed it
    phase: Phase,
    runs: nat)

  datatype Client = Client(nextId: nat, table: map<nat, nat>, calls: seq<Call>, reused: bool)
  {
    predicate InTable(c: nat)
      requires c < |calls|
    {
      calls[c].id in table && table[calls[c].id] == c
    }
  }

  const Start := Client(1, map[], [], false)

  /** The id after `id`: they wrap around to 1. */
  function NextId(id: nat): nat { if id + 1 > LAST_ID then 1 else id + 1 }

  /** An id in use: registered, or its sender has yet to learn whether the message went out. */
  ghost predicate Busy(s: Client, id: nat) {
    id in s.table || exists c :: 0 <= c < |s.calls| && s.calls[c].id == id && s.calls[c].phase in {Sending, Failing}
  }

  /** `new_stream`: an insertion leaves an existing entry alone. */
  ghost function NewStream(s: Client): Client {
    var id, c := s.nextId, |s.calls|;
    s.(nextId := NextId(id),
       table := if id in s.table then s.table else s.table[id := c],
       calls := s.calls + [Call(id, true, false, 0, Sending, 0)],
       reused := s.reused || Busy(s, id))
  }

  /** The registry part of `cancelSend`. */
  function Erase(s: Client, c: nat): Client
    requires c < |s.calls|
  {
    s.(table := s.table - {s.calls[c].id}, calls := s.calls[c := s.calls[c].(phase := Erased)])
  }

  /** The registry part of `handleResponse`. */
  function Respond(s: Client, id: nat): Client
    requires id in s.table ==> s.table[id] < |s.calls|
  {
    if id !in s.table then s
    else
      var c := s.table[id];
      s.(table := s.table - {id}, calls := s.calls[c := s.calls[c].(claims := s.calls[c].claims + 1)])
  }

  /** The registry part of `connectionReset`. */
  function TakeAll(s: Client): Client {
    s.(table := map[],
       calls := seq(|s.calls|, c requires 0 <= c < |s.calls| =>
                      if s.InTable(c) then s.calls[c].(claims := s.calls[c].claims + 1) else s.calls[c]))
  }

  /** `complete`, up to the start of the callback. */
  function Completed(k: Call): Call
    requires k.claims > 0
  {
    if k.cb then k.(claims := k.claims - 1, cb := false, running := true, runs := k.runs + 1)
    else k.(claims := k.claims - 1)
  }

  datatype Event =
    | Register
    | SendOk(c: nat)
    | SendFail(c: nat)
    | EraseFailed(c: nat)
    | Disarm(c: nat)      // the call part of `cancelSend`; `kUnavailable` is returned
    | Response(id: nat)
    | Reset
    | Complete(c: nat)
    | CallbackReturns(c: nat)

  /** A call after a step that concerns it alone, if the step is enabled. */
  function CallStep(k: Call, e: Event): Call {
    match e
    case SendOk(_) => if k.phase == Sending then k.(phase := Accepted) else k
    case SendFail(_) => if k.phase == Sending then k.(phase := Failing) else k
    case Disarm(_) => if k.phase == Erased && !k.running then k.(cb := false, phase := Unavailable) else k
    case Complete(_) => if k.claims > 0 && !k.running then Completed(k) else k
    case CallbackReturns(_) => k.(running := false)
    case _ => k
  }

  ghost function Next(s: Client, e: Event): Client
    requires forall id :: id in s.table ==> s.table[id] < |s.calls|
  {
    match e
    case Register => NewStream(s)
    case EraseFailed(c) => if c < |s.calls| && s.calls[c].phase == Failing then Erase(s, c) else s
    case Response(id) => Respond(s, id)
    case Reset => TakeAll(s)
    case SendOk(c) => Single(s, c, e)
    case SendFail(c) => Single(s, c, e)
    case Disarm(c) => Single(s, c, e)
    case Complete(c) => Single(s, c, e)
    case CallbackReturns(c) => Single(s, c, e)
  }

  function Single(s: Client, c: nat, e: Event): Client {
    if c < |s.calls| then s.(calls := s.calls[c := CallStep(s.calls[c], e)]) else s
  }

  // ----- the invariant -----

  /** The stream id of the call number `c`. */
  function IdOf(c: nat): nat { 1 + c % LAST_ID }

  function One(b: bool): nat { if b then 1 else 0 }

  /** Where a call is: in the registry, claimed, or run. */
  function Places(s: Client, c: nat): nat
    requires c < |s.calls|
  {
    One(s.InTable(c)) + s.calls[c].claims + s.calls[c].runs
  }

  predicate CallOk(k: Call) {
    && (k.cb ==> k.runs == 0)
    && (k.running ==> k.runs > 0)
    && (k.phase == Unavailable ==> !k.cb && !k.running)
    && (!k.cb && k.runs == 0 ==> k.phase == Unavailable)
  }

  ghost predicate TableOk(s: Client) {
    && s.nextId == IdOf(|s.calls|)
    && (forall id :: id in s.table ==> s.table[id] < |s.calls| && s.calls[s.table[id]].id == id)
    && (forall c :: 0 <= c < |s.calls| ==> s.calls[c].id == IdOf(c))
  }

  ghost predicate CallsOk(s: Client) {
    forall c :: 0 <= c < |s.calls| ==> CallOk(s.calls[c]) && Places(s, c) <= 1
  }

  /** While no id was given out that was still in use: every call is accounted for, and an entry under the
      id of a sender that is still at work is its own. */
  ghost predicate Accounted(s: Client) {
    && (forall c :: 0 <= c < |s.calls| ==> Places(s, c) == 1 || s.calls[c].phase in {Erased, Unavailable})
    && (forall c :: 0 <= c < |s.calls| && s.calls[c].phase in {Sending, Failing} && s.calls[c].id in s.table ==>
        s.InTable(c))
  }

  ghost predicate Inv(s: Client) {
    TableOk(s) && CallsOk(s) && (!s.reused ==> Accounted(s))
  }

  // ----- every step keeps the invariant -----

  lemma NextIdExact(n: nat)
    ensures NextId(IdOf(n)) == IdOf(n + 1) && 1 <= IdOf(n) <= LAST_ID
  {
    var q, r := n / LAST_ID, n % LAST_ID;
    if r + 1 == LAST_ID {
      assert n + 1 == LAST_ID * (q + 1);
    } else {
      assert n + 1 == LAST_ID * q + (r + 1);
    }
  }

  lemma RegisterKeeps(s: Client)
    requires Inv(s)
    ensures Inv(NewStream(s))
  {
    var t := NewStream(s);
    NextIdExact(|s.calls|);
    forall c | 0 <= c < |t.calls| ensures CallOk(t.calls[c]) && Places(t, c) <= 1 {
      if c < |s.calls| { assert CallOk(s.calls[c]) && Places(s, c) <= 1; }
    }
    if !t.reused {
      forall c | 0 <= c < |t.calls| ensures Places(t, c) == 1 || t.calls[c].phase in {Erased, Unavailable} {
        if c < |s.calls| { assert Places(s, c) == 1 || s.calls[c].phase in {Erased, Unavailable}; }
      }
      forall c | 0 <= c < |t.calls| && t.calls[c].phase in {Sending, Failing} && t.calls[c].id in t.table
        ensures t.InTable(c)
      {
        if c < |s.calls| { assert t.calls[c] == s.calls[c]; }
      }
    }
  }

  lemma EraseKeeps(s: Client, c: nat)
    requires Inv(s) && c < |s.calls| && s.calls[c].phase == Failing
    ensures Inv(Erase(s, c))
  {
    var t := Erase(s, c);
    forall b | 0 <= b < |t.calls| ensures CallOk(t.calls[b]) && Places(t, b) <= 1 {
      assert CallOk(s.calls[b]) && Places(s, b) <= 1;
    }
    if !t.reused {
      forall b | 0 <= b < |t.calls| ensures Places(t, b) == 1 || t.calls[b].phase in {Erased, Unavailable} {
        assert Places(s, b) == 1 || s.calls[b].phase in {Erased, Unavailable};
        assert s.InTable(b) && s.calls[b].id == s.calls[c].id ==> b == c;
      }
    }
  }

  lemma RespondKeeps(s: Client, id: nat)
    requires Inv(s)
    ensures Inv(Respond(s, id))
  {
    var t := Respond(s, id);
    forall c | 0 <= c < |t.calls| ensures CallOk(t.calls[c]) && Places(t, c) == Places(s, c) {
      assert CallOk(s.calls[c]);
    }
  }

  lemma TakeAllKeeps(s: Client)
    requires Inv(s)
    ensures Inv(TakeAll(s))
  {
    var t := TakeAll(s);
    forall c | 0 <= c < |t.calls| ensures CallOk(t.calls[c]) && Places(t, c) == Places(s, c) {
      assert CallOk(s.calls[c]);
    }
  }

  /** A step that concerns one call keeps it sound, and its place unless it was cancelled. */
  lemma CallStepKeeps(k: Call, e: Event)
    requires CallOk(k) && k.claims + k.runs <= 1
    ensures var j := CallStep(k, e);
            && CallOk(j) && j.id == k.id && j.claims + j.runs <= k.claims + k.runs
            && (j.claims + j.runs == k.claims + k.runs || j.phase == Unavailable)
            && (k.phase in {Erased, Unavailable} ==> j.phase in {Erased, Unavailable})
            && (j.phase in {Sending, Failing} ==> k.phase in {Sending, Failing})
  {
  }

  lemma SingleKeeps(s: Client, c: nat, e: Event)
    requires Inv(s)
    ensures Inv(Single(s, c, e))
  {
    if c < |s.calls| {
      var t := Single(s, c, e);
      assert CallOk(s.calls[c]) && Places(s, c) <= 1;
      CallStepKeeps(s.calls[c], e);
      hide CallStep, CallOk;
      assert forall b :: 0 <= b < |t.calls| ==> t.InTable(b) == s.InTable(b);
      assert forall b :: 0 <= b < |t.calls| && b != c ==> Places(t, b) == Places(s, b);
    }
  }

  lemma CallsGrow(s: Client, e: Event)
    requires TableOk(s)
    ensures |s.calls| <= |Next(s, e).calls|
  {
    hide CallStep;
  }

  lemma NextKeeps(s: Client, e: Event)
    requires Inv(s)
    ensures TableOk(s) && Inv(Next(s, e)) && |s.calls| <= |Next(s, e).calls|
  {
    CallsGrow(s, e);
    assert TableOk(s);
    hide Inv, CallStep, NewStream, TakeAll, Respond, Erase, Single;
    match e
    case Register => RegisterKeeps(s);
    case EraseFailed(c) => if c < |s.calls| && s.calls[c].phase == Failing { EraseKeeps(s, c); }
    case Response(id) => RespondKeeps(s, id);
    case Reset => TakeAllKeeps(s);
    case SendOk(c) => SingleKeeps(s, c, e);
    case SendFail(c) => SingleKeeps(s, c, e);
    case Disarm(c) => SingleKeeps(s, c, e);
    case Complete(c) => SingleKeeps(s, c, e);
    case CallbackReturns(c) => SingleKeeps(s, c, e);
  }

  // ----- what holds over every run -----

  ghost function Run(s: Client, events: seq<Event>): (t: Client)
    requires Inv(s)
    ensures Inv(t) && |s.calls| <= |t.calls|
    decreases |events|
  {
    if events == [] then s else NextKeeps(s, events[0]); Run(Next(s, events[0]), events[1..])
  }

  lemma StartInv()
    ensures Inv(Start)
  {
  }

  /** Over every interleaving: a callback runs at most once; when `kUnavailable` has been returned it is
      not running and has been disarmed; and stream ids lie in 1 .. 2^24 - 1. */
  lemma AtMostOnce(events: seq<Event>, c: nat)
    ensures Inv(Start)
    ensures var s := Run(Start, events);
            c < |s.calls| ==>
              && s.calls[c].runs <= 1 && 1 <= s.calls[c].id <= LAST_ID
              && (s.calls[c].phase == Unavailable ==> !s.calls[c].cb && !s.calls[c].running)
  {
    StartInv();
    var s := Run(Start, events);
    hide Run;
    if c < |s.calls| {
      assert CallOk(s.calls[c]) && Places(s, c) <= 1;
      NextIdExact(c);
    }
  }

  /** Nothing that happens to other calls, and no step of the client, changes these. */
  lemma CallFrame(s: Client, e: Event, c: nat)
    requires Inv(s) && c < |s.calls|
    ensures TableOk(s) && c < |Next(s, e).calls|
    ensures var j, k := Next(s, e).calls[c], s.calls[c];
            && (k.phase == Unavailable ==> j.phase == Unavailable && j.runs == k.runs)
            && (Places(s, c) == 0 ==> Places(Next(s, e), c) == 0)
  {
    assert CallOk(s.calls[c]) && Places(s, c) <= 1;
  }

  /** Never after `kUnavailable`: once it has been returned for a call, no later event makes the callback run. */
  lemma {:induction false} UnavailableIsFinal(s: Client, events: seq<Event>, c: nat)
    requires Inv(s) && c < |s.calls| && s.calls[c].phase == Unavailable
    ensures var t := Run(s, events);
            c < |t.calls| && t.calls[c].phase == Unavailable && t.calls[c].runs == s.calls[c].runs
    decreases |events|
  {
    if events != [] {
      CallFrame(s, events[0], c);
      NextKeeps(s, events[0]);
      var t := Next(s, events[0]);
      hide Inv, Next;
      UnavailableIsFinal(t, events[1..], c);
    }
  }

  /** A call that is in no place never gets into one. */
  lemma {:induction false} LostForever(s: Client, events: seq<Event>, c: nat)
    requires Inv(s) && c < |s.calls| && Places(s, c) == 0
    ensures var t := Run(s, events); c < |t.calls| && Places(t, c) == 0
    decreases |events|
  {
    if events != [] {
      CallFrame(s, events[0], c);
      NextKeeps(s, events[0]);
      var t := Next(s, events[0]);
      hide Inv, Next, Places;
      LostForever(t, events[1..], c);
    }
  }

  /** Over every interleaving in which no id is given out while in use: each call is in the registry, claimed
      by one response or reset, completed once, or cancelled by its failed send, and in one of these only. */
  lemma EveryCallAccounted(events: seq<Event>, c: nat)
    ensures Inv(Start)
    ensures var s := Run(Start, events);
            c < |s.calls| && !s.reused ==>
              Places(s, c) == 1 || (Places(s, c) == 0 && s.calls[c].phase in {Erased, Unavailable})
  {
    StartInv();
    var s := Run(Start, events);
    hide Run;
    if c < |s.calls| { assert Places(s, c) <= 1; }
  }

  /** Ids are not reused while in use as long as no call stays in use for 2^24 - 1 registrations. */
  lemma RecentIdsDiffer(s: Client)
    requires Inv(s)
    requires forall c :: 0 <= c < |s.calls| && (s.InTable(c) || s.calls[c].phase in {Sending, Failing}) ==>
             |s.calls| - c < LAST_ID
    ensures !Busy(s, s.nextId)
  {
    forall c | 0 <= c < |s.calls| && |s.calls| - c < LAST_ID ensures s.calls[c].id != s.nextId {
      IdsDiffer(c, |s.calls|);
    }
    if s.nextId in s.table { assert s.InTable(s.table[s.nextId]); }
  }

  lemma IdsDiffer(c: nat, d: nat)
    requires c < d < c + LAST_ID
    ensures IdOf(c) != IdOf(d)
  {
  }

  // ----- ids given out while in use -----

  /** A call that will neither be completed nor reported as failed. */
  ghost predicate Lost(s: Client, c: nat) {
    c < |s.calls| && Places(s, c) == 0 && s.calls[c].phase !in {Erased, Unavailable}
  }

  ghost predicate NoRegister(events: seq<Event>) { forall i :: 0 <= i < |events| ==> !events[i].Register? }

  /** After a registration, some run without another one loses a call. */
  ghost predicate CanLose(t: Client)
    requires Inv(t)
  {
    exists events, c :: NoRegister(events) && Lost(Run(t, events), c)
  }

  /** Without registrations, the calls of an account that is in order stay accounted for. */
  lemma {:induction false} StaysAccounted(t: Client, events: seq<Event>)
    requires Inv(t) && !t.reused && NoRegister(events)
    ensures !Run(t, events).reused
    decreases |events|
  {
    if events != [] {
      NextKeeps(t, events[0]);
      assert !events[0].Register?;
      assert !Next(t, events[0]).reused;
      StaysAccounted(Next(t, events[0]), events[1..]);
    }
  }

  /** The exact condition: after a registration some run loses a call if and only if the id given out was in use, that
      is, still registered, or the id of a call whose send has not been decided. */
  lemma LosesExactlyIfBusy(s: Client)
    requires Inv(s) && !s.reused
    ensures Inv(NewStream(s))
    ensures CanLose(NewStream(s)) <==> Busy(s, s.nextId)
  {
    RegisterKeeps(s);
    var t := NewStream(s);
    if s.nextId in s.table {
      NewCallLost(s);
    } else if Busy(s, s.nextId) {
      var c :| 0 <= c < |s.calls| && s.calls[c].id == s.nextId && s.calls[c].phase in {Sending, Failing};
      var events := OlderSenderErases(s, c);
    } else {
      forall events, c | NoRegister(events) ensures !Lost(Run(t, events), c) {
        StaysAccounted(t, events);
      }
    }
  }

  /** An id that is still registered: the older entry stays, and the new call is lost at once. */
  lemma NewCallLost(s: Client)
    requires Inv(s) && s.nextId in s.table
    ensures Inv(NewStream(s)) && CanLose(NewStream(s))
  {
    RegisterKeeps(s);
    var t := NewStream(s);
    assert Places(t, |s.calls|) == 0;
    assert Run(t, []) == t && NoRegister([]) && Lost(t, |s.calls|);
  }

  lemma RunOne(t: Client, e: Event)
    requires Inv(t)
    ensures TableOk(t) && Inv(Next(t, e)) && Run(t, [e]) == Next(t, e)
  {
    NextKeeps(t, e);
    assert [e][1..] == [];
  }

  lemma RunTwo(t: Client, d: Event, e: Event)
    requires Inv(t)
    ensures TableOk(t) && Inv(Next(t, d)) && Run(t, [d, e]) == Next(Next(t, d), e)
  {
    NextKeeps(t, d);
    NextKeeps(Next(t, d), e);
    hide Next;
    RunOne(Next(t, d), e);
    assert [d, e][1..] == [e];
  }

  /** The failed send of an older call of the same id erases the new call's entry. */
  lemma OlderSenderErases(s: Client, c: nat) returns (events: seq<Event>)
    requires Inv(s) && s.nextId !in s.table && c < |s.calls| && s.calls[c].id == s.nextId
    requires s.calls[c].phase in {Sending, Failing}
    ensures Inv(NewStream(s)) && NoRegister(events) && Lost(Run(NewStream(s), events), |s.calls|)
    ensures CanLose(NewStream(s))
  {
    RegisterKeeps(s);
    var t := NewStream(s);
    if s.calls[c].phase == Sending {
      events := [SendFail(c), EraseFailed(c)];
      RunTwo(t, SendFail(c), EraseFailed(c));
    } else {
      events := [EraseFailed(c)];
      RunOne(t, EraseFailed(c));
    }
    hide Run;
    assert Lost(Run(t, events), |s.calls|);
  }

  /** The failed send of the new call erases the entry of an older call of the same id, which was accepted and waits
      for its response. */
  lemma NewSenderErases(s: Client)
    requires Inv(s) && s.nextId in s.table && s.calls[s.table[s.nextId]].phase == Accepted
    ensures Inv(NewStream(s)) && s.table[s.nextId] < |s.calls|
    ensures Lost(Run(NewStream(s), [SendFail(|s.calls|), EraseFailed(|s.calls|)]), s.table[s.nextId])
  {
    RegisterKeeps(s);
    var t, c, older := NewStream(s), |s.calls|, s.table[s.nextId];
    assert t.calls[c].id == s.nextId && t.InTable(older) && Places(t, older) <= 1;
    RunTwo(t, SendFail(c), EraseFailed(c));
    hide Run;
  }

  /** Some later events complete a newly registered call exactly when its id was not registered. */
  lemma CompletableExactly(s: Client)
    requires Inv(s)
    ensures Inv(NewStream(s))
    ensures (exists events :: Run(NewStream(s), events).calls[|s.calls|].runs == 1) <==> s.nextId !in s.table
  {
    RegisterKeeps(s);
    var c, t := |s.calls|, NewStream(s);
    if s.nextId in s.table {
      assert Places(t, c) == 0;
      forall events ensures Run(t, events).calls[c].runs != 1 {
        LostForever(t, events, c);
      }
    } else {
      CompletedByResponse(t, c);
    }
  }

  lemma CompletedByResponse(t: Client, c: nat)
    requires Inv(t) && c < |t.calls| && t.InTable(c) && t.calls[c].cb && !t.calls[c].running
    ensures Run(t, [Response(t.calls[c].id), Complete(c)]).calls[c].runs == 1
  {
    var e1, e2 := Response(t.calls[c].id), Complete(c);
    assert Places(t, c) <= 1 && t.calls[c].runs == 0;
    RunTwo(t, e1, e2);
    hide Run;
    assert Next(t, e1).calls[c] == t.calls[c].(claims := 1);
  }

  // ----- resets and failed sends -----

  /** A reset claims every registered call, once, and no other. */
  lemma ResetClaimsExactly(s: Client, c: nat)
    requires Inv(s) && c < |s.calls|
    ensures var t := Next(s, Reset);
            && t.table == map[] && |t.calls| == |s.calls|
            && t.calls[c] == s.calls[c].(claims := s.calls[c].claims + One(s.InTable(c)))
  {
  }

  /** A registered call whose callback is armed is completed by a reset, as by a response. */
  lemma CompletedByReset(t: Client, c: nat)
    requires Inv(t) && c < |t.calls| && t.InTable(c) && t.calls[c].cb && !t.calls[c].running
    ensures Run(t, [Reset, Complete(c)]).calls[c].runs == 1
  {
    assert Places(t, c) <= 1 && t.calls[c].runs == 0;
    ResetClaimsExactly(t, c);
    RunTwo(t, Reset, Complete(c));
    hide Run;
  }

  /** A failed send cancels the call: unless its callback is just running, it is disarmed, and it runs no more. */
  lemma FailedSendCancels(s: Client, c: nat, events: seq<Event>)
    requires Inv(s) && c < |s.calls| && s.calls[c].phase == Failing && !s.calls[c].running
    ensures var t := Run(s, [EraseFailed(c), Disarm(c)]);
            && t.calls[c].phase == Unavailable && !t.calls[c].cb && t.calls[c].runs == s.calls[c].runs
            && var u := Run(t, events);
               c < |u.calls| && u.calls[c].phase == Unavailable && u.calls[c].runs == s.calls[c].runs
  {
    RunTwo(s, EraseFailed(c), Disarm(c));
    var t := Run(s, [EraseFailed(c), Disarm(c)]);
    hide Run;
    UnavailableIsFinal(t, events, c);
  }
}
