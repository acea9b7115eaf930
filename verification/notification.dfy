/** The wake-up of the send loop (outgoing_data_ready_notification.h, and sendLoop in channel.cpp).

Any number of notifiers run against the one send loop.  Every access to the atomic flag,
the mutex and the condition variable is one step; timeouts and spurious wake-ups may
happen at any time.  `produced` counts pieces of work made ready; `announced` is the latest
of them whose notifier has performed its exchange; `seen` is what had been produced when the
latest `trySend` began.
*/
module Notification {

  /** Where the send loop is. */
  datatype LoopPc =
    | Sending      // about to call trySend
    | Sent         // trySend has returned
    | Locking      // await: acquiring the mutex
    | Checking     // await: holds the mutex, about to evaluate the predicate
    | Asleep       // await: waiting on the condition variable, mutex released
    | Woken        // await: woken up, reacquiring the mutex
    | TimedOut     // await: timed out, reacquiring the mutex
    | Clearing     // await: holds the mutex, about to clear the flag

  /** Where a notifier is: about to exchange the flag, to lock the mutex, to call notify_one. */
  datatype NotifierPc = Exchanging(work: nat) | Acquiring | Notifying

  datatype Owner = Free | ByLoop | ByNotifier(id: nat)

  datatype State = State(
    flag: bool,
    mutex: Owner,
    loop: LoopPc,
    notifiers: map<nat, NotifierPc>,
    produced: nat,
    announced: nat,
    seen: nat)

  datatype Step =
    | Produce(id: nat)       // work is made ready and notify() is entered
    | Exchange(id: nat)
    | Acquire(id: nat)
    | NotifyOne(id: nat)
    | Loop                   // the send loop moves on
    | Skip                   // trySend asked for no delay: the loop does not await
    | Timeout
    | Spurious

  predicate Enabled(s: State, e: Step) {
    match e
    case Produce(id) => id !in s.notifiers
    case Exchange(id) => id in s.notifiers && s.notifiers[id].Exchanging?
    case Acquire(id) => id in s.notifiers && s.notifiers[id].Acquiring? && s.mutex == Free
    case NotifyOne(id) => id in s.notifiers && s.notifiers[id].Notifying?
    case Loop => s.loop != Asleep && (s.loop == Locking || s.loop == Woken || s.loop == TimedOut ==> s.mutex == Free)
    case Skip => s.loop == Sent
    case Timeout => s.loop == Asleep
    case Spurious => s.loop == Asleep
  }

  function Max(a: nat, b: nat): nat { if a < b then b else a }

  function LoopStep(s: State): State {
    match s.loop
    case Sending => s.(loop := Sent, seen := s.produced)
    case Sent => s.(loop := Locking)
    case Locking => s.(loop := Checking, mutex := ByLoop)
    case Checking => if s.flag then s.(loop := Clearing) else s.(loop := Asleep, mutex := Free)
    case Asleep => s
    case Woken => s.(loop := Checking, mutex := ByLoop)
    case TimedOut => s.(loop := Clearing, mutex := ByLoop)
    case Clearing => s.(loop := Sending, mutex := Free, flag := false)
  }

  function Next(s: State, e: Step): State
    requires Enabled(s, e)
  {
    match e
    case Produce(id) => s.(produced := s.produced + 1, notifiers := s.notifiers[id := Exchanging(s.produced + 1)])
    case Exchange(id) =>
      var t := s.(flag := true, announced := Max(s.announced, s.notifiers[id].work));
      if s.flag then t.(notifiers := s.notifiers - {id}) else t.(notifiers := s.notifiers[id := Acquiring])
    case Acquire(id) => s.(mutex := ByNotifier(id), notifiers := s.notifiers[id := Notifying])
    case NotifyOne(id) =>
      s.(mutex := Free, notifiers := s.notifiers - {id}, loop := if s.loop == Asleep then Woken else s.loop)
    case Loop => LoopStep(s)
    case Skip => s.(loop := Sending)
    case Timeout => s.(loop := TimedOut)
    case Spurious => s.(loop := Woken)
  }

  const Start := State(false, Free, Sending, map[], 0, 0, 0)

  // ----- the invariant -----

  predicate HoldsMutex(pc: LoopPc) { pc == Checking || pc == Clearing }

  /** A notifier that will still call notify_one. */
  ghost predicate OnItsWay(s: State) {
    exists id :: id in s.notifiers && !s.notifiers[id].Exchanging?
  }

  ghost predicate Inv(s: State) {
    && (s.mutex == ByLoop <==> HoldsMutex(s.loop))
    && (forall id :: s.mutex == ByNotifier(id) ==> id in s.notifiers && s.notifiers[id] == Notifying)
    && (forall id :: id in s.notifiers && s.notifiers[id] == Notifying ==> s.mutex == ByNotifier(id))
    && (forall id :: id in s.notifiers && s.notifiers[id].Exchanging? ==> s.notifiers[id].work <= s.produced)
    && s.announced <= s.produced && s.seen <= s.produced
    // The loop is never asleep with the flag set unless someone is on the way to wake it.
    && (s.flag && s.loop == Asleep ==> OnItsWay(s))
    // Announced work that trySend has not looked at yet is protected by the flag, or trySend is next.
    && (s.announced > s.seen ==> s.flag || s.loop == Sending)
  }

  lemma ExchangeKeeps(s: State, id: nat)
    requires Inv(s) && Enabled(s, Exchange(id))
    ensures Inv(Next(s, Exchange(id)))
  {
    var t := Next(s, Exchange(id));
    if t.loop == Asleep {
      if s.flag {
        var other :| other in s.notifiers && !s.notifiers[other].Exchanging?;
        assert other in t.notifiers && !t.notifiers[other].Exchanging?;
      } else {
        assert id in t.notifiers && !t.notifiers[id].Exchanging?;
      }
    }
  }

  lemma NextKeeps(s: State, e: Step)
    requires Inv(s) && Enabled(s, e)
    ensures Inv(Next(s, e))
  {
    var t := Next(s, e);
    match e
    case Exchange(id) => ExchangeKeeps(s, id);
    case Produce(id) =>
      if s.flag && s.loop == Asleep {
        var other :| other in s.notifiers && !s.notifiers[other].Exchanging?;
        assert other in t.notifiers && !t.notifiers[other].Exchanging?;
      }
    case Acquire(id) =>
      assert id in t.notifiers && !t.notifiers[id].Exchanging?;
    case NotifyOne(id) =>
    case Loop =>
    case Skip =>
    case Timeout =>
    case Spurious =>
  }

  ghost predicate Reachable(s: State, steps: seq<Step>)
    decreases |steps|
  {
    if steps == [] then s == Start
    else
      var before, last := steps[..|steps| - 1], steps[|steps| - 1];
      exists r :: Reachable(r, before) && Enabled(r, last) && Next(r, last) == s
  }

  lemma {:induction false} ReachableInv(s: State, steps: seq<Step>)
    requires Reachable(s, steps)
    ensures Inv(s)
    decreases |steps|
  {
    if steps != [] {
      var before, last := steps[..|steps| - 1], steps[|steps| - 1];
      var r :| Reachable(r, before) && Enabled(r, last) && Next(r, last) == s;
      ReachableInv(r, before);
      NextKeeps(r, last);
    }
  }

  // ----- no lost wake-up -----

  /** Work has been announced that the latest trySend did not look at. */
  predicate Unseen(s: State) { s.announced > s.seen }

  /** How many moves of the loop remain before it calls trySend. */
  function Distance(s: State): nat {
    match s.loop
    case Sending => 0
    case Clearing => 1
    case TimedOut => 2
    case Checking => 2
    case Woken => 3
    case Locking => 3
    case Sent => 4
    case Asleep => 5
  }

  predicate IsMove(e: Step) { e == Loop || e == Skip || e == Timeout || e == Spurious }

  lemma MovesCloser(s: State, e: Step)
    requires Inv(s) && Unseen(s) && Enabled(s, e) && s.loop != Sending
    ensures var t := Next(s, e);
            && Unseen(t)
            && Distance(t) <= Distance(s)
            && (IsMove(e) ==> Distance(t) < Distance(s))
            && (e.NotifyOne? && s.loop == Asleep ==> Distance(t) < Distance(s))
  {
  }

  /** While announced work is unseen, no step takes the loop farther from trySend, and every move of the loop
      takes it closer, until trySend begins and sees all the work announced. */
  lemma NeverFarther(s: State, steps: seq<Step>, e: Step)
    requires Reachable(s, steps) && Unseen(s) && Enabled(s, e) && s.loop != Sending
    ensures var t := Next(s, e);
            && Unseen(t)
            && Distance(t) <= Distance(s)
            && (IsMove(e) ==> Distance(t) < Distance(s))
            && (e.NotifyOne? && s.loop == Asleep ==> Distance(t) < Distance(s))
  {
    ReachableInv(s, steps);
    MovesCloser(s, e);
  }

  /** A continuation of a run in which trySend is not called. */
  ghost predicate Avoids(s: State, more: seq<Step>)
    decreases |more|
  {
    s.loop != Sending && (more != [] ==> Enabled(s, more[0]) && Avoids(Next(s, more[0]), more[1..]))
  }

  function Moves(more: seq<Step>): nat {
    if more == [] then 0 else (if IsMove(more[0]) then 1 else 0) + Moves(more[1..])
  }

  /** However the steps interleave, the loop makes fewer than five moves before trySend once work is announced. */
  lemma FewMoves(s: State, steps: seq<Step>, more: seq<Step>)
    requires Reachable(s, steps) && Unseen(s) && Avoids(s, more)
    ensures Moves(more) < Distance(s) <= 5
  {
    ReachableInv(s, steps);
    MovesBounded(s, more);
  }

  lemma {:induction false} MovesBounded(s: State, more: seq<Step>)
    requires Inv(s) && Unseen(s) && Avoids(s, more)
    ensures Moves(more) < Distance(s)
    decreases |more|
  {
    if more != [] {
      MovesCloser(s, more[0]);
      NextKeeps(s, more[0]);
      hide Inv;
      MovesBounded(Next(s, more[0]), more[1..]);
    }
  }

  lemma TrySendSees(s: State, steps: seq<Step>)
    requires Reachable(s, steps) && s.loop == Sending
    ensures Enabled(s, Loop) && !Unseen(Next(s, Loop)) && Next(s, Loop).seen == s.produced
  {
    ReachableInv(s, steps);
  }

  /** How far trySend is, counting the steps of a notifier that is in the way. */
  function Rank(s: State): nat {
    2 * Distance(s) + (if (s.loop == Asleep) == s.mutex.ByNotifier? then 0 else 1)
  }

  /** And it can always get closer: some step that brings it closer is enabled, of the loop itself or of a notifier
      that holds or is about to take the mutex; it does not depend on a timeout or a spurious wake-up. */
  lemma NeverStuck(s: State, steps: seq<Step>) returns (e: Step)
    requires Reachable(s, steps) && Unseen(s) && s.loop != Sending
    ensures Enabled(s, e) && (e == Loop || e.NotifyOne? || e.Acquire?)
    ensures Unseen(Next(s, e)) && Rank(Next(s, e)) < Rank(s) && Next(s, e).announced >= s.announced
  {
    ReachableInv(s, steps);
    match s.mutex
    case ByNotifier(id) => e := NotifyOne(id);
    case ByLoop => e := Loop;
    case Free =>
      if s.loop == Asleep {
        var id :| id in s.notifiers && !s.notifiers[id].Exchanging?;
        e := Acquire(id);
      } else {
        e := Loop;
      }
  }

  /** No wake-up is lost: from every reachable state with announced work that is unseen, at most eleven steps of the
      loop and of notifiers already on their way, with no timeout, no spurious wake-up and no new work, lead to
      trySend, which then sees it. */
  lemma {:induction false} WakesUp(s: State, steps: seq<Step>) returns (more: seq<Step>, t: State)
    requires Reachable(s, steps) && Unseen(s)
    ensures |more| <= Rank(s) <= 11
    ensures forall i :: 0 <= i < |more| ==> more[i] == Loop || more[i].NotifyOne? || more[i].Acquire?
    ensures Reachable(t, steps + more) && t.loop == Sending && Unseen(t)
    ensures Enabled(t, Loop) && Next(t, Loop).seen >= s.announced
    decreases Rank(s)
  {
    hide Next, Enabled, Rank;
    if s.loop == Sending {
      more, t := [], s;
      assert steps + more == steps;
      TrySendSees(s, steps);
      AnnouncedIsProduced(s, steps);
    } else {
      var e := NeverStuck(s, steps);
      var next := Next(s, e);
      assert (steps + [e])[..|steps|] == steps;
      assert Reachable(next, steps + [e]);
      hide Reachable;
      more, t := WakesUp(next, steps + [e]);
      assert steps + [e] + more == steps + ([e] + more);
      more := [e] + more;
    }
    RankBound(s);
  }

  lemma RankBound(s: State)
    ensures Rank(s) <= 11
  {
  }

  lemma AnnouncedIsProduced(s: State, steps: seq<Step>)
    requires Reachable(s, steps)
    ensures s.announced <= s.produced
  {
    ReachableInv(s, steps);
  }

  /** The loop is never asleep with the flag set and no notifier on its way to notify_one. */
  lemma NeverAsleepUnnoticed(s: State, steps: seq<Step>)
    requires Reachable(s, steps) && s.loop == Asleep
    ensures s.flag ==> OnItsWay(s)
    ensures Unseen(s) ==> s.flag && OnItsWay(s)
  {
    ReachableInv(s, steps);
  }
}
