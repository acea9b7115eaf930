/** The registry of outgoing calls of the RPC client, updated under its mutex (rpc/client.cpp).

Each method is one critical section; a call is referred to by its number.  The ghost field `s` is the client
of `RpcCalls` that the fields stand for.
*/
module RpcClients {
  import opened Basics
  import opened RpcCalls

  class RpcClient {
    var nextStreamId: nat
    var outgoingCalls: map<nat, nat>
    ghost var s: Client

    ghost predicate Valid()
      reads this
    {
      Inv(s) && nextStreamId == s.nextId && outgoingCalls == s.table
    }

    constructor ()
      ensures Valid() && s == Start
    {
      StartInv();
      nextStreamId, outgoingCalls := 1, map[];
      s := Start;
    }

    method NewStream(call: nat) returns (streamId: nat)
      requires Valid() && call == |s.calls|
      modifies this
      ensures Valid() && s == RpcCalls.NewStream(old(s))
      ensures 1 <= streamId <= LAST_ID && streamId == s.calls[call].id
    {
      NextIdExact(|s.calls|);
      RegisterKeeps(s);
      assert s.nextId == IdOf(|s.calls|);
      hide Inv;
      streamId := nextStreamId;
      nextStreamId := nextStreamId + 1;
      if nextStreamId > 0x00FF_FFFF { nextStreamId := 1; }
      if streamId !in outgoingCalls { outgoingCalls := outgoingCalls[streamId := call]; }
      s := RpcCalls.NewStream(s);
    }

    method EraseFailed(streamId: nat, ghost call: nat)
      requires Valid() && call < |s.calls| && s.calls[call].id == streamId && s.calls[call].phase == Failing
      modifies this
      ensures Valid() && s == Erase(old(s), call)
    {
      EraseKeeps(s, call);
      hide Inv;
      outgoingCalls := outgoingCalls - {streamId};
      s := Erase(s, call);
    }

    /** Takes the call a response is for out of the registry. */
    method TakeForResponse(streamId: nat) returns (call: Option<nat>)
      requires Valid()
      modifies this
      ensures Valid() && s == Respond(old(s), streamId)
      ensures call.Some? <==> streamId in old(s).table
      ensures call.Some? ==>
                call.value < |s.calls| == |old(s).calls|
                && s.calls[call.value].claims == old(s).calls[call.value].claims + 1
    {
      RespondKeeps(s, streamId);
      ghost var goal := Respond(s, streamId);
      call := None;
      if streamId in outgoingCalls {
        call := Some(outgoingCalls[streamId]);
        outgoingCalls := outgoingCalls - {streamId};
      }
      s := goal;
    }

    /** Takes all calls out of the registry, for a reset. */
    method TakeAllForReset() returns (calls: map<nat, nat>)
      requires Valid()
      modifies this
      ensures Valid() && s == TakeAll(old(s)) && calls == old(s).table
    {
      TakeAllKeeps(s);
      hide Inv;
      calls := outgoingCalls;
      outgoingCalls := map[];
      s := TakeAll(s);
    }
  }
}
