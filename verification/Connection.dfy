/** The lock-protected sections of the Go connection, as methods of an object that mutate its fields. */
module Connections {
  import opened Frames
  import opened Locked

  datatype Refusal = Terminated(cause: Cause) | ContextError | IdsExhausted

  class Connection {
    var cause: Option<Cause>
    var nextId: nat
    var pending: map<nat, nat>
    var incoming: map<nat, IncomingCall>

    function Lock(): State
      reads this
    {
      State(cause, nextId, pending, incoming)
    }

    constructor ()
      ensures Lock() == INITIAL
    {
      cause, nextId, pending, incoming := None, 0, map[], map[];
    }

    /** `callReadyLocked`: the terminal cause wins over the call's own context error. */
    method CallReady(ctxDone: bool) returns (r: Option<Refusal>)
      ensures r == if Lock().cause.Some? then Some(Terminated(Lock().cause.value))
                   else if ctxDone then Some(ContextError) else None
    {
      if cause.Some? {
        return Some(Terminated(cause.value));
      }
      if ctxDone {
        return Some(ContextError);
      }
      return None;
    }

    /** Write admission of an outgoing call: recheck, allocate and insert in one locked section. */
    method AdmitOutgoing(call: nat, ctxDone: bool) returns (id: nat, refused: Option<Refusal>)
      modifies this
      ensures refused.Some? ==> Lock() == old(Lock())
      ensures refused.None? ==> id == old(nextId) && id < RESPONSE_BIT && Lock() == AdmitCall(old(Lock()), call)
      ensures refused.None? <==> old(cause).None? && !ctxDone && old(nextId) < RESPONSE_BIT
      ensures old(cause).Some? ==> refused == Some(Terminated(old(cause).value))
      ensures old(cause).None? && ctxDone ==> refused == Some(ContextError)
      ensures old(cause).None? && !ctxDone && old(nextId) >= RESPONSE_BIT ==> refused == Some(IdsExhausted)
    {
      id := 0;
      refused := CallReady(ctxDone);
      if refused.Some? {
        return;
      }
      if nextId > RESPONSE_BIT - 1 {
        refused := Some(IdsExhausted);
        return;
      }
      id := nextId;
      nextId := nextId + 1;
      pending := pending[id := call];
    }

    /** Claims the pending entry of a matched response; an unmatched ID changes nothing. */
    method ClaimResponse(id: nat) returns (claimed: Option<nat>)
      modifies this
      ensures claimed == if id in old(pending) then Some(old(pending)[id]) else None
      ensures Lock() == RemovePending(old(Lock()), id)
    {
      claimed := None;
      if id in pending {
        claimed := Some(pending[id]);
        pending := pending - {id};
      }
      assert pending == old(pending) - {id};
    }

    /** `claimCancel`: removal is what decides whether cancellation owns the outcome. */
    method ClaimCancel(id: nat) returns (won: bool)
      modifies this
      ensures won <==> id in old(pending)
      ensures Lock() == RemovePending(old(Lock()), id)
    {
      won := id in pending;
      if won {
        pending := pending - {id};
      }
      assert pending == old(pending) - {id};
    }

    method AdmitIncomingFrame(id: nat, m: Message) returns (a: Admission)
      modifies this
      ensures a == AdmitResult(old(Lock()), id)
      ensures Lock() == AdmitIncoming(old(Lock()), id, m)
    {
      if cause.Some? {
        return Discard;
      }
      if id !in incoming {
        incoming := incoming[id := IncomingCall(false, None)];
        return Dispatch;
      }
      var ic := incoming[id];
      if ic.writing {
        if ic.deferred.Some? {
          return Terminal;
        }
        ic := ic.(deferred := Some(m));
        incoming := incoming[id := ic];
        return Deferred;
      }
      return Terminal;
    }

    method MarkIncomingWriting(id: nat)
      modifies this
      ensures Lock() == MarkWriting(old(Lock()), id)
    {
      if id in incoming {
        incoming := incoming[id := incoming[id].(writing := true)];
      }
    }

    method CompleteIncomingWrite(id: nat) returns (next: Option<Message>)
      modifies this
      ensures next == Promoted(old(Lock()), id)
      ensures Lock() == CompleteWrite(old(Lock()), id)
    {
      if id !in incoming {
        return None;
      }
      var ic := incoming[id].(writing := false);
      if ic.deferred.None? {
        incoming := incoming - {id};
        return None;
      }
      next := ic.deferred;
      incoming := incoming[id := ic.(deferred := None)];
    }

    /** Publishes the first cause, drains both maps entry by entry and hands over every claim. */
    method SelectTerminalCause(err: Cause) returns (won: bool, claims: seq<nat>)
      modifies this
      ensures won <==> old(cause).None?
      ensures Lock() == SelectTerminal(old(Lock()), err)
      ensures |claims| == if won then |old(pending)| else 0
      ensures (set c | c in claims) == Claims(old(Lock()))
    {
      claims := [];
      won := cause.None?;
      if !won {
        return;
      }
      cause := Some(err);
      while pending != map[]
        invariant pending.Keys <= old(pending).Keys
        invariant forall id :: id in pending ==> pending[id] == old(pending)[id]
        invariant |claims| + |pending| == |old(pending)|
        invariant forall c :: c in claims ==> c in old(pending).Values
        invariant forall id :: id in old(pending) && id !in pending ==> old(pending)[id] in claims
        invariant cause == Some(err) && nextId == old(nextId) && incoming == old(incoming)
        decreases |pending|
      {
        var id :| id in pending;
        assert |(pending - {id}).Keys| == |pending.Keys - {id}|;
        claims := claims + [pending[id]];
        pending := pending - {id};
      }
      incoming := map[];
      assert forall c :: c in claims <==> c in old(pending).Values;
    }
  }

  /** One admitted outgoing request; `done` is the channel that closes when its outcome is set. */
  class PendingCall {
    var done: bool
    var result: Option<Cause>

    constructor ()
      ensures !done
    {
      done, result := false, None;
    }

    /** `complete`: closing a closed channel would panic, so the owner calls it once. */
    method Complete(r: Option<Cause>)
      requires !done
      modifies this
      ensures done && result == r
    {
      result := r;
      done := true;
    }
  }

  /** `runTeardown`: delivers the permanent cause to every transferred call, each exactly once. */
  method RunTeardown(err: Cause, claims: seq<PendingCall>)
    requires forall i, j :: 0 <= i < j < |claims| ==> claims[i] != claims[j]
    requires forall i :: 0 <= i < |claims| ==> !claims[i].done
    modifies claims
    ensures forall i :: 0 <= i < |claims| ==> claims[i].done && claims[i].result == Some(err)
  {
    for i := 0 to |claims|
      invariant forall j :: 0 <= j < i ==> claims[j].done && claims[j].result == Some(err)
      invariant forall j :: i <= j < |claims| ==> !claims[j].done
    {
      claims[i].Complete(Some(err));
    }
  }
}
