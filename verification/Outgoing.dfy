/**
 * Outgoing calls of one endpoint against an arbitrary peer: every admitted call always has exactly one owner of
 * its outcome, so it is settled at most once, and terminal selection is final.
 */
module OutgoingCalls {
  import opened LittleEndian
  import opened Frames
  import opened Locked
  import opened Endpoints

  predicate BeforeAdmission(pc: CallPc) {
    pc.Checking? || pc.Encoding? || pc.Rechecking? || pc.AwaitingGate? || pc.HoldingGate? || pc.Refused?
  }

  predicate CallOk(call: Call) {
    && ValidMessage(call.request)
    && (BeforeAdmission(call.pc) ==> call.id.None?)
    && (!BeforeAdmission(call.pc) && !call.pc.Returned? ==> call.id.Some?)
    && (call.sent || call.settled != [] ==> call.id.Some?)
    && (call.pc == Wrote(true) ==> call.sent)
    && (call.pc.Returned? && call.pc.result.Settled? ==> call.settled == [call.pc.result.outcome])
    && (call.pc.Refused? ==> !call.pc.reason.Settled?)
  }

  /** The receive loop has removed the pending entry of `c` and not yet completed it. */
  predicate ReceiverOwns(r: ReceiverPc, c: nat) {
    (r.Claimed? || r.Rejected? || r.RejectSelected? || r.Accepting?) && r.call == c
  }

  predicate TeardownOwns(t: TeardownPc, c: nat) {
    t.Delivering? && c in t.claims
  }

  predicate Pending(e: Endpoint, call: Call) {
    call.id.Some? && call.id.value in e.lock.pending
  }

  /** Who may complete the call, counted together with the completions that already happened. */
  function Owners(e: Endpoint, c: nat): nat
    requires c < |e.calls|
  {
    var call := e.calls[c];
    (if Pending(e, call) then 1 else 0)
    + (if ReceiverOwns(e.receiver, c) then 1 else 0)
    + (if call.pc.CancelClaimed? then 1 else 0)
    + (if TeardownOwns(e.teardown, c) then 1 else 0)
    + |call.settled|
  }

  predicate OwnerOk(e: Endpoint, c: nat)
    requires c < |e.calls|
  {
    CallOk(e.calls[c]) && Owners(e, c) == if e.calls[c].id.Some? then 1 else 0
  }

  /** Request IDs and calls determine each other. */
  ghost predicate Links(e: Endpoint) {
    && e.lock.nextId == |e.issued| <= RESPONSE_BIT
    && (forall i :: 0 <= i < |e.issued| ==> e.issued[i] < |e.calls| && e.calls[e.issued[i]].id == Some(i))
    && (forall c :: 0 <= c < |e.calls| && e.calls[c].id.Some? ==>
          e.calls[c].id.value < |e.issued| && e.issued[e.calls[c].id.value] == c)
    && (forall i :: i in e.lock.pending ==> i < |e.issued| && e.lock.pending[i] == e.issued[i])
    && (forall c: nat :: ReceiverOwns(e.receiver, c) ==> c < |e.calls| && e.calls[c].id.Some?)
    && (e.receiver.Claimed? || e.receiver.Accepting? || e.receiver.Rejected? ==>
          e.receiver.call < |e.calls| && e.calls[e.receiver.call].id == Some(e.receiver.id))
    && (e.teardown.Delivering? ==> forall c :: c in e.teardown.claims ==> c < |e.calls|)
  }

  predicate TerminalOk(e: Endpoint) {
    && (e.lock.cause.Some? ==> e.lock.pending == map[] && e.lock.incoming == map[])
    && (e.lock.cause.Some? <==> !e.teardown.Idle?)
    && (e.receiver.RejectSelected? ==> e.lock.cause.Some?)
  }

  ghost predicate Inv(e: Endpoint) {
    && Links(e)
    && TerminalOk(e)
    && forall c :: 0 <= c < |e.calls| ==> OwnerOk(e, c)
  }

  // ---------------------------------------------------------------------------
  // Preservation

  /** A step that leaves the ownership of every outcome where it was. */
  predicate Untouched(e: Endpoint, e': Endpoint) {
    && e'.lock == e.lock && e'.issued == e.issued && e'.receiver == e.receiver && e'.teardown == e.teardown
    && |e'.calls| == |e.calls|
  }

  predicate SameStanding(call: Call, call': Call) {
    && call'.id == call.id && call'.settled == call.settled && call'.pc.CancelClaimed? == call.pc.CancelClaimed?
  }

  lemma {:induction false} LocalStep(e: Endpoint, e': Endpoint, c: nat)
    requires Inv(e) && Untouched(e, e') && c < |e.calls|
    requires forall d :: 0 <= d < |e.calls| && d != c ==> e'.calls[d] == e.calls[d]
    requires SameStanding(e.calls[c], e'.calls[c]) && CallOk(e'.calls[c])
    ensures Inv(e')
  {
    forall d | 0 <= d < |e'.calls|
      ensures OwnerOk(e', d)
    {
      assert OwnerOk(e, d);
    }
  }

  lemma {:induction false} TerminateInv(e: Endpoint, cause: Cause)
    requires Inv(e)
    ensures Inv(Terminate(e, cause)) && Terminate(e, cause).lock.cause.Some?
  {
    var e' := Terminate(e, cause);
    if e.lock.cause.None? {
      forall d | 0 <= d < |e'.calls|
        ensures OwnerOk(e', d)
      {
        assert OwnerOk(e, d);
        assert d in e.lock.pending.Values <==> Pending(e, e.calls[d]);
      }
    }
  }

  lemma {:induction false} AdmitLinks(e: Endpoint, c: nat)
    requires Inv(e) && CallEnabled(e, c, Admit) && Ready(e, e.calls[c]).None? && e.lock.nextId < RESPONSE_BIT
    ensures Links(CallApply(e, c, Admit))
  {
    assert OwnerOk(e, c);
    hide OwnerOk, TerminalOk;
  }

  lemma {:induction false} AdmitTerminal(e: Endpoint, c: nat)
    requires TerminalOk(e) && CallEnabled(e, c, Admit) && Ready(e, e.calls[c]).None? && e.lock.nextId < RESPONSE_BIT
    ensures TerminalOk(CallApply(e, c, Admit))
  {
  }

  lemma {:induction false} AdmitOwner(e: Endpoint, c: nat, d: nat)
    requires Inv(e) && CallEnabled(e, c, Admit) && Ready(e, e.calls[c]).None? && e.lock.nextId < RESPONSE_BIT
    requires d < |e.calls|
    ensures d < |CallApply(e, c, Admit).calls| && OwnerOk(CallApply(e, c, Admit), d)
  {
    assert OwnerOk(e, d);
    assert e.lock.nextId == |e.issued| && e.lock.nextId !in e.lock.pending;
    assert e.calls[d].id != Some(e.lock.nextId);
    hide Inv;
  }

  lemma {:induction false} AdmitInv(e: Endpoint, c: nat)
    requires Inv(e) && CallEnabled(e, c, Admit)
    requires Ready(e, e.calls[c]).None? && e.lock.nextId < RESPONSE_BIT
    ensures Inv(CallApply(e, c, Admit))
  {
    var e' := CallApply(e, c, Admit);
    assert OwnerOk(e, c);
    AdmitLinks(e, c);
    hide Links, TerminalOk;
    assert TerminalOk(e') by { AdmitTerminal(e, c); }
    forall d | 0 <= d < |e'.calls|
      ensures OwnerOk(e', d)
    {
      AdmitOwner(e, c, d);
    }
  }

  lemma {:induction false} CancelLinks(e: Endpoint, c: nat)
    requires Inv(e) && CallEnabled(e, c, ClaimCancellation)
    ensures Links(CallApply(e, c, ClaimCancellation))
  {
    hide OwnerOk, TerminalOk;
  }

  lemma {:induction false} CancelOwner(e: Endpoint, c: nat, d: nat)
    requires Inv(e) && CallEnabled(e, c, ClaimCancellation) && d < |e.calls|
    ensures d < |CallApply(e, c, ClaimCancellation).calls| && OwnerOk(CallApply(e, c, ClaimCancellation), d)
  {
    assert OwnerOk(e, d);
    assert d != c && e.calls[d].id.Some? ==> e.calls[d].id != e.calls[c].id;
    hide Inv;
  }

  lemma {:induction false} CancelInv(e: Endpoint, c: nat)
    requires Inv(e) && CallEnabled(e, c, ClaimCancellation)
    ensures Inv(CallApply(e, c, ClaimCancellation))
  {
    var e' := CallApply(e, c, ClaimCancellation);
    CancelLinks(e, c);
    hide Links;
    forall d | 0 <= d < |e'.calls|
      ensures OwnerOk(e', d)
    {
      CancelOwner(e, c, d);
    }
    hide OwnerOk;
  }

  lemma {:induction false} CompleteInv(e: Endpoint, e': Endpoint, c: nat, o: Outcome)
    requires Inv(e) && c < |e.calls| && e'.calls == Complete(e, c, o).calls
    requires e'.lock == e.lock && e'.issued == e.issued
    requires (ReceiverOwns(e.receiver, c) && e'.receiver.Reading? && e'.teardown == e.teardown)
             || (TeardownOwns(e.teardown, c) && e'.teardown == Delivering(e.teardown.claims - {c})
                 && e'.receiver == e.receiver)
    ensures Inv(e')
    ensures e.calls[c].settled == []
  {
    assert OwnerOk(e, c);
    assert Links(e');
    forall d | 0 <= d < |e'.calls|
      ensures OwnerOk(e', d)
    {
      assert OwnerOk(e, d);
    }
  }

  lemma {:induction false} CompleteCancellationInv(e: Endpoint, c: nat)
    requires Inv(e) && CallEnabled(e, c, CompleteCancellation)
    ensures Inv(CallApply(e, c, CompleteCancellation))
    ensures e.calls[c].settled == []
  {
    var e' := CallApply(e, c, CompleteCancellation);
    assert OwnerOk(e, c);
    assert Links(e');
    forall d | 0 <= d < |e'.calls|
      ensures OwnerOk(e', d)
    {
      assert OwnerOk(e, d);
    }
  }

  predicate IsLocal(s: CallStep) {
    !s.Admit? && !s.ClaimCancellation? && !s.CompleteCancellation? && !s.SelectWriteFailure?
  }

  lemma {:induction false} LocalCall(e: Endpoint, c: nat, s: CallStep)
    requires CallEnabled(e, c, s) && CallOk(e.calls[c]) && (IsLocal(s) || s.SelectWriteFailure?)
    requires |e.calls[c].settled| <= 1
    ensures var call' := CallAfter(e, e.calls[c], s); SameStanding(e.calls[c], call') && CallOk(call')
  {
    hide ValidMessage;
    if s.EncodeRequest? && s.encoded.Some? {
      assert ValidMessage(e.calls[c].request);
      EncodedMessage(e.calls[c].request, s.encoded.value);
    }
  }

  lemma {:induction false} EncodedMessage(m: Message, payload: Bytes)
    requires ValidMessage(m) && |payload| < RESPONSE_BIT
    ensures ValidMessage(m.(payload := payload))
  {
  }

  lemma {:induction false} LocalUntouched(e: Endpoint, c: nat, s: CallStep)
    requires CallEnabled(e, c, s) && IsLocal(s)
    ensures Untouched(e, CallApply(e, c, s))
  {
  }

  lemma {:induction false} CallStepInv(e: Endpoint, c: nat, s: CallStep)
    requires Inv(e) && CallEnabled(e, c, s)
    ensures Inv(CallApply(e, c, s))
  {
    hide Links, Owners, CallOk, CallEnabled, CallAfter, CallEffect, TerminalOk;
    assert c < |e.calls| by { CallExists(e, c, s); }
    assert OwnerOk(e, c);
    SettledOnce(e, c);
    match s {
      case Admit => AdmissionInv(e, c);
      case ClaimCancellation => CancelInv(e, c);
      case CompleteCancellation => CompleteCancellationInv(e, c);
      case SelectWriteFailure => FailureInv(e, c);
      case _ =>
        LocalCall(e, c, s);
        LocalUntouched(e, c, s);
        LocalStep(e, CallApply(e, c, s), c);
    }
  }

  lemma {:induction false} CallExists(e: Endpoint, c: nat, s: CallStep)
    requires CallEnabled(e, c, s)
    ensures c < |e.calls|
  {
  }

  lemma {:induction false} SettledOnce(e: Endpoint, c: nat)
    requires c < |e.calls| && OwnerOk(e, c)
    ensures |e.calls[c].settled| <= 1
  {
  }

  lemma {:induction false} FailureInv(e: Endpoint, c: nat)
    requires Inv(e) && CallEnabled(e, c, SelectWriteFailure)
    ensures Inv(CallApply(e, c, SelectWriteFailure))
  {
    hide Links, Owners, TerminalOk;
    assert OwnerOk(e, c);
    var t := Terminate(e, WriteFailed);
    TerminateInv(e, WriteFailed);
    LocalStep(t, CallApply(e, c, SelectWriteFailure), c);
  }

  lemma {:induction false} AdmissionInv(e: Endpoint, c: nat)
    requires Inv(e) && CallEnabled(e, c, Admit)
    ensures Inv(CallApply(e, c, Admit))
  {
    if Ready(e, e.calls[c]).None? && e.lock.nextId < RESPONSE_BIT {
      AdmitInv(e, c);
    } else {
      hide Links, Owners, TerminalOk;
      assert OwnerOk(e, c);
      LocalStep(e, CallApply(e, c, Admit), c);
    }
  }

  lemma {:induction false} HandlerStepInv(e: Endpoint, id: nat, g: nat, s: HandlerStep)
    requires Inv(e) && HandlerEnabled(e, id, g, s)
    ensures Inv(HandlerApply(e, id, g, s))
  {
    var e' := HandlerApply(e, id, g, s);
    if s.HSelectWriteFailure? {
      TerminateInv(e, WriteFailed);
      SameCalls(Terminate(e, WriteFailed), e');
    } else {
      HandlerFrame(e, id, g, s);
      SameCalls(e, e');
    }
  }

  lemma {:induction false} HandlerFrame(e: Endpoint, id: nat, g: nat, s: HandlerStep)
    requires HandlerEnabled(e, id, g, s) && !s.HSelectWriteFailure?
    ensures var e' := HandlerApply(e, id, g, s);
            && e'.calls == e.calls && e'.issued == e.issued && e'.receiver == e.receiver && e'.teardown == e.teardown
            && e'.lock == e.lock.(incoming := e'.lock.incoming)
            && (e.lock.incoming == map[] ==> e'.lock.incoming == map[])
  {
  }

  /** Changes to incoming requests do not concern outgoing calls. */
  lemma {:induction false} SameCalls(e: Endpoint, e': Endpoint)
    requires Inv(e)
    requires e'.calls == e.calls && e'.issued == e.issued && e'.receiver == e.receiver && e'.teardown == e.teardown
    requires e'.lock == e.lock.(incoming := e'.lock.incoming)
    requires (e.lock.incoming == map[] ==> e'.lock.incoming == map[])
    ensures Inv(e')
  {
    forall d | 0 <= d < |e'.calls|
      ensures OwnerOk(e', d)
    {
      assert OwnerOk(e, d);
    }
  }

  /** The receive loop starts or changes a claim, or stops, without completing a call. */
  lemma {:induction false} ReceiverMoves(e: Endpoint, e': Endpoint)
    requires Inv(e)
    requires e'.calls == e.calls && e'.issued == e.issued && e'.teardown == e.teardown
    requires e'.lock == e.lock.(incoming := e'.lock.incoming) && (e.lock.cause.Some? ==> e'.lock.incoming == map[])
    requires forall c: nat :: ReceiverOwns(e'.receiver, c) <==> ReceiverOwns(e.receiver, c)
    requires e'.receiver.Claimed? || e'.receiver.Accepting? || e'.receiver.Rejected? ==>
               (e.receiver.Claimed? || e.receiver.Accepting? || e.receiver.Rejected?)
               && e'.receiver.id == e.receiver.id && e'.receiver.call == e.receiver.call
    requires e'.receiver.RejectSelected? ==> e.lock.cause.Some?
    ensures Inv(e')
  {
    forall d | 0 <= d < |e'.calls|
      ensures OwnerOk(e', d)
    {
      assert OwnerOk(e, d);
    }
  }

  lemma {:induction false} ClaimInv(e: Endpoint, f: Frame)
    requires Inv(e) && e.receiver.Reading?
    ensures Inv(ReceiveResponse(e, f))
  {
    var e' := ReceiveResponse(e, f);
    if f.id !in e.lock.pending {
      ReceiverMoves(e, e');
    } else {
      ClaimLinks(e, f);
      forall d | 0 <= d < |e'.calls|
        ensures OwnerOk(e', d)
      {
        ClaimOwner(e, f, d);
      }
    }
  }

  lemma {:induction false} ClaimLinks(e: Endpoint, f: Frame)
    requires Inv(e) && e.receiver.Reading? && f.id in e.lock.pending
    ensures Links(ReceiveResponse(e, f)) && TerminalOk(ReceiveResponse(e, f))
  {
    hide OwnerOk;
    var c := e.lock.pending[f.id];
    assert c == e.issued[f.id] && e.calls[c].id == Some(f.id);
  }

  lemma {:induction false} ClaimOwner(e: Endpoint, f: Frame, d: nat)
    requires Inv(e) && e.receiver.Reading? && f.id in e.lock.pending && d < |e.calls|
    ensures OwnerOk(ReceiveResponse(e, f), d)
  {
    hide CallOk;
    assert OwnerOk(e, d);
    var c := e.lock.pending[f.id];
    assert c == e.issued[f.id] && e.calls[c].id == Some(f.id);
  }

  lemma {:induction false} RequestInv(e: Endpoint, f: Frame)
    requires Inv(e) && e.receiver.Reading?
    ensures Inv(ReceiveRequest(e, f))
  {
    hide Links, Owners;
    ReceiverMoves(e, ReceiveRequest(e, f));
  }

  lemma {:induction false} ReceiveInv(e: Endpoint)
    requires Inv(e) && ReceiverEnabled(e, Receive)
    ensures Inv(ReceiverApply(e, Receive))
  {
    hide Links, Owners, TerminalOk, ReceiveRequest, ReceiveResponse;
    var f := e.input[e.taken];
    if |f.payload| > MAX_PAYLOAD {
      TooLongInv(e);
    } else if f.kind == Request {
      RequestInv(e, f);
    } else {
      ClaimInv(e, f);
    }
  }

  lemma {:induction false} TooLongInv(e: Endpoint)
    requires Inv(e) && e.receiver.Reading?
    ensures Inv(e.(receiver := ReadFailing(FrameTooLong)))
  {
    ReceiverMoves(e, e.(receiver := ReadFailing(FrameTooLong)));
  }

  lemma {:induction false} SelectionInv(e: Endpoint, s: ReceiverStep)
    requires Inv(e) && ReceiverEnabled(e, s) && (s.SelectRejection? || s.SelectReceiverCause?)
    ensures Inv(ReceiverApply(e, s))
  {
    hide Links, Owners;
    var cause := if s.SelectRejection? then BadResponse(e.receiver.id)
                 else if e.receiver.ReadFailing? then e.receiver.cause else IdAlreadyActive(e.receiver.id);
    TerminateInv(e, cause);
    ReceiverMoves(Terminate(e, cause), ReceiverApply(e, s));
  }

  lemma {:induction false} ReceiverStepInv(e: Endpoint, s: ReceiverStep)
    requires Inv(e) && ReceiverEnabled(e, s)
    ensures Inv(ReceiverApply(e, s))
  {
    var e' := ReceiverApply(e, s);
    match s {
      case Receive => ReceiveInv(e);
      case ReadFails(_) => ReceiverMoves(e, e');
      case Decode(_) => ReceiverMoves(e, e');
      case SelectRejection => SelectionInv(e, s);
      case SelectReceiverCause => SelectionInv(e, s);
      case CompleteRejection => CompleteInv(e, e', e.receiver.call, Terminated(e.lock.cause.value));
      case CompleteAcceptance => CompleteInv(e, e', e.receiver.call, Accepted(e.receiver.m));
    }
  }

  lemma {:induction false} SpawnInv(e: Endpoint, key: nat)
    requires Inv(e) && 0 < key < KEY_LIMIT
    ensures Inv(OtherApply(e, SpawnCall(key)))
  {
    var e' := OtherApply(e, SpawnCall(key));
    assert Links(e');
    forall d | 0 <= d < |e'.calls|
      ensures OwnerOk(e', d)
    {
      if d < |e.calls| {
        assert OwnerOk(e, d);
      }
    }
  }

  lemma {:induction false} OtherStepInv(e: Endpoint, s: OtherStep)
    requires Inv(e) && OtherEnabled(e, s)
    ensures Inv(OtherApply(e, s))
  {
    var e' := OtherApply(e, s);
    match s {
      case SpawnCall(key) => SpawnInv(e, key);
      case Close => TerminateInv(e, Closed);
      case ContextEnds => TerminateInv(e, ContextDone);
      case DeliverClaim(c) => CompleteInv(e, e', c, Terminated(e.lock.cause.value));
      case FinishTeardown => FinishInv(e);
      case PeerSends(_) => SameCalls(e, e');
    }
  }

  lemma {:induction false} FinishInv(e: Endpoint)
    requires Inv(e) && e.teardown == Delivering({})
    ensures Inv(e.(teardown := Torn))
  {
    var e' := e.(teardown := Torn);
    forall d | 0 <= d < |e'.calls|
      ensures OwnerOk(e', d)
    {
      assert OwnerOk(e, d);
    }
  }

  lemma {:induction false} StepKeepsInv(e: Endpoint, s: Step)
    requires Inv(e) && Enabled(e, s)
    ensures Inv(Apply(e, s))
  {
    hide Inv, CallApply, HandlerApply, ReceiverApply, OtherApply;
    match s
    case ByCall(c, cs) => CallStepInv(e, c, cs);
    case ByHandler(id, g, hs) => HandlerStepInv(e, id, g, hs);
    case ByReceiver(rs) => ReceiverStepInv(e, rs);
    case ByOther(os) => OtherStepInv(e, os);
  }

  // ---------------------------------------------------------------------------
  // Runs

  lemma {:induction false} StartOk()
    ensures Inv(START)
  {
  }

  lemma {:induction false} RunKeepsInv(e: Endpoint, steps: seq<Step>)
    requires Inv(e) && IsRun(e, steps)
    ensures Inv(After(e, steps))
    decreases |steps|
  {
    hide Inv, Apply, Enabled;
    if steps != [] {
      StepKeepsInv(e, steps[0]);
      RunKeepsInv(Apply(e, steps[0]), steps[1..]);
    }
  }

  /** How one step may change the settlement of a call: only its current owner adds the first outcome. */
  predicate SettlementStep(e: Endpoint, s: Step, c: nat)
    requires Enabled(e, s) && c < |e.calls| <= |Apply(e, s).calls|
  {
    var before := e.calls[c].settled;
    var after := Apply(e, s).calls[c].settled;
    after == before ||
    (&& before == []
     && (match s
         case ByCall(d, CompleteCancellation) => d == c && after == [Cancelled]
         case ByReceiver(CompleteAcceptance) => ReceiverOwns(e.receiver, c) && after == [Accepted(e.receiver.m)]
         case ByReceiver(CompleteRejection) =>
             ReceiverOwns(e.receiver, c) && e.lock.cause.Some? && after == [Terminated(e.lock.cause.value)]
         case ByOther(DeliverClaim(d)) => d == c && e.lock.cause.Some? && after == [Terminated(e.lock.cause.value)]
         case _ => false))
  }

  lemma {:induction false} CallsPersist(e: Endpoint, s: Step)
    requires Enabled(e, s)
    ensures |e.calls| <= |Apply(e, s).calls|
  {
    hide CallApply, HandlerApply, ReceiverApply, OtherApply;
    match s
    case ByCall(c, cs) => CallTouches(e, c, cs);
    case ByHandler(id, g, hs) => HandlerTouches(e, id, g, hs);
    case ByReceiver(rs) => ReceiverTouches(e, rs);
    case ByOther(os) => OtherTouches(e, os);
  }

  lemma {:induction false} CallSettlesNone(e: Endpoint, d: nat, s: CallStep, c: nat)
    requires CallEnabled(e, d, s) && s != CompleteCancellation && c < |e.calls|
    ensures |CallApply(e, d, s).calls| == |e.calls| && CallApply(e, d, s).calls[c].settled == e.calls[c].settled
  {
    CallShape(e, d, s);
    hide CallApply;
  }

  lemma {:induction false} ReceiverSettlesNone(e: Endpoint, s: ReceiverStep, c: nat)
    requires ReceiverEnabled(e, s) && !s.CompleteAcceptance? && !s.CompleteRejection? && c < |e.calls|
    ensures ReceiverApply(e, s).calls == e.calls
  {
    hide ReceiveRequest, ReceiveResponse, Terminate;
    match s
    case Receive =>
      RequestShape(e, e.input[e.taken]);
      ResponseShape(e, e.input[e.taken]);
    case SelectRejection => TerminateShape(e, BadResponse(e.receiver.id));
    case SelectReceiverCause =>
      TerminateShape(e, if e.receiver.ReadFailing? then e.receiver.cause else IdAlreadyActive(e.receiver.id));
    case _ =>
  }

  lemma {:induction false} OtherSettlesNone(e: Endpoint, s: OtherStep, c: nat)
    requires OtherEnabled(e, s) && !s.DeliverClaim? && c < |e.calls|
    ensures |e.calls| <= |OtherApply(e, s).calls| && OtherApply(e, s).calls[c] == e.calls[c]
  {
  }

  lemma {:induction false} OwnerSettles(e: Endpoint, s: Step, c: nat)
    requires Inv(e) && Enabled(e, s) && c < |e.calls|
    ensures |e.calls| <= |Apply(e, s).calls| && SettlementStep(e, s, c)
  {
    CallsPersist(e, s);
    assert OwnerOk(e, c);
    hide OwnerOk, Inv, CallApply, HandlerApply, ReceiverApply, OtherApply;
    match s
    case ByCall(d, CompleteCancellation) => CompletesFirst(e, s, c);
    case ByReceiver(CompleteAcceptance) => CompletesFirst(e, s, c);
    case ByReceiver(CompleteRejection) => CompletesFirst(e, s, c);
    case ByOther(DeliverClaim(d)) => CompletesFirst(e, s, c);
    case ByCall(d, cs) => CallSettlesNone(e, d, cs, c);
    case ByHandler(i, g, hs) => HandlerTouches(e, i, g, hs);
    case ByReceiver(rs) => ReceiverSettlesNone(e, rs, c);
    case ByOther(os) => OtherSettlesNone(e, os, c);
  }

  lemma {:induction false} CompletesFirst(e: Endpoint, s: Step, c: nat)
    requires c < |e.calls| && OwnerOk(e, c) && Enabled(e, s)
    requires s == ByReceiver(CompleteAcceptance) || s == ByReceiver(CompleteRejection)
             || (s.ByCall? && s.cs == CompleteCancellation) || (s.ByOther? && s.os.DeliverClaim?)
    ensures |e.calls| <= |Apply(e, s).calls| && SettlementStep(e, s, c)
  {
  }

  /** Once settled, an outcome is never replaced and never completed again, in any continuation. */
  lemma {:induction false} OutcomeIsFinal(e: Endpoint, steps: seq<Step>, c: nat)
    requires Inv(e) && IsRun(e, steps) && c < |e.calls| && e.calls[c].settled != []
    ensures c < |After(e, steps).calls| && After(e, steps).calls[c].settled == e.calls[c].settled
    decreases |steps|
  {
    hide Inv, Enabled;
    if steps != [] {
      OwnerSettles(e, steps[0], c);
      StepKeepsInv(e, steps[0]);
      hide Apply;
      OutcomeIsFinal(Apply(e, steps[0]), steps[1..], c);
    }
  }

  /**
   * In every run against every peer, a call has been completed at most once; while it is admitted and unsettled
   * exactly one claimant (the pending map, the receive loop, its own cancellation or the teardown) can complete
   * it; and a call that returned a settlement returned the one it was settled with.
   */
  lemma {:induction false} SettledAtMostOnce(steps: seq<Step>, c: nat)
    requires IsRun(START, steps) && c < |After(START, steps).calls|
    ensures var e := After(START, steps); var call := e.calls[c];
            && |call.settled| <= 1
            && (call.id.None? ==> Owners(e, c) == 0 && call.settled == [])
            && (call.id.Some? ==> Owners(e, c) == 1)
            && (call.pc.Returned? && call.pc.result.Settled? ==> call.settled == [call.pc.result.outcome])
  {
    StartOk();
    RunKeepsInv(START, steps);
    assert OwnerOk(After(START, steps), c);
  }

  // ---------------------------------------------------------------------------
  // Terminal state is final

  /** Nothing new starts: no generation is dispatched, no ID is issued and no write is admitted. */
  ghost predicate NothingStarts(e: Endpoint, e': Endpoint) {
    && e'.lock.cause == e.lock.cause && e'.issued == e.issued
    && |e.calls| <= |e'.calls|
    && (forall c :: 0 <= c < |e'.calls| && e'.calls[c].pc.Writing? ==> c < |e.calls| && e.calls[c].pc.Writing?)
    && (forall id: nat :: |Gens(e', id)| == |Gens(e, id)|)
    && (forall id: nat, g :: 0 <= g < |Gens(e, id)| && Gens(e', id)[g].pc.HWriting? ==> Gens(e, id)[g].pc.HWriting?)
  }

  lemma {:induction false} TerminalCallStep(e: Endpoint, c: nat, s: CallStep)
    requires CallEnabled(e, c, s) && e.lock.cause.Some?
    ensures NothingStarts(e, CallApply(e, c, s))
  {
    var e' := CallApply(e, c, s);
    assert e'.handlers == e.handlers;
    assert e'.calls[c].pc.Writing? ==> e.calls[c].pc.Writing?;
  }

  lemma {:induction false} TerminalHandlerStep(e: Endpoint, id: nat, g: nat, s: HandlerStep)
    requires HandlerEnabled(e, id, g, s) && e.lock.cause.Some? && e.lock.incoming == map[]
    ensures NothingStarts(e, HandlerApply(e, id, g, s))
  {
    var e' := HandlerApply(e, id, g, s);
    assert Spawned(e, id, s) == [];
    var gens := Gens(e, id)[g := HandlerAfter(e, Gens(e, id)[g], s)];
    assert e'.handlers[id] == gens + [] == gens;
    forall i: nat
      ensures |Gens(e', i)| == |Gens(e, i)|
      ensures i != id ==> Gens(e', i) == Gens(e, i)
    {
    }
    assert e'.calls == e.calls && e'.lock.cause == e.lock.cause && e'.issued == e.issued;
  }

  lemma {:induction false} TerminalStep(e: Endpoint, s: Step)
    requires Inv(e) && Enabled(e, s) && e.lock.cause.Some?
    ensures NothingStarts(e, Apply(e, s))
  {
    hide Links, OwnerOk, CallApply, HandlerApply, ReceiverApply, OtherApply, NothingStarts;
    match s
    case ByCall(c, cs) => TerminalCallStep(e, c, cs);
    case ByHandler(id, g, hs) => TerminalHandlerStep(e, id, g, hs);
    case ByReceiver(rs) => TerminalReceiverStep(e, rs);
    case ByOther(os) => TerminalOtherStep(e, os);
  }

  lemma {:induction false} TerminalReceiverStep(e: Endpoint, s: ReceiverStep)
    requires ReceiverEnabled(e, s) && e.lock.cause.Some?
    ensures NothingStarts(e, ReceiverApply(e, s))
  {
    assert ReceiverApply(e, s).handlers == e.handlers;
  }

  lemma {:induction false} TerminalOtherStep(e: Endpoint, s: OtherStep)
    requires OtherEnabled(e, s) && e.lock.cause.Some?
    ensures NothingStarts(e, OtherApply(e, s))
  {
    assert OtherApply(e, s).handlers == e.handlers;
  }

  /**
   * After terminal selection the cause never changes, both maps stay empty, and no later step of any run
   * dispatches a request, issues an ID or admits a write.
   */
  lemma {:induction false} TerminalIsFinal(e: Endpoint, steps: seq<Step>)
    requires Inv(e) && IsRun(e, steps) && e.lock.cause.Some?
    ensures var e' := After(e, steps);
            NothingStarts(e, e') && e'.lock.pending == map[] && e'.lock.incoming == map[]
    decreases |steps|
  {
    hide Links, OwnerOk, Apply, Enabled, Gens;
    if steps != [] {
      TerminalStep(e, steps[0]);
      StepKeepsInv(e, steps[0]);
      var m := Apply(e, steps[0]);
      TerminalIsFinal(m, steps[1..]);
      NothingStartsTransitive(e, m, After(m, steps[1..]));
    }
  }

  lemma {:induction false} NothingStartsTransitive(a: Endpoint, b: Endpoint, c: Endpoint)
    requires NothingStarts(a, b) && NothingStarts(b, c)
    ensures NothingStarts(a, c)
  {
    hide Gens;
    forall id: nat, g | 0 <= g < |Gens(a, id)| && Gens(c, id)[g].pc.HWriting?
      ensures Gens(a, id)[g].pc.HWriting?
    {
      assert Gens(b, id)[g].pc.HWriting?;
    }
  }
}
