/**
 * The bodies of the receive loop, of a handler and of a call, run on the connection object. Each is a run of the step
 * system: the object's lock-protected sections leave exactly the state that the steps leave.
 */
module ConnectionSteps {
  import opened LittleEndian
  import opened Frames
  import opened Locked
  import opened Endpoints
  import opened Connections

  lemma {:induction false} ReceiveOutcome(e: Endpoint, f: Frame)
    requires e.receiver.Reading? && e.taken < |e.input| && e.input[e.taken] == f && UnderCeiling(f)
    ensures var now := Apply(e, ByReceiver(Receive)); var m := Message(f.key, f.payload);
            if f.kind == Response then
              && now.lock == RemovePending(e.lock, f.id) && now.handlers == e.handlers
              && now.receiver == if f.id in e.lock.pending then Claimed(e.lock.pending[f.id], f.id, m) else Reading
            else
              && now.lock == AdmitIncoming(e.lock, f.id, m)
              && now.receiver == (match AdmitResult(e.lock, f.id)
                                  case Discard => Exited
                                  case Terminal => Duplicate(f.id)
                                  case _ => Reading)
              && now.handlers == if AdmitResult(e.lock, f.id) == Dispatch
                                 then e.handlers[f.id := Gens(e, f.id) + [NewHandler(m)]] else e.handlers
  {
    hide AdmitIncoming, Gens, NewHandler;
  }

  lemma {:induction false} DuplicateOutcome(e: Endpoint)
    requires e.receiver.Duplicate?
    ensures var now := Apply(e, ByReceiver(SelectReceiverCause));
            && now.lock == SelectTerminal(e.lock, IdAlreadyActive(e.receiver.id)) && now.handlers == e.handlers
            && now.receiver.Exited?
  {
  }

  /** `receiveLoop` on a complete frame. */
  method ReceiveFrame(c: Connection, f: Frame, ghost e: Endpoint)
    returns (goOn: bool, start: Option<Message>, claimed: Option<nat>, ghost steps: seq<Step>)
    requires c.Lock() == e.lock && e.receiver.Reading? && e.taken < |e.input| && e.input[e.taken] == f
    requires UnderCeiling(f)
    modifies c
    ensures IsRun(e, steps) && After(e, steps).lock == c.Lock()
    ensures goOn <==> !After(e, steps).receiver.Exited?
    ensures claimed.Some? <==> After(e, steps).receiver.Claimed?
    ensures claimed.Some? ==> After(e, steps).receiver == Claimed(claimed.value, f.id, Message(f.key, f.payload))
    ensures After(e, steps).handlers ==
            if start.Some? then e.handlers[f.id := Gens(e, f.id) + [NewHandler(start.value)]] else e.handlers
  {
    goOn, start, claimed := true, None, None;
    steps := [ByReceiver(Receive)];
    OneStep(e, ByReceiver(Receive));
    ReceiveOutcome(e, f);
    ghost var now := Apply(e, ByReceiver(Receive));
    hide ReceiverApply, IsRun, After, AdmitIncoming, AdmitResult, Gens, NewHandler;
    if f.kind == Response {
      claimed := c.ClaimResponse(f.id);
      return;
    }
    var m := Message(f.key, f.payload);
    var admission := c.AdmitIncomingFrame(f.id, m);
    match admission
    case Discard => goOn := false;
    case Deferred =>
    case Dispatch => start := Some(m);
    case Terminal =>
      DuplicateOutcome(now);
      RunAppend(e, steps, ByReceiver(SelectReceiverCause));
      steps := steps + [ByReceiver(SelectReceiverCause)];
      var won, claims := c.SelectTerminalCause(IdAlreadyActive(f.id));
      goOn := false;
  }

  /** How a stream write went: all, part or none of the frame was accepted, with or without an error. */
  datatype WriteOutcome = Wrote | WroteThenFailed | Tore | WroteNothing

  predicate Visible(w: WriteOutcome) {
    w.Wrote? || w.WroteThenFailed?
  }

  /** A run from `e` that ends in `now`. */
  ghost predicate Leads(e: Endpoint, steps: seq<Step>, now: Endpoint) {
    IsRun(e, steps) && After(e, steps) == now
  }

  lemma {:induction false} Next(e: Endpoint, steps: seq<Step>, now: Endpoint, s: Step) returns (more: seq<Step>)
    requires Leads(e, steps, now) && Enabled(now, s)
    ensures Leads(e, more, Apply(now, s))
  {
    hide Enabled, Apply;
    RunAppend(e, steps, s);
    more := steps + [s];
  }

  lemma {:induction false} Nothing(e: Endpoint)
    ensures Leads(e, [], e)
  {
  }

  /** What a step of a handler does to its own ID. */
  lemma {:induction false} HandlerMoves(e: Endpoint, id: nat, g: nat, s: HandlerStep)
    requires HandlerEnabled(e, id, g, s)
    ensures var e' := Apply(e, ByHandler(id, g, s));
            && e'.lock == HandlerEffect(e, id, g, s).lock && g < |Gens(e', id)|
            && Gens(e', id) == Gens(e, id)[g := HandlerAfter(e, Gens(e, id)[g], s)] + Spawned(e, id, s)
  {
  }

  /** A handler that may write, through its write and the release of the gate. */
  lemma {:induction false} WriteRuns(e: Endpoint, id: nat, g: nat, w: WriteOutcome)
    returns (steps: seq<Step>, now: Endpoint)
    requires g < |Gens(e, id)| && Gens(e, id)[g].pc.HWriting? && !Gens(e, id)[g].sent && Gens(e, id)[g].result.Some?
    ensures Leads(e, steps, now) && now.lock == e.lock && |Gens(now, id)| == |Gens(e, id)|
    ensures Gens(now, id)[g].pc == if w.Wrote? then Completing else HFailing
  {
    Nothing(e);
    steps, now := [], e;
    hide Leads, Apply;
    if Visible(w) {
      HandlerMoves(now, id, g, HBecomeVisible);
      steps := Next(e, steps, now, ByHandler(id, g, HBecomeVisible));
      now := Apply(now, ByHandler(id, g, HBecomeVisible));
    }
    HandlerMoves(now, id, g, HWriteReturns(w.Wrote?, w.Tore?));
    steps := Next(e, steps, now, ByHandler(id, g, HWriteReturns(w.Wrote?, w.Tore?)));
    now := Apply(now, ByHandler(id, g, HWriteReturns(w.Wrote?, w.Tore?)));
    HandlerMoves(now, id, g, HReleaseGate);
    steps := Next(e, steps, now, ByHandler(id, g, HReleaseGate));
    now := Apply(now, ByHandler(id, g, HReleaseGate));
  }

  lemma {:induction false} Joined(e: Endpoint, a: seq<Step>, mid: Endpoint, b: seq<Step>, now: Endpoint)
    requires Leads(e, a, mid) && Leads(mid, b, now)
    ensures Leads(e, a + b, now)
    decreases |b|
  {
    hide Enabled, Apply;
    if b == [] {
      assert a + b == a;
    } else {
      var s := b[0];
      RunAppend(e, a, s);
      Joined(e, a + [s], Apply(mid, s), b[1..], now);
      assert a + b == (a + [s]) + b[1..];
    }
  }

  /** The admission of a response write: refused once the connection is over, else the ID is marked as writing. */
  lemma {:induction false} AnswerAdmitted(e: Endpoint, id: nat, g: nat) returns (now: Endpoint)
    requires g < |Gens(e, id)| && Gens(e, id)[g].pc.HHoldingGate?
    ensures Leads(e, [ByHandler(id, g, HAdmit)], now) && |Gens(now, id)| == |Gens(e, id)|
    ensures now.lock == if e.lock.cause.Some? then e.lock else MarkWriting(e.lock, id)
    ensures Gens(now, id)[g] == Gens(e, id)[g].(pc := if e.lock.cause.Some? then HRefused else HWriting)
  {
    HandlerMoves(e, id, g, HAdmit);
    OneStep(e, ByHandler(id, g, HAdmit));
    now := Apply(e, ByHandler(id, g, HAdmit));
  }

  /** `handleRequest` from the moment it holds the gate: admission, the write, and what follows it. */
  method Answer(c: Connection, id: nat, w: WriteOutcome, ghost e: Endpoint, ghost g: nat)
    returns (next: Option<Message>, ghost steps: seq<Step>, ghost now: Endpoint)
    requires c.Lock() == e.lock && g < |Gens(e, id)|
    requires Gens(e, id)[g].pc.HHoldingGate? && !Gens(e, id)[g].sent && Gens(e, id)[g].result.Some?
    modifies c
    ensures Leads(e, steps, now) && now.lock == c.Lock()
    ensures |Gens(now, id)| == |Gens(e, id)| + (if next.Some? then 1 else 0)
    ensures next.Some? ==> Gens(now, id)[|Gens(e, id)|] == NewHandler(next.value)
  {
    hide Leads, Apply;
    next := None;
    now := AnswerAdmitted(e, id, g);
    steps := [ByHandler(id, g, HAdmit)];
    if c.cause.Some? {
      HandlerMoves(now, id, g, HReleaseRefused);
      steps := Next(e, steps, now, ByHandler(id, g, HReleaseRefused));
      now := Apply(now, ByHandler(id, g, HReleaseRefused));
      return;
    }
    c.MarkIncomingWriting(id);
    ghost var wrote, after := WriteRuns(now, id, g, w);
    Joined(e, steps, now, wrote, after);
    steps, now := steps + wrote, after;
    if !w.Wrote? {
      HandlerMoves(now, id, g, HSelectWriteFailure);
      steps := Next(e, steps, now, ByHandler(id, g, HSelectWriteFailure));
      now := Apply(now, ByHandler(id, g, HSelectWriteFailure));
      var won, claims := c.SelectTerminalCause(WriteFailed);
      return;
    }
    HandlerMoves(now, id, g, HComplete);
    steps := Next(e, steps, now, ByHandler(id, g, HComplete));
    now := Apply(now, ByHandler(id, g, HComplete));
    next := c.CompleteIncomingWrite(id);
  }

  // ---------------------------------------------------------------------------
  // A call

  lemma {:induction false} CallMoves(e: Endpoint, i: nat, s: CallStep)
    requires CallEnabled(e, i, s)
    ensures var e' := Apply(e, ByCall(i, s));
            e'.lock == CallEffect(e, i, s).lock && |e'.calls| == |e.calls| && e'.calls[i] == CallAfter(e, e.calls[i], s)
  {
  }

  /** An admitted call, through its write and the release of the gate. */
  lemma {:induction false} RequestRuns(e: Endpoint, i: nat, w: WriteOutcome) returns (steps: seq<Step>, now: Endpoint)
    requires i < |e.calls| && e.calls[i].pc.Writing? && !e.calls[i].sent && e.calls[i].id.Some?
    ensures Leads(e, steps, now) && now.lock == e.lock && |now.calls| == |e.calls|
    ensures now.calls[i].id == e.calls[i].id && now.calls[i].pc == if w.Wrote? then Waiting else Failing
  {
    Nothing(e);
    steps, now := [], e;
    hide Leads, Apply;
    if Visible(w) {
      CallMoves(now, i, BecomeVisible);
      steps := Next(e, steps, now, ByCall(i, BecomeVisible));
      now := Apply(now, ByCall(i, BecomeVisible));
    }
    CallMoves(now, i, WriteReturns(w.Wrote?, w.Tore?));
    steps := Next(e, steps, now, ByCall(i, WriteReturns(w.Wrote?, w.Tore?)));
    now := Apply(now, ByCall(i, WriteReturns(w.Wrote?, w.Tore?)));
    CallMoves(now, i, ReleaseGate);
    steps := Next(e, steps, now, ByCall(i, ReleaseGate));
    now := Apply(now, ByCall(i, ReleaseGate));
  }

  /** The object's refusal is the result that the step system returns for it. */
  function ResultOf(r: Refusal): CallResult {
    match r
    case Terminated(cause) => NotReady(cause)
    case ContextError => CallResult.ContextError
    case IdsExhausted => CallResult.IdsExhausted
  }

  lemma {:induction false} CallAdmitted(e: Endpoint, i: nat) returns (now: Endpoint)
    requires i < |e.calls| && e.calls[i].pc.HoldingGate?
    ensures Leads(e, [ByCall(i, Admit)], now) && |now.calls| == |e.calls| && now.calls[i].sent == e.calls[i].sent
    ensures if Ready(e, e.calls[i]).Some? then
              now.lock == e.lock && now.calls[i].pc == Refused(Ready(e, e.calls[i]).value)
            else if e.lock.nextId >= RESPONSE_BIT then
              now.lock == e.lock && now.calls[i].pc == Refused(CallResult.IdsExhausted)
            else
              && now.lock == AdmitCall(e.lock, i)
              && now.calls[i].pc.Writing? && now.calls[i].id == Some(e.lock.nextId)
  {
    CallMoves(e, i, Admit);
    OneStep(e, ByCall(i, Admit));
    now := Apply(e, ByCall(i, Admit));
  }

  /** `Call` from the moment it holds the gate to its wait: admission, the write, and a failed write's selection. */
  method Send(c: Connection, i: nat, ctxDone: bool, w: WriteOutcome, ghost e: Endpoint)
    returns (id: nat, refused: Option<Refusal>, ghost steps: seq<Step>, ghost now: Endpoint)
    requires c.Lock() == e.lock && i < |e.calls| && ctxDone == e.calls[i].ctxDone
    requires e.calls[i].pc.HoldingGate? && !e.calls[i].sent
    modifies c
    ensures Leads(e, steps, now) && now.lock == c.Lock() && i < |now.calls|
    ensures refused.Some? ==> now.calls[i].pc == Returned(ResultOf(refused.value))
    ensures refused.None? ==> now.calls[i].pc == Waiting && now.calls[i].id == Some(id)
  {
    hide Leads, Apply;
    now := CallAdmitted(e, i);
    steps := [ByCall(i, Admit)];
    id, refused := c.AdmitOutgoing(i, ctxDone);
    if refused.Some? {
      CallMoves(now, i, ReleaseRefused);
      steps := Next(e, steps, now, ByCall(i, ReleaseRefused));
      now := Apply(now, ByCall(i, ReleaseRefused));
      return;
    }
    ghost var wrote, after := RequestRuns(now, i, w);
    Joined(e, steps, now, wrote, after);
    steps, now := steps + wrote, after;
    if !w.Wrote? {
      CallMoves(now, i, SelectWriteFailure);
      steps := Next(e, steps, now, ByCall(i, SelectWriteFailure));
      now := Apply(now, ByCall(i, SelectWriteFailure));
      var won, claims := c.SelectTerminalCause(WriteFailed);
    }
  }
}
