/**
 * One Go endpoint as a step system. Every lock-protected section is one step, every goroutine is a
 * program counter, and a write is at least two steps: the frame becomes visible, then `Write` returns.
 */
module Endpoints {
  import opened LittleEndian
  import opened Frames
  import opened Locked

  /** How an outgoing call was settled. */
  datatype Outcome = Accepted(m: Message) | Terminated(cause: Cause) | Cancelled

  datatype CallResult = Settled(outcome: Outcome) | NotReady(cause: Cause) | ContextError | EncoderError | IdsExhausted

  datatype CallPc =
    | Checking
    | Encoding
    | Rechecking
    | AwaitingGate
    | HoldingGate
    | Refused(reason: CallResult)
    | Writing
    | Wrote(ok: bool)
    | Failing
    | Waiting
    | CancelClaimed
    | AwaitingOwner
    | Returned(result: CallResult)

  /** `settled` lists every completion of the call; `sent` records that its whole frame became visible. */
  datatype Call = Call(request: Message, pc: CallPc, ctxDone: bool, id: Option<nat>, sent: bool, settled: seq<Outcome>)

  datatype HandlerPc =
    | Dispatching
    | HAwaitingGate
    | HHoldingGate
    | HRefused
    | HWriting
    | HWrote(ok: bool)
    | HFailing
    | Completing
    | Finished
    | Abandoned

  datatype Handler = Handler(request: Message, pc: HandlerPc, result: Option<Message>, sent: bool)

  datatype ReceiverPc =
    | Reading
    | Claimed(call: nat, id: nat, m: Message)
    | Rejected(call: nat, id: nat)
    | RejectSelected(call: nat)
    | Accepting(call: nat, id: nat, m: Message)
    | ReadFailing(cause: Cause)
    | Duplicate(id: nat)
    | Exited

  datatype TeardownPc = Idle | Delivering(claims: set<nat>) | Torn

  datatype Holder = CallHolder(c: nat) | HandlerHolder(id: nat, g: nat)

  /**
   * `handlers[id]` holds the handler generations of one incoming request ID in starting order.
   * `input` is every frame the peer has made visible and `taken` counts those read so far.
   * `out` is every frame that the stream has accepted in full. `broken` records that a write tore a frame.
   * `issued[i]` is the call that was given ID `i`.
   */
  datatype Endpoint = Endpoint(
    lock: State,
    gate: Option<Holder>,
    calls: seq<Call>,
    handlers: map<nat, seq<Handler>>,
    receiver: ReceiverPc,
    teardown: TeardownPc,
    input: seq<Frame>,
    taken: nat,
    out: seq<Frame>,
    broken: bool,
    writeFailed: bool,
    issued: seq<nat>)

  const START := Endpoint(INITIAL, None, [], map[], Reading, Idle, [], 0, [], false, false, [])

  const INTERNAL_EXCEPTION := Message(0x1aaec22e85996f50, [])

  function Gens(e: Endpoint, id: nat): seq<Handler> {
    if id in e.handlers then e.handlers[id] else []
  }

  // ---------------------------------------------------------------------------
  // Steps

  datatype CallStep =
    | ContextFires
    | Check
    | EncodeRequest(encoded: Option<Bytes>)
    | Recheck
    | AcquireGate
    | GateSeesTerminal
    | GateSeesContext
    | Admit
    | ReleaseRefused
    | BecomeVisible
    | WriteReturns(ok: bool, tears: bool)
    | ReleaseGate
    | SelectWriteFailure
    | ObserveDone
    | ClaimCancellation
    | CompleteCancellation

  datatype HandlerStep =
    | DispatchReturns(returned: Option<Message>)
    | HAcquireGate
    | HGateSeesTerminal
    | HAdmit
    | HReleaseRefused
    | HBecomeVisible
    | HWriteReturns(ok: bool, tears: bool)
    | HReleaseGate
    | HSelectWriteFailure
    | HComplete

  datatype ReceiverStep =
    | Receive
    | ReadFails(cause: Cause)
    | Decode(accepts: bool)
    | SelectRejection
    | CompleteRejection
    | CompleteAcceptance
    | SelectReceiverCause

  datatype OtherStep =
    | SpawnCall(key: nat)
    | Close
    | ContextEnds
    | DeliverClaim(call: nat)
    | FinishTeardown
    | PeerSends(f: Frame)

  datatype Step =
    | ByCall(c: nat, cs: CallStep)
    | ByHandler(id: nat, g: nat, hs: HandlerStep)
    | ByReceiver(rs: ReceiverStep)
    | ByOther(os: OtherStep)

  /** Terminal selection with the one cleanup owner that the winner starts. */
  function Terminate(e: Endpoint, cause: Cause): Endpoint {
    if e.lock.cause.Some? then e
    else e.(lock := SelectTerminal(e.lock, cause), teardown := Delivering(Claims(e.lock)))
  }

  function RequestFrame(e: Endpoint, call: Call): Frame
    requires call.id.Some?
  {
    Frame(Request, call.id.value, call.request.key, call.request.payload)
  }

  function ResponseFrame(id: nat, m: Message): Frame {
    Frame(Response, id, m.key, m.payload)
  }

  predicate ValidMessage(m: Message) {
    m.key < KEY_LIMIT && |m.payload| < RESPONSE_BIT
  }

  predicate HoldsGate(pc: CallPc) {
    pc.HoldingGate? || pc.Refused? || pc.Writing? || pc.Wrote?
  }

  predicate HHoldsGate(pc: HandlerPc) {
    pc.HHoldingGate? || pc.HRefused? || pc.HWriting? || pc.HWrote?
  }

  predicate CallEnabled(e: Endpoint, c: nat, s: CallStep) {
    c < |e.calls| &&
    var call := e.calls[c];
    match s
    case ContextFires => true
    case Check => call.pc.Checking?
    case EncodeRequest(encoded) => call.pc.Encoding? && (encoded.Some? ==> |encoded.value| < RESPONSE_BIT)
    case Recheck => call.pc.Rechecking?
    case AcquireGate => call.pc.AwaitingGate? && e.gate.None?
    case GateSeesTerminal => call.pc.AwaitingGate? && e.lock.cause.Some?
    case GateSeesContext => call.pc.AwaitingGate? && call.ctxDone
    case Admit => call.pc.HoldingGate?
    case ReleaseRefused => call.pc.Refused?
    case BecomeVisible => call.pc.Writing? && !call.sent && call.id.Some?
    case WriteReturns(ok, tears) => call.pc.Writing? && (ok ==> call.sent && !tears) && (tears ==> !call.sent)
    case ReleaseGate => call.pc.Wrote?
    case SelectWriteFailure => call.pc.Failing?
    case ObserveDone => (call.pc.Waiting? || call.pc.AwaitingOwner?) && call.settled != []
    case ClaimCancellation => call.pc.Waiting? && call.ctxDone && call.id.Some?
    case CompleteCancellation => call.pc.CancelClaimed?
  }

  /** `callReadyLocked`. */
  function Ready(e: Endpoint, call: Call): Option<CallResult> {
    if e.lock.cause.Some? then Some(NotReady(e.lock.cause.value))
    else if call.ctxDone then Some(ContextError) else None
  }

  function CallAfter(e: Endpoint, call: Call, s: CallStep): Call
    requires s == ObserveDone ==> call.settled != []
  {
    match s
    case ContextFires => call.(ctxDone := true)
    case Check =>
      var r := Ready(e, call);
      if r.Some? then call.(pc := Returned(r.value)) else call.(pc := Encoding)
    case EncodeRequest(encoded) =>
      if encoded.None? then call.(pc := Returned(EncoderError))
      else call.(pc := Rechecking, request := call.request.(payload := encoded.value))
    case Recheck =>
      var r := Ready(e, call);
      if r.Some? then call.(pc := Returned(r.value)) else call.(pc := AwaitingGate)
    case AcquireGate => call.(pc := HoldingGate)
    case GateSeesTerminal => if e.lock.cause.Some? then call.(pc := Returned(NotReady(e.lock.cause.value))) else call
    case GateSeesContext => call.(pc := Returned(ContextError))
    case Admit =>
      var r := Ready(e, call);
      if r.Some? then call.(pc := Refused(r.value))
      else if e.lock.nextId >= RESPONSE_BIT then call.(pc := Refused(IdsExhausted))
      else call.(pc := Writing, id := Some(e.lock.nextId))
    case ReleaseRefused => if call.pc.Refused? then call.(pc := Returned(call.pc.reason)) else call
    case BecomeVisible => call.(sent := true)
    case WriteReturns(ok, _) => call.(pc := Wrote(ok))
    case ReleaseGate => call.(pc := if call.pc == Wrote(true) then Waiting else Failing)
    case SelectWriteFailure => call.(pc := Waiting)
    case ObserveDone => call.(pc := Returned(Settled(call.settled[0])))
    case ClaimCancellation =>
      if call.id.Some? && call.id.value in e.lock.pending then call.(pc := CancelClaimed)
          else call.(pc := AwaitingOwner)
    case CompleteCancellation => call.(pc := Returned(Settled(Cancelled)), settled := call.settled + [Cancelled])
  }

  /** The effect of a call step on everything outside the call itself. */
  function CallEffect(e: Endpoint, c: nat, s: CallStep): Endpoint
    requires CallEnabled(e, c, s)
  {
    var call := e.calls[c];
    match s
    case AcquireGate => e.(gate := Some(CallHolder(c)))
    case Admit =>
      if Ready(e, call).Some? || e.lock.nextId >= RESPONSE_BIT then e
      else e.(lock := AdmitCall(e.lock, c), issued := e.issued + [c])
    case ReleaseRefused => e.(gate := None)
    case BecomeVisible => e.(out := e.out + [RequestFrame(e, call)])
    case WriteReturns(ok, tears) => e.(broken := e.broken || tears, writeFailed := e.writeFailed || !ok)
    case ReleaseGate => e.(gate := None)
    case SelectWriteFailure => Terminate(e, WriteFailed)
    case ClaimCancellation => e.(lock := RemovePending(e.lock, call.id.value))
    case _ => e
  }

  function CallApply(e: Endpoint, c: nat, s: CallStep): Endpoint
    requires CallEnabled(e, c, s)
  {
    CallEffect(e, c, s).(calls := e.calls[c := CallAfter(e, e.calls[c], s)])
  }

  predicate HandlerEnabled(e: Endpoint, id: nat, g: nat, s: HandlerStep) {
    g < |Gens(e, id)| &&
    var h := Gens(e, id)[g];
    match s
    case DispatchReturns(returned) => h.pc.Dispatching? && (returned.Some? ==> ValidMessage(returned.value))
    case HAcquireGate => h.pc.HAwaitingGate? && e.gate.None?
    case HGateSeesTerminal => h.pc.HAwaitingGate? && e.lock.cause.Some?
    case HAdmit => h.pc.HHoldingGate?
    case HReleaseRefused => h.pc.HRefused?
    case HBecomeVisible => h.pc.HWriting? && !h.sent && h.result.Some?
    case HWriteReturns(ok, tears) => h.pc.HWriting? && (ok ==> h.sent && !tears) && (tears ==> !h.sent)
    case HReleaseGate => h.pc.HWrote?
    case HSelectWriteFailure => h.pc.HFailing?
    case HComplete => h.pc.Completing?
  }

  /** One recovery around the dispatch maps an escaped panic to `internal_exception`. */
  function HandlerAfter(e: Endpoint, h: Handler, s: HandlerStep): Handler {
    match s
    case DispatchReturns(returned) =>
      h.(pc := HAwaitingGate, result := Some(if returned.Some? then returned.value else INTERNAL_EXCEPTION))
    case HAcquireGate => h.(pc := HHoldingGate)
    case HGateSeesTerminal => h.(pc := Abandoned)
    case HAdmit => h.(pc := if e.lock.cause.Some? then HRefused else HWriting)
    case HReleaseRefused => h.(pc := Abandoned)
    case HBecomeVisible => h.(sent := true)
    case HWriteReturns(ok, _) => h.(pc := HWrote(ok))
    case HReleaseGate => h.(pc := if h.pc == HWrote(true) then Completing else HFailing)
    case HSelectWriteFailure => h.(pc := Abandoned)
    case HComplete => h.(pc := Finished)
  }

  function HandlerEffect(e: Endpoint, id: nat, g: nat, s: HandlerStep): Endpoint
    requires HandlerEnabled(e, id, g, s)
  {
    match s
    case HAcquireGate => e.(gate := Some(HandlerHolder(id, g)))
    case HAdmit => if e.lock.cause.Some? then e else e.(lock := MarkWriting(e.lock, id))
    case HReleaseRefused => e.(gate := None)
    case HBecomeVisible => e.(out := e.out + [ResponseFrame(id, Gens(e, id)[g].result.value)])
    case HWriteReturns(ok, tears) => e.(broken := e.broken || tears, writeFailed := e.writeFailed || !ok)
    case HReleaseGate => e.(gate := None)
    case HSelectWriteFailure => Terminate(e, WriteFailed)
    case HComplete => e.(lock := CompleteWrite(e.lock, id))
    case _ => e
  }

  function NewHandler(m: Message): Handler {
    Handler(m, Dispatching, None, false)
  }

  /** A completed write that promotes a deferred request starts the next generation. */
  function Spawned(e: Endpoint, id: nat, s: HandlerStep): seq<Handler> {
    if s == HComplete && Promoted(e.lock, id).Some? then [NewHandler(Promoted(e.lock, id).value)] else []
  }

  function HandlerApply(e: Endpoint, id: nat, g: nat, s: HandlerStep): Endpoint
    requires HandlerEnabled(e, id, g, s)
  {
    var gens := Gens(e, id);
    HandlerEffect(e, id, g, s).(
    handlers := e.handlers[id := gens[g := HandlerAfter(e, gens[g], s)] + Spawned(e, id, s)])
  }

  predicate ReceiverEnabled(e: Endpoint, s: ReceiverStep) {
    match s
    case Receive => e.receiver.Reading? && e.taken < |e.input|
    case ReadFails(cause) => e.receiver.Reading? && (cause == ReadFailed || cause == FrameTooLong)
    case Decode(_) => e.receiver.Claimed?
    case SelectRejection => e.receiver.Rejected?
    case CompleteRejection => e.receiver.RejectSelected? && e.lock.cause.Some? && e.receiver.call < |e.calls|
    case CompleteAcceptance => e.receiver.Accepting? && e.receiver.call < |e.calls|
    case SelectReceiverCause => e.receiver.ReadFailing? || e.receiver.Duplicate?
  }

  function Complete(e: Endpoint, c: nat, o: Outcome): Endpoint
    requires c < |e.calls|
  {
    e.(calls := e.calls[c := e.calls[c].(settled := e.calls[c].settled + [o])])
  }

  /** `admitIncoming` and the receive loop's reaction to it. */
  function ReceiveRequest(e: Endpoint, f: Frame): Endpoint {
    var m := Message(f.key, f.payload);
    var e' := e.(taken := e.taken + 1, lock := AdmitIncoming(e.lock, f.id, m));
    match AdmitResult(e.lock, f.id)
    case Discard => e'.(receiver := Exited)
    case Terminal => e'.(receiver := Duplicate(f.id))
    case Deferred => e'
    case Dispatch => e'.(handlers := e.handlers[f.id := Gens(e, f.id) + [NewHandler(m)]])
  }

  function ReceiveResponse(e: Endpoint, f: Frame): Endpoint {
    var e' := e.(taken := e.taken + 1);
    if f.id !in e.lock.pending then e'
    else e'.(lock := RemovePending(e.lock, f.id),
             receiver := Claimed(e.lock.pending[f.id], f.id, Message(f.key, f.payload)))
  }

  function ReceiverApply(e: Endpoint, s: ReceiverStep): Endpoint
    requires ReceiverEnabled(e, s)
  {
    match s
    case Receive =>
      var f := e.input[e.taken];
      if |f.payload| > MAX_PAYLOAD then e.(receiver := ReadFailing(FrameTooLong))
      else if f.kind == Request then ReceiveRequest(e, f) else ReceiveResponse(e, f)
    case ReadFails(cause) => e.(receiver := ReadFailing(cause))
    case Decode(accepts) =>
      var r := e.receiver;
      e.(receiver := if accepts then Accepting(r.call, r.id, r.m) else Rejected(r.call, r.id))
    case SelectRejection => Terminate(e, BadResponse(e.receiver.id)).(receiver := RejectSelected(e.receiver.call))
    case CompleteRejection => Complete(e, e.receiver.call, Terminated(e.lock.cause.value)).(receiver := Reading)
    case CompleteAcceptance => Complete(e, e.receiver.call, Accepted(e.receiver.m)).(receiver := Reading)
    case SelectReceiverCause =>
      Terminate(e, if e.receiver.ReadFailing? then e.receiver.cause
          else IdAlreadyActive(e.receiver.id)).(receiver := Exited)
  }

  predicate OtherEnabled(e: Endpoint, s: OtherStep) {
    match s
    case SpawnCall(key) => 0 < key < KEY_LIMIT
    case DeliverClaim(c) => e.teardown.Delivering? && c in e.teardown.claims && c < |e.calls| && e.lock.cause.Some?
    case FinishTeardown => e.teardown == Delivering({})
    case PeerSends(f) => Valid(f)
    case _ => true
  }

  function OtherApply(e: Endpoint, s: OtherStep): Endpoint
    requires OtherEnabled(e, s)
  {
    match s
    case SpawnCall(key) => e.(calls := e.calls + [Call(Message(key, []), Checking, false, None, false, [])])
    case Close => Terminate(e, Closed)
    case ContextEnds => Terminate(e, ContextDone)
    case DeliverClaim(c) =>
      Complete(e, c, Terminated(e.lock.cause.value)).(teardown := Delivering(e.teardown.claims - {c}))
    case FinishTeardown => e.(teardown := Torn)
    case PeerSends(f) => e.(input := e.input + [f])
  }

  predicate Enabled(e: Endpoint, s: Step) {
    match s
    case ByCall(c, cs) => CallEnabled(e, c, cs)
    case ByHandler(id, g, hs) => HandlerEnabled(e, id, g, hs)
    case ByReceiver(rs) => ReceiverEnabled(e, rs)
    case ByOther(os) => OtherEnabled(e, os)
  }

  function Apply(e: Endpoint, s: Step): Endpoint
    requires Enabled(e, s)
  {
    match s
    case ByCall(c, cs) => CallApply(e, c, cs)
    case ByHandler(id, g, hs) => HandlerApply(e, id, g, hs)
    case ByReceiver(rs) => ReceiverApply(e, rs)
    case ByOther(os) => OtherApply(e, os)
  }

  /** A run: every step is enabled where it is taken. */
  predicate IsRun(e: Endpoint, steps: seq<Step>)
    decreases |steps|
  {
    steps == [] || (Enabled(e, steps[0]) && IsRun(Apply(e, steps[0]), steps[1..]))
  }

  function After(e: Endpoint, steps: seq<Step>): Endpoint
    requires IsRun(e, steps)
    decreases |steps|
  {
    if steps == [] then e else After(Apply(e, steps[0]), steps[1..])
  }

  lemma {:induction false} RunAppend(e: Endpoint, steps: seq<Step>, s: Step)
    requires IsRun(e, steps) && Enabled(After(e, steps), s)
    ensures IsRun(e, steps + [s]) && After(e, steps + [s]) == Apply(After(e, steps), s)
    decreases |steps|
  {
    hide Enabled, Apply;
    if steps == [] {
      assert steps + [s] == [s] && [s][1..] == [];
      OneStep(e, s);
    } else {
      RunAppend(Apply(e, steps[0]), steps[1..], s);
      assert (steps + [s])[0] == steps[0] && (steps + [s])[1..] == steps[1..] + [s];
    }
  }

  lemma {:induction false} OneStep(e: Endpoint, s: Step)
    requires Enabled(e, s)
    ensures IsRun(e, [s]) && After(e, [s]) == Apply(e, s)
  {
    hide Enabled, Apply;
    assert [s][1..] == [];
  }

  // ---------------------------------------------------------------------------
  // What each kind of goroutine cannot touch

  lemma {:induction false} CallTouches(e: Endpoint, c: nat, s: CallStep)
    requires CallEnabled(e, c, s)
    ensures var e' := CallApply(e, c, s);
            && e'.handlers == e.handlers && e'.receiver == e.receiver && e'.input == e.input && e'.taken == e.taken
            && |e'.calls| == |e.calls| && e.out <= e'.out
  {
    CallShape(e, c, s);
    hide CallApply;
  }

  lemma {:induction false} HandlerTouches(e: Endpoint, id: nat, g: nat, s: HandlerStep)
    requires HandlerEnabled(e, id, g, s)
    ensures var e' := HandlerApply(e, id, g, s);
            && e'.calls == e.calls && e'.receiver == e.receiver && e'.input == e.input && e'.taken == e.taken
            && e'.issued == e.issued && e.out <= e'.out
  {
  }

  function GensIn(hs: map<nat, seq<Handler>>, id: nat): seq<Handler> {
    if id in hs then hs[id] else []
  }

  predicate Started(was: seq<Handler>, now: seq<Handler>) {
    was <= now && forall k :: |was| <= k < |now| ==> now[k].pc.Dispatching?
  }

  /** The handler generations of every ID stay, and those that are new have just started. */
  ghost predicate HandlersGrow(a: map<nat, seq<Handler>>, b: map<nat, seq<Handler>>) {
    forall id: nat :: Started(GensIn(a, id), GensIn(b, id))
  }

  /** Calls change by nothing but what settled them. */
  ghost predicate OnlySettled(a: seq<Call>, b: seq<Call>) {
    |a| == |b| && forall c :: 0 <= c < |a| ==> b[c] == a[c].(settled := b[c].settled)
  }

  lemma {:induction false} RequestShape(e: Endpoint, f: Frame)
    ensures var e' := ReceiveRequest(e, f);
            && e' == e.(taken := e.taken + 1, lock := e'.lock, receiver := e'.receiver, handlers := e'.handlers)
            && e'.lock == e.lock.(incoming := e'.lock.incoming)
            && (e'.receiver == e.receiver || e'.receiver.Exited? || e'.receiver.Duplicate?)
            && HandlersGrow(e.handlers, e'.handlers)
  {
    OneStarts(e, f.id, Message(f.key, f.payload));
    NoneNew(e);
    hide HandlersGrow;
  }

  lemma {:induction false} OneStarts(e: Endpoint, id: nat, m: Message)
    ensures HandlersGrow(e.handlers, e.handlers[id := Gens(e, id) + [NewHandler(m)]])
  {
  }

  lemma {:induction false} GrowMeans(e: Endpoint, e': Endpoint, id: nat)
    requires HandlersGrow(e.handlers, e'.handlers)
    ensures Gens(e, id) <= Gens(e', id)
    ensures forall k :: |Gens(e, id)| <= k < |Gens(e', id)| ==> Gens(e', id)[k].pc.Dispatching?
  {
    assert Started(GensIn(e.handlers, id), GensIn(e'.handlers, id));
  }

  lemma {:induction false} ResponseShape(e: Endpoint, f: Frame)
    ensures var e' := ReceiveResponse(e, f);
            && e' == e.(taken := e.taken + 1, lock := e'.lock, receiver := e'.receiver)
            && e'.lock == e.lock.(pending := e'.lock.pending)
            && (e'.receiver == e.receiver || e'.receiver.Claimed?)
  {
  }

  lemma {:induction false} CompleteShape(e: Endpoint, c: nat, o: Outcome)
    requires c < |e.calls|
    ensures Complete(e, c, o) == e.(calls := Complete(e, c, o).calls) && OnlySettled(e.calls, Complete(e, c, o).calls)
  {
  }

  lemma {:induction false} TerminateShape(e: Endpoint, cause: Cause)
    ensures var e' := Terminate(e, cause);
            e' == e.(lock := e'.lock, teardown := e'.teardown) && e'.lock.cause.Some?
            && (e'.lock.cause == e.lock.cause || e'.lock.cause == Some(cause))
  {
  }

  lemma {:induction false} NoneNew(e: Endpoint)
    ensures HandlersGrow(e.handlers, e.handlers) && OnlySettled(e.calls, e.calls)
  {
  }

  /** The receive loop never touches the output, the gate or the IDs, and reads at most one frame. */
  lemma {:induction false} ReceiverShape(e: Endpoint, s: ReceiverStep)
    requires ReceiverEnabled(e, s)
    ensures var e' := ReceiverApply(e, s);
            && e' == e.(taken := e'.taken, lock := e'.lock, receiver := e'.receiver, handlers := e'.handlers,
                        calls := e'.calls, teardown := e'.teardown)
            && (e'.taken == e.taken || (s.Receive? && e'.taken == e.taken + 1))
            && HandlersGrow(e.handlers, e'.handlers) && OnlySettled(e.calls, e'.calls)
  {
    hide ReceiveRequest, ReceiveResponse, Complete, Terminate, HandlersGrow, OnlySettled;
    NoneNew(e);
    match s
    case Receive =>
      RequestShape(e, e.input[e.taken]);
      ResponseShape(e, e.input[e.taken]);
    case SelectRejection => TerminateShape(e, BadResponse(e.receiver.id));
    case CompleteRejection => CompleteShape(e, e.receiver.call, Terminated(e.lock.cause.value));
    case CompleteAcceptance => CompleteShape(e, e.receiver.call, Accepted(e.receiver.m));
    case SelectReceiverCause =>
      TerminateShape(e, if e.receiver.ReadFailing? then e.receiver.cause else IdAlreadyActive(e.receiver.id));
    case _ =>
  }

  lemma {:induction false} ReceiverTouches(e: Endpoint, s: ReceiverStep)
    requires ReceiverEnabled(e, s)
    ensures var e' := ReceiverApply(e, s);
            && e'.out == e.out && e'.issued == e.issued && e'.gate == e.gate && e'.input == e.input
            && e.taken <= e'.taken && (e'.taken > e.taken ==> e'.taken <= |e.input|)
            && |e'.calls| == |e.calls|
  {
    ReceiverShape(e, s);
    hide ReceiverApply;
  }

  lemma {:induction false} OtherShape(e: Endpoint, s: OtherStep)
    requires OtherEnabled(e, s)
    ensures var e' := OtherApply(e, s);
            && e' == e.(lock := e'.lock, teardown := e'.teardown, calls := e'.calls, input := e'.input)
            && e'.input == (if s.PeerSends? then e.input + [s.f] else e.input) && |e.calls| <= |e'.calls|
            && OnlySettled(e.calls, e'.calls[..|e.calls|])
            && (forall c :: |e.calls| <= c < |e'.calls| ==>
                  e'.calls[c].settled == [] && !e'.calls[c].sent && e'.calls[c].pc.Checking?)
            && (e'.lock.cause == e.lock.cause || e'.lock.cause == Some(Closed) || e'.lock.cause == Some(ContextDone))
  {
    hide Terminate, Complete, OnlySettled;
    NoneNew(e);
    assert e.calls[..|e.calls|] == e.calls;
    match s
    case SpawnCall(key) => assert OtherApply(e, s).calls[..|e.calls|] == e.calls;
    case Close => TerminateShape(e, Closed);
    case ContextEnds => TerminateShape(e, ContextDone);
    case DeliverClaim(c) =>
      CompleteShape(e, c, Terminated(e.lock.cause.value));
      CompleteCount(e, c, Terminated(e.lock.cause.value));
    case _ =>
  }

  lemma {:induction false} CompleteCount(e: Endpoint, c: nat, o: Outcome)
    requires c < |e.calls|
    ensures |Complete(e, c, o).calls| == |e.calls| && Complete(e, c, o).calls[..|e.calls|] == Complete(e, c, o).calls
  {
  }

  /** Every call but `c` stays, and nothing of the handlers or the receive loop changes. */
  lemma {:induction false} CallShape(e: Endpoint, c: nat, s: CallStep)
    requires CallEnabled(e, c, s)
    ensures var e' := CallApply(e, c, s);
            && e' == e.(lock := e'.lock, teardown := e'.teardown, gate := e'.gate, calls := e'.calls, out := e'.out,
                        issued := e'.issued, broken := e'.broken, writeFailed := e'.writeFailed)
            && e'.calls == e.calls[c := CallAfter(e, e.calls[c], s)] && e.out <= e'.out
            && (e'.lock.cause == e.lock.cause || e'.lock.cause == Some(WriteFailed))
  {
    hide CallAfter;
  }

  lemma {:induction false} OtherTouches(e: Endpoint, s: OtherStep)
    requires OtherEnabled(e, s)
    ensures var e' := OtherApply(e, s);
            && e'.out == e.out && e'.issued == e.issued && e'.gate == e.gate && e'.taken == e.taken
            && e'.handlers == e.handlers && e'.receiver == e.receiver
            && e'.input == (if s.PeerSends? then e.input + [s.f] else e.input)
            && |e.calls| <= |e'.calls|
            && (forall c :: |e.calls| <= c < |e'.calls| ==> e'.calls[c].settled == [] && !e'.calls[c].sent)
  {
    OtherShape(e, s);
    hide OtherApply;
  }
}
