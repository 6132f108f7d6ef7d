/**
 * What an endpoint puts on the wire: the gate admits one writer at a time, every issued ID labels the request of
 * the one call it was issued to, and until a write fails the request IDs are 0, 1, 2, ... without gap or repeat.
 */
module WireOrder {
  import opened LittleEndian
  import opened Frames
  import opened Locked
  import opened Endpoints
  import opened IncomingRequests
  import Calls = OutgoingCalls

  ghost predicate GateOk(e: Endpoint) {
    && (forall c: nat :: c < |e.calls| ==> (HoldsGate(e.calls[c].pc) <==> e.gate == Some(CallHolder(c))))
    && (e.gate.Some? && e.gate.value.CallHolder? ==> e.gate.value.c < |e.calls|)
    && (forall id: nat, g: nat :: g < |Gens(e, id)| ==>
          (HHoldsGate(Gens(e, id)[g].pc) <==> e.gate == Some(HandlerHolder(id, g))))
    && (e.gate.Some? && e.gate.value.HandlerHolder? ==> e.gate.value.g < |Gens(e, e.gate.value.id)|)
  }

  lemma {:induction false} CallGateEffect(e: Endpoint, c: nat, s: CallStep)
    requires CallEnabled(e, c, s)
    ensures CallApply(e, c, s).gate ==
            if s == AcquireGate then Some(CallHolder(c))
            else if s == ReleaseGate || s == ReleaseRefused then None else e.gate
  {
    hide CallAfter;
  }

  lemma {:induction false} CallHolds(e: Endpoint, c: nat, s: CallStep)
    requires CallEnabled(e, c, s)
    ensures var call := e.calls[c]; var now := CallAfter(e, call, s);
            if s == AcquireGate then HoldsGate(now.pc)
            else if s == ReleaseGate || s == ReleaseRefused then HoldsGate(call.pc) && !HoldsGate(now.pc)
            else HoldsGate(now.pc) <==> HoldsGate(call.pc)
  {
  }

  lemma {:induction false} CallGateMove(e: Endpoint, c: nat, s: CallStep)
    requires CallEnabled(e, c, s)
    ensures var e' := CallApply(e, c, s);
            if s == AcquireGate then e.gate.None? && e'.gate == Some(CallHolder(c)) && HoldsGate(e'.calls[c].pc)
            else if s == ReleaseGate || s == ReleaseRefused then
              e'.gate.None? && HoldsGate(e.calls[c].pc) && !HoldsGate(e'.calls[c].pc)
            else e'.gate == e.gate && (HoldsGate(e'.calls[c].pc) <==> HoldsGate(e.calls[c].pc))
  {
    CallGateEffect(e, c, s);
    CallShape(e, c, s);
    CallHolds(e, c, s);
    hide CallApply, CallEffect, CallAfter, HoldsGate;
  }

  lemma {:induction false} CallGate(e: Endpoint, c: nat, s: CallStep)
    requires GateOk(e) && CallEnabled(e, c, s)
    ensures GateOk(CallApply(e, c, s))
  {
    CallGateMove(e, c, s);
    CallShape(e, c, s);
    hide CallApply, CallAfter, CallEnabled, HoldsGate, HHoldsGate;
    var e' := CallApply(e, c, s);
    forall id: nat, g: nat | g < |Gens(e', id)|
      ensures HHoldsGate(Gens(e', id)[g].pc) <==> e'.gate == Some(HandlerHolder(id, g))
    {
      assert HHoldsGate(Gens(e, id)[g].pc) <==> e.gate == Some(HandlerHolder(id, g));
    }
  }

  lemma {:induction false} HandlerGate(e: Endpoint, id: nat, g: nat, s: HandlerStep)
    requires GateOk(e) && HandlerEnabled(e, id, g, s)
    ensures GateOk(HandlerApply(e, id, g, s))
  {
    hide HandlerApply, HandlerAfter, HandlerEnabled;
    var e' := HandlerApply(e, id, g, s);
    HandlerGateMove(e, id, g, s);
    forall i: nat, k: nat | k < |Gens(e', i)|
      ensures HHoldsGate(Gens(e', i)[k].pc) <==> e'.gate == Some(HandlerHolder(i, k))
    {
      if k < |Gens(e, i)| {
        assert HHoldsGate(Gens(e, i)[k].pc) <==> e.gate == Some(HandlerHolder(i, k));
      }
    }
  }

  /** A handler takes the gate when it is free and gives it back; a new generation does not hold it. */
  lemma {:induction false} HandlerGateMove(e: Endpoint, id: nat, g: nat, s: HandlerStep)
    requires HandlerEnabled(e, id, g, s)
    ensures var e' := HandlerApply(e, id, g, s);
            && e'.calls == e.calls
            && g < |Gens(e, id)| <= |Gens(e', id)|
            && (forall i: nat :: i != id ==> Gens(e', i) == Gens(e, i))
            && (forall k :: 0 <= k < |Gens(e, id)| && k != g ==> Gens(e', id)[k] == Gens(e, id)[k])
            && (forall k :: |Gens(e, id)| <= k < |Gens(e', id)| ==> Gens(e', id)[k].pc.Dispatching?)
            && (if s == HAcquireGate then e.gate.None? && e'.gate == Some(HandlerHolder(id, g))
               && HHoldsGate(Gens(e', id)[g].pc)
                else if s == HReleaseGate || s == HReleaseRefused then
                  e'.gate.None? && HHoldsGate(Gens(e, id)[g].pc) && !HHoldsGate(Gens(e', id)[g].pc)
                else e'.gate == e.gate && (HHoldsGate(Gens(e', id)[g].pc) <==> HHoldsGate(Gens(e, id)[g].pc)))
  {
    var e' := HandlerApply(e, id, g, s);
    var gens := Gens(e, id);
    assert Gens(e', id) == gens[g := HandlerAfter(e, gens[g], s)] + Spawned(e, id, s);
  }

  lemma {:induction false} ReceiverGate(e: Endpoint, s: ReceiverStep)
    requires GateOk(e) && ReceiverEnabled(e, s)
    ensures GateOk(ReceiverApply(e, s))
  {
    hide ReceiverApply, ReceiverEnabled;
    var e' := ReceiverApply(e, s);
    ReceiverGateFrame(e, s);
    forall i: nat, k: nat | k < |Gens(e', i)|
      ensures HHoldsGate(Gens(e', i)[k].pc) <==> e'.gate == Some(HandlerHolder(i, k))
    {
      if k < |Gens(e, i)| {
        assert HHoldsGate(Gens(e, i)[k].pc) <==> e.gate == Some(HandlerHolder(i, k));
      }
    }
  }

  lemma {:induction false} ReceiverGateFrame(e: Endpoint, s: ReceiverStep)
    requires ReceiverEnabled(e, s)
    ensures var e' := ReceiverApply(e, s);
            && e'.gate == e.gate && |e'.calls| == |e.calls|
            && (forall c: nat :: c < |e.calls| ==> e'.calls[c].pc == e.calls[c].pc)
            && (forall i: nat :: Gens(e, i) <= Gens(e', i))
            && (forall i: nat, k :: |Gens(e, i)| <= k < |Gens(e', i)| ==> Gens(e', i)[k].pc.Dispatching?)
  {
    ReceiverShape(e, s);
    var e' := ReceiverApply(e, s);
    assert forall c: nat :: c < |e.calls| ==> e'.calls[c] == e.calls[c].(settled := e'.calls[c].settled);
    hide ReceiverApply, HandlersGrow, OnlySettled, Gens;
    forall i: nat
      ensures Gens(e, i) <= Gens(e', i)
      ensures forall k :: |Gens(e, i)| <= k < |Gens(e', i)| ==> Gens(e', i)[k].pc.Dispatching?
    {
      GrowMeans(e, e', i);
    }
  }

  lemma {:induction false} OtherGate(e: Endpoint, s: OtherStep)
    requires GateOk(e) && OtherEnabled(e, s)
    ensures GateOk(OtherApply(e, s))
  {
    var e' := OtherApply(e, s);
    assert e'.handlers == e.handlers && e'.gate == e.gate;
    forall i: nat, k: nat | k < |Gens(e', i)|
      ensures HHoldsGate(Gens(e', i)[k].pc) <==> e'.gate == Some(HandlerHolder(i, k))
    {
      assert HHoldsGate(Gens(e, i)[k].pc) <==> e.gate == Some(HandlerHolder(i, k));
    }
  }

  /** Exactly one frame write proceeds at a time, in every interleaving. */
  lemma {:induction false} StepKeepsGate(e: Endpoint, s: Step)
    requires GateOk(e) && Enabled(e, s)
    ensures GateOk(Apply(e, s))
  {
    hide GateOk, CallApply, HandlerApply, ReceiverApply, OtherApply;
    match s
    case ByCall(c, cs) => CallGate(e, c, cs);
    case ByHandler(id, g, hs) => HandlerGate(e, id, g, hs);
    case ByReceiver(rs) => ReceiverGate(e, rs);
    case ByOther(os) => OtherGate(e, os);
  }

  // ---------------------------------------------------------------------------
  // Requests on the wire

  /** The request of an issued ID is on the wire exactly when its call's frame became visible, and only once. */
  predicate RequestOk(e: Endpoint, id: nat) {
    Of(e.out, Request, id) ==
    if id < |e.issued| && e.issued[id] < |e.calls| && e.calls[e.issued[id]].sent
    then [e.calls[e.issued[id]].request] else []
  }

  ghost predicate RequestsOk(e: Endpoint) {
    && (forall id: nat :: RequestOk(e, id))
    && (forall c :: 0 <= c < |e.calls| ==> (e.calls[c].sent ==> e.calls[c].id.Some?))
  }

  /** Only admission and visibility concern the requests on the wire. */
  lemma {:induction false} CallFrame(e: Endpoint, c: nat, s: CallStep)
    requires CallEnabled(e, c, s) && !s.Admit? && !s.BecomeVisible?
    ensures var e' := CallApply(e, c, s);
            && e'.out == e.out && e'.issued == e.issued && |e'.calls| == |e.calls|
            && e'.calls[c].sent == e.calls[c].sent && e'.calls[c].id == e.calls[c].id
            && (!e.calls[c].pc.Encoding? ==> e'.calls[c].request == e.calls[c].request)
            && (forall d :: 0 <= d < |e.calls| && d != c ==> e'.calls[d] == e.calls[d])
  {
  }

  lemma {:induction false} AdmitRequests(e: Endpoint, c: nat)
    requires Calls.Inv(e) && RequestsOk(e) && CallEnabled(e, c, Admit)
    ensures RequestsOk(CallApply(e, c, Admit))
  {
    hide Of;
    var e' := CallApply(e, c, Admit);
    assert Calls.OwnerOk(e, c);
    forall id: nat
      ensures RequestOk(e', id)
    {
      assert RequestOk(e, id);
    }
  }

  lemma {:induction false} VisibleRequests(e: Endpoint, c: nat)
    requires Calls.Inv(e) && RequestsOk(e) && CallEnabled(e, c, BecomeVisible)
    ensures RequestsOk(CallApply(e, c, BecomeVisible))
  {
    hide Of;
    var e' := CallApply(e, c, BecomeVisible);
    forall id: nat
      ensures RequestOk(e', id)
    {
      assert RequestOk(e, id);
      OfSnoc(e.out, RequestFrame(e, e.calls[c]), Request, id);
    }
  }

  lemma {:induction false} QuietRequests(e: Endpoint, c: nat, s: CallStep)
    requires Calls.Inv(e) && RequestsOk(e) && CallEnabled(e, c, s) && !s.Admit? && !s.BecomeVisible?
    ensures RequestsOk(CallApply(e, c, s))
  {
    hide Of, CallApply;
    var e' := CallApply(e, c, s);
    CallFrame(e, c, s);
    assert Calls.OwnerOk(e, c);
    hide CallEnabled;
    assert Calls.CallOk(e.calls[c]);
    forall id: nat
      ensures RequestOk(e', id)
    {
      assert RequestOk(e, id);
    }
  }

  lemma {:induction false} CallRequests(e: Endpoint, c: nat, s: CallStep)
    requires Calls.Inv(e) && RequestsOk(e) && CallEnabled(e, c, s)
    ensures RequestsOk(CallApply(e, c, s))
  {
    match s
    case Admit => AdmitRequests(e, c);
    case BecomeVisible => VisibleRequests(e, c);
    case _ => QuietRequests(e, c, s);
  }

  lemma {:induction false} HandlerRequests(e: Endpoint, i: nat, g: nat, s: HandlerStep)
    requires RequestsOk(e) && HandlerEnabled(e, i, g, s)
    ensures RequestsOk(HandlerApply(e, i, g, s))
  {
    hide Of;
    var e' := HandlerApply(e, i, g, s);
    assert e'.calls == e.calls && e'.issued == e.issued;
    forall id: nat
      ensures RequestOk(e', id)
    {
      assert RequestOk(e, id);
      if s.HBecomeVisible? {
        OfSnoc(e.out, ResponseFrame(i, Gens(e, i)[g].result.value), Request, id);
      }
    }
  }

  lemma {:induction false} RestRequests(e: Endpoint, s: Step)
    requires RequestsOk(e) && Enabled(e, s) && (s.ByReceiver? || s.ByOther?)
    ensures RequestsOk(Apply(e, s))
  {
    hide Of, Apply;
    var e' := Apply(e, s);
    RestFrame(e, s);
    forall id: nat
      ensures RequestOk(e', id)
    {
      assert RequestOk(e, id);
    }
  }

  lemma {:induction false} RestFrame(e: Endpoint, s: Step)
    requires Enabled(e, s) && (s.ByReceiver? || s.ByOther?)
    ensures var e' := Apply(e, s);
            && e'.out == e.out && e'.issued == e.issued && |e.calls| <= |e'.calls|
            && e'.writeFailed == e.writeFailed && e'.gate == e.gate
            && (forall c :: 0 <= c < |e.calls| ==>
                  e'.calls[c] == e.calls[c].(settled := e'.calls[c].settled))
            && (forall c :: |e.calls| <= c < |e'.calls| ==> !e'.calls[c].sent)
  {
    match s
    case ByReceiver(rs) =>
      ReceiverRestFrame(e, rs);
      hide ReceiverApply;
    case ByOther(os) =>
      OtherShape(e, os);
      var calls := Apply(e, s).calls;
      assert forall c :: 0 <= c < |e.calls| ==> calls[..|e.calls|][c] == calls[c];
      hide OtherApply;
  }

  lemma {:induction false} ReceiverRestFrame(e: Endpoint, s: ReceiverStep)
    requires ReceiverEnabled(e, s)
    ensures var e' := ReceiverApply(e, s);
            && e'.out == e.out && e'.issued == e.issued && |e.calls| == |e'.calls|
            && e'.writeFailed == e.writeFailed && e'.gate == e.gate
            && (forall c :: 0 <= c < |e.calls| ==>
                  e'.calls[c] == e.calls[c].(settled := e'.calls[c].settled))
  {
    ReceiverShape(e, s);
    hide ReceiverApply;
  }

  lemma {:induction false} StepKeepsRequests(e: Endpoint, s: Step)
    requires Calls.Inv(e) && RequestsOk(e) && Enabled(e, s)
    ensures RequestsOk(Apply(e, s))
  {
    hide RequestsOk, CallApply, HandlerApply, ReceiverApply, OtherApply;
    match s
    case ByCall(c, cs) => CallRequests(e, c, cs);
    case ByHandler(id, g, hs) => HandlerRequests(e, id, g, hs);
    case ByReceiver(_) => RestRequests(e, s);
    case ByOther(_) => RestRequests(e, s);
  }

  // ---------------------------------------------------------------------------
  // Request IDs in wire order

  function RequestIds(fs: seq<Frame>): seq<nat> {
    if fs == [] then []
    else
      var f := fs[|fs| - 1];
      RequestIds(fs[..|fs| - 1]) + (if f.kind == Request then [f.id] else [])
  }

  lemma {:induction false} RequestIdsSnoc(fs: seq<Frame>, f: Frame)
    ensures RequestIds(fs + [f]) == RequestIds(fs) + (if f.kind == Request then [f.id] else [])
  {
    assert (fs + [f])[..|fs|] == fs;
  }

  function UpTo(n: nat): seq<nat> {
    seq(n, i requires 0 <= i => i)
  }

  /** A call that has its ID but whose frame is not yet visible: only the gate holder can be one. */
  predicate MidWrite(e: Endpoint) {
    && e.gate.Some? && e.gate.value.CallHolder? && e.gate.value.c < |e.calls|
    && e.calls[e.gate.value.c].pc.Writing? && !e.calls[e.gate.value.c].sent
  }

  function Visible(e: Endpoint): nat {
    if MidWrite(e) && |e.issued| > 0 then |e.issued| - 1 else |e.issued|
  }

  predicate HolderIsLatest(e: Endpoint) {
    e.gate.Some? && e.gate.value.CallHolder? && e.gate.value.c < |e.calls| && e.calls[e.gate.value.c].pc.Writing? ==>
      |e.issued| > 0 && e.calls[e.gate.value.c].id == Some(|e.issued| - 1)
  }

  predicate OrderOk(e: Endpoint) {
    && HolderIsLatest(e)
    && (!e.writeFailed ==> RequestIds(e.out) == UpTo(Visible(e)))
  }

  lemma {:induction false} CallOrder(e: Endpoint, c: nat, s: CallStep)
    requires Calls.Inv(e) && GateOk(e) && OrderOk(e) && CallEnabled(e, c, s)
    ensures OrderOk(CallApply(e, c, s))
  {
    assert e.lock.nextId == |e.issued|;
    hide RequestIds, Calls.Links, Calls.TerminalOk, Calls.Owners, UpTo;
    assert Calls.OwnerOk(e, c);
    assert HoldsGate(e.calls[c].pc) <==> e.gate == Some(CallHolder(c));
    match s {
      case BecomeVisible => VisibleOrder(e, c);
      case Admit => AdmitOrder(e, c);
      case _ => QuietOrder(e, c, s);
    }
  }

  lemma {:induction false} AdmitOrder(e: Endpoint, c: nat)
    requires OrderOk(e) && CallEnabled(e, c, Admit) && e.gate == Some(CallHolder(c)) && !e.calls[c].sent
    requires e.lock.nextId == |e.issued|
    ensures OrderOk(CallApply(e, c, Admit))
  {
    hide RequestIds, UpTo;
    var e' := CallApply(e, c, Admit);
    assert Visible(e) == |e.issued|;
    assert Visible(e') == |e.issued|;
  }

  lemma {:induction false} VisibleOrder(e: Endpoint, c: nat)
    requires OrderOk(e) && CallEnabled(e, c, BecomeVisible) && e.gate == Some(CallHolder(c))
    ensures OrderOk(CallApply(e, c, BecomeVisible))
  {
    hide RequestIds;
    var n := |e.issued| - 1;
    RequestIdsSnoc(e.out, RequestFrame(e, e.calls[c]));
    assert UpTo(n + 1) == UpTo(n) + [n];
  }

  lemma {:induction false} QuietOrder(e: Endpoint, c: nat, s: CallStep)
    requires OrderOk(e) && CallEnabled(e, c, s) && !s.Admit? && !s.BecomeVisible?
    requires HoldsGate(e.calls[c].pc) <==> e.gate == Some(CallHolder(c))
    requires e.calls[c].pc == Wrote(true) ==> e.calls[c].sent
    ensures OrderOk(CallApply(e, c, s))
  {
    hide RequestIds, UpTo;
    var e' := CallApply(e, c, s);
    assert !e'.writeFailed ==> Visible(e') == Visible(e);
  }

  lemma {:induction false} HandlerOrder(e: Endpoint, id: nat, g: nat, s: HandlerStep)
    requires GateOk(e) && OrderOk(e) && HandlerEnabled(e, id, g, s)
    ensures OrderOk(HandlerApply(e, id, g, s))
  {
    hide RequestIds, UpTo;
    var e' := HandlerApply(e, id, g, s);
    if s.HBecomeVisible? {
      RequestIdsSnoc(e.out, ResponseFrame(id, Gens(e, id)[g].result.value));
    }
    assert HHoldsGate(Gens(e, id)[g].pc) <==> e.gate == Some(HandlerHolder(id, g));
    assert Visible(e') == Visible(e);
  }

  lemma {:induction false} RestOrder(e: Endpoint, s: Step)
    requires GateOk(e) && OrderOk(e) && Enabled(e, s) && (s.ByReceiver? || s.ByOther?)
    ensures OrderOk(Apply(e, s))
  {
    hide RequestIds, UpTo, Apply, Enabled;
    RestFrame(e, s);
    assert Visible(Apply(e, s)) == Visible(e);
  }

  lemma {:induction false} StepKeepsOrder(e: Endpoint, s: Step)
    requires Calls.Inv(e) && GateOk(e) && OrderOk(e) && Enabled(e, s)
    ensures OrderOk(Apply(e, s))
  {
    hide OrderOk, GateOk, CallApply, HandlerApply, ReceiverApply, OtherApply, Calls.Inv;
    match s
    case ByCall(c, cs) => CallOrder(e, c, cs);
    case ByHandler(id, g, hs) => HandlerOrder(e, id, g, hs);
    case ByReceiver(_) => RestOrder(e, s);
    case ByOther(_) => RestOrder(e, s);
  }

  // ---------------------------------------------------------------------------
  // Responses that settle calls

  predicate Seen(e: Endpoint, id: nat, m: Message) {
    e.taken <= |e.input| && m in Of(e.input[..e.taken], Response, id)
  }

  predicate SettlementSeen(e: Endpoint, call: Call) {
    forall i :: 0 <= i < |call.settled| && call.settled[i].Accepted? ==>
      call.id.Some? && Seen(e, call.id.value, call.settled[i].m)
  }

  /** A claimed or accepted response is one that arrived under the ID of the call it settles. */
  ghost predicate EvidenceOk(e: Endpoint) {
    && e.taken <= |e.input|
    && (e.receiver.Claimed? || e.receiver.Accepting? ==> Seen(e, e.receiver.id, e.receiver.m))
    && (forall c :: 0 <= c < |e.calls| ==> SettlementSeen(e, e.calls[c]))
  }

  lemma {:induction false} SeenGrows(e: Endpoint, e': Endpoint, id: nat, m: Message)
    requires Seen(e, id, m) && e.taken <= e'.taken <= |e'.input| && e.input <= e'.input
    ensures Seen(e', id, m)
  {
    assert e'.input[..e'.taken][..e.taken] == e.input[..e.taken];
    OfPrefix(e'.input[..e'.taken], e.taken, Response, id);
  }

  lemma {:induction false} InputGrows(e: Endpoint, s: Step)
    requires Enabled(e, s) && e.taken <= |e.input|
    ensures var e' := Apply(e, s); e.taken <= e'.taken <= |e'.input| && e.input <= e'.input
  {
    hide CallApply, HandlerApply, ReceiverApply, OtherApply;
    match s
    case ByCall(c, cs) => CallTouches(e, c, cs);
    case ByHandler(i, g, hs) => HandlerTouches(e, i, g, hs);
    case ByReceiver(rs) => ReceiverTouches(e, rs);
    case ByOther(os) => OtherTouches(e, os);
  }

  lemma {:induction false} SettlementGrows(e: Endpoint, e': Endpoint, call: Call)
    requires SettlementSeen(e, call) && e.taken <= e'.taken <= |e'.input| && e.input <= e'.input
    ensures SettlementSeen(e', call)
  {
    forall i | 0 <= i < |call.settled| && call.settled[i].Accepted?
      ensures call.id.Some? && Seen(e', call.id.value, call.settled[i].m)
    {
      SeenGrows(e, e', call.id.value, call.settled[i].m);
    }
  }

  lemma {:induction false} ReceiverEvidence(e: Endpoint, s: Step)
    requires Calls.Inv(e) && EvidenceOk(e) && Enabled(e, s)
    ensures var e' := Apply(e, s);
            (e'.receiver.Claimed? || e'.receiver.Accepting?) ==> Seen(e', e'.receiver.id, e'.receiver.m)
  {
    hide Of, Calls.Inv;
    var e' := Apply(e, s);
    InputGrows(e, s);
    if s == ByReceiver(Receive) {
      TakeOne(e, Response, e.input[e.taken].id);
    } else if e'.receiver.Claimed? || e'.receiver.Accepting? {
      ReceiverKeeps(e, s);
      SeenGrows(e, e', e.receiver.id, e.receiver.m);
    }
  }

  lemma {:induction false} ReceiverKeeps(e: Endpoint, s: Step)
    requires Enabled(e, s) && s != ByReceiver(Receive)
    requires var r := Apply(e, s).receiver; r.Claimed? || r.Accepting?
    ensures var r := Apply(e, s).receiver;
            (e.receiver.Claimed? || e.receiver.Accepting?) && r.id == e.receiver.id && r.m == e.receiver.m
  {
    hide CallApply, HandlerApply;
    match s
    case ByCall(c, cs) => CallTouches(e, c, cs);
    case ByHandler(i, g, hs) => HandlerTouches(e, i, g, hs);
    case ByReceiver(rs) =>
    case ByOther(os) =>
  }

  /** An accepted settlement is added only by the receive loop, for the response it claimed. */
  lemma {:induction false} SettlementOrigin(e: Endpoint, s: Step, c: nat)
    requires Calls.Inv(e) && Enabled(e, s) && c < |e.calls|
    ensures c < |Apply(e, s).calls|
    ensures var before := e.calls[c].settled; var after := Apply(e, s).calls[c].settled;
            after == before
            || (before == [] && |after| == 1 && !after[0].Accepted?)
            || (before == [] && s == ByReceiver(CompleteAcceptance) && e.receiver.Accepting? && e.receiver.call == c
                && after == [Accepted(e.receiver.m)])
  {
    hide Apply, Enabled, Calls.Inv;
    Calls.OwnerSettles(e, s, c);
    AcceptanceNeeds(e, s);
  }

  lemma {:induction false} AcceptanceNeeds(e: Endpoint, s: Step)
    requires Enabled(e, s)
    ensures s == ByReceiver(CompleteAcceptance) ==> e.receiver.Accepting?
  {
  }

  lemma {:induction false} CallIdsStay(e: Endpoint, d: nat, s: CallStep, c: nat)
    requires CallEnabled(e, d, s) && c < |e.calls| && e.calls[c].id.Some?
    requires Calls.BeforeAdmission(e.calls[c].pc) ==> e.calls[c].id.None?
    ensures c < |CallApply(e, d, s).calls| && CallApply(e, d, s).calls[c].id == e.calls[c].id
  {
  }

  lemma {:induction false} ReceiverIdsStay(e: Endpoint, s: ReceiverStep, c: nat)
    requires ReceiverEnabled(e, s) && c < |e.calls|
    ensures c < |ReceiverApply(e, s).calls| && ReceiverApply(e, s).calls[c].id == e.calls[c].id
  {
    ReceiverShape(e, s);
    hide ReceiverApply;
  }

  lemma {:induction false} OtherIdsStay(e: Endpoint, s: OtherStep, c: nat)
    requires OtherEnabled(e, s) && c < |e.calls|
    ensures c < |OtherApply(e, s).calls| && OtherApply(e, s).calls[c].id == e.calls[c].id
  {
    OtherShape(e, s);
    hide OtherApply;
    assert OtherApply(e, s).calls[..|e.calls|][c] == OtherApply(e, s).calls[c];
  }

  lemma {:induction false} IdsStay(e: Endpoint, s: Step, c: nat)
    requires Enabled(e, s) && c < |e.calls| && e.calls[c].id.Some?
    requires Calls.BeforeAdmission(e.calls[c].pc) ==> e.calls[c].id.None?
    ensures c < |Apply(e, s).calls| && Apply(e, s).calls[c].id == e.calls[c].id
  {
    hide CallApply, HandlerApply, ReceiverApply, OtherApply;
    match s
    case ByCall(d, cs) => CallIdsStay(e, d, cs, c);
    case ByHandler(i, g, hs) => HandlerTouches(e, i, g, hs);
    case ByReceiver(rs) => ReceiverIdsStay(e, rs, c);
    case ByOther(os) => OtherIdsStay(e, os, c);
  }

  lemma {:induction false} CallEvidence(e: Endpoint, s: Step, c: nat)
    requires Calls.Inv(e) && EvidenceOk(e) && Enabled(e, s) && c < |Apply(e, s).calls|
    ensures SettlementSeen(Apply(e, s), Apply(e, s).calls[c])
  {
    hide Seen, Apply, Enabled, Calls.Links, Calls.TerminalOk;
    var e' := Apply(e, s);
    InputGrows(e, s);
    if c >= |e.calls| {
      NewCall(e, s, c);
    } else {
      assert Calls.OwnerOk(e, c);
      SettlementOrigin(e, s, c);
      if e'.calls[c].id.None? {
        NoIdNoSettlement(e, s, c);
      }
      ReceiverCallId(e);
      if e.calls[c].id.Some? {
        IdsStay(e, s, c);
        if e'.calls[c].settled == e.calls[c].settled {
          SettlementGrows(e, e', e.calls[c]);
        } else if e'.calls[c].settled[0].Accepted? {
          SeenGrows(e, e', e.receiver.id, e.receiver.m);
        }
      }
    }
  }

  /** Only an admitted call can be settled. */
  lemma {:induction false} NoIdNoSettlement(e: Endpoint, s: Step, c: nat)
    requires Calls.Inv(e) && Enabled(e, s) && c < |Apply(e, s).calls| && Apply(e, s).calls[c].id.None?
    ensures Apply(e, s).calls[c].settled == []
  {
    hide Apply, Enabled;
    Calls.StepKeepsInv(e, s);
    assert Calls.OwnerOk(Apply(e, s), c);
  }

  lemma {:induction false} ReceiverCallId(e: Endpoint)
    requires Calls.Inv(e)
    ensures e.receiver.Accepting? ==> e.receiver.call < |e.calls| && e.calls[e.receiver.call].id == Some(e.receiver.id)
  {
  }

  lemma {:induction false} NewCall(e: Endpoint, s: Step, c: nat)
    requires Enabled(e, s) && |e.calls| <= c < |Apply(e, s).calls|
    ensures Apply(e, s).calls[c].settled == []
  {
    hide CallApply, HandlerApply, ReceiverApply, OtherApply;
    match s
    case ByCall(d, cs) => CallTouches(e, d, cs);
    case ByHandler(i, g, hs) => HandlerTouches(e, i, g, hs);
    case ByReceiver(rs) => ReceiverTouches(e, rs);
    case ByOther(os) => OtherTouches(e, os);
  }

  lemma {:induction false} StepKeepsEvidence(e: Endpoint, s: Step)
    requires Calls.Inv(e) && EvidenceOk(e) && Enabled(e, s)
    ensures EvidenceOk(Apply(e, s))
  {
    hide Apply, Enabled, SettlementSeen, Seen;
    var e' := Apply(e, s);
    InputGrows(e, s);
    ReceiverEvidence(e, s);
    forall c | 0 <= c < |e'.calls|
      ensures SettlementSeen(e', e'.calls[c])
    {
      CallEvidence(e, s, c);
    }
  }

  // ---------------------------------------------------------------------------
  // Frames stay well formed

  ghost predicate FramesOk(e: Endpoint) {
    && (forall f :: f in e.input ==> Valid(f))
    && (forall f :: f in e.out ==> Valid(f))
    && (forall id :: id in e.handlers ==> id < RESPONSE_BIT)
  }

  lemma {:induction false} StepKeepsFrames(e: Endpoint, s: Step)
    requires IncomingRequests.Inv(e) && Calls.Inv(e) && FramesOk(e) && Enabled(e, s)
    ensures FramesOk(Apply(e, s))
  {
    hide CallApply, HandlerApply, ReceiverApply, OtherApply;
    match s
    case ByCall(c, cs) => CallFrames(e, c, cs);
    case ByHandler(i, g, hs) => HandlerFrames(e, i, g, hs);
    case ByReceiver(rs) => ReceiverFrames(e, rs);
    case ByOther(os) => OtherTouches(e, os);
  }

  lemma {:induction false} CallFrames(e: Endpoint, c: nat, s: CallStep)
    requires Calls.Inv(e) && FramesOk(e) && CallEnabled(e, c, s)
    ensures FramesOk(CallApply(e, c, s))
  {
    CallTouches(e, c, s);
    assert Calls.OwnerOk(e, c);
  }

  lemma {:induction false} HandlerFrames(e: Endpoint, i: nat, g: nat, s: HandlerStep)
    requires IncomingRequests.Inv(e) && FramesOk(e) && HandlerEnabled(e, i, g, s)
    ensures FramesOk(HandlerApply(e, i, g, s))
  {
    HandlerTouches(e, i, g, s);
    assert ViewOk(ViewOf(e, i));
    assert HandlerOk(Gens(e, i)[g]);
  }

  lemma {:induction false} ReceiverFrames(e: Endpoint, s: ReceiverStep)
    requires FramesOk(e) && ReceiverEnabled(e, s)
    ensures FramesOk(ReceiverApply(e, s))
  {
    ReceiverTouches(e, s);
    if s.Receive? {
      assert e.input[e.taken] in e.input;
    }
  }

  // ---------------------------------------------------------------------------
  // Everything together

  ghost predicate EndpointOk(e: Endpoint) {
    && IncomingRequests.Inv(e)
    && Calls.Inv(e)
    && GateOk(e)
    && RequestsOk(e)
    && OrderOk(e)
    && EvidenceOk(e)
    && FramesOk(e)
  }

  lemma {:induction false} StartOk()
    ensures EndpointOk(START)
  {
    IncomingRequests.StartOk();
    Calls.StartOk();
  }

  lemma {:induction false} StepKeepsEndpoint(e: Endpoint, s: Step)
    requires EndpointOk(e) && Enabled(e, s)
    ensures EndpointOk(Apply(e, s))
  {
    hide Apply, Enabled, IncomingRequests.Inv, Calls.Inv, GateOk, RequestsOk, OrderOk, EvidenceOk, FramesOk;
    IncomingRequests.StepKeepsInv(e, s);
    Calls.StepKeepsInv(e, s);
    StepKeepsGate(e, s);
    StepKeepsRequests(e, s);
    StepKeepsOrder(e, s);
    StepKeepsEvidence(e, s);
    StepKeepsFrames(e, s);
  }

  lemma {:induction false} RunKeepsEndpoint(e: Endpoint, steps: seq<Step>)
    requires EndpointOk(e) && IsRun(e, steps)
    ensures EndpointOk(After(e, steps))
    decreases |steps|
  {
    hide EndpointOk, Apply, Enabled;
    if steps != [] {
      StepKeepsEndpoint(e, steps[0]);
      RunKeepsEndpoint(Apply(e, steps[0]), steps[1..]);
    }
  }

  /** Until a write fails, the request frames on the wire carry the IDs 0, 1, 2, ... in that order. */
  lemma {:induction false} RequestIdsAreConsecutive(steps: seq<Step>)
    requires IsRun(START, steps) && !After(START, steps).writeFailed
    ensures var e := After(START, steps);
            && RequestIds(e.out) == UpTo(|RequestIds(e.out)|)
            && e.lock.nextId - 1 <= |RequestIds(e.out)| <= e.lock.nextId
  {
    StartOk();
    RunKeepsEndpoint(START, steps);
  }
}
