/**
 * Incoming requests of one endpoint against an arbitrary peer: every request ID owns a chain of handler
 * generations, and against a peer that reuses an ID only after its full response the single deferred slot
 * always suffices.
 */
module IncomingRequests {
  import opened LittleEndian
  import opened Frames
  import opened Locked
  import opened Endpoints

  /** The messages of one kind and one request ID in a frame history, in order. */
  function Of(fs: seq<Frame>, kind: Kind, id: nat): seq<Message> {
    if fs == [] then []
    else
      var f := fs[|fs| - 1];
      Of(fs[..|fs| - 1], kind, id) + (if f.kind == kind && f.id == id then [Message(f.key, f.payload)] else [])
  }

  lemma {:induction false} OfSnoc(fs: seq<Frame>, f: Frame, kind: Kind, id: nat)
    ensures Of(fs + [f], kind, id) ==
            Of(fs, kind, id) + (if f.kind == kind && f.id == id then [Message(f.key, f.payload)] else [])
  {
    assert (fs + [f])[..|fs|] == fs;
  }

  lemma {:induction false} OfPrefix(fs: seq<Frame>, n: nat, kind: Kind, id: nat)
    requires n <= |fs|
    ensures Of(fs[..n], kind, id) <= Of(fs, kind, id)
  {
    if n < |fs| {
      OfPrefix(fs[..|fs| - 1], n, kind, id);
      assert fs[..|fs| - 1][..n] == fs[..n];
    } else {
      assert fs[..n] == fs;
    }
  }

  /** Everything about one incoming request ID. */
  datatype View = View(
    gens: seq<Handler>,
    entry: Option<IncomingCall>,
    requests: seq<Message>,
    responses: seq<Message>,
    terminal: bool,
    duplicate: bool)

  function ViewOf(e: Endpoint, id: nat): View
    requires e.taken <= |e.input|
  {
    View(Gens(e, id), if id in e.lock.incoming then Some(e.lock.incoming[id]) else None,
         Of(e.input[..e.taken], Request, id), Of(e.out, Response, id), e.lock.cause.Some?, e.receiver.Duplicate?)
  }

  function RequestsOf(gens: seq<Handler>): seq<Message> {
    seq(|gens|, i requires 0 <= i < |gens| => gens[i].request)
  }

  function DeferredOf(entry: Option<IncomingCall>): seq<Message> {
    if entry.Some? && entry.value.deferred.Some? then [entry.value.deferred.value] else []
  }

  predicate Live(pc: HandlerPc) {
    !pc.Finished? && !pc.Abandoned?
  }

  /** The response has passed write admission: exactly then the ID is marked as writing. */
  predicate Marked(pc: HandlerPc) {
    pc.HWriting? || pc.HWrote? || pc.HFailing? || pc.Completing?
  }

  predicate HandlerOk(h: Handler) {
    && (h.pc.Dispatching? ==> h.result.None?)
    && (!h.pc.Dispatching? ==> h.result.Some? && ValidMessage(h.result.value))
    && (h.sent ==> Marked(h.pc) || h.pc.Finished? || h.pc.Abandoned?)
    && (h.pc == HWrote(true) || h.pc.Completing? || h.pc.Finished? ==> h.sent)
  }

  /** Generations run one after another: all but the newest have completed their response write. */
  predicate ChainOk(gens: seq<Handler>) {
    && (forall g :: 0 <= g < |gens| ==> HandlerOk(gens[g]))
    && (forall g :: 0 <= g < |gens| - 1 ==> gens[g].pc.Finished?)
  }

  /** The responses on the wire are the results of the generations that sent one, in order. */
  predicate AnswersOk(gens: seq<Handler>, responses: seq<Message>) {
    && |responses| <= |gens|
    && (forall g :: 0 <= g < |gens| ==> (gens[g].sent <==> g < |responses|))
    && (forall g :: 0 <= g < |responses| ==> gens[g].result == Some(responses[g]))
  }

  /** The map entry is present exactly while the newest generation is live, and says how far it is. */
  predicate EntryOk(gens: seq<Handler>, entry: Option<IncomingCall>) {
    && (entry.Some? <==> gens != [] && Live(gens[|gens| - 1].pc))
    && (gens != [] ==> !gens[|gens| - 1].pc.Abandoned? && !gens[|gens| - 1].pc.HRefused?)
    && (entry.Some? ==> (entry.value.writing <==> Marked(gens[|gens| - 1].pc)))
    && (entry.Some? && entry.value.deferred.Some? ==> entry.value.writing)
  }

  predicate ViewOk(v: View) {
    && ChainOk(v.gens)
    && AnswersOk(v.gens, v.responses)
    && RequestsOf(v.gens) + DeferredOf(v.entry) <= v.requests
    && (v.terminal ==> v.entry.None?)
    && (!v.terminal ==> EntryOk(v.gens, v.entry))
    && (!v.terminal && !v.duplicate ==> v.requests == RequestsOf(v.gens) + DeferredOf(v.entry))
  }

  ghost predicate Inv(e: Endpoint) {
    && e.taken <= |e.input|
    && forall id: nat :: ViewOk(ViewOf(e, id))
  }

  // ---------------------------------------------------------------------------
  // Preservation, one view at a time

  lemma {:induction false} TerminateView(e: Endpoint, cause: Cause, id: nat)
    requires e.taken <= |e.input| && ViewOk(ViewOf(e, id))
    ensures ViewOk(ViewOf(Terminate(e, cause), id))
    ensures Terminate(e, cause).lock.cause.Some?
  {
    var v := ViewOf(e, id);
    var v' := ViewOf(Terminate(e, cause), id);
    if e.lock.cause.None? {
      assert v' == v.(entry := None, terminal := true);
      assert RequestsOf(v.gens) + DeferredOf(None) == RequestsOf(v.gens);
    }
  }

  /** Leaving the duplicate state is sound once a cause is selected. */
  lemma {:induction false} TerminalIgnoresReceiver(v: View, d: bool)
    requires ViewOk(v) && (v.terminal || d || d == v.duplicate)
    ensures ViewOk(v.(duplicate := d))
  {
  }

  lemma {:induction false} CallStepView(e: Endpoint, c: nat, s: CallStep, id: nat)
    requires Inv(e) && CallEnabled(e, c, s)
    ensures ViewOk(ViewOf(CallApply(e, c, s), id))
  {
    assert ViewOk(ViewOf(e, id));
    hide ViewOk, Inv, CallApply, CallEnabled, ViewOf;
    match s {
      case BecomeVisible => CallVisibleView(e, c, id);
      case SelectWriteFailure => CallFailureView(e, c, id);
      case _ => CallQuietView(e, c, s, id);
    }
  }

  lemma {:induction false} CallVisibleView(e: Endpoint, c: nat, id: nat)
    requires CallEnabled(e, c, BecomeVisible) && e.taken <= |e.input|
    ensures ViewOf(CallApply(e, c, BecomeVisible), id) == ViewOf(e, id)
  {
    OfSnoc(e.out, RequestFrame(e, e.calls[c]), Response, id);
  }

  lemma {:induction false} CallFailureView(e: Endpoint, c: nat, id: nat)
    requires Inv(e) && CallEnabled(e, c, SelectWriteFailure)
    ensures ViewOk(ViewOf(CallApply(e, c, SelectWriteFailure), id))
  {
    hide ViewOk;
    TerminateView(e, WriteFailed, id);
    assert ViewOf(CallApply(e, c, SelectWriteFailure), id) == ViewOf(Terminate(e, WriteFailed), id);
  }

  lemma {:induction false} CallQuietView(e: Endpoint, c: nat, s: CallStep, id: nat)
    requires CallEnabled(e, c, s) && s != BecomeVisible && s != SelectWriteFailure && e.taken <= |e.input|
    ensures ViewOf(CallApply(e, c, s), id) == ViewOf(e, id)
  {
  }

  lemma {:induction false} OtherStepView(e: Endpoint, s: OtherStep, id: nat)
    requires Inv(e) && OtherEnabled(e, s)
    ensures OtherApply(e, s).taken <= |OtherApply(e, s).input|
    ensures ViewOk(ViewOf(OtherApply(e, s), id))
  {
    hide ViewOk;
    var e' := OtherApply(e, s);
    match s {
      case Close => TerminateView(e, Closed, id);
      case ContextEnds => TerminateView(e, ContextDone, id);
      case PeerSends(f) =>
        assert e'.input[..e'.taken] == e.input[..e.taken];
        assert ViewOf(e', id) == ViewOf(e, id);
      case _ =>
        assert ViewOf(e', id) == ViewOf(e, id);
    }
  }

  /** Only the newest generation can still move before the connection is terminal. */
  lemma {:induction false} ActiveIsNewest(v: View, g: nat)
    requires ViewOk(v) && g < |v.gens| && Live(v.gens[g].pc)
    ensures g == |v.gens| - 1
    ensures |v.responses| == if v.gens[g].sent then g + 1 else g
  {
    if g > 0 {
      assert v.gens[g - 1].pc.Finished? && HandlerOk(v.gens[g - 1]);
    }
  }

  lemma {:induction false} RequestsOfUpdate(gens: seq<Handler>, g: nat, h: Handler)
    requires g < |gens| && h.request == gens[g].request
    ensures RequestsOf(gens[g := h]) == RequestsOf(gens)
  {
  }

  /** The newest generation moves without sending its response. */
  lemma {:induction false} ReplaceNewest(v: View, h: Handler)
    requires ViewOk(v) && v.gens != []
    requires var last := v.gens[|v.gens| - 1];
             && HandlerOk(h) && h.request == last.request && h.sent == last.sent
             && (h.sent ==> h.result == last.result)
             && (v.terminal || (Live(last.pc) && Live(h.pc) && !h.pc.HRefused? && Marked(h.pc) == Marked(last.pc)))
    ensures ViewOk(v.(gens := v.gens[|v.gens| - 1 := h]))
  {
    RequestsOfUpdate(v.gens, |v.gens| - 1, h);
  }

  /** A handler step that only moves its own program counter, seen from its ID. */
  predicate Quiet(s: HandlerStep) {
    s.DispatchReturns? || s.HAcquireGate? || s.HGateSeesTerminal? || s.HReleaseRefused? || s.HWriteReturns?
    || s.HReleaseGate?
  }

  lemma {:induction false} QuietViewOf(e: Endpoint, id: nat, g: nat, s: HandlerStep)
    requires e.taken <= |e.input| && HandlerEnabled(e, id, g, s) && Quiet(s)
    ensures ViewOf(HandlerApply(e, id, g, s), id) ==
            var v := ViewOf(e, id); v.(gens := v.gens[g := HandlerAfter(e, v.gens[g], s)])
  {
    hide Of;
    var v := ViewOf(e, id);
    assert Spawned(e, id, s) == [];
    var e' := HandlerApply(e, id, g, s);
    var gens := v.gens[g := HandlerAfter(e, v.gens[g], s)];
    assert e'.handlers[id] == gens + [] == gens;
    assert e'.lock == e.lock && e'.input == e.input && e'.taken == e.taken && e'.out == e.out
        && e'.receiver == e.receiver;
  }

  lemma {:induction false} QuietHandler(e: Endpoint, id: nat, g: nat, s: HandlerStep)
    requires HandlerEnabled(e, id, g, s) && Quiet(s)
    requires HandlerOk(Gens(e, id)[g])
    requires e.lock.cause.None? ==> !Gens(e, id)[g].pc.HRefused?
    ensures var h := Gens(e, id)[g]; var h' := HandlerAfter(e, h, s);
            && HandlerOk(h') && h'.request == h.request && h'.sent == h.sent && Live(h.pc)
            && (h'.sent ==> h'.result == h.result)
            && (e.lock.cause.Some? || (Live(h'.pc) && !h'.pc.HRefused? && Marked(h'.pc) == Marked(h.pc)))
  {
    assert KEY_LIMIT > 0x1aaec22e85996f50;
  }

  lemma {:induction false} HandlerQuietView(e: Endpoint, id: nat, g: nat, s: HandlerStep)
    requires Inv(e) && HandlerEnabled(e, id, g, s) && Quiet(s)
    ensures ViewOk(ViewOf(HandlerApply(e, id, g, s), id))
  {
    hide HandlerApply, HandlerAfter, Of, HandlerEnabled, Quiet;
    var v := ViewOf(e, id);
    assert ViewOk(v);
    QuietIsLive(e, id, g, s);
    ActiveIsNewest(v, g);
    QuietHandler(e, id, g, s);
    ReplaceNewest(v, HandlerAfter(e, v.gens[g], s));
    QuietViewOf(e, id, g, s);
  }

  lemma {:induction false} QuietIsLive(e: Endpoint, id: nat, g: nat, s: HandlerStep)
    requires HandlerEnabled(e, id, g, s)
    ensures g < |Gens(e, id)| && Live(Gens(e, id)[g].pc)
  {
  }

  lemma {:induction false} AdmitChanges(e: Endpoint, id: nat, g: nat)
    requires e.taken <= |e.input| && HandlerEnabled(e, id, g, HAdmit)
    ensures HandlerApply(e, id, g, HAdmit).taken <= |HandlerApply(e, id, g, HAdmit).input|
    ensures var v := ViewOf(e, id); var v' := ViewOf(HandlerApply(e, id, g, HAdmit), id);
            var gens := v.gens[g := HandlerAfter(e, v.gens[g], HAdmit)];
            if v.terminal then v' == v.(gens := gens)
            else v' == v.(gens := gens, entry := if v.entry.Some? then Some(v.entry.value.(writing := true)) else None)
  {
    hide Of;
    var v := ViewOf(e, id);
    var h := HandlerAfter(e, v.gens[g], HAdmit);
    assert v.gens[g := h] + [] == v.gens[g := h];
  }

  lemma {:induction false} MarkNewest(v: View, h: Handler)
    requires ViewOk(v) && v.gens != [] && !v.terminal
    requires var last := v.gens[|v.gens| - 1];
             last.pc.HHoldingGate? && h == last.(pc := HWriting)
    ensures v.entry.Some?
    ensures ViewOk(v.(gens := v.gens[|v.gens| - 1 := h], entry := Some(v.entry.value.(writing := true))))
  {
    assert HandlerOk(v.gens[|v.gens| - 1]);
    RequestsOfUpdate(v.gens, |v.gens| - 1, h);
  }

  lemma {:induction false} HandlerAdmitView(e: Endpoint, id: nat, g: nat)
    requires Inv(e) && HandlerEnabled(e, id, g, HAdmit)
    ensures ViewOk(ViewOf(HandlerApply(e, id, g, HAdmit), id))
  {
    var v := ViewOf(e, id);
    var h := HandlerAfter(e, v.gens[g], HAdmit);
    assert ViewOk(v) && HandlerOk(v.gens[g]);
    ActiveIsNewest(v, g);
    AdmitChanges(e, id, g);
    hide ViewOf, HandlerApply;
    if v.terminal {
      ReplaceNewest(v, h);
    } else {
      MarkNewest(v, h);
    }
  }

  /** The response of the newest generation becomes visible. */
  lemma {:induction false} SendNewest(v: View, m: Message)
    requires ViewOk(v) && v.gens != []
    requires var last := v.gens[|v.gens| - 1]; last.pc.HWriting? && !last.sent && last.result == Some(m)
    ensures var n := |v.gens| - 1;
            ViewOk(v.(gens := v.gens[n := v.gens[n].(sent := true)], responses := v.responses + [m]))
  {
    var n := |v.gens| - 1;
    ActiveIsNewest(v, n);
    RequestsOfUpdate(v.gens, n, v.gens[n].(sent := true));
  }

  lemma {:induction false} HandlerVisibleView(e: Endpoint, id: nat, g: nat)
    requires Inv(e) && HandlerEnabled(e, id, g, HBecomeVisible)
    ensures ViewOk(ViewOf(HandlerApply(e, id, g, HBecomeVisible), id))
  {
    hide ViewOk, Of;
    var v := ViewOf(e, id);
    ActiveIsNewest(v, g);
    var h := v.gens[g].(sent := true);
    assert v.gens[g := h] + [] == v.gens[g := h];
    var m := h.result.value;
    OfSnoc(e.out, ResponseFrame(id, m), Response, id);
    SendNewest(v, m);
    var v' := ViewOf(HandlerApply(e, id, g, HBecomeVisible), id);
    assert v' == v.(gens := v.gens[g := h], responses := v.responses + [m]);
  }

  lemma {:induction false} FailureReplaces(e: Endpoint, id: nat, g: nat)
    requires e.taken <= |e.input| && HandlerEnabled(e, id, g, HSelectWriteFailure)
    ensures var w := ViewOf(Terminate(e, WriteFailed), id);
            g < |ViewOf(e, id).gens| == |w.gens|
            && ViewOf(HandlerApply(e, id, g, HSelectWriteFailure), id)
               == w.(gens := w.gens[g := HandlerAfter(e, ViewOf(e, id).gens[g], HSelectWriteFailure)])
  {
    var v := ViewOf(e, id);
    var h := HandlerAfter(e, v.gens[g], HSelectWriteFailure);
    assert v.gens[g := h] + [] == v.gens[g := h];
  }

  lemma {:induction false} TerminateGens(e: Endpoint, cause: Cause, id: nat)
    requires e.taken <= |e.input|
    ensures Terminate(e, cause).taken <= |Terminate(e, cause).input|
    ensures var v := ViewOf(Terminate(e, cause), id); v.gens == Gens(e, id) && v.terminal
  {
  }

  lemma {:induction false} InvView(e: Endpoint, id: nat)
    requires Inv(e)
    ensures e.taken <= |e.input| && ViewOk(ViewOf(e, id)) && ViewOf(e, id).gens == Gens(e, id)
  {
    hide ViewOk;
  }

  lemma {:induction false} FailureFacts(e: Endpoint, id: nat, g: nat)
    requires Inv(e) && HandlerEnabled(e, id, g, HSelectWriteFailure)
    ensures g < |Gens(e, id)|
    ensures var was, h := Gens(e, id)[g], HandlerAfter(e, Gens(e, id)[g], HSelectWriteFailure);
            Live(was.pc) && HandlerOk(h) && h.request == was.request && h.sent == was.sent && h.result == was.result
  {
    InvView(e, id);
    assert HandlerOk(ViewOf(e, id).gens[g]);
  }

  lemma {:induction false} HandlerFailureView(e: Endpoint, id: nat, g: nat)
    requires Inv(e) && HandlerEnabled(e, id, g, HSelectWriteFailure)
    ensures ViewOk(ViewOf(HandlerApply(e, id, g, HSelectWriteFailure), id))
  {
    hide *;
    InvView(e, id);
    FailureFacts(e, id, g);
    FailureReplaces(e, id, g);
    ActiveIsNewest(ViewOf(e, id), g);
    TerminateView(e, WriteFailed, id);
    TerminateGens(e, WriteFailed, id);
    ReplaceNewest(ViewOf(Terminate(e, WriteFailed), id), HandlerAfter(e, Gens(e, id)[g], HSelectWriteFailure));
  }

  lemma {:induction false} RequestsOfSnoc(gens: seq<Handler>, h: Handler)
    ensures RequestsOf(gens + [h]) == RequestsOf(gens) + [h.request]
  {
  }

  lemma {:induction false} ReleaseNewest(v: View)
    requires ViewOk(v) && v.gens != [] && v.gens[|v.gens| - 1].pc.Completing? && DeferredOf(v.entry) == []
    ensures var n := |v.gens| - 1;
            ViewOk(v.(gens := v.gens[n := v.gens[n].(pc := Finished)], entry := None))
  {
    var n := |v.gens| - 1;
    RequestsOfUpdate(v.gens, n, v.gens[n].(pc := Finished));
  }

  lemma {:induction false} PromoteDeferred(v: View)
    requires ViewOk(v) && v.gens != [] && v.gens[|v.gens| - 1].pc.Completing? && DeferredOf(v.entry) != []
    ensures var n := |v.gens| - 1;
            ViewOk(v.(gens := v.gens[n := v.gens[n].(pc := Finished)] + [NewHandler(DeferredOf(v.entry)[0])],
                      entry := Some(IncomingCall(false, None))))
  {
    hide RequestsOf;
    var n := |v.gens| - 1;
    ActiveIsNewest(v, n);
    var done := v.gens[n := v.gens[n].(pc := Finished)];
    var next := NewHandler(DeferredOf(v.entry)[0]);
    RequestsOfUpdate(v.gens, n, v.gens[n].(pc := Finished));
    RequestsOfSnoc(done, next);
    assert RequestsOf(done + [next]) + [] == RequestsOf(v.gens) + DeferredOf(v.entry);
    assert AnswersOk(done + [next], v.responses);
    assert ChainOk(done + [next]);
  }

  /** A completed write releases the ID, or hands it to the deferred generation. */
  lemma {:induction false} HandlerCompleteView(e: Endpoint, id: nat, g: nat)
    requires Inv(e) && HandlerEnabled(e, id, g, HComplete)
    ensures ViewOk(ViewOf(HandlerApply(e, id, g, HComplete), id))
  {
    hide ViewOk, Of;
    var v := ViewOf(e, id);
    ActiveIsNewest(v, g);
    var gens := v.gens[g := v.gens[g].(pc := Finished)];
    var v' := ViewOf(HandlerApply(e, id, g, HComplete), id);
    if DeferredOf(v.entry) == [] {
      ReleaseNewest(v);
      assert gens + [] == gens;
      assert v' == v.(gens := gens, entry := None);
    } else {
      PromoteDeferred(v);
      assert v' == v.(gens := gens + [NewHandler(DeferredOf(v.entry)[0])], entry := Some(IncomingCall(false, None)));
    }
  }

  lemma {:induction false} HandlerOwnView(e: Endpoint, id: nat, g: nat, s: HandlerStep)
    requires Inv(e) && HandlerEnabled(e, id, g, s)
    ensures ViewOk(ViewOf(HandlerApply(e, id, g, s), id))
  {
    match s {
      case HAdmit => HandlerAdmitView(e, id, g);
      case HBecomeVisible => HandlerVisibleView(e, id, g);
      case HSelectWriteFailure => HandlerFailureView(e, id, g);
      case HComplete => HandlerCompleteView(e, id, g);
      case _ => HandlerQuietView(e, id, g, s);
    }
  }

  lemma {:induction false} HandlerOtherView(e: Endpoint, id: nat, g: nat, s: HandlerStep, other: nat)
    requires Inv(e) && HandlerEnabled(e, id, g, s) && other != id
    ensures ViewOk(ViewOf(HandlerApply(e, id, g, s), other))
  {
    hide ViewOk;
    var e' := HandlerApply(e, id, g, s);
    match s {
      case HBecomeVisible =>
        OfSnoc(e.out, ResponseFrame(id, Gens(e, id)[g].result.value), Response, other);
        assert ViewOf(e', other) == ViewOf(e, other);
      case HSelectWriteFailure =>
        TerminateView(e, WriteFailed, other);
        assert ViewOf(e', other) == ViewOf(Terminate(e, WriteFailed), other);
      case _ => assert ViewOf(e', other) == ViewOf(e, other);
    }
  }

  lemma {:induction false} TakeOne(e: Endpoint, kind: Kind, id: nat)
    requires e.taken < |e.input|
    ensures var f := e.input[e.taken];
            Of(e.input[..e.taken + 1], kind, id) ==
            Of(e.input[..e.taken], kind, id) + (if f.kind == kind
                && f.id == id then [Message(f.key, f.payload)] else [])
  {
    assert e.input[..e.taken + 1] == e.input[..e.taken] + [e.input[e.taken]];
    OfSnoc(e.input[..e.taken], e.input[e.taken], kind, id);
  }

  lemma {:induction false} StartGeneration(v: View, m: Message)
    requires ViewOk(v) && v.entry.None? && !v.terminal && !v.duplicate
    ensures ViewOk(v.(requests := v.requests + [m], entry := Some(IncomingCall(false, None)),
            gens := v.gens + [NewHandler(m)]))
  {
    RequestsOfSnoc(v.gens, NewHandler(m));
  }

  lemma {:induction false} KeepDeferred(v: View, m: Message)
    requires ViewOk(v) && v.entry == Some(IncomingCall(true, None)) && !v.terminal && !v.duplicate
    ensures ViewOk(v.(requests := v.requests + [m], entry := Some(IncomingCall(true, Some(m)))))
  {
    assert RequestsOf(v.gens) + [] == RequestsOf(v.gens);
  }

  lemma {:induction false} LateRequest(v: View, m: Message, d: bool)
    requires ViewOk(v) && (v.terminal || d)
    ensures ViewOk(v.(requests := v.requests + [m], duplicate := d))
  {
  }

  lemma {:induction false} OtherIdsStay(e: Endpoint, f: Frame, id: nat)
    requires f.id != id
    ensures var e' := ReceiveRequest(e, f);
            && Gens(e', id) == Gens(e, id) && (id in e'.lock.incoming <==> id in e.lock.incoming)
            && (id in e.lock.incoming ==> e'.lock.incoming[id] == e.lock.incoming[id])
  {
    match AdmitResult(e.lock, f.id)
    case Discard =>
    case Terminal =>
    case Deferred =>
    case Dispatch =>
  }

  lemma {:induction false} OtherIdView(e: Endpoint, f: Frame, id: nat)
    requires e.taken < |e.input| && f == e.input[e.taken] && f.kind == Request && f.id != id && e.receiver.Reading?
    ensures ReceiveRequest(e, f).taken <= |ReceiveRequest(e, f).input|
    ensures var v, v' := ViewOf(e, id), ViewOf(ReceiveRequest(e, f), id);
            v' == v.(duplicate := v'.duplicate) && !v.duplicate
  {
    TakeOne(e, Request, id);
    RequestShape(e, f);
    OtherIdsStay(e, f, id);
    hide Of, ReceiveRequest, HandlersGrow, Gens;
  }

  /** What the admission of a request does to the view of its own ID. */
  lemma {:induction false} OwnIdView(e: Endpoint, f: Frame)
    requires e.taken < |e.input| && f == e.input[e.taken] && f.kind == Request && e.receiver.Reading?
    ensures ReceiveRequest(e, f).taken <= |ReceiveRequest(e, f).input|
    ensures var v, v' := ViewOf(e, f.id), ViewOf(ReceiveRequest(e, f), f.id); var m := Message(f.key, f.payload);
            var requests := v.requests + [m];
            && !v.duplicate && (v.terminal <==> e.lock.cause.Some?)
            && (e.lock.cause.None? ==> (f.id in e.lock.incoming <==> v.entry.Some?))
            && (v.entry.Some? ==> f.id in e.lock.incoming && v.entry.value == e.lock.incoming[f.id])
            && match AdmitResult(e.lock, f.id)
               case Discard => v.terminal && v' == v.(requests := requests)
               case Terminal => v' == v.(requests := requests, duplicate := true)
               case Deferred =>
                 && v.entry.Some? && v.entry.value.writing && v.entry.value.deferred.None? && !v.terminal
                 && v' == v.(requests := requests, entry := Some(IncomingCall(true, Some(m))))
               case Dispatch =>
                 && v.entry.None? && !v.terminal
                 && v' == v.(requests := requests, entry := Some(IncomingCall(false, None)),
                             gens := v.gens + [NewHandler(m)])
  {
    TakeOne(e, Request, f.id);
    hide Of;
  }

  /** Ordered admission: a fresh ID starts a generation, a reuse during the write is kept as the next one. */
  lemma {:induction false} ReceiveRequestView(e: Endpoint, id: nat)
    requires Inv(e) && e.taken < |e.input| && e.receiver.Reading? && e.input[e.taken].kind == Request
    ensures ViewOk(ViewOf(ReceiveRequest(e, e.input[e.taken]), id))
  {
    var f := e.input[e.taken];
    var m := Message(f.key, f.payload);
    var v := ViewOf(e, id);
    assert ViewOk(v);
    hide *;
    if f.id != id {
      OtherIdView(e, f, id);
      var v' := ViewOf(ReceiveRequest(e, f), id);
      TerminalIgnoresReceiver(v, v'.duplicate);
    } else {
      OwnIdView(e, f);
      match AdmitResult(e.lock, id)
      case Discard => LateRequest(v, m, false);
      case Terminal => LateRequest(v, m, true);
      case Deferred => KeepDeferred(v, m);
      case Dispatch => StartGeneration(v, m);
    }
  }

  lemma {:induction false} ReceiveResponseView(e: Endpoint, id: nat)
    requires Inv(e) && e.taken < |e.input| && e.receiver.Reading? && e.input[e.taken].kind == Response
    ensures ViewOk(ViewOf(ReceiveResponse(e, e.input[e.taken]), id))
  {
    TakeOne(e, Request, id);
    ResponseLeaves(e, e.input[e.taken]);
    hide ReceiveResponse, ViewOk, Of;
    assert ViewOf(ReceiveResponse(e, e.input[e.taken]), id) == ViewOf(e, id);
  }

  /** A response concerns the calls, not the requests. */
  lemma {:induction false} ResponseLeaves(e: Endpoint, f: Frame)
    ensures var e' := ReceiveResponse(e, f);
            && e'.handlers == e.handlers && e'.lock.incoming == e.lock.incoming && e'.lock.cause == e.lock.cause
            && e'.input == e.input && e'.out == e.out && e'.taken == e.taken + 1
            && (e'.receiver.Duplicate? ==> e.receiver.Duplicate?)
            && (e.receiver.Reading? ==> !e'.receiver.Duplicate?)
  {
  }

  lemma {:induction false} ReceiveFrameView(e: Endpoint, id: nat)
    requires Inv(e) && ReceiverEnabled(e, Receive)
    ensures ReceiverApply(e, Receive).taken <= |e.input| && ReceiverApply(e, Receive).input == e.input
    ensures ViewOk(ViewOf(ReceiverApply(e, Receive), id))
  {
    hide ViewOk, Of;
    var f := e.input[e.taken];
    var e' := ReceiverApply(e, Receive);
    if |f.payload| > MAX_PAYLOAD {
      assert ViewOf(e', id) == ViewOf(e, id);
    } else if f.kind == Request {
      ReceiveRequestView(e, id);
    } else {
      ReceiveResponseView(e, id);
    }
  }

  lemma {:induction false} ReceiverStepView(e: Endpoint, s: ReceiverStep, id: nat)
    requires Inv(e) && ReceiverEnabled(e, s)
    ensures ReceiverApply(e, s).taken <= |ReceiverApply(e, s).input|
    ensures ViewOk(ViewOf(ReceiverApply(e, s), id))
  {
    hide ViewOk, Of, ReceiveRequest, ReceiveResponse;
    var e' := ReceiverApply(e, s);
    match s {
      case Receive => ReceiveFrameView(e, id);
      case SelectRejection =>
        TerminateView(e, BadResponse(e.receiver.id), id);
        assert ViewOf(e', id) == ViewOf(Terminate(e, BadResponse(e.receiver.id)), id);
      case SelectReceiverCause =>
        var cause := if e.receiver.ReadFailing? then e.receiver.cause else IdAlreadyActive(e.receiver.id);
        TerminateView(e, cause, id);
        var v := ViewOf(Terminate(e, cause), id);
        TerminalIgnoresReceiver(v, false);
        assert ViewOf(e', id) == v.(duplicate := false);
      case _ => assert ViewOf(e', id) == ViewOf(e, id);
    }
  }

  lemma {:induction false} StepReads(e: Endpoint, s: Step)
    requires e.taken <= |e.input| && Enabled(e, s)
    ensures Apply(e, s).taken <= |Apply(e, s).input|
  {
    hide CallApply, HandlerApply, ReceiverApply, OtherApply;
    match s
    case ByCall(c, cs) => CallTouches(e, c, cs);
    case ByHandler(i, g, hs) => HandlerTouches(e, i, g, hs);
    case ByReceiver(rs) => ReceiverTouches(e, rs);
    case ByOther(os) => OtherTouches(e, os);
  }

  lemma {:induction false} StepView(e: Endpoint, s: Step, id: nat)
    requires Inv(e) && Enabled(e, s) && Apply(e, s).taken <= |Apply(e, s).input|
    ensures ViewOk(ViewOf(Apply(e, s), id))
  {
    hide Inv, ViewOk, ViewOf, CallApply, HandlerApply, ReceiverApply, OtherApply;
    match s
    case ByCall(c, cs) => CallStepView(e, c, cs, id);
    case ByHandler(i, g, hs) =>
      if i == id {
        HandlerOwnView(e, i, g, hs);
      } else {
        HandlerOtherView(e, i, g, hs, id);
      }
    case ByReceiver(rs) => ReceiverStepView(e, rs, id);
    case ByOther(os) => OtherStepView(e, os, id);
  }

  /** Every step of every interleaving, whatever the peer sends, keeps the generation chains. */
  lemma {:induction false} StepKeepsInv(e: Endpoint, s: Step)
    requires Inv(e) && Enabled(e, s)
    ensures Inv(Apply(e, s))
  {
    StepReads(e, s);
    hide ViewOk, ViewOf, Apply, Enabled;
    forall id: nat
      ensures ViewOk(ViewOf(Apply(e, s), id))
    {
      StepView(e, s, id);
    }
  }

  // ---------------------------------------------------------------------------
  // Runs

  lemma {:induction false} StartOk()
    ensures Inv(START)
  {
    forall id: nat
      ensures ViewOk(ViewOf(START, id))
    {
      assert ViewOf(START, id) == View([], None, [], [], false, false);
    }
  }

  lemma {:induction false} RunKeepsInv(e: Endpoint, steps: seq<Step>)
    requires Inv(e) && IsRun(e, steps)
    ensures Inv(After(e, steps))
    decreases |steps|
  {
    hide Inv, Apply, Enabled;
    if steps != [] {
      StepKeepsInv(e, steps[0]);
      RunKeepsInv(Apply(e, steps[0]), steps[1..]);
    }
  }

  /**
   * The rule for request IDs: a peer has at most one outstanding request per ID. It may reuse an ID as soon as
   * the last byte of the full response is visible to it, even if the local `Write` has not returned.
   */
  predicate Permitted(e: Endpoint, f: Frame) {
    f.kind == Request ==> |Of(e.input, Request, f.id)| <= |Of(e.out, Response, f.id)|
  }

  predicate IsDisciplinedRun(e: Endpoint, steps: seq<Step>)
    decreases |steps|
  {
    steps == [] ||
    (&& Enabled(e, steps[0])
     && (steps[0].ByOther? && steps[0].os.PeerSends? ==> Permitted(e, steps[0].os.f))
     && IsDisciplinedRun(Apply(e, steps[0]), steps[1..]))
  }

  ghost predicate Disciplined(e: Endpoint) {
    forall id: nat :: |Of(e.input, Request, id)| <= |Of(e.out, Response, id)| + 1
  }

  /** Visible frames are never withdrawn. */
  lemma {:induction false} OutputGrows(e: Endpoint, s: Step)
    requires Enabled(e, s)
    ensures e.out <= Apply(e, s).out
    ensures s.ByOther? && s.os.PeerSends? ==> Apply(e, s).input == e.input + [s.os.f] && Apply(e, s).out == e.out
    ensures !(s.ByOther? && s.os.PeerSends?) ==> Apply(e, s).input == e.input
  {
    hide CallApply, HandlerApply, ReceiverApply, OtherApply;
    match s
    case ByCall(c, cs) => CallTouches(e, c, cs);
    case ByHandler(i, g, hs) => HandlerTouches(e, i, g, hs);
    case ByReceiver(rs) => ReceiverTouches(e, rs);
    case ByOther(os) => OtherTouches(e, os);
  }

  lemma {:induction false} StepKeepsDiscipline(e: Endpoint, s: Step)
    requires Disciplined(e) && Enabled(e, s)
    requires s.ByOther? && s.os.PeerSends? ==> Permitted(e, s.os.f)
    ensures Disciplined(Apply(e, s))
  {
    hide Apply, Enabled, Of;
    var e' := Apply(e, s);
    OutputGrows(e, s);
    forall id: nat
      ensures |Of(e'.input, Request, id)| <= |Of(e'.out, Response, id)| + 1
    {
      assert e'.out[..|e.out|] == e.out;
      OfPrefix(e'.out, |e.out|, Response, id);
      if s.ByOther? && s.os.PeerSends? {
        OfSnoc(e.input, s.os.f, Request, id);
      }
    }
  }

  /** Why the single deferred slot suffices: a reuse can only arrive after the full response is visible. */
  lemma {:induction false} DisciplinedAdmission(e: Endpoint)
    requires Inv(e) && Disciplined(e) && ReceiverEnabled(e, Receive) && e.input[e.taken].kind == Request
    ensures AdmitResult(e.lock, e.input[e.taken].id) != Terminal
  {
    var f := e.input[e.taken];
    var v := ViewOf(e, f.id);
    assert ViewOk(v);
    TakeOne(e, Request, f.id);
    OfPrefix(e.input, e.taken + 1, Request, f.id);
    assert |v.requests| + 1 <= |v.responses| + 1;
    if !v.terminal && v.entry.Some? {
      assert |RequestsOf(v.gens)| == |v.gens|;
      assert HandlerOk(v.gens[|v.gens| - 1]);
      assert v.gens[|v.gens| - 1].sent;
    }
  }

  lemma {:induction false} DisciplinedStep(e: Endpoint, s: Step)
    requires Inv(e) && Disciplined(e) && Enabled(e, s) && !e.receiver.Duplicate?
    ensures !Apply(e, s).receiver.Duplicate?
  {
    hide Inv, Disciplined;
    if s == ByReceiver(Receive) && e.input[e.taken].kind == Request {
      DisciplinedAdmission(e);
    }
  }

  lemma {:induction false} DisciplinedRun(e: Endpoint, steps: seq<Step>)
    requires Inv(e) && Disciplined(e) && !e.receiver.Duplicate? && IsDisciplinedRun(e, steps)
    ensures IsRun(e, steps)
    ensures var e' := After(e, steps); Inv(e') && Disciplined(e') && !e'.receiver.Duplicate?
    decreases |steps|
  {
    hide Inv, Disciplined, Apply, Enabled, Permitted;
    if steps != [] {
      StepKeepsInv(e, steps[0]);
      StepKeepsDiscipline(e, steps[0]);
      DisciplinedStep(e, steps[0]);
      DisciplinedRun(Apply(e, steps[0]), steps[1..]);
    }
  }

  /**
   * Against every peer that reuses a request ID only after the full response for it, no interleaving reaches the
   * duplicate-ID error, and until the connection is terminal the requests received for an ID are exactly the
   * handler generations started for it, in order, followed by the one deferred request if there is one.
   */
  lemma {:induction false} ReuseAfterResponseIsSafe(steps: seq<Step>, id: nat)
    requires IsDisciplinedRun(START, steps)
    ensures IsRun(START, steps)
    ensures var e := After(START, steps);
            && !e.receiver.Duplicate?
            && e.lock.cause != Some(IdAlreadyActive(id))
            && e.taken <= |e.input|
            && (e.lock.cause.None? ==>
                  Of(e.input[..e.taken], Request, id) ==
                  RequestsOf(Gens(e, id)) +
                  DeferredOf(if id in e.lock.incoming then Some(e.lock.incoming[id]) else None))
            && AnswersOk(Gens(e, id), Of(e.out, Response, id))
  {
    StartOk();
    DisciplinedRun(START, steps);
    NeverBlamed(START, steps, id);
    assert ViewOk(ViewOf(After(START, steps), id));
  }

  lemma {:induction false} NeverBlamed(e: Endpoint, steps: seq<Step>, id: nat)
    requires Inv(e) && Disciplined(e) && !e.receiver.Duplicate? && IsDisciplinedRun(e, steps)
    requires e.lock.cause != Some(IdAlreadyActive(id))
    requires e.receiver.ReadFailing? ==> e.receiver.cause == ReadFailed || e.receiver.cause == FrameTooLong
    ensures IsRun(e, steps)
    ensures After(e, steps).lock.cause != Some(IdAlreadyActive(id))
    decreases |steps|
  {
    hide Inv, Disciplined, Permitted;
    if steps != [] {
      var s := steps[0];
      StepKeepsInv(e, s);
      StepKeepsDiscipline(e, s);
      DisciplinedStep(e, s);
      BlameStep(e, s, id);
      hide Apply, Enabled;
      NeverBlamed(Apply(e, s), steps[1..], id);
    }
  }

  lemma {:induction false} BlameReceiver(e: Endpoint, s: ReceiverStep, id: nat)
    requires ReceiverEnabled(e, s) && !e.receiver.Duplicate?
    requires e.lock.cause != Some(IdAlreadyActive(id))
    requires e.receiver.ReadFailing? ==> e.receiver.cause == ReadFailed || e.receiver.cause == FrameTooLong
    ensures var e' := ReceiverApply(e, s);
            && e'.lock.cause != Some(IdAlreadyActive(id))
            && (e'.receiver.ReadFailing? ==> e'.receiver.cause == ReadFailed || e'.receiver.cause == FrameTooLong)
  {
    hide ReceiveRequest, ReceiveResponse, Complete, Terminate;
    match s
    case Receive =>
      RequestShape(e, e.input[e.taken]);
      ResponseShape(e, e.input[e.taken]);
    case SelectRejection => TerminateShape(e, BadResponse(e.receiver.id));
    case CompleteRejection => CompleteShape(e, e.receiver.call, Terminated(e.lock.cause.value));
    case CompleteAcceptance => CompleteShape(e, e.receiver.call, Accepted(e.receiver.m));
    case SelectReceiverCause => TerminateShape(e, e.receiver.cause);
    case _ =>
  }

  lemma {:induction false} BlameHandler(e: Endpoint, i: nat, g: nat, s: HandlerStep, id: nat)
    requires HandlerEnabled(e, i, g, s) && e.lock.cause != Some(IdAlreadyActive(id))
    ensures HandlerApply(e, i, g, s).lock.cause != Some(IdAlreadyActive(id))
  {
  }

  lemma {:induction false} BlameStep(e: Endpoint, s: Step, id: nat)
    requires Enabled(e, s) && !e.receiver.Duplicate?
    requires e.lock.cause != Some(IdAlreadyActive(id))
    requires e.receiver.ReadFailing? ==> e.receiver.cause == ReadFailed || e.receiver.cause == FrameTooLong
    ensures var e' := Apply(e, s);
            && e'.lock.cause != Some(IdAlreadyActive(id))
            && (e'.receiver.ReadFailing? ==> e'.receiver.cause == ReadFailed || e'.receiver.cause == FrameTooLong)
  {
    hide CallApply, ReceiverApply, HandlerApply, OtherApply;
    match s
    case ByCall(c, cs) => CallShape(e, c, cs);
    case ByHandler(i, g, hs) =>
      BlameHandler(e, i, g, hs, id);
      HandlerTouches(e, i, g, hs);
    case ByReceiver(rs) => BlameReceiver(e, rs, id);
    case ByOther(os) => OtherShape(e, os);
  }
}
