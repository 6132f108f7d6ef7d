/**
 * The two endpoints over byte channels. A stream accepts any number of bytes per write, a reader parses whatever
 * has arrived, and a write that fails inside a frame leaves it torn. Every run in which no frame is read across a
 * torn one is a run of the frame-level system, so its theorems hold for those bytes.
 */
module ByteWire {
  import opened LittleEndian
  import opened Frames
  import opened Locked
  import opened Endpoints
  import opened IncomingRequests
  import opened WireOrder
  import opened TwoEndpoints
  import Calls = OutgoingCalls

  /**
   * The first torn frame of a stream: how many frames were complete before it, the offset where it starts, the frame
   * and how many of its bytes were accepted.
   */
  datatype Tear = Tear(frames: nat, at: nat, frame: Frame, part: nat)

  /**
   * `bytes` is everything the stream accepted, `written` the part of the current frame, `read` what was consumed.
   * `tear` is a record of the past; no endpoint sees it.
   */
  datatype Wire = Wire(bytes: Bytes, written: nat, read: nat, tear: Option<Tear>)

  /** The `input` of an endpoint here is the frames it has read from its stream. */
  datatype ByteSystem = ByteSystem(sys: System, fromLeft: Wire, fromRight: Wire)

  const SILENT := Wire([], 0, 0, None)
  const BYTE_BEGIN := ByteSystem(BEGIN, SILENT, SILENT)

  function WireFrom(s: ByteSystem, side: Side): Wire {
    if side == Left then s.fromLeft else s.fromRight
  }

  function SetWire(s: ByteSystem, side: Side, w: Wire): ByteSystem {
    if side == Left then s.(fromLeft := w) else s.(fromRight := w)
  }

  /** The frame that the gate holder is writing and that is not yet complete on the wire. */
  function Current(e: Endpoint): Option<Frame> {
    if e.gate.None? then None
    else match e.gate.value
      case CallHolder(c) =>
        if c < |e.calls| && e.calls[c].pc.Writing? && !e.calls[c].sent && e.calls[c].id.Some?
        then Some(RequestFrame(e, e.calls[c])) else None
      case HandlerHolder(id, g) =>
        if g < |Gens(e, id)| && Gens(e, id)[g].pc.HWriting? && !Gens(e, id)[g].sent && Gens(e, id)[g].result.Some?
        then Some(ResponseFrame(id, Gens(e, id)[g].result.value)) else None
  }

  function VisibleStep(e: Endpoint): Step
    requires Current(e).Some?
  {
    match e.gate.value
    case CallHolder(c) => ByCall(c, BecomeVisible)
    case HandlerHolder(id, g) => ByHandler(id, g, HBecomeVisible)
  }

  datatype ByteMove = Plain(side: Side, step: Step) | Accept(side: Side, n: nat) | ReadNext(side: Side)

  predicate IsWriteReturn(s: Step) {
    (s.ByCall? && s.cs.WriteReturns?) || (s.ByHandler? && s.hs.HWriteReturns?)
  }

  predicate Tears(s: Step) {
    (s.ByCall? && s.cs.WriteReturns? && s.cs.tears) || (s.ByHandler? && s.hs.HWriteReturns? && s.hs.tears)
  }

  /** Steps whose effect does not involve the byte streams, and write returns. */
  predicate IsPlain(s: Step) {
    && !(s.ByCall? && s.cs.BecomeVisible?)
    && !(s.ByHandler? && s.hs.HBecomeVisible?)
    && s != ByReceiver(Receive)
    && !(s.ByOther? && s.os.PeerSends?)
  }

  predicate BytePossible(s: ByteSystem, m: ByteMove) {
    match m
    case Plain(side, step) =>
      && Enabled(Here(s.sys, side), step) && IsPlain(step)
      && (IsWriteReturn(step) ==> (Tears(step) <==> WireFrom(s, side).written > 0))
    case Accept(side, n) =>
      var e := Here(s.sys, side);
      && Current(e).Some?
      && 0 < n <= |Encode(Current(e).value)| - WireFrom(s, side).written
    case ReadNext(side) =>
      var w := WireFrom(s, Other(side));
      && Here(s.sys, side).receiver.Reading?
      && w.read <= |w.bytes| && ReadFrame(w.bytes[w.read..]) != Short
  }

  function SetHere(s: System, side: Side, e: Endpoint): System {
    if side == Left then s.(left := e) else s.(right := e)
  }

  /** A failing write leaves the written part of its frame behind; the first one is remembered. */
  function AfterReturn(e: Endpoint, step: Step, w: Wire): Wire {
    if !Tears(step) then w
    else if w.tear.Some? || Current(e).None? || |w.bytes| < w.written then w.(written := 0)
    else w.(written := 0, tear := Some(Tear(|e.out|, |w.bytes| - w.written, Current(e).value, w.written)))
  }

  /** The receive loop's reaction to one frame read. */
  function Received(e: Endpoint, f: Frame): Endpoint {
    var e' := e.(input := e.input + [f]);
    if f.kind == Request then ReceiveRequest(e', f) else ReceiveResponse(e', f)
  }

  function BytePerform(s: ByteSystem, m: ByteMove): ByteSystem
    requires BytePossible(s, m)
  {
    match m
    case Plain(side, step) =>
      var w := WireFrom(s, side);
      SetWire(s.(sys := SetHere(s.sys, side, Apply(Here(s.sys, side), step))), side,
              AfterReturn(Here(s.sys, side), step, w))
    case Accept(side, n) =>
      var e := Here(s.sys, side);
      var w := WireFrom(s, side);
      var bytes := w.bytes + Encode(Current(e).value)[w.written..w.written + n];
      if w.written + n == |Encode(Current(e).value)|
      then SetWire(s.(sys := SetHere(s.sys, side, Apply(e, VisibleStep(e)))), side, w.(bytes := bytes, written := 0))
      else SetWire(s, side, w.(bytes := bytes, written := w.written + n))
    case ReadNext(side) =>
      var e := Here(s.sys, side);
      var w := WireFrom(s, Other(side));
      match ReadFrame(w.bytes[w.read..])
      case Got(f, n) => SetWire(s.(sys := SetHere(s.sys, side, Received(e, f))), Other(side), w.(read := w.read + n))
      case _ => s.(sys := SetHere(s.sys, side, e.(receiver := ReadFailing(FrameTooLong))))
  }

  predicate IsByteRun(s: ByteSystem, moves: seq<ByteMove>)
    decreases |moves|
  {
    moves == [] || (BytePossible(s, moves[0]) && IsByteRun(BytePerform(s, moves[0]), moves[1..]))
  }

  function ByteFinal(s: ByteSystem, moves: seq<ByteMove>): ByteSystem
    requires IsByteRun(s, moves)
    decreases |moves|
  {
    if moves == [] then s else ByteFinal(BytePerform(s, moves[0]), moves[1..])
  }

  /** The move reads a frame that begins in a torn one, or ends behind its beginning. */
  predicate ReadsAcross(s: ByteSystem, m: ByteMove) {
    && m.ReadNext?
    && var w := WireFrom(s, Other(m.side));
       && w.tear.Some? && w.read <= |w.bytes|
       && var r := ReadFrame(w.bytes[w.read..]); r.Got? && w.read + r.size > w.tear.value.at
  }

  /** No frame of the run is read across a torn one. */
  predicate NoReadAcrossTear(s: ByteSystem, moves: seq<ByteMove>)
    requires IsByteRun(s, moves)
    decreases |moves|
  {
    moves == [] || (!ReadsAcross(s, moves[0]) && NoReadAcrossTear(BytePerform(s, moves[0]), moves[1..]))
  }

  /** The run lets a stream accept no byte after a write has torn a frame on it. */
  predicate NothingAfterTear(s: ByteSystem, moves: seq<ByteMove>)
    requires IsByteRun(s, moves)
    decreases |moves|
  {
    moves == [] ||
    ((moves[0].Accept? ==> !Here(s.sys, moves[0].side).broken)
     && NothingAfterTear(BytePerform(s, moves[0]), moves[1..]))
  }

  // ---------------------------------------------------------------------------
  // Wire layout

  /** What is written of the current frame, if anything, is a proper part of it. */
  ghost predicate PartOk(e: Endpoint, w: Wire) {
    w.written > 0 ==> Current(e).Some? && Valid(Current(e).value) && w.written < |Encode(Current(e).value)|
  }

  /** The complete frames in gate order, then what is written of the current one. */
  ghost predicate Untorn(e: Endpoint, w: Wire) {
    w.bytes == Concat(e.out)
               + if w.written > 0 && Current(e).Some? then Taken(Encode(Current(e).value), w.written) else []
  }

  function Taken(bs: Bytes, n: nat): Bytes {
    if n <= |bs| then bs[..n] else bs
  }

  predicate PastWriting(pc: CallPc) {
    pc.Wrote? || pc.Failing? || pc.Waiting? || pc.CancelClaimed? || pc.AwaitingOwner? || pc.Returned?
  }

  predicate HPastWriting(pc: HandlerPc) {
    pc.HWrote? || pc.HFailing? || pc.Completing? || pc.Finished? || pc.Abandoned?
  }

  predicate TornCall(call: Call, id: nat) {
    call.id == Some(id) && !call.sent && PastWriting(call.pc)
  }

  predicate TornHandler(h: Handler) {
    !h.sent && HPastWriting(h.pc)
  }

  /** The frame belongs to a call or handler whose write is over and whose frame never became visible. */
  ghost predicate TornOwner(e: Endpoint, f: Frame) {
    if f.kind == Request then exists c :: 0 <= c < |e.calls| && TornCall(e.calls[c], f.id)
    else exists g :: 0 <= g < |Gens(e, f.id)| && TornHandler(Gens(e, f.id)[g])
  }

  /** The complete frames before the tear, then the torn part; whatever follows it. The reader is not beyond. */
  ghost predicate TornAt(e: Endpoint, w: Wire, t: Tear, taken: nat) {
    && taken <= t.frames <= |e.out| && t.at == |Concat(e.out[..t.frames])|
    && Valid(t.frame) && 0 < t.part < |Encode(t.frame)| && TornOwner(e, t.frame)
    && Concat(e.out[..t.frames]) + Encode(t.frame)[..t.part] <= w.bytes
  }

  /** The layout of the stream; the reader stands between two complete frames. */
  ghost predicate WireOk(e: Endpoint, w: Wire, taken: nat) {
    && taken <= |e.out| && w.read == |Concat(e.out[..taken])|
    && PartOk(e, w) && (e.broken <==> w.tear.Some?)
    && (if w.tear.Some? then TornAt(e, w, w.tear.value, taken) else Untorn(e, w))
  }

  /** The frame-level system: what one side made visible is what the other receives. */
  function Abstract(s: System): System {
    System(s.left.(input := s.right.out), s.right.(input := s.left.out))
  }

  ghost predicate ByteOk(s: ByteSystem) {
    && SystemOk(Abstract(s.sys))
    && WireOk(s.sys.left, s.fromLeft, s.sys.right.taken)
    && WireOk(s.sys.right, s.fromRight, s.sys.left.taken)
  }

  lemma {:induction false} CallCurrent(e: Endpoint, c: nat, s: CallStep)
    requires GateOk(e) && Calls.Inv(e) && CallEnabled(e, c, s) && !s.BecomeVisible? && !s.WriteReturns?
    ensures var e' := CallApply(e, c, s);
            e'.out == e.out && e'.broken == e.broken && (Current(e).Some? ==> Current(e') == Current(e))
  {
    hide Calls.Links, Calls.TerminalOk;
    assert Calls.OwnerOk(e, c);
    assert HoldsGate(e.calls[c].pc) <==> e.gate == Some(CallHolder(c));
    CallTouches(e, c, s);
  }

  lemma {:induction false} HandlerCurrent(e: Endpoint, id: nat, g: nat, s: HandlerStep)
    requires GateOk(e) && HandlerEnabled(e, id, g, s) && !s.HBecomeVisible? && !s.HWriteReturns?
    ensures var e' := HandlerApply(e, id, g, s);
            e'.out == e.out && e'.broken == e.broken && (Current(e).Some? ==> Current(e') == Current(e))
  {
    assert HHoldsGate(Gens(e, id)[g].pc) <==> e.gate == Some(HandlerHolder(id, g));
    HandlerGateMove(e, id, g, s);
    HandlerTouches(e, id, g, s);
  }

  lemma {:induction false} RestCurrent(e: Endpoint, s: Step)
    requires Enabled(e, s) && (s.ByReceiver? || s.ByOther?)
    ensures var e' := Apply(e, s);
            e'.out == e.out && e'.broken == e.broken && (Current(e).Some? ==> Current(e') == Current(e))
  {
    hide Apply, Enabled;
    RestFrame(e, s);
    RestHandlers(e, s);
  }

  lemma {:induction false} RestHandlers(e: Endpoint, s: Step)
    requires Enabled(e, s) && (s.ByReceiver? || s.ByOther?)
    ensures Apply(e, s).broken == e.broken
    ensures forall id: nat :: Gens(e, id) <= Gens(Apply(e, s), id)
  {
    if s.ByReceiver? {
      ReceiverHandlers(e, s.rs);
    } else {
      OtherHandlers(e, s.os);
    }
    hide ReceiverApply, OtherApply, ReceiverEnabled, OtherEnabled;
  }

  lemma {:induction false} ReceiverHandlers(e: Endpoint, s: ReceiverStep)
    requires ReceiverEnabled(e, s)
    ensures ReceiverApply(e, s).broken == e.broken
    ensures forall id: nat :: Gens(e, id) <= Gens(ReceiverApply(e, s), id)
  {
    ReceiverShape(e, s);
    hide ReceiverApply, HandlersGrow, Gens;
    forall id: nat
      ensures Gens(e, id) <= Gens(ReceiverApply(e, s), id)
    {
      GrowMeans(e, ReceiverApply(e, s), id);
    }
  }

  lemma {:induction false} OtherHandlers(e: Endpoint, s: OtherStep)
    requires OtherEnabled(e, s)
    ensures OtherApply(e, s).broken == e.broken && OtherApply(e, s).handlers == e.handlers
  {
    OtherShape(e, s);
    hide OtherApply;
  }

  lemma {:induction false} ReturnCurrent(e: Endpoint, s: Step)
    requires GateOk(e) && Enabled(e, s) && IsWriteReturn(s)
    ensures var e' := Apply(e, s);
            && e'.out == e.out
            && e'.broken == (e.broken || Tears(s))
            && (Current(e).Some? && !Tears(s) ==> (s.ByCall? ==> !s.cs.ok) && (s.ByHandler? ==> !s.hs.ok))
  {
    match s
    case ByCall(c, cs) => assert HoldsGate(e.calls[c].pc) <==> e.gate == Some(CallHolder(c));
    case ByHandler(id, g, hs) => assert HHoldsGate(Gens(e, id)[g].pc) <==> e.gate == Some(HandlerHolder(id, g));
  }

  lemma {:induction false} PlainCurrent(e: Endpoint, s: Step)
    requires EndpointOk(e) && Enabled(e, s) && IsPlain(s) && !IsWriteReturn(s)
    ensures var e' := Apply(e, s);
            e'.out == e.out && e'.broken == e.broken && (Current(e).Some? ==> Current(e') == Current(e))
  {
    hide IncomingRequests.Inv, RequestsOk, OrderOk, EvidenceOk, FramesOk, CallApply, HandlerApply, ReceiverApply,
         OtherApply;
    match s
    case ByCall(c, cs) => CallCurrent(e, c, cs);
    case ByHandler(id, g, hs) => HandlerCurrent(e, id, g, hs);
    case ByReceiver(_) => RestCurrent(e, s);
    case ByOther(_) => RestCurrent(e, s);
  }

  // ---------------------------------------------------------------------------
  // A torn frame stays torn

  lemma {:induction false} TornCallStays(e: Endpoint, s: Step, c: nat, id: nat)
    requires Enabled(e, s) && c < |e.calls| && TornCall(e.calls[c], id)
    ensures c < |Apply(e, s).calls| && TornCall(Apply(e, s).calls[c], id)
  {
    match s
    case ByCall(d, cs) => CallStaysTorn(e, d, cs, c, id);
    case ByHandler(i, g, hs) => HandlerTouches(e, i, g, hs);
    case ByReceiver(rs) => ReceiverKeepsCalls(e, rs, c);
    case ByOther(os) => OtherKeepsCalls(e, os, c);
  }

  lemma {:induction false} CallStaysTorn(e: Endpoint, d: nat, s: CallStep, c: nat, id: nat)
    requires CallEnabled(e, d, s) && c < |e.calls| && TornCall(e.calls[c], id)
    ensures c < |CallApply(e, d, s).calls| && TornCall(CallApply(e, d, s).calls[c], id)
  {
  }

  lemma {:induction false} ReceiverKeepsCalls(e: Endpoint, s: ReceiverStep, c: nat)
    requires ReceiverEnabled(e, s) && c < |e.calls|
    ensures c < |ReceiverApply(e, s).calls|
    ensures ReceiverApply(e, s).calls[c] == e.calls[c].(settled := ReceiverApply(e, s).calls[c].settled)
  {
    ReceiverShape(e, s);
    hide ReceiverApply;
  }

  lemma {:induction false} OtherKeepsCalls(e: Endpoint, s: OtherStep, c: nat)
    requires OtherEnabled(e, s) && c < |e.calls|
    ensures c < |OtherApply(e, s).calls|
    ensures OtherApply(e, s).calls[c] == e.calls[c].(settled := OtherApply(e, s).calls[c].settled)
  {
    OtherShape(e, s);
    hide OtherApply;
    assert OtherApply(e, s).calls[..|e.calls|][c] == OtherApply(e, s).calls[c];
  }

  lemma {:induction false} TornHandlerStays(e: Endpoint, s: Step, id: nat, g: nat)
    requires Enabled(e, s) && g < |Gens(e, id)| && TornHandler(Gens(e, id)[g])
    ensures g < |Gens(Apply(e, s), id)| && TornHandler(Gens(Apply(e, s), id)[g])
  {
    match s
    case ByCall(d, cs) => CallTouches(e, d, cs);
    case ByHandler(i, h, hs) => HandlerStaysTorn(e, i, h, hs, id, g);
    case ByReceiver(rs) => ReceiverHandlers(e, rs);
    case ByOther(os) => OtherHandlers(e, os);
  }

  lemma {:induction false} HandlerStaysTorn(e: Endpoint, i: nat, h: nat, s: HandlerStep, id: nat, g: nat)
    requires HandlerEnabled(e, i, h, s) && g < |Gens(e, id)| && TornHandler(Gens(e, id)[g])
    ensures g < |Gens(HandlerApply(e, i, h, s), id)| && TornHandler(Gens(HandlerApply(e, i, h, s), id)[g])
  {
  }

  lemma {:induction false} TornStays(e: Endpoint, s: Step, f: Frame)
    requires Enabled(e, s) && TornOwner(e, f)
    ensures TornOwner(Apply(e, s), f)
  {
    hide Enabled, Apply, TornCall, TornHandler;
    if f.kind == Request {
      var c :| 0 <= c < |e.calls| && TornCall(e.calls[c], f.id);
      TornCallStays(e, s, c, f.id);
    } else {
      var g :| 0 <= g < |Gens(e, f.id)| && TornHandler(Gens(e, f.id)[g]);
      TornHandlerStays(e, s, f.id, g);
    }
  }

  /** The frame whose write just failed has such an owner. */
  lemma {:induction false} TearOwns(e: Endpoint, s: Step)
    requires GateOk(e) && Enabled(e, s) && IsWriteReturn(s) && Tears(s) && Current(e).Some?
    ensures TornOwner(Apply(e, s), Current(e).value)
  {
    var e', f := Apply(e, s), Current(e).value;
    match s
    case ByCall(c, cs) =>
      assert HoldsGate(e.calls[c].pc) <==> e.gate == Some(CallHolder(c));
      assert TornCall(e'.calls[c], f.id);
    case ByHandler(id, g, hs) =>
      assert HHoldsGate(Gens(e, id)[g].pc) <==> e.gate == Some(HandlerHolder(id, g));
      assert TornHandler(Gens(e', id)[g]);
  }

  // ---------------------------------------------------------------------------
  // What each kind of move does to the layout

  lemma {:induction false} TornAtStays(e: Endpoint, s: Step, w: Wire, w': Wire, t: Tear, taken: nat)
    requires TornAt(e, w, t, taken) && Enabled(e, s) && e.out <= Apply(e, s).out && w.bytes <= w'.bytes
    ensures TornAt(Apply(e, s), w', t, taken)
  {
    hide Enabled, Apply, Concat, Encode, TornOwner;
    TornStays(e, s, t.frame);
    assert Apply(e, s).out[..t.frames] == e.out[..t.frames];
  }

  lemma {:induction false} FirstTear(e: Endpoint, s: Step, w: Wire, taken: nat)
    requires GateOk(e) && Enabled(e, s) && IsWriteReturn(s) && Tears(s) && w.written > 0
    requires WireOk(e, w, taken) && w.tear.None? && Apply(e, s).out == e.out
    ensures var w' := AfterReturn(e, s, w);
            w'.tear.Some? && w'.written == 0 && TornAt(Apply(e, s), w', w'.tear.value, taken)
  {
    TearOwns(e, s);
    hide Enabled, Apply, Concat, Encode, Current, TornOwner, GateOk;
    assert e.out[..|e.out|] == e.out;
  }

  /** A step off the wire leaves the layout; a failing write may leave a torn frame. */
  lemma {:induction false} PlainWire(e: Endpoint, s: Step, w: Wire, taken: nat)
    requires EndpointOk(e) && Enabled(e, s) && IsPlain(s) && WireOk(e, w, taken)
    requires IsWriteReturn(s) ==> (Tears(s) <==> w.written > 0)
    ensures Apply(e, s).out == e.out
    ensures WireOk(Apply(e, s), AfterReturn(e, s, w), taken)
  {
    GatePart(e);
    hide EndpointOk, GateOk, Enabled, Apply, Concat, Encode, Current, TornAt;
    var e' := Apply(e, s);
    if IsWriteReturn(s) {
      ReturnCurrent(e, s);
      if Tears(s) && w.tear.None? {
        FirstTear(e, s, w, taken);
      }
    } else {
      PlainCurrent(e, s);
    }
    if w.tear.Some? {
      TornAtStays(e, s, w, AfterReturn(e, s, w), w.tear.value, taken);
    }
  }

  lemma {:induction false} GatePart(e: Endpoint)
    requires EndpointOk(e)
    ensures GateOk(e)
  {
  }

  /** The current frame is a frame that can be written, and its step makes exactly it visible. */
  lemma {:induction false} CurrentVisible(e: Endpoint)
    requires EndpointOk(e) && Current(e).Some?
    ensures Valid(Current(e).value)
    ensures Enabled(e, VisibleStep(e))
    ensures var e' := Apply(e, VisibleStep(e)); e'.out == e.out + [Current(e).value] && e'.broken == e.broken
  {
    hide GateOk, RequestsOk, OrderOk, EvidenceOk;
    match e.gate.value
    case CallHolder(c) => assert Calls.OwnerOk(e, c);
    case HandlerHolder(id, g) =>
      assert ViewOk(ViewOf(e, id));
      assert HandlerOk(Gens(e, id)[g]);
      assert id in e.handlers;
  }

  lemma {:induction false} LaterBytes(e: Endpoint, w: Wire, w': Wire, t: Tear, taken: nat)
    requires TornAt(e, w, t, taken) && w.bytes <= w'.bytes
    ensures TornAt(e, w', t, taken)
  {
    hide Concat, Encode, TornOwner;
  }

  lemma {:induction false} UntornPart(e: Endpoint, w: Wire, n: nat)
    requires Untorn(e, w) && Current(e).Some? && 0 < n && w.written + n < |Encode(Current(e).value)|
    ensures var f := Encode(Current(e).value);
            Untorn(e, w.(bytes := w.bytes + f[w.written..w.written + n], written := w.written + n))
  {
    var f, front := Encode(Current(e).value), Concat(e.out);
    NextPart(f, w.written, n);
    UntornIs(e, w);
    UntornIs(e, w.(bytes := w.bytes + f[w.written..w.written + n], written := w.written + n));
    hide Untorn, Concat, Encode, Current, Taken;
  }

  lemma {:induction false} LastJoins(front: Bytes, f: Bytes, k: nat)
    requires k <= |f|
    ensures (front + f[..k]) + f[k..|f|] == front + f && front + f[..0] == front
  {
    assert f[..k] + f[k..|f|] == f;
  }

  lemma {:induction false} UntornIs(e: Endpoint, w: Wire)
    ensures w.written == 0 ==> (Untorn(e, w) <==> w.bytes == Concat(e.out))
    ensures Current(e).Some? && w.written <= |Encode(Current(e).value)| ==>
              (Untorn(e, w) <==> w.bytes == Concat(e.out) + Encode(Current(e).value)[..w.written])
  {
    hide Concat, Encode, Current;
    assert Concat(e.out) + [] == Concat(e.out);
  }

  lemma {:induction false} UntornLast(e: Endpoint, w: Wire, n: nat, e': Endpoint)
    requires Untorn(e, w) && Current(e).Some? && 0 < n && w.written + n == |Encode(Current(e).value)|
    requires e'.out == e.out + [Current(e).value]
    ensures var f := Encode(Current(e).value);
            Untorn(e', w.(bytes := w.bytes + f[w.written..w.written + n], written := 0))
  {
    var f, front := Encode(Current(e).value), Concat(e.out);
    ConcatSnoc(e.out, Current(e).value);
    LastJoins(front, f, w.written);
    UntornIs(e, w);
    UntornIs(e', w.(bytes := w.bytes + f[w.written..w.written + n], written := 0));
    hide Untorn, Concat, Encode, Current, Taken;
  }

  lemma {:induction false} AcceptPart(e: Endpoint, w: Wire, taken: nat, n: nat)
    requires EndpointOk(e) && WireOk(e, w, taken) && Current(e).Some?
    requires 0 < n && w.written + n < |Encode(Current(e).value)|
    ensures var f := Encode(Current(e).value);
            WireOk(e, w.(bytes := w.bytes + f[w.written..w.written + n], written := w.written + n), taken)
  {
    CurrentVisible(e);
    hide EndpointOk, Concat, Encode, Current, TornAt, Untorn;
    var f := Encode(Current(e).value);
    var w' := w.(bytes := w.bytes + f[w.written..w.written + n], written := w.written + n);
    if w.tear.Some? {
      LaterBytes(e, w, w', w.tear.value, taken);
    } else {
      UntornPart(e, w, n);
    }
  }

  lemma {:induction false} NextPart(f: Bytes, k: nat, n: nat)
    requires k + n <= |f|
    ensures forall front: Bytes :: (front + f[..k]) + f[k..k + n] == front + f[..k + n]
    ensures f[..0] == [] && f[..|f|] == f
  {
    assert f[..k] + f[k..k + n] == f[..k + n];
  }

  lemma {:induction false} AcceptLast(e: Endpoint, w: Wire, taken: nat, n: nat)
    requires EndpointOk(e) && WireOk(e, w, taken) && Current(e).Some?
    requires 0 < n && w.written + n == |Encode(Current(e).value)|
    ensures Enabled(e, VisibleStep(e))
    ensures var f := Encode(Current(e).value);
            WireOk(Apply(e, VisibleStep(e)), w.(bytes := w.bytes + f[w.written..w.written + n], written := 0), taken)
  {
    CurrentVisible(e);
    hide EndpointOk, Concat, Encode, Current, Apply, Enabled, VisibleStep, TornAt, Untorn;
    var f := Encode(Current(e).value);
    var w' := w.(bytes := w.bytes + f[w.written..w.written + n], written := 0);
    assert Apply(e, VisibleStep(e)).out[..taken] == e.out[..taken];
    if w.tear.Some? {
      TornAtStays(e, VisibleStep(e), w, w', w.tear.value, taken);
    } else {
      UntornLast(e, w, n, Apply(e, VisibleStep(e)));
    }
  }

  /** Complete frames in front of anything: the reader finds the next of them, or its over-ceiling header. */
  lemma {:induction false} NextFound(out: seq<Frame>, taken: nat, rest: Bytes, bytes: Bytes)
    requires taken < |out| && Valid(out[taken]) && bytes == Concat(out) + rest
    ensures |Concat(out[..taken])| <= |bytes|
    ensures var r := ReadFrame(bytes[|Concat(out[..taken])|..]);
            r.Got? ==> r.frame == out[taken] && UnderCeiling(r.frame)
                       && |Concat(out[..taken])| + r.size == |Concat(out[..taken + 1])|
  {
    hide Encode, ReadFrame, Concat;
    var front, back := out[..taken], out[taken..];
    assert out == front + back;
    ConcatAppend(front, back);
    ConcatHead(back);
    assert bytes[|Concat(front)|..] == Encode(back[0]) + (Concat(back[1..]) + rest);
    ReadEncoded(back[0], Concat(back[1..]) + rest);
    assert out[..taken + 1] == front + [back[0]];
    ConcatSnoc(front, back[0]);
  }

  /** The reader finds exactly the next frame of the peer's history, or the over-ceiling header, or reads across. */
  lemma {:induction false} ReaderFinds(e: Endpoint, w: Wire, taken: nat)
    requires EndpointOk(e) && WireOk(e, w, taken)
    ensures w.read <= |w.bytes|
    ensures var r := ReadFrame(w.bytes[w.read..]);
            r.Got? && (w.tear.Some? ==> w.read + r.size <= w.tear.value.at) ==>
              && taken < |e.out| && r.frame == e.out[taken] && UnderCeiling(r.frame)
              && w.read + r.size == |Concat(e.out[..taken + 1])| && (w.tear.Some? ==> taken < w.tear.value.frames)
  {
    FramesPart(e);
    hide EndpointOk, Encode, Current, ReadFrame, Concat, TornOwner;
    if w.tear.Some? {
      ReaderBeforeTear(e, w, w.tear.value, taken);
    } else if taken < |e.out| {
      NextFound(e.out, taken, w.bytes[|Concat(e.out)|..], w.bytes);
    } else {
      assert e.out[..taken] == e.out;
      PartIsNoFrame(e, w);
    }
  }

  lemma {:induction false} FramesPart(e: Endpoint)
    requires EndpointOk(e)
    ensures forall k :: 0 <= k < |e.out| ==> Valid(e.out[k])
  {
  }

  lemma {:induction false} ReaderBeforeTear(e: Endpoint, w: Wire, t: Tear, taken: nat)
    requires (forall k :: 0 <= k < |e.out| ==> Valid(e.out[k])) && TornAt(e, w, t, taken)
    requires w.read == |Concat(e.out[..taken])|
    ensures w.read <= |w.bytes|
    ensures var r := ReadFrame(w.bytes[w.read..]);
            r.Got? && w.read + r.size <= t.at ==>
              && taken < t.frames && r.frame == e.out[taken] && UnderCeiling(r.frame)
              && w.read + r.size == |Concat(e.out[..taken + 1])|
  {
    hide Encode, ReadFrame, Concat, TornOwner;
    var sound := e.out[..t.frames];
    var rest := w.bytes[t.at..];
    assert w.bytes[..t.at] == Concat(sound);
    assert w.bytes == Concat(sound) + rest;
    if taken < t.frames {
      assert sound[..taken] == e.out[..taken] && sound[..taken + 1] == e.out[..taken + 1];
      NextFound(sound, taken, rest, w.bytes);
    } else {
      SizeIsPositive(w.bytes[w.read..]);
    }
  }

  lemma {:induction false} SizeIsPositive(bs: Bytes)
    ensures ReadFrame(bs).Got? ==> ReadFrame(bs).size > 0
  {
  }

  lemma {:induction false} PartIsNoFrame(e: Endpoint, w: Wire)
    requires PartOk(e, w) && Untorn(e, w)
    ensures |Concat(e.out)| <= |w.bytes| && !ReadFrame(w.bytes[|Concat(e.out)|..]).Got?
  {
    hide Encode, ReadFrame, Current, Concat;
    EmptyIsShort();
    if w.written > 0 {
      ReadPartial(Current(e).value, w.written);
    }
  }

  lemma {:induction false} ConcatHead(fs: seq<Frame>)
    requires fs != []
    ensures Concat(fs) == Encode(fs[0]) + Concat(fs[1..])
  {
  }

  lemma {:induction false} EmptyIsShort()
    ensures ReadFrame([]) == Short
  {
  }

  // ---------------------------------------------------------------------------
  // Steps off the wire do not look at the input

  lemma {:induction false} CallAfterInput(e: Endpoint, call: Call, s: CallStep, input: seq<Frame>)
    requires s == ObserveDone ==> call.settled != []
    ensures CallAfter(e.(input := input), call, s) == CallAfter(e, call, s)
  {
  }

  lemma {:induction false} CallEffectInput(e: Endpoint, c: nat, s: CallStep, input: seq<Frame>)
    requires CallEnabled(e, c, s)
    ensures CallEnabled(e.(input := input), c, s)
    ensures CallEffect(e.(input := input), c, s) == CallEffect(e, c, s).(input := input)
  {
  }

  lemma {:induction false} CallInput(e: Endpoint, c: nat, s: CallStep, input: seq<Frame>)
    requires CallEnabled(e, c, s)
    ensures CallEnabled(e.(input := input), c, s)
    ensures CallApply(e.(input := input), c, s) == CallApply(e, c, s).(input := input)
  {
    CallEffectInput(e, c, s, input);
    CallAfterInput(e, e.calls[c], s, input);
    hide CallEffect, CallAfter;
  }

  lemma {:induction false} HandlerEffectInput(e: Endpoint, id: nat, g: nat, s: HandlerStep, input: seq<Frame>)
    requires HandlerEnabled(e, id, g, s)
    ensures HandlerEnabled(e.(input := input), id, g, s)
    ensures HandlerEffect(e.(input := input), id, g, s) == HandlerEffect(e, id, g, s).(input := input)
  {
  }

  lemma {:induction false} HandlerInput(e: Endpoint, id: nat, g: nat, s: HandlerStep, input: seq<Frame>)
    requires HandlerEnabled(e, id, g, s)
    ensures HandlerEnabled(e.(input := input), id, g, s)
    ensures HandlerApply(e.(input := input), id, g, s) == HandlerApply(e, id, g, s).(input := input)
  {
    HandlerEffectInput(e, id, g, s, input);
    var gens := Gens(e, id);
    assert HandlerAfter(e.(input := input), gens[g], s) == HandlerAfter(e, gens[g], s);
    assert Spawned(e.(input := input), id, s) == Spawned(e, id, s);
    hide HandlerEffect, HandlerAfter, Spawned;
  }

  lemma {:induction false} ReceiverInput(e: Endpoint, s: ReceiverStep, input: seq<Frame>)
    requires ReceiverEnabled(e, s) && s != Receive
    ensures ReceiverEnabled(e.(input := input), s)
    ensures ReceiverApply(e.(input := input), s) == ReceiverApply(e, s).(input := input)
  {
  }

  lemma {:induction false} OtherInput(e: Endpoint, s: OtherStep, input: seq<Frame>)
    requires OtherEnabled(e, s) && !s.PeerSends?
    ensures OtherEnabled(e.(input := input), s)
    ensures OtherApply(e.(input := input), s) == OtherApply(e, s).(input := input)
  {
  }

  lemma {:induction false} InputFree(e: Endpoint, s: Step, input: seq<Frame>)
    requires Enabled(e, s) && s != ByReceiver(Receive) && !(s.ByOther? && s.os.PeerSends?)
    ensures Enabled(e.(input := input), s) && Apply(e.(input := input), s) == Apply(e, s).(input := input)
  {
    hide CallApply, HandlerApply, ReceiverApply, OtherApply, CallEnabled, HandlerEnabled, ReceiverEnabled, OtherEnabled;
    match s
    case ByCall(c, cs) => CallInput(e, c, cs, input);
    case ByHandler(id, g, hs) => HandlerInput(e, id, g, hs, input);
    case ByReceiver(rs) => ReceiverInput(e, rs, input);
    case ByOther(os) => OtherInput(e, os, input);
  }

  lemma {:induction false} WireIgnoresInput(e: Endpoint, w: Wire, taken: nat, input: seq<Frame>)
    ensures WireOk(e.(input := input), w, taken) <==> WireOk(e, w, taken)
  {
    hide Concat, Encode;
    assert Current(e.(input := input)) == Current(e);
    if w.tear.Some? {
      TornIgnoresInput(e, w.tear.value.frame, input);
    }
  }

  lemma {:induction false} TornIgnoresInput(e: Endpoint, f: Frame, input: seq<Frame>)
    ensures TornOwner(e.(input := input), f) <==> TornOwner(e, f)
  {
    hide TornCall, TornHandler;
    assert Gens(e.(input := input), f.id) == Gens(e, f.id);
  }

  lemma {:induction false} CurrentIgnoresInput(e: Endpoint, input: seq<Frame>)
    ensures Current(e.(input := input)) == Current(e)
    ensures Current(e).Some? ==> VisibleStep(e.(input := input)) == VisibleStep(e)
  {
  }

  // ---------------------------------------------------------------------------
  // Refinement

  function AbstractMove(s: ByteSystem, m: ByteMove): seq<Move>
    requires BytePossible(s, m)
  {
    match m
    case Plain(side, step) => [Move(side, step)]
    case Accept(side, n) =>
      var e := Here(s.sys, side);
      if WireFrom(s, side).written + n == |Encode(Current(e).value)| then [Move(side, VisibleStep(e))] else []
    case ReadNext(side) =>
      var w := WireFrom(s, Other(side));
      if ReadFrame(w.bytes[w.read..]).Got? then [Move(side, ByReceiver(Receive))]
      else [Move(side, ByReceiver(ReadFails(FrameTooLong)))]
  }

  /** The move is a move of the frame-level system, or leaves it as it was. */
  ghost predicate Simulates(s: ByteSystem, m: ByteMove)
    requires BytePossible(s, m)
  {
    var abs := AbstractMove(s, m);
    var now, next := Abstract(s.sys), Abstract(BytePerform(s, m).sys);
    if abs == [] then next == now else Possible(now, abs[0]) && next == Perform(now, abs[0])
  }

  /** One side of the frame-level system, and the wires as seen from it. */
  lemma {:induction false} WiresOf(s: ByteSystem, side: Side)
    requires ByteOk(s)
    ensures var e := Here(s.sys, side); var o := Here(s.sys, Other(side));
            && Here(Abstract(s.sys), side) == e.(input := o.out)
               && Here(Abstract(s.sys), Other(side)) == o.(input := e.out)
            && EndpointOk(e.(input := o.out)) && EndpointOk(o.(input := e.out))
            && WireOk(e, WireFrom(s, side), o.taken) && WireOk(o, WireFrom(s, Other(side)), e.taken)
  {
  }

  /** Replacing one side by what a step made of it is the frame-level step. */
  lemma {:induction false} OneSideMoves(s: System, side: Side, step: Step, e': Endpoint)
    requires var e := Here(s, side); var o := Here(s, Other(side));
             && Enabled(e.(input := o.out), step) && !(step.ByOther? && step.os.PeerSends?)
             && Apply(e.(input := o.out), step) == e'.(input := o.out)
    ensures Possible(Abstract(s), Move(side, step))
    ensures Perform(Abstract(s), Move(side, step)) == Abstract(SetHere(s, side, e'))
  {
    hide Enabled, Apply;
  }

  lemma {:induction false} PlainMove(s: ByteSystem, side: Side, step: Step)
    requires ByteOk(s) && BytePossible(s, Plain(side, step))
    ensures Simulates(s, Plain(side, step)) && ByteOk(BytePerform(s, Plain(side, step)))
  {
    hide SystemOk, WireOk, EndpointOk, Enabled, Apply;
    WiresOf(s, side);
    var e, o, w := Here(s.sys, side), Here(s.sys, Other(side)), WireFrom(s, side);
    InputFree(e, step, o.out);
    var e' := Apply(e, step);
    OneSideMoves(s.sys, side, step, e');
    WireIgnoresInput(e, w, o.taken, o.out);
    PlainWire(e.(input := o.out), step, w, o.taken);
    CurrentIgnoresInput(e, o.out);
    WireIgnoresInput(e', AfterReturn(e, step, w), o.taken, o.out);
    MoveKeepsSystem(Abstract(s.sys), Move(side, step));
    PlainTakes(e, step);
  }

  lemma {:induction false} PlainTakes(e: Endpoint, s: Step)
    requires Enabled(e, s) && IsPlain(s)
    ensures Apply(e, s).taken == e.taken && Apply(e, s).input == e.input
  {
    hide CallApply, HandlerApply, OtherApply;
    match s
    case ByCall(c, cs) => CallTouches(e, c, cs);
    case ByHandler(i, g, hs) => HandlerTouches(e, i, g, hs);
    case ByReceiver(rs) =>
    case ByOther(os) => OtherTouches(e, os);
  }

  lemma {:induction false} AcceptMove(s: ByteSystem, side: Side, n: nat)
    requires ByteOk(s) && BytePossible(s, Accept(side, n))
    ensures Simulates(s, Accept(side, n)) && ByteOk(BytePerform(s, Accept(side, n)))
  {
    hide SystemOk, WireOk, EndpointOk, Enabled, Apply, Encode, Current, VisibleStep;
    WiresOf(s, side);
    var e, o, w := Here(s.sys, side), Here(s.sys, Other(side)), WireFrom(s, side);
    var ea := e.(input := o.out);
    CurrentIgnoresInput(e, o.out);
    WireIgnoresInput(e, w, o.taken, o.out);
    if w.written + n < |Encode(Current(e).value)| {
      AcceptPart(ea, w, o.taken, n);
      WireIgnoresInput(e, WireFrom(BytePerform(s, Accept(side, n)), side), o.taken, o.out);
    } else {
      AcceptLast(ea, w, o.taken, n);
      VisibleEnabled(e);
      VisibleInput(e, o.out);
      var e' := Apply(e, VisibleStep(e));
      OneSideMoves(s.sys, side, VisibleStep(e), e');
      WireIgnoresInput(e', WireFrom(BytePerform(s, Accept(side, n)), side), o.taken, o.out);
      MoveKeepsSystem(Abstract(s.sys), Move(side, VisibleStep(e)));
      VisibleTakes(e);
    }
  }

  lemma {:induction false} VisibleEnabled(e: Endpoint)
    requires Current(e).Some?
    ensures Enabled(e, VisibleStep(e))
  {
  }

  lemma {:induction false} VisibleInput(e: Endpoint, input: seq<Frame>)
    requires Current(e).Some? && Enabled(e, VisibleStep(e))
    ensures !(VisibleStep(e).ByOther?) && Enabled(e.(input := input), VisibleStep(e))
    ensures Apply(e.(input := input), VisibleStep(e)) == Apply(e, VisibleStep(e)).(input := input)
  {
    hide Enabled, Apply;
    InputFree(e, VisibleStep(e), input);
  }

  lemma {:induction false} VisibleTakes(e: Endpoint)
    requires Current(e).Some? && Enabled(e, VisibleStep(e))
    ensures Apply(e, VisibleStep(e)).taken == e.taken && Apply(e, VisibleStep(e)).input == e.input
  {
  }

  lemma {:induction false} SystemPart(s: ByteSystem)
    requires ByteOk(s)
    ensures SystemOk(Abstract(s.sys))
  {
    hide SystemOk, WireOk;
  }

  lemma {:induction false} ByteWhole(s: ByteSystem)
    requires SystemOk(Abstract(s.sys))
    requires WireOk(s.sys.left, s.fromLeft, s.sys.right.taken) && WireOk(s.sys.right, s.fromRight, s.sys.left.taken)
    ensures ByteOk(s)
  {
    hide SystemOk, WireOk;
  }

  /** The reader and what it finds: the next frame of the peer's history, or the over-ceiling header. */
  lemma {:induction false} ReadFinds(s: ByteSystem, side: Side)
    requires ByteOk(s) && BytePossible(s, ReadNext(side)) && !ReadsAcross(s, ReadNext(side))
    ensures var e, o, w := Here(s.sys, side), Here(s.sys, Other(side)), WireFrom(s, Other(side));
            && w.read <= |w.bytes|
            && var r := ReadFrame(w.bytes[w.read..]);
               r.Got? ==>
                 && e.taken < |o.out| && r.frame == o.out[e.taken] && UnderCeiling(r.frame)
                 && w.read + r.size == |Concat(o.out[..e.taken + 1])|
                 && (w.tear.Some? ==> e.taken < w.tear.value.frames)
  {
    WiresOf(s, side);
    hide ByteOk, WireOk, EndpointOk, ReadFrame, Concat;
    var e, o, w := Here(s.sys, side), Here(s.sys, Other(side)), WireFrom(s, Other(side));
    WireIgnoresInput(o, w, e.taken, e.out);
    ReaderFinds(o.(input := e.out), w, e.taken);
  }

  lemma {:induction false} ReadSystem(s: ByteSystem, side: Side)
    requires BytePossible(s, ReadNext(side))
    ensures var w := WireFrom(s, Other(side)); var r := ReadFrame(w.bytes[w.read..]); var e := Here(s.sys, side);
            BytePerform(s, ReadNext(side)).sys ==
            SetHere(s.sys, side, if r.Got? then Received(e, r.frame) else e.(receiver := ReadFailing(FrameTooLong)))
  {
    hide ReadFrame, Received;
  }

  lemma {:induction false} ReadSimulates(s: ByteSystem, side: Side)
    requires ByteOk(s) && BytePossible(s, ReadNext(side)) && !ReadsAcross(s, ReadNext(side))
    ensures Simulates(s, ReadNext(side)) && AbstractMove(s, ReadNext(side)) != []
  {
    ReadFinds(s, side);
    ReadPart(s, side);
    ReadSystem(s, side);
    hide ByteOk, BytePossible, BytePerform, Possible, Perform, Abstract, SetHere, ReadsAcross, ReadFrame, Received,
         Concat, Enabled, Apply;
    var e, o, w := Here(s.sys, side), Here(s.sys, Other(side)), WireFrom(s, Other(side));
    var r := ReadFrame(w.bytes[w.read..]);
    ReadPossible(e, o, w);
    var e' := if r.Got? then Received(e, r.frame) else e.(receiver := ReadFailing(FrameTooLong));
    OneSideMoves(s.sys, side, AbstractMove(s, ReadNext(side))[0].step, e');
  }

  /** Reading changes the reader and its place in the other's stream. */
  lemma {:induction false} ReadShapeOf(s: ByteSystem, side: Side)
    requires BytePossible(s, ReadNext(side))
    ensures var w := WireFrom(s, Other(side)); var r := ReadFrame(w.bytes[w.read..]); var e := Here(s.sys, side);
            var s' := BytePerform(s, ReadNext(side));
            && Here(s'.sys, side) ==
               (if r.Got? then Received(e, r.frame) else e.(receiver := ReadFailing(FrameTooLong)))
            && Here(s'.sys, Other(side)) == Here(s.sys, Other(side)) && WireFrom(s', side) == WireFrom(s, side)
            && WireFrom(s', Other(side)) == if r.Got? then w.(read := w.read + r.size) else w
  {
    hide ReadFrame, Received;
  }

  lemma {:induction false} WiresBoth(s: ByteSystem, side: Side)
    requires WireOk(Here(s.sys, side), WireFrom(s, side), Here(s.sys, Other(side)).taken)
    requires WireOk(Here(s.sys, Other(side)), WireFrom(s, Other(side)), Here(s.sys, side).taken)
    ensures WireOk(s.sys.left, s.fromLeft, s.sys.right.taken) && WireOk(s.sys.right, s.fromRight, s.sys.left.taken)
  {
    hide WireOk;
  }

  lemma {:induction false} ReadPart(s: ByteSystem, side: Side)
    requires BytePossible(s, ReadNext(side))
    ensures Here(s.sys, side).receiver.Reading?
  {
  }

  /** Both streams stay laid out when `e` reads from the stream `w` of `o`. */
  lemma {:induction false} AfterRead(e: Endpoint, o: Endpoint, v: Wire, w: Wire)
    requires WireOk(e, v, o.taken) && WireOk(o, w, e.taken) && e.receiver.Reading? && w.read <= |w.bytes|
    requires var r := ReadFrame(w.bytes[w.read..]);
             r.Got? ==>
               && e.taken < |o.out| && r.frame == o.out[e.taken] && UnderCeiling(r.frame)
               && w.read + r.size == |Concat(o.out[..e.taken + 1])| && (w.tear.Some? ==> e.taken < w.tear.value.frames)
    ensures var r := ReadFrame(w.bytes[w.read..]);
            var e' := if r.Got? then Received(e, r.frame) else e.(receiver := ReadFailing(FrameTooLong));
            var w' := if r.Got? then w.(read := w.read + r.size) else w;
            WireOk(e', v, o.taken) && WireOk(o, w', e'.taken)
  {
    hide WireOk, ReadFrame, Received, Concat, Enabled, Apply;
    var r := ReadFrame(w.bytes[w.read..]);
    var e' := if r.Got? then Received(e, r.frame) else e.(receiver := ReadFailing(FrameTooLong));
    ReadPossible(e, o, w);
    WireIgnoresInput(e, v, o.taken, o.out);
    ReceiverWire(e.(input := o.out), v, o.taken, if r.Got? then Receive else ReadFails(FrameTooLong));
    WireIgnoresInput(e', v, o.taken, o.out);
    if r.Got? {
      WireTaken(o, w, e.taken, r.size);
    }
  }

  lemma {:induction false} ReadLayout(s: ByteSystem, side: Side)
    requires ByteOk(s) && BytePossible(s, ReadNext(side)) && !ReadsAcross(s, ReadNext(side))
    ensures var s' := BytePerform(s, ReadNext(side));
            && WireOk(s'.sys.left, s'.fromLeft, s'.sys.right.taken)
            && WireOk(s'.sys.right, s'.fromRight, s'.sys.left.taken)
  {
    hide *;
    ReadFinds(s, side);
    ReadShapeOf(s, side);
    WiresOf(s, side);
    ReadPart(s, side);
    AfterRead(Here(s.sys, side), Here(s.sys, Other(side)), WireFrom(s, side), WireFrom(s, Other(side)));
    WiresBoth(BytePerform(s, ReadNext(side)), side);
  }

  lemma {:induction false} ReadMove(s: ByteSystem, side: Side)
    requires ByteOk(s) && BytePossible(s, ReadNext(side)) && !ReadsAcross(s, ReadNext(side))
    ensures Simulates(s, ReadNext(side)) && ByteOk(BytePerform(s, ReadNext(side)))
  {
    ReadSimulates(s, side);
    ReadLayout(s, side);
    hide ByteOk, SystemOk, WireOk, BytePerform, Abstract, Possible, Perform;
    assert SystemOk(Abstract(s.sys)) by { SystemPart(s); }
    var m := AbstractMove(s, ReadNext(side))[0];
    MoveKeepsSystem(Abstract(s.sys), m);
    ByteWhole(BytePerform(s, ReadNext(side)));
  }

  /** What the reader does at byte level is what the receive loop does with the next frame of the peer's history. */
  lemma {:induction false} ReadPossible(e: Endpoint, o: Endpoint, w: Wire)
    requires e.receiver.Reading? && w.read <= |w.bytes|
    requires var r := ReadFrame(w.bytes[w.read..]);
             r.Got? ==> e.taken < |o.out| && r.frame == o.out[e.taken] && UnderCeiling(r.frame)
    ensures var r := ReadFrame(w.bytes[w.read..]); var ea := e.(input := o.out);
            if r.Got? then
              && Enabled(ea, ByReceiver(Receive)) && Received(e, r.frame).taken == e.taken + 1
              && Apply(ea, ByReceiver(Receive)) == Received(e, r.frame).(input := o.out)
            else
              && Enabled(ea, ByReceiver(ReadFails(FrameTooLong)))
              && Apply(ea, ByReceiver(ReadFails(FrameTooLong))) ==
                 e.(receiver := ReadFailing(FrameTooLong)).(input := o.out)
  {
    hide ReadFrame;
    var r := ReadFrame(w.bytes[w.read..]);
    if r.Got? {
      ReceivedInput(e, r.frame, o.out);
    }
  }

  lemma {:induction false} RequestInput(e: Endpoint, f: Frame, input: seq<Frame>)
    ensures ReceiveRequest(e.(input := input), f) == ReceiveRequest(e, f).(input := input)
    ensures ReceiveRequest(e, f).taken == e.taken + 1 && ReceiveRequest(e, f).input == e.input
  {
    hide AdmitIncoming;
    match AdmitResult(e.lock, f.id)
    case Discard =>
    case Terminal =>
    case Deferred =>
    case Dispatch =>
  }

  lemma {:induction false} ResponseInput(e: Endpoint, f: Frame, input: seq<Frame>)
    ensures ReceiveResponse(e.(input := input), f) == ReceiveResponse(e, f).(input := input)
    ensures ReceiveResponse(e, f).taken == e.taken + 1 && ReceiveResponse(e, f).input == e.input
  {
  }

  lemma {:induction false} ReceivedInput(e: Endpoint, f: Frame, input: seq<Frame>)
    ensures Received(e, f).(input := input) ==
            if f.kind == Request then ReceiveRequest(e.(input := input), f) else ReceiveResponse(e.(input := input), f)
    ensures Received(e, f).taken == e.taken + 1 && Received(e, f).input == e.input + [f]
  {
    hide ReceiveRequest, ReceiveResponse;
    var e' := e.(input := e.input + [f]);
    assert e'.(input := input) == e.(input := input);
    RequestInput(e', f, input);
    ResponseInput(e', f, input);
  }

  lemma {:induction false} WireTaken(e: Endpoint, w: Wire, taken: nat, size: nat)
    requires WireOk(e, w, taken) && taken < |e.out| && w.read + size == |Concat(e.out[..taken + 1])|
    requires w.tear.Some? ==> taken < w.tear.value.frames
    ensures WireOk(e, w.(read := w.read + size), taken + 1)
  {
  }

  lemma {:induction false} ReceiverWire(e: Endpoint, w: Wire, taken: nat, s: ReceiverStep)
    requires Enabled(e, ByReceiver(s)) && WireOk(e, w, taken)
    ensures WireOk(Apply(e, ByReceiver(s)), w, taken)
  {
    hide Concat, Encode, Current, Apply, Enabled, TornAt;
    RestCurrent(e, ByReceiver(s));
    if w.tear.Some? {
      TornAtStays(e, ByReceiver(s), w, w, w.tear.value, taken);
    }
  }

  /** A byte-level move that reads nothing across a tear is one frame-level move or none, and keeps the wire layout. */
  lemma {:induction false} ByteMoveRefines(s: ByteSystem, m: ByteMove)
    requires ByteOk(s) && BytePossible(s, m) && !ReadsAcross(s, m)
    ensures Simulates(s, m) && ByteOk(BytePerform(s, m))
  {
    match m
    case Plain(side, step) => PlainMove(s, side, step);
    case Accept(side, n) => AcceptMove(s, side, n);
    case ReadNext(side) => ReadMove(s, side);
  }

  lemma {:induction false} RunSnoc(s: System, moves: seq<Move>, m: Move)
    requires IsSystemRun(s, moves) && Possible(Final(s, moves), m)
    ensures IsSystemRun(s, moves + [m]) && Final(s, moves + [m]) == Perform(Final(s, moves), m)
    decreases |moves|
  {
    hide Possible, Perform;
    if moves == [] {
      assert moves + [m] == [m];
      assert IsSystemRun(s, [m]) && Final(s, [m]) == Perform(s, m) by { OneMove(s, m); }
    } else {
      RunSnoc(Perform(s, moves[0]), moves[1..], m);
      assert (moves + [m])[0] == moves[0] && (moves + [m])[1..] == moves[1..] + [m];
    }
  }

  lemma {:induction false} OneMove(s: System, m: Move)
    requires Possible(s, m)
    ensures IsSystemRun(s, [m]) && Final(s, [m]) == Perform(s, m)
  {
    hide Possible, Perform;
    assert [m][1..] == [];
  }

  lemma {:induction false} ByteRunRefinesFrom(s: ByteSystem, moves: seq<ByteMove>, done: seq<Move>)
    returns (all: seq<Move>)
    requires ByteOk(s) && IsByteRun(s, moves) && NoReadAcrossTear(s, moves)
    requires IsSystemRun(BEGIN, done) && Final(BEGIN, done) == Abstract(s.sys)
    ensures ByteOk(ByteFinal(s, moves))
    ensures IsSystemRun(BEGIN, all) && Final(BEGIN, all) == Abstract(ByteFinal(s, moves).sys)
    decreases |moves|
  {
    hide ByteOk, BytePossible, BytePerform, IsSystemRun, Final, Possible, Perform, AbstractMove, Abstract;
    all := done;
    if moves != [] {
      var m := moves[0];
      ByteMoveRefines(s, m);
      var abs := AbstractMove(s, m);
      if abs != [] {
        RunSnoc(BEGIN, done, abs[0]);
        all := done + [abs[0]];
      }
      all := ByteRunRefinesFrom(BytePerform(s, m), moves[1..], all);
    }
  }

  lemma {:induction false} SilentOk()
    ensures ByteOk(BYTE_BEGIN) && Abstract(BYTE_BEGIN.sys) == BEGIN
  {
    BeginOk();
  }

  /**
   * Every run over byte channels, with any short writes, any timing of reads and any failed write, in which no frame
   * is read across a torn one, reaches only states of the frame-level system; and unless a write tore a frame the bytes
   * accepted are exactly the complete frames in gate order followed by the written part of the one in progress.
   */
  lemma {:induction false} ByteRunRefines(moves: seq<ByteMove>) returns (all: seq<Move>)
    requires IsByteRun(BYTE_BEGIN, moves) && NoReadAcrossTear(BYTE_BEGIN, moves)
    ensures var s := ByteFinal(BYTE_BEGIN, moves);
            && IsSystemRun(BEGIN, all) && Final(BEGIN, all) == Abstract(s.sys)
            && WireOk(s.sys.left, s.fromLeft, s.sys.right.taken)
            && WireOk(s.sys.right, s.fromRight, s.sys.left.taken)
  {
    SilentOk();
    all := ByteRunRefinesFrom(BYTE_BEGIN, moves, []);
  }

  // ---------------------------------------------------------------------------
  // A stream that accepts nothing after a tear

  /** Nothing was accepted after the torn part. */
  predicate Quiet(w: Wire) {
    w.tear.Some? ==> |w.bytes| == w.tear.value.at + w.tear.value.part
  }

  /** Then no frame can be read across the tear: behind the complete frames there is only a part of one. */
  lemma {:induction false} QuietReader(e: Endpoint, w: Wire, t: Tear, taken: nat)
    requires (forall k :: 0 <= k < |e.out| ==> Valid(e.out[k])) && TornAt(e, w, t, taken)
    requires w.read == |Concat(e.out[..taken])| && |w.bytes| == t.at + t.part
    ensures w.read <= |w.bytes|
    ensures ReadFrame(w.bytes[w.read..]).Got? ==> w.read + ReadFrame(w.bytes[w.read..]).size <= t.at
  {
    hide Encode, ReadFrame, Concat, TornOwner;
    var sound, torn := e.out[..t.frames], Encode(t.frame)[..t.part];
    assert w.bytes == Concat(sound) + torn;
    if taken < t.frames {
      assert sound[..taken] == e.out[..taken];
      NextFound(sound, taken, torn, w.bytes);
      ConcatWithin(sound, taken + 1);
    } else {
      assert w.bytes[w.read..] == torn;
      ReadPartial(t.frame, t.part);
    }
  }

  lemma {:induction false} ConcatWithin(fs: seq<Frame>, k: nat)
    requires k <= |fs|
    ensures |Concat(fs[..k])| <= |Concat(fs)|
  {
    hide Concat;
    assert fs == fs[..k] + fs[k..];
    ConcatAppend(fs[..k], fs[k..]);
  }

  lemma {:induction false} QuietMove(s: ByteSystem, m: ByteMove)
    requires ByteOk(s) && BytePossible(s, m) && Quiet(s.fromLeft) && Quiet(s.fromRight)
    requires m.Accept? ==> !Here(s.sys, m.side).broken
    ensures !ReadsAcross(s, m)
    ensures var s' := BytePerform(s, m); ByteOk(s') && Quiet(s'.fromLeft) && Quiet(s'.fromRight)
  {
    hide SystemOk, EndpointOk, Enabled, Apply, Encode, Current, VisibleStep, ReadFrame, Received, Concat, TornAt;
    if m.ReadNext? {
      WiresOf(s, m.side);
      var e, o, w := Here(s.sys, m.side), Here(s.sys, Other(m.side)), WireFrom(s, Other(m.side));
      FramesPart(o.(input := e.out));
      if w.tear.Some? {
        QuietReader(o, w, w.tear.value, e.taken);
      }
    }
    ByteMoveRefines(s, m);
  }

  lemma {:induction false} QuietRun(s: ByteSystem, moves: seq<ByteMove>)
    requires ByteOk(s) && Quiet(s.fromLeft) && Quiet(s.fromRight) && IsByteRun(s, moves) && NothingAfterTear(s, moves)
    ensures NoReadAcrossTear(s, moves)
    decreases |moves|
  {
    hide ByteOk, BytePossible, BytePerform, ReadsAcross, Quiet;
    if moves != [] {
      QuietMove(s, moves[0]);
      QuietRun(BytePerform(s, moves[0]), moves[1..]);
    }
  }

  /** A run in which no byte is accepted after a torn frame reads no frame across it. */
  lemma {:induction false} NothingAfterIsSafe(moves: seq<ByteMove>)
    requires IsByteRun(BYTE_BEGIN, moves) && NothingAfterTear(BYTE_BEGIN, moves)
    ensures NoReadAcrossTear(BYTE_BEGIN, moves)
  {
    SilentOk();
    QuietRun(BYTE_BEGIN, moves);
  }

  /** Reading back the bytes of an untorn stream between frames returns exactly the frames that were written. */
  lemma {:induction false} WireParses(e: Endpoint, w: Wire, taken: nat)
    requires WireOk(e, w, taken) && EndpointOk(e) && !e.broken && w.written == 0
    requires forall f :: f in e.out ==> UnderCeiling(f)
    ensures w.bytes == Concat(e.out) && ParseAll(w.bytes) == Parse(e.out, [], false)
  {
    hide IncomingRequests.Inv, Calls.Inv, GateOk, RequestsOk, OrderOk, EvidenceOk, Encode;
    assert w.bytes == Concat(e.out) + [];
    ParseConcat(e.out, []);
    EmptyIsShort();
    assert e.out + [] == e.out;
  }

  // ---------------------------------------------------------------------------
  // The frame-level theorems, for bytes

  lemma {:induction false} SameButInput(s: System, side: Side)
    ensures Here(Abstract(s), side) == Here(s, side).(input := Here(s, Other(side)).out)
  {
  }

  /** A call settled by a response was settled with what the one dispatch of its own key and payload returned. */
  lemma {:induction false} ByteResponseBelongsToCall(moves: seq<ByteMove>, side: Side, c: nat, m: Message)
    requires IsByteRun(BYTE_BEGIN, moves) && NoReadAcrossTear(BYTE_BEGIN, moves)
    requires var a := Here(ByteFinal(BYTE_BEGIN, moves).sys, side); c < |a.calls| && Accepted(m) in a.calls[c].settled
    ensures var s := ByteFinal(BYTE_BEGIN, moves).sys; Answered(Here(s, side), Here(s, Other(side)), c, m)
  {
    hide IsByteRun, NoReadAcrossTear, ByteFinal, IsSystemRun, Final, WireOk;
    var all := ByteRunRefines(moves);
    var s := ByteFinal(BYTE_BEGIN, moves).sys;
    SameButInput(s, side);
    SameButInput(s, Other(side));
    ResponseBelongsToCall(all, side, c, m);
  }

  /** Call `c` of `a` was settled with `m`, which the one dispatch of its request on `b` returned. */
  predicate Answered(a: Endpoint, b: Endpoint, c: nat, m: Message) {
    && c < |a.calls| && a.calls[c].settled == [Accepted(m)] && a.calls[c].id.Some?
    && var gens := Gens(b, a.calls[c].id.value);
       |gens| == 1 && gens[0].request == a.calls[c].request && gens[0].result == Some(m)
  }

  /** The duplicate-ID error is unreachable. */
  lemma {:induction false} ByteDuplicateIsUnreachable(moves: seq<ByteMove>, side: Side)
    requires IsByteRun(BYTE_BEGIN, moves) && NoReadAcrossTear(BYTE_BEGIN, moves)
    ensures !Here(ByteFinal(BYTE_BEGIN, moves).sys, side).receiver.Duplicate?
  {
    hide IsByteRun, NoReadAcrossTear, ByteFinal, IsSystemRun, Final, WireOk;
    var all := ByteRunRefines(moves);
    SameButInput(ByteFinal(BYTE_BEGIN, moves).sys, side);
    DuplicateIsUnreachable(all, side);
  }

  /** Every issued request ID is in exactly one place. */
  lemma {:induction false} ByteEveryIdHasOnePlace(moves: seq<ByteMove>, side: Side, id: nat)
    requires IsByteRun(BYTE_BEGIN, moves) && NoReadAcrossTear(BYTE_BEGIN, moves)
    requires id < |Here(ByteFinal(BYTE_BEGIN, moves).sys, side).issued|
    ensures var s := Abstract(ByteFinal(BYTE_BEGIN, moves).sys); var a := Here(s, side); var b := Here(s, Other(side));
            && a.taken <= |a.input| && b.taken <= |b.input|
            && Count(Unwritten(a, id)) + Count(RequestInFlight(a, b, id)) + Count(DroppedByTerminalPeer(b, id))
               + Count(HandlerOwns(b, id)) + Count(ResponseInFlight(a, id)) + Count(ResponseConsumed(a, id)) == 1
  {
    hide IsByteRun, NoReadAcrossTear, ByteFinal, IsSystemRun, Final, WireOk, Carries;
    var all := ByteRunRefines(moves);
    SameButInput(ByteFinal(BYTE_BEGIN, moves).sys, side);
    EveryIdHasOnePlace(all, side, id);
  }

  // ---------------------------------------------------------------------------
  // One side, torn streams or not

  /** Every side has read all the frames in its input. */
  predicate AllRead(s: ByteSystem, side: Side) {
    Here(s.sys, side).taken == |Here(s.sys, side).input|
  }

  /** Reading a frame is its arrival and one turn of the receive loop. */
  lemma {:induction false} ReadIsTwoSteps(e: Endpoint, f: Frame)
    requires e.receiver.Reading? && e.taken == |e.input| && Valid(f) && UnderCeiling(f)
    ensures Enabled(e, ByOther(PeerSends(f)))
    ensures var e' := Apply(e, ByOther(PeerSends(f)));
            Enabled(e', ByReceiver(Receive)) && Apply(e', ByReceiver(Receive)) == Received(e, f)
    ensures Received(e, f).taken == |Received(e, f).input|
  {
    ReceivedInput(e, f, e.input + [f]);
  }

  lemma {:induction false} SideStep(s: ByteSystem, m: ByteMove, side: Side, steps: seq<Step>) returns (more: seq<Step>)
    requires BytePossible(s, m) && AllRead(s, side) && IsRun(START, steps) && After(START, steps) == Here(s.sys, side)
    ensures AllRead(BytePerform(s, m), side)
    ensures IsRun(START, more) && After(START, more) == Here(BytePerform(s, m).sys, side)
  {
    hide Enabled, Apply, IsRun, After, Encode, Current, VisibleStep, ReadFrame, Received;
    var e := Here(s.sys, side);
    more := steps;
    match m
    case Plain(at, step) =>
      if at == side {
        PlainTakes(e, step);
        RunAppend(START, steps, step);
        more := steps + [step];
      }
    case Accept(at, n) =>
      if at == side && WireFrom(s, side).written + n == |Encode(Current(e).value)| {
        VisibleEnabled(e);
        VisibleTakes(e);
        RunAppend(START, steps, VisibleStep(e));
        more := steps + [VisibleStep(e)];
      }
    case ReadNext(at) =>
      if at == side {
        more := ReadStep(s, side, steps);
      }
  }

  lemma {:induction false} ReadStep(s: ByteSystem, side: Side, steps: seq<Step>) returns (more: seq<Step>)
    requires BytePossible(s, ReadNext(side)) && AllRead(s, side) && IsRun(START, steps)
    requires After(START, steps) == Here(s.sys, side)
    ensures AllRead(BytePerform(s, ReadNext(side)), side)
    ensures IsRun(START, more) && After(START, more) == Here(BytePerform(s, ReadNext(side)).sys, side)
  {
    hide Enabled, Apply, IsRun, After, ReadFrame, Received;
    var e, w := Here(s.sys, side), WireFrom(s, Other(side));
    var r := ReadFrame(w.bytes[w.read..]);
    if r.Got? {
      ReadIsCanonical(w.bytes[w.read..]);
      ReadIsTwoSteps(e, r.frame);
      RunAppend(START, steps, ByOther(PeerSends(r.frame)));
      more := steps + [ByOther(PeerSends(r.frame))];
      RunAppend(START, more, ByReceiver(Receive));
      more := more + [ByReceiver(Receive)];
    } else {
      CeilingStep(e);
      RunAppend(START, steps, ByReceiver(ReadFails(FrameTooLong)));
      more := steps + [ByReceiver(ReadFails(FrameTooLong))];
    }
  }

  lemma {:induction false} CeilingStep(e: Endpoint)
    requires e.receiver.Reading?
    ensures Enabled(e, ByReceiver(ReadFails(FrameTooLong)))
    ensures Apply(e, ByReceiver(ReadFails(FrameTooLong))) == e.(receiver := ReadFailing(FrameTooLong))
  {
  }

  lemma {:induction false} SideRunFrom(s: ByteSystem, moves: seq<ByteMove>, side: Side, done: seq<Step>)
    returns (steps: seq<Step>)
    requires IsByteRun(s, moves) && AllRead(s, side) && IsRun(START, done) && After(START, done) == Here(s.sys, side)
    ensures IsRun(START, steps) && After(START, steps) == Here(ByteFinal(s, moves).sys, side)
    decreases |moves|
  {
    hide BytePossible, BytePerform, IsRun, After;
    steps := done;
    if moves != [] {
      steps := SideStep(s, moves[0], side, done);
      steps := SideRunFrom(BytePerform(s, moves[0]), moves[1..], side, steps);
    }
  }

  /**
   * In every byte-level run, whatever is accepted after a torn frame, each side is one endpoint against some peer: the
   * one that sends the frames its reader parsed. So every property of an endpoint against an arbitrary peer holds.
   */
  lemma {:induction false} ByteSideIsEndpoint(moves: seq<ByteMove>, side: Side) returns (steps: seq<Step>)
    requires IsByteRun(BYTE_BEGIN, moves)
    ensures IsRun(START, steps) && After(START, steps) == Here(ByteFinal(BYTE_BEGIN, moves).sys, side)
  {
    steps := SideRunFrom(BYTE_BEGIN, moves, side, []);
  }

  /** Even on torn streams a call is completed at most once, and returns what it was settled with. */
  lemma {:induction false} ByteSettledAtMostOnce(moves: seq<ByteMove>, side: Side, c: nat)
    requires IsByteRun(BYTE_BEGIN, moves) && c < |Here(ByteFinal(BYTE_BEGIN, moves).sys, side).calls|
    ensures var call := Here(ByteFinal(BYTE_BEGIN, moves).sys, side).calls[c];
            && |call.settled| <= 1
            && (call.pc.Returned? && call.pc.result.Settled? ==> call.settled == [call.pc.result.outcome])
  {
    hide IsByteRun, ByteFinal, IsRun, After;
    var steps := ByteSideIsEndpoint(moves, side);
    Calls.SettledAtMostOnce(steps, c);
  }
}
