/**
 * What happens when a stream accepts bytes after a torn frame: the reader completes the torn frame with them, under the
 * ID of the torn one. One concrete run settles a call with the answer to a request that nobody made.
 */
module TornWire {
  import opened LittleEndian
  import opened Frames
  import opened Locked
  import opened Endpoints
  import opened IncomingRequests
  import opened WireOrder
  import opened TwoEndpoints
  import opened ByteWire

  // ---------------------------------------------------------------------------
  // Every torn frame

  /** The frame that a reader makes of `n` bytes of a torn frame and whatever follows. */
  function Completed(a: Frame, n: nat, rest: Bytes): Frame
    requires HEADER_SIZE <= n <= |Encode(a)| <= n + |rest|
  {
    a.(payload := a.payload[..n - HEADER_SIZE] + rest[..|Encode(a)| - n])
  }

  /** Where the header ends and the payload is cut, in plain sequences. */
  lemma {:induction false} CutPayload(header: Bytes, payload: Bytes, n: nat, rest: Bytes)
    requires |header| <= n <= |header| + |payload|
    ensures var bs := (header + payload)[..n] + rest; var k := |header| + |payload| - n;
            && |bs| == n + |rest| && bs[..|header|] == header
            && (header + payload)[n..] == payload[n - |header|..]
            && (|rest| >= k ==> bs[|header|..|header| + |payload|] == payload[..n - |header|] + rest[..k])
  {
    var front := payload[..n - |header|];
    assert (header + payload)[..n] == header + front;
    var bs := header + (front + rest);
    assert (header + front) + rest == bs;
    assert bs[..|header|] == header && bs[|header|..] == front + rest;
  }

  /** Filling the gap gives the payload back if and only if the filling is what was cut off. */
  lemma {:induction false} FillsExactly(payload: Bytes, m: nat, filled: Bytes)
    requires m <= |payload|
    ensures payload[..m] + filled == payload <==> filled == payload[m..]
  {
    assert payload == payload[..m] + payload[m..];
    assert (payload[..m] + filled)[m..] == filled;
  }

  /** With a header parsed, a frame is read as soon as its payload is there. */
  lemma {:induction false} ReadWithHeader(bs: Bytes, h: Header)
    requires |bs| >= HEADER_SIZE && ParseHeader(bs[..HEADER_SIZE]) == Parsed(h)
    ensures ReadFrame(bs) ==
            if |bs| < HEADER_SIZE + h.length then Short
            else Got(Frame(h.kind, h.id, h.key, bs[HEADER_SIZE..HEADER_SIZE + h.length]), HEADER_SIZE + h.length)
  {
    hide ParseHeader;
  }

  lemma {:induction false} CompletedExactly(a: Frame, n: nat, rest: Bytes)
    requires HEADER_SIZE <= n <= |Encode(a)| <= n + |rest|
    ensures var k := |Encode(a)| - n;
            Completed(a, n, rest) == a <==> rest[..k] == a.payload[n - HEADER_SIZE..]
  {
    FillsExactly(a.payload, n - HEADER_SIZE, rest[..|Encode(a)| - n]);
    hide Encode;
  }

  /**
   * After a frame torn behind its header, the next bytes complete it: the reader finds a frame with the kind, ID and
   * key of the torn one, and it is the torn one if and only if the next bytes happen to be the bytes that were lost.
   */
  lemma {:induction false} TornIsCompleted(a: Frame, n: nat, rest: Bytes)
    requires Valid(a) && UnderCeiling(a) && HEADER_SIZE <= n < |Encode(a)|
    ensures var k := |Encode(a)| - n; var r := ReadFrame(Encode(a)[..n] + rest);
            if |rest| < k then r == Short
            else
              && r == Got(Completed(a, n, rest), |Encode(a)|)
              && (Completed(a, n, rest) == a <==> rest[..k] == Encode(a)[n..])
  {
    var header, length := HeaderBytes(a.kind, a.id, a.key, |a.payload|), |a.payload|;
    var bs := Encode(a)[..n] + rest;
    assert Encode(a) == header + a.payload;
    ParseHeaderBytes(a.kind, a.id, a.key, length);
    hide HeaderBytes, ParseHeader, ReadFrame, Encode, Put, RawId;
    CutPayload(header, a.payload, n, rest);
    ReadWithHeader(bs, Header(a.kind, a.id, a.key, length));
    if |rest| >= |Encode(a)| - n {
      CompletedExactly(a, n, rest);
    }
  }

  /** A header torn in the middle is completed the same way, whatever it then says. */
  lemma {:induction false} TornHeaderIsCompleted(a: Frame, n: nat, rest: Bytes)
    requires n < HEADER_SIZE && HEADER_SIZE - n <= |rest|
    ensures var bs := Encode(a)[..n] + rest; ReadFrame(bs).Got? ==>
              ParseHeader(Encode(a)[..n] + rest[..HEADER_SIZE - n]).Parsed?
              && Encode(ReadFrame(bs).frame)[..n] == Encode(a)[..n]
  {
    hide ParseHeader;
    var bs := Encode(a)[..n] + rest;
    assert bs[..HEADER_SIZE] == Encode(a)[..n] + rest[..HEADER_SIZE - n];
    if ReadFrame(bs).Got? {
      ReadIsCanonical(bs);
      assert bs[..ReadFrame(bs).size][..n] == bs[..n];
    }
  }

  /**
   * On every torn stream that a run leaves: behind the complete frames the reader finds the torn frame completed by
   * whatever was accepted after it.
   */
  lemma {:induction false} EveryTornWire(e: Endpoint, w: Wire, taken: nat)
    requires WireOk(e, w, taken) && e.broken
    ensures w.tear.Some?
    ensures var t := w.tear.value; t.at + t.part <= |w.bytes| && Valid(t.frame)
    ensures var t := w.tear.value; var rest := w.bytes[t.at + t.part..];
            HEADER_SIZE <= t.part < |Encode(t.frame)| <= t.part + |rest| && UnderCeiling(t.frame) ==>
              ReadFrame(w.bytes[t.at..]) == Got(Completed(t.frame, t.part, rest), |Encode(t.frame)|)
  {
    hide Encode, Concat, ReadFrame, Completed, TornOwner, Current;
    var t := w.tear.value;
    AfterTear(e, w, t, taken);
    var rest := w.bytes[t.at + t.part..];
    if HEADER_SIZE <= t.part < |Encode(t.frame)| <= t.part + |rest| && UnderCeiling(t.frame) {
      TornIsCompleted(t.frame, t.part, rest);
    }
  }

  lemma {:induction false} AfterTear(e: Endpoint, w: Wire, t: Tear, taken: nat)
    requires TornAt(e, w, t, taken)
    ensures t.at + t.part <= |w.bytes| && w.bytes[t.at..] == Encode(t.frame)[..t.part] + w.bytes[t.at + t.part..]
  {
    hide Encode, Concat, TornOwner;
    var front, torn := Concat(e.out[..t.frames]), Encode(t.frame)[..t.part];
    assert w.bytes[..t.at + t.part] == front + torn;
    assert w.bytes == (front + torn) + w.bytes[t.at + t.part..];
    assert (front + torn) + w.bytes[t.at + t.part..] == front + (torn + w.bytes[t.at + t.part..]);
  }

  // ---------------------------------------------------------------------------
  // Reading across a tear

  const ID_BYTES: nat := 8

  /** The first eight bytes of a frame say its kind and ID. */
  lemma {:induction false} IdBytes(f: Frame, g: Frame)
    requires Valid(f) && Valid(g) && Encode(f)[..ID_BYTES] == Encode(g)[..ID_BYTES]
    ensures f.kind == g.kind && f.id == g.id
  {
    FirstBytes(f);
    FirstBytes(g);
    RawIdBack(f);
    RawIdBack(g);
    hide Encode, Put, Get;
  }

  lemma {:induction false} FirstBytes(f: Frame)
    ensures Encode(f)[..ID_BYTES] == Put(RawId(f.kind, f.id), ID_BYTES)
  {
    hide Put;
    var raw, key, length := Put(RawId(f.kind, f.id), 8), Put(f.key, 8), Put(|f.payload|, 8);
    assert raw + key + length + f.payload == raw + (key + length + f.payload);
  }

  lemma {:induction false} RawIdBack(f: Frame)
    requires Valid(f)
    ensures Get(Put(RawId(f.kind, f.id), ID_BYTES)) == RawId(f.kind, f.id)
    ensures f.kind == Request <==> RawId(f.kind, f.id) < RESPONSE_BIT
    ensures f.id == RawId(f.kind, f.id) - if f.kind == Request then 0 else RESPONSE_BIT
  {
    hide Put, Get;
    Capacity8();
    GetPut(RawId(f.kind, f.id), 8);
  }

  /** A reader that reads across a tear stands exactly at it. */
  lemma {:induction false} StandsAtTear(e: Endpoint, w: Wire, t: Tear, taken: nat)
    requires (forall k :: 0 <= k < |e.out| ==> Valid(e.out[k])) && TornAt(e, w, t, taken)
    requires w.read == |Concat(e.out[..taken])| && w.read <= |w.bytes|
    requires var r := ReadFrame(w.bytes[w.read..]); r.Got? && w.read + r.size > t.at
    ensures taken == t.frames && w.read == t.at
  {
    hide Encode, ReadFrame, Concat, TornOwner;
    if taken < t.frames {
      var sound := e.out[..t.frames];
      assert w.bytes[..t.at] == Concat(sound);
      assert sound[..taken] == e.out[..taken];
      NextFound(sound, taken, w.bytes[t.at..], w.bytes);
      ConcatWithin(sound, taken + 1);
    }
  }

  /** What is read across a tear behind the ID bytes has the kind and ID of the torn frame. */
  lemma {:induction false} TornIdIsRead(e: Endpoint, w: Wire, t: Tear, taken: nat)
    requires (forall k :: 0 <= k < |e.out| ==> Valid(e.out[k])) && TornAt(e, w, t, taken)
    requires w.read == |Concat(e.out[..taken])| && w.read <= |w.bytes| && t.part >= ID_BYTES
    requires var r := ReadFrame(w.bytes[w.read..]); r.Got? && w.read + r.size > t.at
    ensures var f := ReadFrame(w.bytes[w.read..]).frame; f.kind == t.frame.kind && f.id == t.frame.id
  {
    StandsAtTear(e, w, t, taken);
    AfterTear(e, w, t, taken);
    hide Encode, ReadFrame, Concat, TornOwner;
    var bs := w.bytes[w.read..];
    ReadIsCanonical(bs);
    var f := ReadFrame(bs).frame;
    assert bs[..ID_BYTES] == Encode(t.frame)[..ID_BYTES];
    assert bs[..ReadFrame(bs).size][..ID_BYTES] == bs[..ID_BYTES];
    IdBytes(f, t.frame);
  }

  /** The torn request of `a` was never visible, so its peer never heard of its ID. */
  lemma {:induction false} TornRequestUnheard(a: Endpoint, b: Endpoint, f: Frame)
    requires SideOk(a) && SideOk(b) && b.input == a.out && a.input == b.out
    requires f.kind == Request && TornOwner(a, f)
    ensures Unwritten(a, f.id) && Of(a.out, Request, f.id) == [] && Gens(b, f.id) == []
    ensures b.lock.cause.None? ==> AdmitResult(b.lock, f.id) == Dispatch
  {
    hide Of, GateOk, OrderOk, EvidenceOk, FramesOk, Disciplined;
    var c :| 0 <= c < |a.calls| && TornCall(a.calls[c], f.id);
    assert a.issued[f.id] == c;
    assert RequestOk(a, f.id);
    JourneyIsOrdered(a, b, f.id);
    assert ViewOk(ViewOf(b, f.id));
  }

  /** The torn response of `b` was never visible: its handler still owns the ID, and the caller has no answer. */
  lemma {:induction false} TornResponseUnheard(a: Endpoint, b: Endpoint, f: Frame)
    requires SideOk(a) && SideOk(b) && b.input == a.out && a.input == b.out
    requires f.kind == Response && TornOwner(b, f)
    ensures HandlerOwns(b, f.id) && Of(b.out, Response, f.id) == [] && f.id < |a.issued|
  {
    hide Of, GateOk, OrderOk, EvidenceOk, FramesOk, Disciplined;
    var g :| 0 <= g < |Gens(b, f.id)| && TornHandler(Gens(b, f.id)[g]);
    JourneyIsOrdered(a, b, f.id);
    HandlerByJourney(a, b, f.id);
  }

  /** A request that is dispatched has a handler that owns it. */
  lemma {:induction false} DispatchedOwns(e: Endpoint, f: Frame)
    requires f.kind == Request && AdmitResult(e.lock, f.id) == Dispatch
    ensures HandlerOwns(Received(e, f), f.id)
  {
    var e' := Received(e, f);
    assert !Gens(e', f.id)[|Gens(e, f.id)|].sent;
  }

  lemma {:induction false} OwnerPart(e: Endpoint, w: Wire, t: Tear, taken: nat)
    requires TornAt(e, w, t, taken)
    ensures TornOwner(e, t.frame)
  {
  }

  lemma {:induction false} SidesPart(s: ByteSystem, side: Side)
    requires ByteOk(s)
    ensures SideOk(Here(Abstract(s.sys), side)) && SideOk(Here(Abstract(s.sys), Other(side)))
  {
    hide SideOk;
  }

  /** The kind and ID of a frame that `e` read from `o` were never visible, and the ID is in two places at once. */
  ghost predicate Forged(e: Endpoint, o: Endpoint, f: Frame) {
    && Of(o.out, f.kind, f.id) == [] && f in Received(e, f).input
    && (f.kind == Request ==> Unwritten(o, f.id) && (e.lock.cause.None? ==> HandlerOwns(Received(e, f), f.id)))
    && (f.kind == Response ==> HandlerOwns(o, f.id) && f.id < |e.issued|)
  }

  lemma {:induction false} ReadIsForged(e: Endpoint, o: Endpoint, f: Frame, torn: Frame)
    requires SideOk(e.(input := o.out)) && SideOk(o.(input := e.out)) && TornOwner(o, torn)
    requires f.kind == torn.kind && f.id == torn.id
    ensures Forged(e, o, f)
  {
    hide SideOk, Of, Received, TornOwner;
    var ea, oa := e.(input := o.out), o.(input := e.out);
    ReceivedInput(e, f, []);
    TornIgnoresInput(o, torn, e.out);
    if f.kind == Request {
      TornRequestUnheard(oa, ea, torn);
      if e.lock.cause.None? {
        DispatchedOwns(e, f);
      }
    } else {
      TornResponseUnheard(ea, oa, torn);
      assert Gens(oa, f.id) == Gens(o, f.id);
      var g :| 0 <= g < |Gens(oa, f.id)| && !Gens(oa, f.id)[g].sent;
      assert !Gens(o, f.id)[g].sent;
    }
  }

  lemma {:induction false} StateIsForged(s: ByteSystem, side: Side)
    requires ByteOk(s) && ReadsAcross(s, ReadNext(side)) && WireFrom(s, Other(side)).tear.value.part >= ID_BYTES
    ensures var w := WireFrom(s, Other(side)); var f := ReadFrame(w.bytes[w.read..]).frame;
            && f.kind == w.tear.value.frame.kind && f.id == w.tear.value.frame.id
            && Forged(Here(s.sys, side), Here(s.sys, Other(side)), f)
  {
    SidesPart(s, side);
    WiresOf(s, side);
    hide ByteOk, EndpointOk, SideOk, ReadFrame, Concat, TornAt, TornOwner, Forged, Current, Encode;
    var e, o, w := Here(s.sys, side), Here(s.sys, Other(side)), WireFrom(s, Other(side));
    FramesPart(o.(input := e.out));
    TornIdIsRead(o, w, w.tear.value, e.taken);
    OwnerPart(o, w, w.tear.value, e.taken);
    ReadIsForged(e, o, ReadFrame(w.bytes[w.read..]).frame, w.tear.value.frame);
  }

  /**
   * The condition is needed: reading across a tear that lies behind the ID takes in a frame with a kind and an ID that
   * nobody made visible, and the ID is then in two places at once. A torn request is unwritten and has a handler,
   * unless the reader's connection is over and the frame is dropped; a torn response is still owned by its handler and
   * was read.
   */
  lemma {:induction false} ReadAcrossBreaks(moves: seq<ByteMove>, side: Side)
    requires IsByteRun(BYTE_BEGIN, moves) && NoReadAcrossTear(BYTE_BEGIN, moves)
    requires var s := ByteFinal(BYTE_BEGIN, moves);
             ReadsAcross(s, ReadNext(side)) && WireFrom(s, Other(side)).tear.value.part >= ID_BYTES
    ensures var s := ByteFinal(BYTE_BEGIN, moves); var w := WireFrom(s, Other(side));
            var f := ReadFrame(w.bytes[w.read..]).frame;
            && f.kind == w.tear.value.frame.kind && f.id == w.tear.value.frame.id
            && Forged(Here(s.sys, side), Here(s.sys, Other(side)), f)
  {
    hide IsByteRun, NoReadAcrossTear, ByteFinal, ByteOk, ReadsAcross, ReadFrame, Forged;
    SilentOk();
    var all := ByteRunRefinesFrom(BYTE_BEGIN, moves, []);
    StateIsForged(ByteFinal(BYTE_BEGIN, moves), side);
  }

  // ---------------------------------------------------------------------------
  // A run

  const PAYLOAD: Bytes := [7]
  const TORN := Frame(Request, 0, 1, PAYLOAD)
  const NEXT := Frame(Request, 1, 2, [])
  const FORGED := Frame(Request, 0, 1, [1])
  const ANSWER := Frame(Response, 0, 0, [])
  const RESULT := Message(0, [])

  function First(pc: CallPc, payload: Bytes, id: Option<nat>): Call {
    Call(Message(1, payload), pc, false, id, false, [])
  }

  function Second(pc: CallPc, id: Option<nat>, sent: bool): Call {
    Call(Message(2, []), pc, false, id, sent, [])
  }

  const L1 := START.(calls := [First(Checking, [], None)])
  const L2 := START.(calls := [First(Encoding, [], None)])
  const L3 := START.(calls := [First(Rechecking, PAYLOAD, None)])
  const L4 := START.(calls := [First(AwaitingGate, PAYLOAD, None)])
  const L5 := START.(calls := [First(HoldingGate, PAYLOAD, None)], gate := Some(CallHolder(0)))
  const L6 := START.(calls := [First(Writing, PAYLOAD, Some(0))], gate := Some(CallHolder(0)),
                     lock := AdmitCall(INITIAL, 0), issued := [0])
  const L7 := L6.(calls := [First(Wrote(false), PAYLOAD, Some(0))], broken := true, writeFailed := true)
  const L8 := L7.(calls := [First(Failing, PAYLOAD, Some(0))], gate := None)
  const FAILED := First(Failing, PAYLOAD, Some(0))
  const L9 := L8.(calls := [FAILED, Second(Checking, None, false)])
  const L10 := L8.(calls := [FAILED, Second(Encoding, None, false)])
  const L11 := L8.(calls := [FAILED, Second(Rechecking, None, false)])
  const L12 := L8.(calls := [FAILED, Second(AwaitingGate, None, false)])
  const L13 := L8.(calls := [FAILED, Second(HoldingGate, None, false)], gate := Some(CallHolder(1)))
  const L14 := L8.(calls := [FAILED, Second(Writing, Some(1), false)], gate := Some(CallHolder(1)),
                   lock := AdmitCall(AdmitCall(INITIAL, 0), 1), issued := [0, 1])
  const L15 := L14.(calls := [FAILED, Second(Writing, Some(1), true)], out := [NEXT])
  const L16 := L15.(lock := RemovePending(L15.lock, 0), receiver := Claimed(0, 0, RESULT), input := [ANSWER],
      taken := 1)
  const L17 := L16.(receiver := Accepting(0, 0, RESULT))
  const L18 := L17.(receiver := Reading,
      calls := [FAILED.(settled := [Accepted(RESULT)]), Second(Writing, Some(1), true)])

  const GENERATION := NewHandler(Message(1, [1]))
  const R1 := START.(lock := INITIAL.(incoming := map[0 := IncomingCall(false, None)]),
                     handlers := map[0 := [GENERATION]], input := [FORGED], taken := 1)
  const R2 := R1.(handlers := map[0 := [GENERATION.(pc := HAwaitingGate, result := Some(RESULT))]])
  const R3 := R1.(handlers := map[0 := [GENERATION.(pc := HHoldingGate, result := Some(RESULT))]],
      gate := Some(HandlerHolder(0, 0)))
  const R4 := R3.(handlers := map[0 := [GENERATION.(pc := HWriting, result := Some(RESULT))]],
                  lock := INITIAL.(incoming := map[0 := IncomingCall(true, None)]))
  const R5 := R4.(handlers := map[0 := [GENERATION.(pc := HWriting, result := Some(RESULT), sent := true)]],
      out := [ANSWER])

  lemma {:induction false} FirstCallSteps()
    ensures Enabled(START, ByOther(SpawnCall(1))) && Apply(START, ByOther(SpawnCall(1))) == L1
    ensures Enabled(L1, ByCall(0, Check)) && Apply(L1, ByCall(0, Check)) == L2
    ensures Enabled(L2, ByCall(0, EncodeRequest(Some(PAYLOAD))))
    ensures Apply(L2, ByCall(0, EncodeRequest(Some(PAYLOAD)))) == L3
    ensures Enabled(L3, ByCall(0, Recheck)) && Apply(L3, ByCall(0, Recheck)) == L4
  {
  }

  lemma {:induction false} FirstWriteSteps()
    ensures Enabled(L4, ByCall(0, AcquireGate)) && Apply(L4, ByCall(0, AcquireGate)) == L5
    ensures Enabled(L5, ByCall(0, Admit)) && Apply(L5, ByCall(0, Admit)) == L6
    ensures Enabled(L6, ByCall(0, WriteReturns(false, true))) && Apply(L6, ByCall(0, WriteReturns(false, true))) == L7
    ensures Enabled(L7, ByCall(0, ReleaseGate)) && Apply(L7, ByCall(0, ReleaseGate)) == L8
  {
  }

  lemma {:induction false} SecondCallSteps()
    ensures Enabled(L8, ByOther(SpawnCall(2))) && Apply(L8, ByOther(SpawnCall(2))) == L9
    ensures Enabled(L9, ByCall(1, Check)) && Apply(L9, ByCall(1, Check)) == L10
    ensures Enabled(L10, ByCall(1, EncodeRequest(Some([])))) && Apply(L10, ByCall(1, EncodeRequest(Some([])))) == L11
    ensures Enabled(L11, ByCall(1, Recheck)) && Apply(L11, ByCall(1, Recheck)) == L12
  {
  }

  lemma {:induction false} SecondWriteSteps()
    ensures Enabled(L12, ByCall(1, AcquireGate)) && Apply(L12, ByCall(1, AcquireGate)) == L13
    ensures Enabled(L13, ByCall(1, Admit)) && Apply(L13, ByCall(1, Admit)) == L14
    ensures Current(L14) == Some(NEXT) && VisibleStep(L14) == ByCall(1, BecomeVisible)
    ensures Enabled(L14, ByCall(1, BecomeVisible)) && Apply(L14, ByCall(1, BecomeVisible)) == L15
  {
  }

  /** Replacing the only handler generation. */
  lemma {:induction false} OneHandler(h: Handler, h': Handler)
    ensures map[0 := [h]][0 := [h][0 := h'] + []] == map[0 := [h']]
  {
    assert [h][0 := h'] + [] == [h'];
  }

  lemma {:induction false} Arrives()
    ensures Received(START, FORGED) == R1
  {
    assert map[][0 := [] + [GENERATION]] == map[0 := [GENERATION]] by {
      assert [] + [GENERATION] == [GENERATION];
    }
    assert INITIAL.incoming[0 := IncomingCall(false, None)] == map[0 := IncomingCall(false, None)];
    assert [] + [FORGED] == [FORGED];
  }

  lemma {:induction false} HandlerDispatches()
    ensures Enabled(R1, ByHandler(0, 0, DispatchReturns(Some(RESULT))))
    ensures Apply(R1, ByHandler(0, 0, DispatchReturns(Some(RESULT)))) == R2
  {
    OneHandler(GENERATION, GENERATION.(pc := HAwaitingGate, result := Some(RESULT)));
  }

  lemma {:induction false} HandlerTakesGate()
    ensures Enabled(R2, ByHandler(0, 0, HAcquireGate)) && Apply(R2, ByHandler(0, 0, HAcquireGate)) == R3
  {
    OneHandler(GENERATION.(pc := HAwaitingGate, result := Some(RESULT)),
        GENERATION.(pc := HHoldingGate, result := Some(RESULT)));
  }

  lemma {:induction false} HandlerAdmitted()
    ensures Enabled(R3, ByHandler(0, 0, HAdmit)) && Apply(R3, ByHandler(0, 0, HAdmit)) == R4
  {
    OneHandler(GENERATION.(pc := HHoldingGate, result := Some(RESULT)),
        GENERATION.(pc := HWriting, result := Some(RESULT)));
    assert map[0 := IncomingCall(false, None)][0 := IncomingCall(true, None)] == map[0 := IncomingCall(true, None)];
  }

  lemma {:induction false} HandlerAnswers()
    ensures Current(R4) == Some(ANSWER) && VisibleStep(R4) == ByHandler(0, 0, HBecomeVisible)
    ensures Enabled(R4, ByHandler(0, 0, HBecomeVisible)) && Apply(R4, ByHandler(0, 0, HBecomeVisible)) == R5
  {
    OneHandler(GENERATION.(pc := HWriting, result := Some(RESULT)),
        GENERATION.(pc := HWriting, result := Some(RESULT), sent := true));
    assert [] + [ANSWER] == [ANSWER];
  }

  lemma {:induction false} ResponseSteps()
    ensures Received(L15, ANSWER) == L16
    ensures Enabled(L16, ByReceiver(Decode(true))) && Apply(L16, ByReceiver(Decode(true))) == L17
  {
    assert [] + [ANSWER] == [ANSWER];
  }

  lemma {:induction false} SettledStep()
    ensures Enabled(L17, ByReceiver(CompleteAcceptance)) && Apply(L17, ByReceiver(CompleteAcceptance)) == L18
  {
    var calls := [FAILED, Second(Writing, Some(1), true)];
    assert [] + [Accepted(RESULT)] == [Accepted(RESULT)];
    assert calls[0 := FAILED.(settled := [Accepted(RESULT)])] ==
        [FAILED.(settled := [Accepted(RESULT)]), Second(Writing, Some(1), true)];
  }

  // ---------------------------------------------------------------------------
  // The bytes of the run

  lemma {:induction false} ReadsForged()
    ensures ReadFrame(Encode(TORN)[..HEADER_SIZE] + Encode(NEXT)) == Got(FORGED, HEADER_SIZE + 1)
  {
    TornIsCompleted(TORN, HEADER_SIZE, Encode(NEXT));
    FirstByte();
    assert Encode(NEXT)[..1] == [1];
    assert PAYLOAD[..0] + [1] == [1];
    hide Encode, ReadFrame;
  }

  lemma {:induction false} FirstByte()
    ensures Encode(NEXT)[0] == 1
  {
    assert Put(1, 8)[0] == 1;
  }

  lemma {:induction false} ReadsAnswer()
    ensures ReadFrame(Encode(ANSWER)) == Got(ANSWER, HEADER_SIZE)
  {
    ReadEncoded(ANSWER, []);
    assert Encode(ANSWER) + [] == Encode(ANSWER);
    hide Encode, ReadFrame;
  }

  lemma {:induction false} Extend(moves: seq<ByteMove>, m: ByteMove)
    requires IsByteRun(BYTE_BEGIN, moves) && BytePossible(ByteFinal(BYTE_BEGIN, moves), m)
    ensures IsByteRun(BYTE_BEGIN, moves + [m])
    ensures ByteFinal(BYTE_BEGIN, moves + [m]) == BytePerform(ByteFinal(BYTE_BEGIN, moves), m)
  {
    ExtendFrom(BYTE_BEGIN, moves, m);
  }

  lemma {:induction false} ExtendFrom(s: ByteSystem, moves: seq<ByteMove>, m: ByteMove)
    requires IsByteRun(s, moves) && BytePossible(ByteFinal(s, moves), m)
    ensures IsByteRun(s, moves + [m]) && ByteFinal(s, moves + [m]) == BytePerform(ByteFinal(s, moves), m)
    decreases |moves|
  {
    hide BytePossible, BytePerform;
    if moves == [] {
      assert moves + [m] == [m] && [m][1..] == [];
      SingleMove(s, m);
    } else {
      ExtendFrom(BytePerform(s, moves[0]), moves[1..], m);
      assert (moves + [m])[0] == moves[0] && (moves + [m])[1..] == moves[1..] + [m];
    }
  }

  lemma {:induction false} SingleMove(s: ByteSystem, m: ByteMove)
    requires BytePossible(s, m)
    ensures IsByteRun(s, [m]) && ByteFinal(s, [m]) == BytePerform(s, m)
  {
    hide BytePossible, BytePerform;
    assert [m][1..] == [];
  }

  /** The run so far ends in this state. */
  ghost predicate Reaches(moves: seq<ByteMove>, s: ByteSystem) {
    IsByteRun(BYTE_BEGIN, moves) && ByteFinal(BYTE_BEGIN, moves) == s
  }

  /** A step of the left endpoint that touches no stream. */
  lemma {:induction false} LeftStep(moves: seq<ByteMove>, s: ByteSystem, step: Step, e: Endpoint)
    returns (more: seq<ByteMove>)
    requires Reaches(moves, s) && Enabled(s.sys.left, step) && IsPlain(step) && !IsWriteReturn(step)
    requires Apply(s.sys.left, step) == e
    ensures Reaches(more, s.(sys := s.sys.(left := e)))
  {
    hide Enabled, Apply, IsByteRun, ByteFinal;
    assert !Tears(step);
    Extend(moves, Plain(Left, step));
    more := moves + [Plain(Left, step)];
  }

  lemma {:induction false} RightStep(moves: seq<ByteMove>, s: ByteSystem, step: Step, e: Endpoint)
    returns (more: seq<ByteMove>)
    requires Reaches(moves, s) && Enabled(s.sys.right, step) && IsPlain(step) && !IsWriteReturn(step)
    requires Apply(s.sys.right, step) == e
    ensures Reaches(more, s.(sys := s.sys.(right := e)))
  {
    hide Enabled, Apply, IsByteRun, ByteFinal;
    assert !Tears(step);
    Extend(moves, Plain(Right, step));
    more := moves + [Plain(Right, step)];
  }

  const TEAR := Some(Tear(0, 0, TORN, HEADER_SIZE))
  const TORN_WIRE := Wire(Encode(TORN)[..HEADER_SIZE], 0, 0, TEAR)
  const FULL_WIRE := Wire(Encode(TORN)[..HEADER_SIZE] + Encode(NEXT), 0, 0, TEAR)
  const BACK_WIRE := Wire(Encode(ANSWER), 0, 0, None)

  /** The first call: its frame is torn behind the header, and the gate is released before the failure is selected. */
  lemma {:induction false} FirstCallTears() returns (moves: seq<ByteMove>)
    ensures Reaches(moves, ByteSystem(System(L8, START), TORN_WIRE, SILENT))
  {
    hide Enabled, Apply, IsByteRun, ByteFinal, Encode, Current;
    FirstCallSteps();
    FirstWriteSteps();
    moves := [];
    NothingYet();
    moves := LeftStep(moves, BYTE_BEGIN, ByOther(SpawnCall(1)), L1);
    moves := LeftStep(moves, ByteSystem(System(L1, START), SILENT, SILENT), ByCall(0, Check), L2);
    moves := LeftStep(moves, ByteSystem(System(L2, START), SILENT, SILENT), ByCall(0, EncodeRequest(Some(PAYLOAD))),
        L3);
    moves := LeftStep(moves, ByteSystem(System(L3, START), SILENT, SILENT), ByCall(0, Recheck), L4);
    moves := LeftStep(moves, ByteSystem(System(L4, START), SILENT, SILENT), ByCall(0, AcquireGate), L5);
    moves := LeftStep(moves, ByteSystem(System(L5, START), SILENT, SILENT), ByCall(0, Admit), L6);
    moves := TearFirst(moves);
    moves := LeftStep(moves, ByteSystem(System(L7, START), TORN_WIRE, SILENT), ByCall(0, ReleaseGate), L8);
  }

  lemma {:induction false} NothingYet()
    ensures Reaches([], BYTE_BEGIN)
  {
  }

  lemma {:induction false} TearFirst(moves: seq<ByteMove>) returns (more: seq<ByteMove>)
    requires Reaches(moves, ByteSystem(System(L6, START), SILENT, SILENT))
    ensures Reaches(more, ByteSystem(System(L7, START), TORN_WIRE, SILENT))
  {
    FirstWriteSteps();
    FirstCurrent();
    hide Enabled, Apply, IsByteRun, ByteFinal, Encode, Current;
    Extend(moves, Accept(Left, HEADER_SIZE));
    more := moves + [Accept(Left, HEADER_SIZE)];
    var partial := ByteSystem(System(L6, START), Wire(Encode(TORN)[..HEADER_SIZE], HEADER_SIZE, 0, None), SILENT);
    assert [] + Encode(TORN)[0..0 + HEADER_SIZE] == Encode(TORN)[..HEADER_SIZE];
    assert Reaches(more, partial);
    Extend(more, Plain(Left, ByCall(0, WriteReturns(false, true))));
    more := more + [Plain(Left, ByCall(0, WriteReturns(false, true)))];
  }

  lemma {:induction false} FirstCurrent()
    ensures Current(L6) == Some(TORN)
  {
  }

  /** The second call writes its whole frame behind the torn one. */
  lemma {:induction false} SecondCallFollows(before: seq<ByteMove>) returns (moves: seq<ByteMove>)
    requires Reaches(before, ByteSystem(System(L8, START), TORN_WIRE, SILENT))
    ensures Reaches(moves, ByteSystem(System(L15, START), FULL_WIRE, SILENT))
  {
    hide Enabled, Apply, IsByteRun, ByteFinal, Encode, Current, VisibleStep;
    SecondCallSteps();
    SecondWriteSteps();
    moves := LeftStep(before, ByteSystem(System(L8, START), TORN_WIRE, SILENT), ByOther(SpawnCall(2)), L9);
    moves := LeftStep(moves, ByteSystem(System(L9, START), TORN_WIRE, SILENT), ByCall(1, Check), L10);
    moves := LeftStep(moves, ByteSystem(System(L10, START), TORN_WIRE, SILENT), ByCall(1, EncodeRequest(Some([]))),
        L11);
    moves := LeftStep(moves, ByteSystem(System(L11, START), TORN_WIRE, SILENT), ByCall(1, Recheck), L12);
    moves := LeftStep(moves, ByteSystem(System(L12, START), TORN_WIRE, SILENT), ByCall(1, AcquireGate), L13);
    moves := LeftStep(moves, ByteSystem(System(L13, START), TORN_WIRE, SILENT), ByCall(1, Admit), L14);
    Extend(moves, Accept(Left, HEADER_SIZE));
    moves := moves + [Accept(Left, HEADER_SIZE)];
    assert Encode(NEXT)[0..0 + HEADER_SIZE] == Encode(NEXT);
  }

  /** The peer reads the torn frame completed by the second one, dispatches it and answers. */
  lemma {:induction false} PeerAnswers(before: seq<ByteMove>) returns (moves: seq<ByteMove>)
    requires Reaches(before, ByteSystem(System(L15, START), FULL_WIRE, SILENT))
    ensures Reaches(moves, ByteSystem(System(L15, R5), FULL_WIRE.(read := HEADER_SIZE + 1), BACK_WIRE))
  {
    hide Enabled, Apply, IsByteRun, ByteFinal, Encode, Current, VisibleStep, ReadFrame, Received;
    ReadsForged();
    Arrives();
    HandlerDispatches();
    HandlerTakesGate();
    HandlerAdmitted();
    HandlerAnswers();
    assert FULL_WIRE.bytes[0..] == FULL_WIRE.bytes;
    Extend(before, ReadNext(Right));
    moves := before + [ReadNext(Right)];
    var w := FULL_WIRE.(read := HEADER_SIZE + 1);
    moves := RightStep(moves, ByteSystem(System(L15, R1), w, SILENT), ByHandler(0, 0, DispatchReturns(Some(RESULT))),
        R2);
    moves := RightStep(moves, ByteSystem(System(L15, R2), w, SILENT), ByHandler(0, 0, HAcquireGate), R3);
    moves := RightStep(moves, ByteSystem(System(L15, R3), w, SILENT), ByHandler(0, 0, HAdmit), R4);
    Extend(moves, Accept(Right, HEADER_SIZE));
    moves := moves + [Accept(Right, HEADER_SIZE)];
    assert [] + Encode(ANSWER)[0..0 + HEADER_SIZE] == Encode(ANSWER);
  }

  /** The first call is settled by that answer, before it selects its own write failure. */
  lemma {:induction false} CallIsSettled(before: seq<ByteMove>) returns (moves: seq<ByteMove>)
    requires Reaches(before, ByteSystem(System(L15, R5), FULL_WIRE.(read := HEADER_SIZE + 1), BACK_WIRE))
    ensures Reaches(moves, ByteSystem(System(L18, R5), FULL_WIRE.(read := HEADER_SIZE + 1),
            BACK_WIRE.(read := HEADER_SIZE)))
  {
    hide Enabled, Apply, IsByteRun, ByteFinal, Encode, Current, VisibleStep, ReadFrame, Received;
    ReadsAnswer();
    ResponseSteps();
    SettledStep();
    assert BACK_WIRE.bytes[0..] == BACK_WIRE.bytes;
    Extend(before, ReadNext(Left));
    moves := before + [ReadNext(Left)];
    var v, w := FULL_WIRE.(read := HEADER_SIZE + 1), BACK_WIRE.(read := HEADER_SIZE);
    moves := LeftStep(moves, ByteSystem(System(L16, R5), v, w), ByReceiver(Decode(true)), L17);
    moves := LeftStep(moves, ByteSystem(System(L17, R5), v, w), ByReceiver(CompleteAcceptance), L18);
  }

  /**
   * Without the condition the theorem is false: in this run a call is settled with what a dispatch returned for a
   * payload that the call never had, because a second frame completed the torn first one.
   */
  lemma {:induction false} TornRunForgesRequest() returns (moves: seq<ByteMove>)
    ensures IsByteRun(BYTE_BEGIN, moves) && !NoReadAcrossTear(BYTE_BEGIN, moves)
    ensures var s := ByteFinal(BYTE_BEGIN, moves).sys;
            && |s.left.calls| == 2 && s.left.calls[0].settled == [Accepted(RESULT)] && s.left.calls[0].pc == Failing
               && s.left.calls[0].id == Some(0)
            && !Answered(s.left, s.right, 0, RESULT)
            && s.right.input == [FORGED] && FORGED !in s.left.out && FORGED != RequestFrame(s.left, s.left.calls[0])
  {
    moves := FirstCallTears();
    moves := SecondCallFollows(moves);
    moves := PeerAnswers(moves);
    moves := CallIsSettled(moves);
    if NoReadAcrossTear(BYTE_BEGIN, moves) {
      hide IsByteRun, NoReadAcrossTear, ByteFinal;
      ByteResponseBelongsToCall(moves, Left, 0, RESULT);
    }
  }
}
