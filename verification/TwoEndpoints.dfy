/**
 * Two Go endpoints joined by reliable FIFO channels: what one makes visible is, in order, what the other receives.
 * A response that settles a call is what exactly one dispatch of that very call returned.
 */
module TwoEndpoints {
  import opened LittleEndian
  import opened Frames
  import opened Locked
  import opened Endpoints
  import opened IncomingRequests
  import opened WireOrder
  import Calls = OutgoingCalls

  datatype Side = Left | Right

  datatype System = System(left: Endpoint, right: Endpoint)

  function Here(s: System, side: Side): Endpoint {
    if side == Left then s.left else s.right
  }

  function Other(side: Side): Side {
    if side == Left then Right else Left
  }

  datatype Move = Move(side: Side, step: Step)

  /** Any step of either endpoint; frames arrive only from the other one. */
  predicate Possible(s: System, m: Move) {
    Enabled(Here(s, m.side), m.step) && !(m.step.ByOther? && m.step.os.PeerSends?)
  }

  function Perform(s: System, m: Move): System
    requires Possible(s, m)
  {
    var here := Apply(Here(s, m.side), m.step);
    var there := Here(s, Other(m.side)).(input := here.out);
    if m.side == Left then System(here, there) else System(there, here)
  }

  predicate IsSystemRun(s: System, moves: seq<Move>)
    decreases |moves|
  {
    moves == [] || (Possible(s, moves[0]) && IsSystemRun(Perform(s, moves[0]), moves[1..]))
  }

  function Final(s: System, moves: seq<Move>): System
    requires IsSystemRun(s, moves)
    decreases |moves|
  {
    if moves == [] then s else Final(Perform(s, moves[0]), moves[1..])
  }

  const BEGIN := System(START, START)

  ghost predicate SideOk(e: Endpoint) {
    EndpointOk(e) && Disciplined(e) && !e.receiver.Duplicate?
  }

  ghost predicate SystemOk(s: System) {
    && SideOk(s.left) && SideOk(s.right)
    && s.left.input == s.right.out && s.right.input == s.left.out
  }

  /** A step makes at most one frame visible, and a request only under an ID that was never visible before. */
  lemma {:induction false} OneFrame(e: Endpoint, s: Step)
    requires EndpointOk(e) && Enabled(e, s) && !(s.ByOther? && s.os.PeerSends?)
    ensures var e' := Apply(e, s);
            e'.out == e.out
            || exists f :: e'.out == e.out + [f] && (f.kind == Request ==> Of(e.out, Request, f.id) == [])
  {
    hide IncomingRequests.Inv, GateOk, OrderOk, EvidenceOk, FramesOk, Of;
    match s
    case ByCall(c, BecomeVisible) =>
      var call := e.calls[c];
      assert RequestOk(e, call.id.value);
      assert e.issued[call.id.value] == c;
      assert Apply(e, s).out == e.out + [RequestFrame(e, call)];
    case ByHandler(i, g, HBecomeVisible) =>
      assert Apply(e, s).out == e.out + [ResponseFrame(i, Gens(e, i)[g].result.value)];
    case ByReceiver(rs) => ReceiverTouches(e, rs);
    case ByOther(os) => OtherTouches(e, os);
    case _ => QuietOutput(e, s);
  }

  lemma {:induction false} QuietOutput(e: Endpoint, s: Step)
    requires Enabled(e, s) && (s.ByCall? || s.ByHandler?)
    requires !(s.ByCall? && s.cs.BecomeVisible?) && !(s.ByHandler? && s.hs.HBecomeVisible?)
    ensures Apply(e, s).out == e.out
  {
  }

  lemma {:induction false} MoverOk(e: Endpoint, s: Step)
    requires SideOk(e) && Enabled(e, s) && !(s.ByOther? && s.os.PeerSends?)
    ensures SideOk(Apply(e, s))
    ensures Apply(e, s).input == e.input
  {
    hide EndpointOk, Disciplined, Apply, Enabled;
    StepKeepsEndpoint(e, s);
    StepKeepsDiscipline(e, s);
    assert IncomingRequests.Inv(e) by { EndpointParts(e); }
    DisciplinedStep(e, s);
    OutputGrows(e, s);
  }

  lemma {:induction false} EndpointParts(e: Endpoint)
    requires EndpointOk(e)
    ensures IncomingRequests.Inv(e) && Calls.Inv(e) && FramesOk(e)
  {
  }

  /** What one side makes visible is a permitted arrival for the other. */
  lemma {:induction false} ArrivalOk(here: Endpoint, s: Step, there: Endpoint)
    requires SideOk(here) && SideOk(there) && there.input == here.out
    requires Enabled(here, s) && !(s.ByOther? && s.os.PeerSends?)
    ensures SideOk(there.(input := Apply(here, s).out))
  {
    hide EndpointOk, Disciplined, Apply, Enabled, Of;
    OneFrame(here, s);
    var here' := Apply(here, s);
    if here'.out == here.out {
      assert there.(input := here'.out) == there;
    } else {
      var f :| here'.out == here.out + [f] && (f.kind == Request ==> Of(here.out, Request, f.id) == []);
      StepKeepsEndpoint(here, s);
      EndpointParts(here');
      assert f in here'.out;
      var arrival := ByOther(PeerSends(f));
      ArrivalApplies(there, f);
      StepKeepsEndpoint(there, arrival);
      StepKeepsDiscipline(there, arrival);
    }
  }

  lemma {:induction false} ArrivalApplies(e: Endpoint, f: Frame)
    requires Valid(f)
    ensures Enabled(e, ByOther(PeerSends(f))) && Apply(e, ByOther(PeerSends(f))) == e.(input := e.input + [f])
  {
  }

  lemma {:induction false} MoveKeepsSystem(s: System, m: Move)
    requires SystemOk(s) && Possible(s, m)
    ensures SystemOk(Perform(s, m))
  {
    hide SideOk, Apply, Enabled;
    var here := Here(s, m.side);
    var there := Here(s, Other(m.side));
    MoverOk(here, m.step);
    ArrivalOk(here, m.step, there);
    StillSends(there, Apply(here, m.step).out);
  }

  lemma {:induction false} StillSends(e: Endpoint, input: seq<Frame>)
    ensures e.(input := input).out == e.out
  {
  }

  lemma {:induction false} RunKeepsSystem(s: System, moves: seq<Move>)
    requires SystemOk(s) && IsSystemRun(s, moves)
    ensures SystemOk(Final(s, moves))
    decreases |moves|
  {
    hide SystemOk, Possible, Perform;
    if moves != [] {
      MoveKeepsSystem(s, moves[0]);
      RunKeepsSystem(Perform(s, moves[0]), moves[1..]);
    }
  }

  lemma {:induction false} BeginOk()
    ensures SystemOk(BEGIN)
  {
    WireOrder.StartOk();
  }

  // ---------------------------------------------------------------------------
  // The journey of one request ID

  /** Requests and responses of one ID at each point of the journey from `a` to `b` and back. */
  datatype Journey = Journey(sent: nat, received: nat, generations: nat, answered: nat, returned: nat)

  function JourneyOf(a: Endpoint, b: Endpoint, id: nat): Journey
    requires a.taken <= |a.input| && b.taken <= |b.input|
  {
    Journey(|Of(a.out, Request, id)|, |Of(b.input[..b.taken], Request, id)|, |Gens(b, id)|,
            |Of(b.out, Response, id)|, |Of(a.input[..a.taken], Response, id)|)
  }

  /** A request never overtakes itself and is never duplicated: each point is reached at most once, in order. */
  lemma {:induction false} JourneyIsOrdered(a: Endpoint, b: Endpoint, id: nat)
    requires SideOk(a) && SideOk(b) && b.input == a.out && a.input == b.out
    ensures a.taken <= |a.input| && b.taken <= |b.input|
    ensures var j := JourneyOf(a, b, id);
            && 1 >= j.sent >= j.received >= j.generations >= j.answered >= j.returned
            && (b.lock.cause.None? ==> j.received == j.generations)
            && (j.sent == 1 ==> id < |a.issued| && a.issued[id] < |a.calls|
                                && Of(a.out, Request, id) == [a.calls[a.issued[id]].request])
            && (j.generations == 1 ==> Gens(b, id)[0].request == a.calls[a.issued[id]].request)
            && (j.answered == 1 ==> Gens(b, id)[0].result == Some(Of(b.out, Response, id)[0]))
  {
    hide Calls.Inv, GateOk, OrderOk, EvidenceOk, FramesOk, Disciplined, Of;
    assert RequestOk(a, id);
    assert ViewOk(ViewOf(b, id));
    var v := ViewOf(b, id);
    OfPrefix(b.input, b.taken, Request, id);
    OfPrefix(a.input, a.taken, Response, id);
    assert |RequestsOf(v.gens)| == |v.gens|;
    if |v.gens| == 1 {
      assert RequestsOf(v.gens)[0] == v.gens[0].request;
      assert v.requests[0] == v.gens[0].request;
      assert v.requests == Of(b.input, Request, id);
    }
  }

  /**
   * In every run, a call that was settled by a response was settled with the exception key and payload that
   * exactly one dispatch on the peer returned, and that dispatch was of this call's procedure key and payload.
   */
  lemma {:induction false} ResponseBelongsToCall(moves: seq<Move>, side: Side, c: nat, m: Message)
    requires IsSystemRun(BEGIN, moves)
    requires var a := Here(Final(BEGIN, moves), side); c < |a.calls| && Accepted(m) in a.calls[c].settled
    ensures var a := Here(Final(BEGIN, moves), side); var b := Here(Final(BEGIN, moves), Other(side));
            var call := a.calls[c];
            && call.settled == [Accepted(m)]
            && call.id.Some?
            && |Gens(b, call.id.value)| == 1
            && Gens(b, call.id.value)[0].request == call.request
            && Gens(b, call.id.value)[0].result == Some(m)
  {
    BeginOk();
    RunKeepsSystem(BEGIN, moves);
    var s := Final(BEGIN, moves);
    SettledByPeer(Here(s, side), Here(s, Other(side)), c, m);
  }

  lemma {:induction false} SettledByPeer(a: Endpoint, b: Endpoint, c: nat, m: Message)
    requires SideOk(a) && SideOk(b) && b.input == a.out && a.input == b.out
    requires c < |a.calls| && Accepted(m) in a.calls[c].settled
    ensures var call := a.calls[c];
            && call.settled == [Accepted(m)]
            && call.id.Some?
            && |Gens(b, call.id.value)| == 1
            && Gens(b, call.id.value)[0].request == call.request
            && Gens(b, call.id.value)[0].result == Some(m)
  {
    hide GateOk, OrderOk, FramesOk, Disciplined, Of, IncomingRequests.Inv, RequestsOk;
    var call := a.calls[c];
    assert Calls.OwnerOk(a, c);
    assert SettlementSeen(a, call);
    var id := call.id.value;
    assert Seen(a, id, m);
    assert a.issued[id] == c;
    JourneyIsOrdered(a, b, id);
    OfPrefix(a.input, a.taken, Response, id);
  }

  /** Between two Go endpoints the duplicate-ID error is unreachable. */
  lemma {:induction false} DuplicateIsUnreachable(moves: seq<Move>, side: Side)
    requires IsSystemRun(BEGIN, moves)
    ensures !Here(Final(BEGIN, moves), side).receiver.Duplicate?
  {
    BeginOk();
    RunKeepsSystem(BEGIN, moves);
  }

  // ---------------------------------------------------------------------------
  // Exactly one place

  predicate Carries(fs: seq<Frame>, lo: nat, hi: nat, kind: Kind, id: nat)
    requires hi <= |fs|
  {
    exists k :: lo <= k < hi && fs[k].kind == kind && fs[k].id == id
  }

  lemma {:induction false} CarriesMeansMore(fs: seq<Frame>, lo: nat, kind: Kind, id: nat)
    requires lo <= |fs|
    ensures Carries(fs, lo, |fs|, kind, id) <==> |Of(fs, kind, id)| > |Of(fs[..lo], kind, id)|
  {
    if lo == |fs| {
      assert fs[..lo] == fs;
    } else {
      var n := |fs| - 1;
      var front := fs[..n];
      CarriesMeansMore(front, lo, kind, id);
      OfPrefix(front, lo, kind, id);
      assert front[..lo] == fs[..lo];
      assert Carries(fs, lo, |fs|, kind, id) <==>
          Carries(front, lo, n, kind, id) || (fs[n].kind == kind && fs[n].id == id) by {
        if Carries(front, lo, n, kind, id) {
          var k :| lo <= k < n && front[k].kind == kind && front[k].id == id;
          assert fs[k].kind == kind && fs[k].id == id;
        }
        if Carries(fs, lo, |fs|, kind, id) {
          var k :| lo <= k < |fs| && fs[k].kind == kind && fs[k].id == id;
          if k < n {
            assert front[k].kind == kind && front[k].id == id;
          }
        }
      }
    }
  }

  /** Where a request that `a` admitted can be. */
  predicate Unwritten(a: Endpoint, id: nat) {
    id < |a.issued| && a.issued[id] < |a.calls| && !a.calls[a.issued[id]].sent
  }

  predicate RequestInFlight(a: Endpoint, b: Endpoint, id: nat)
    requires b.taken <= |b.input|
  {
    Carries(b.input, b.taken, |b.input|, Request, id)
  }

  predicate DroppedByTerminalPeer(b: Endpoint, id: nat)
    requires b.taken <= |b.input|
  {
    b.lock.cause.Some? && Carries(b.input[..b.taken], 0, b.taken, Request, id) && Gens(b, id) == []
  }

  predicate HandlerOwns(b: Endpoint, id: nat) {
    exists g :: 0 <= g < |Gens(b, id)| && !Gens(b, id)[g].sent
  }

  predicate ResponseInFlight(a: Endpoint, id: nat)
    requires a.taken <= |a.input|
  {
    Carries(a.input, a.taken, |a.input|, Response, id)
  }

  predicate ResponseConsumed(a: Endpoint, id: nat)
    requires a.taken <= |a.input|
  {
    Carries(a.input[..a.taken], 0, a.taken, Response, id)
  }

  function Count(b: bool): nat {
    if b then 1 else 0
  }

  /** Every issued request ID is always in exactly one place. */
  lemma {:induction false} ExactlyOnePlace(a: Endpoint, b: Endpoint, id: nat)
    requires SideOk(a) && SideOk(b) && b.input == a.out && a.input == b.out && id < |a.issued|
    ensures a.taken <= |a.input| && b.taken <= |b.input|
    ensures Count(Unwritten(a, id)) + Count(RequestInFlight(a, b, id)) + Count(DroppedByTerminalPeer(b, id))
            + Count(HandlerOwns(b, id)) + Count(ResponseInFlight(a, id)) + Count(ResponseConsumed(a, id)) == 1
  {
    JourneyIsOrdered(a, b, id);
    PlacesByJourney(a, b, id);
  }

  lemma {:induction false} PlacesByJourney(a: Endpoint, b: Endpoint, id: nat)
    requires SideOk(a) && SideOk(b) && b.input == a.out && a.input == b.out && id < |a.issued|
    requires a.taken <= |a.input| && b.taken <= |b.input|
    ensures var j := JourneyOf(a, b, id);
            && (Unwritten(a, id) <==> j.sent == 0)
            && (RequestInFlight(a, b, id) <==> j.sent > j.received)
            && (DroppedByTerminalPeer(b, id) <==> j.received > j.generations)
            && (HandlerOwns(b, id) <==> j.generations > j.answered)
            && (ResponseInFlight(a, id) <==> j.answered > j.returned)
            && (ResponseConsumed(a, id) <==> j.returned > 0)
  {
    JourneyIsOrdered(a, b, id);
    CarriesMeansMore(b.input, b.taken, Request, id);
    CarriesMeansMore(a.input, a.taken, Response, id);
    CarriesMeansMore(b.input[..b.taken], 0, Request, id);
    CarriesMeansMore(a.input[..a.taken], 0, Response, id);
    assert b.input[..b.taken][..0] == [] && a.input[..a.taken][..0] == [];
    hide Of;
    UnwrittenByJourney(a, b, id);
    HandlerByJourney(a, b, id);
  }

  lemma {:induction false} UnwrittenByJourney(a: Endpoint, b: Endpoint, id: nat)
    requires SideOk(a) && id < |a.issued|
    ensures Unwritten(a, id) <==> |Of(a.out, Request, id)| == 0
  {
    hide Of, IncomingRequests.Inv, GateOk, OrderOk, EvidenceOk, FramesOk, Disciplined;
    assert RequestOk(a, id);
  }

  lemma {:induction false} HandlerByJourney(a: Endpoint, b: Endpoint, id: nat)
    requires SideOk(b)
    ensures HandlerOwns(b, id) <==> |Gens(b, id)| > |Of(b.out, Response, id)|
  {
    hide Of, Calls.Inv, GateOk, OrderOk, EvidenceOk, FramesOk, Disciplined, RequestsOk;
    assert ViewOk(ViewOf(b, id));
    if |Gens(b, id)| > |Of(b.out, Response, id)| {
      assert !Gens(b, id)[|Of(b.out, Response, id)|].sent;
    }
  }

  /** The same, for every run of the two endpoints. */
  lemma {:induction false} EveryIdHasOnePlace(moves: seq<Move>, side: Side, id: nat)
    requires IsSystemRun(BEGIN, moves) && id < |Here(Final(BEGIN, moves), side).issued|
    ensures var a := Here(Final(BEGIN, moves), side); var b := Here(Final(BEGIN, moves), Other(side));
            && a.taken <= |a.input| && b.taken <= |b.input|
            && Count(Unwritten(a, id)) + Count(RequestInFlight(a, b, id)) + Count(DroppedByTerminalPeer(b, id))
               + Count(HandlerOwns(b, id)) + Count(ResponseInFlight(a, id)) + Count(ResponseConsumed(a, id)) == 1
  {
    BeginOk();
    RunKeepsSystem(BEGIN, moves);
    ExactlyOnePlace(Here(Final(BEGIN, moves), side), Here(Final(BEGIN, moves), Other(side)), id);
  }
}
