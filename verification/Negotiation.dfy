/**
 * Interface negotiation between a client and a server: the two setups run side by side over FIFO channels, every
 * read and write may be short or fail, and a cancellation callback may fire at any moment.
 */
module Negotiations {
  import opened LittleEndian
  import opened Streams

  const ID_SIZE: nat := 32

  /** Where the setup of one side stands. */
  datatype Phase =
    | Sending(sent: nat)
    | Receiving
    | Stopping
    | HandingOff
    | Constructing
    | Connected
    | Failing
    | FailStopping
    | FailClosing
    | Rejected

  /** The cancellation callback: not fired, stopped before it fired, running, or finished. */
  datatype Callback = Armed | Stopped | Fired | Selected | Finished

  /** One side: its identifiers, what it wrote and read, the setup outcome and the close-once stream. */
  datatype Side = Side(
    client: bool, exported: Bytes, imported: Bytes,
    phase: Phase, out: Bytes, got: Bytes,
    failed: bool, handedOff: bool,
    callback: Callback, closes: nat, closedByCallback: bool)

  predicate Start(s: Side) {
    && |s.exported| == |s.imported| == ID_SIZE
    && s.phase == (if s.client then Sending(0) else Receiving)
    && s.out == [] && s.got == [] && !s.failed && !s.handedOff
    && s.callback == Armed && s.closes == 0 && !s.closedByCallback
  }

  datatype Move =
    | WriteSome(n: nat)
    | WriteFails(n: nat)
    | ReadSome(n: nat)
    | ReadFails(n: nat)
    | Fire
    | CallbackSelects
    | CallbackCloses
    | StopCallback
    | HandOff
    | Construct(ok: bool)
    | SelectFailure
    | CloseFailed
    | ConnectionWrites(bytes: Bytes)
    | ConnectionCloses

  predicate Enabled(s: Side, peerOut: Bytes, m: Move) {
    match m
    case WriteSome(n) => s.phase.Sending? && 0 < n <= ID_SIZE - s.phase.sent
    case WriteFails(n) => s.phase.Sending? && n <= ID_SIZE - s.phase.sent
    case ReadSome(n) => s.phase.Receiving? && 0 < n <= ID_SIZE - |s.got| && |s.got| + n <= |peerOut|
    case ReadFails(n) => s.phase.Receiving? && n < ID_SIZE - |s.got| && |s.got| + n <= |peerOut|
    case Fire => s.callback == Armed
    case CallbackSelects => s.callback == Fired
    case CallbackCloses => s.callback == Selected
    case StopCallback => (s.phase.Stopping? || s.phase.FailStopping?)
        && (s.callback == Armed || s.callback == Finished || s.callback == Stopped)
    case HandOff => s.phase.HandingOff?
    case Construct(_) => s.phase.Constructing?
    case SelectFailure => s.phase.Failing?
    case CloseFailed => s.phase.FailClosing?
    case ConnectionWrites(_) => s.phase.Connected?
    case ConnectionCloses => s.phase.Connected?
  }

  /** `closeOnceStream.Close`. */
  function Close(s: Side, byCallback: bool): Side {
    if s.closes == 0 then s.(closes := 1, closedByCallback := byCallback) else s
  }

  /** `selectError`. */
  function Select(s: Side): Side {
    if !s.failed && !s.handedOff then s.(failed := true) else s
  }

  /** What follows a complete write: the client reads, the server is done. */
  function AfterWrite(s: Side, n: nat): Side
    requires s.phase.Sending? && s.phase.sent + n <= ID_SIZE
  {
    var sent := s.phase.sent + n;
    if sent < ID_SIZE then s.(phase := Sending(sent)) else s.(phase := if s.client then Receiving else Stopping)
  }

  /** What follows a complete read: a mismatch fails, and only then does the server write. */
  function AfterRead(s: Side): Side {
    if |s.got| < ID_SIZE then s
    else if s.got != s.exported then s.(phase := Failing)
    else s.(phase := if s.client then Stopping else Sending(0))
  }

  function Apply(s: Side, peerOut: Bytes, m: Move): Side
    requires Enabled(s, peerOut, m) && |s.imported| == ID_SIZE
  {
    match m
    case WriteSome(n) => AfterWrite(s.(out := s.out + s.imported[s.phase.sent..s.phase.sent + n]), n)
    case WriteFails(n) => s.(out := s.out + s.imported[s.phase.sent..s.phase.sent + n], phase := Failing)
    case ReadSome(n) => AfterRead(s.(got := s.got + peerOut[|s.got|..|s.got| + n]))
    case ReadFails(n) => s.(got := s.got + peerOut[|s.got|..|s.got| + n], phase := Failing)
    case Fire => s.(callback := Fired)
    case CallbackSelects => Select(s).(callback := Selected)
    case CallbackCloses => Close(s, true).(callback := Finished)
    case StopCallback =>
      s.(callback := if s.callback == Armed then Stopped else s.callback, phase := if s.phase.Stopping? then HandingOff
          else FailClosing)
    case HandOff => if s.failed then Close(s, false).(phase := Rejected)
        else s.(handedOff := true, phase := Constructing)
    case Construct(ok) => if ok then s.(phase := Connected) else Close(s, false).(phase := Rejected)
    case SelectFailure => Select(s).(phase := FailStopping)
    case CloseFailed => Close(s, false).(phase := Rejected)
    case ConnectionWrites(bytes) => s.(out := s.out + bytes)
    case ConnectionCloses => Close(s, false)
  }

  // ---------------------------------------------------------------------------
  // Runs of both sides

  datatype Pair = Pair(c: Side, s: Side)

  datatype Turn = Client(m: Move) | Server(m: Move)

  predicate CanTurn(p: Pair, t: Turn) {
    match t
    case Client(m) => Enabled(p.c, p.s.out, m) && |p.c.imported| == ID_SIZE
    case Server(m) => Enabled(p.s, p.c.out, m) && |p.s.imported| == ID_SIZE
  }

  function Next(p: Pair, t: Turn): Pair
    requires CanTurn(p, t)
  {
    match t
    case Client(m) => p.(c := Apply(p.c, p.s.out, m))
    case Server(m) => p.(s := Apply(p.s, p.c.out, m))
  }

  predicate IsRun(p: Pair, turns: seq<Turn>)
    decreases |turns|
  {
    turns == [] || (CanTurn(p, turns[0]) && IsRun(Next(p, turns[0]), turns[1..]))
  }

  function After(p: Pair, turns: seq<Turn>): Pair
    requires IsRun(p, turns)
    decreases |turns|
  {
    if turns == [] then p else After(Next(p, turns[0]), turns[1..])
  }

  // ---------------------------------------------------------------------------
  // One side: what the outcome and the stream keep

  /** Agreement was reached before these phases. */
  predicate Agreed(s: Side) {
    s.got == s.exported
  }

  predicate Past(s: Side) {
    s.phase.Stopping? || s.phase.HandingOff? || s.phase.Constructing? || s.phase.Connected?
  }

  predicate OutcomeOk(s: Side) {
    && !(s.failed && s.handedOff)
    && s.closes <= 1
    && (s.callback == Fired || s.callback == Armed || s.callback == Stopped || s.failed || s.handedOff)
    && (s.handedOff ==> s.callback == Stopped)
    && (s.closedByCallback ==> s.callback == Finished)
    && ((s.phase.Constructing? || s.phase.Connected?) ==> s.handedOff)
    && ((s.phase.HandingOff? || s.phase.FailClosing?) ==> s.callback == Stopped || s.callback == Finished)
    && (s.handedOff ==> s.phase.Constructing? || s.phase.Connected? || s.phase.Rejected?)
    && ((s.callback == Selected || s.callback == Finished) ==> s.failed)
  }

  /** The bytes written so far are the identifier, and after it the frames of the connection. */
  predicate BytesOk(s: Side, peerOut: Bytes) {
    && |s.exported| == |s.imported| == ID_SIZE
    && (if |s.out| <= ID_SIZE then s.out == s.imported[..|s.out|] else s.out[..ID_SIZE] == s.imported)
    && (s.phase.Sending? ==> s.phase.sent == |s.out| < ID_SIZE)
    && |s.got| <= ID_SIZE && |s.got| <= |peerOut| && s.got == peerOut[..|s.got|]
    && (s.phase.Receiving? ==> |s.got| < ID_SIZE)
    && (Past(s) ==> Agreed(s) && |s.out| >= ID_SIZE)
    && (s.client && s.got != [] ==> |s.out| >= ID_SIZE)
    && (!s.client && s.out != [] ==> Agreed(s))
    && (s.client && s.phase.Receiving? ==> |s.out| >= ID_SIZE)
    && (!s.client && s.phase.Sending? ==> Agreed(s))
    && (!s.client && s.phase.Receiving? ==> s.out == [])
    && (s.client && s.phase.Sending? ==> s.got == [])
    && (|s.out| > ID_SIZE ==> s.phase.Connected?)
  }

  lemma {:induction false} OutcomeKept(s: Side, peerOut: Bytes, m: Move)
    requires OutcomeOk(s) && Enabled(s, peerOut, m) && |s.imported| == ID_SIZE
    ensures OutcomeOk(Apply(s, peerOut, m))
  {
    match m
    case WriteSome(n) =>
    case WriteFails(n) =>
    case ReadSome(n) =>
    case ReadFails(n) =>
    case Fire =>
    case CallbackSelects =>
    case CallbackCloses =>
    case StopCallback =>
    case HandOff =>
    case Construct(ok) =>
    case SelectFailure =>
    case CloseFailed =>
    case ConnectionWrites(bytes) =>
    case ConnectionCloses =>
  }

  lemma {:induction false} Extends(all: Bytes, k: nat, n: nat)
    requires k + n <= |all|
    ensures all[..k] + all[k..k + n] == all[..k + n]
  {
  }

  lemma {:induction false} WriteShape(s: Side, peerOut: Bytes, m: Move)
    requires Enabled(s, peerOut, m) && (m.WriteSome? || m.WriteFails?) && |s.imported| == ID_SIZE
    ensures var s' := Apply(s, peerOut, m); var sent := s.phase.sent + m.n;
            && s' == s.(out := s.out + s.imported[s.phase.sent..sent], phase := s'.phase)
            && s'.phase == (if m.WriteFails? then Failing
                            else if sent < ID_SIZE then Sending(sent) else if s.client then Receiving else Stopping)
  {
  }

  lemma {:induction false} ReadShape(s: Side, peerOut: Bytes, m: Move)
    requires Enabled(s, peerOut, m) && (m.ReadSome? || m.ReadFails?) && |s.imported| == ID_SIZE
    ensures var s' := Apply(s, peerOut, m); var got := s.got + peerOut[|s.got|..|s.got| + m.n];
            && s' == s.(got := got, phase := s'.phase)
            && s'.phase == (if m.ReadFails? then Failing
                            else if |got| < ID_SIZE then s.phase else if got != s.exported then Failing
                            else if s.client then Stopping else Sending(0))
  {
  }

  lemma {:induction false} CloseShape(s: Side, byCallback: bool)
    ensures var s' := Close(s, byCallback); s' == s.(closes := s'.closes, closedByCallback := s'.closedByCallback)
    ensures Select(s) == s.(failed := Select(s).failed)
  {
  }

  /** Neither reading nor writing: the phase goes on or falls back, and only the connection adds to the output. */
  lemma {:induction false} OtherMoveShape(s: Side, peerOut: Bytes, m: Move)
    requires Enabled(s, peerOut, m) && !m.WriteSome? && !m.WriteFails? && !m.ReadSome? && !m.ReadFails?
    requires |s.imported| == ID_SIZE
    ensures var s' := Apply(s, peerOut, m);
            && s'.client == s.client && s'.exported == s.exported && s'.imported == s.imported && s'.got == s.got
            && (s'.out == s.out || (s.phase.Connected? && m.ConnectionWrites? && s'.out == s.out + m.bytes))
            && (s.phase.Connected? ==> s'.phase.Connected?)
            && (Past(s') ==> Past(s))
            && ((s'.phase.Sending? || s'.phase.Receiving?) ==> s'.phase == s.phase)
  {
    CloseShape(s, true);
    CloseShape(s, false);
    hide Close, Select;
    match m
    case Fire =>
    case CallbackSelects =>
    case CallbackCloses =>
    case StopCallback =>
    case HandOff =>
    case Construct(ok) =>
    case SelectFailure =>
    case CloseFailed =>
    case ConnectionWrites(bytes) =>
    case ConnectionCloses =>
  }

  lemma {:induction false} WriteKeepsBytes(s: Side, peerOut: Bytes, m: Move)
    requires BytesOk(s, peerOut) && Enabled(s, peerOut, m) && (m.WriteSome? || m.WriteFails?)
    ensures BytesOk(Apply(s, peerOut, m), peerOut) && s.out <= Apply(s, peerOut, m).out
  {
    var sent := |s.out|;
    WriteShape(s, peerOut, m);
    Extends(s.imported, sent, m.n);
    hide Apply, Enabled;
    var out := s.out + s.imported[sent..sent + m.n];
    assert s.out == s.imported[..sent];
    assert out == s.imported[..sent + m.n] && |out| == sent + m.n;
    if sent + m.n == ID_SIZE {
      assert s.imported[..ID_SIZE] == s.imported;
    }
  }

  lemma {:induction false} ReadKeepsBytes(s: Side, peerOut: Bytes, m: Move)
    requires BytesOk(s, peerOut) && Enabled(s, peerOut, m) && (m.ReadSome? || m.ReadFails?)
    ensures BytesOk(Apply(s, peerOut, m), peerOut) && s.out <= Apply(s, peerOut, m).out
  {
    var k := |s.got|;
    ReadShape(s, peerOut, m);
    Extends(peerOut, k, m.n);
    hide Apply, Enabled;
    var got := s.got + peerOut[k..k + m.n];
    assert got == peerOut[..k + m.n] && |got| == k + m.n;
  }

  lemma {:induction false} OtherKeepsBytes(s: Side, peerOut: Bytes, m: Move)
    requires BytesOk(s, peerOut) && Enabled(s, peerOut, m)
    requires !m.WriteSome? && !m.WriteFails? && !m.ReadSome? && !m.ReadFails?
    ensures BytesOk(Apply(s, peerOut, m), peerOut) && s.out <= Apply(s, peerOut, m).out
  {
    OtherMoveShape(s, peerOut, m);
    hide Apply, Enabled;
    if m.ConnectionWrites? {
      assert (s.out + m.bytes)[..ID_SIZE] == s.out[..ID_SIZE];
    }
  }

  lemma {:induction false} OwnBytesKept(s: Side, peerOut: Bytes, m: Move)
    requires BytesOk(s, peerOut) && Enabled(s, peerOut, m)
    ensures |s.imported| == ID_SIZE && BytesOk(Apply(s, peerOut, m), peerOut) && s.out <= Apply(s, peerOut, m).out
  {
    assert |s.imported| == ID_SIZE;
    hide BytesOk, Apply, Enabled;
    if m.WriteSome? || m.WriteFails? {
      WriteKeepsBytes(s, peerOut, m);
    } else if m.ReadSome? || m.ReadFails? {
      ReadKeepsBytes(s, peerOut, m);
    } else {
      OtherKeepsBytes(s, peerOut, m);
    }
  }

  lemma {:induction false} PeerBytesKept(s: Side, peerOut: Bytes, more: Bytes)
    requires BytesOk(s, peerOut) && peerOut <= more
    ensures BytesOk(s, more)
  {
    assert more[..|s.got|] == peerOut[..|s.got|];
  }

  predicate PairOk(p: Pair) {
    && p.c.client && !p.s.client
    && OutcomeOk(p.c) && OutcomeOk(p.s) && BytesOk(p.c, p.s.out) && BytesOk(p.s, p.c.out)
  }

  predicate SameIdentity(a: Side, b: Side) {
    a.client == b.client && a.exported == b.exported && a.imported == b.imported
  }

  lemma {:induction false} IdentityKept(s: Side, peerOut: Bytes, m: Move)
    requires Enabled(s, peerOut, m) && |s.imported| == ID_SIZE
    ensures SameIdentity(s, Apply(s, peerOut, m))
  {
  }

  lemma {:induction false} TurnKeeps(p: Pair, t: Turn)
    requires PairOk(p) && CanTurn(p, t)
    ensures PairOk(Next(p, t)) && SameIdentity(p.c, Next(p, t).c) && SameIdentity(p.s, Next(p, t).s)
  {
    hide OutcomeOk, BytesOk, Apply, Enabled;
    match t
    case Client(m) =>
      OutcomeKept(p.c, p.s.out, m);
      OwnBytesKept(p.c, p.s.out, m);
      IdentityKept(p.c, p.s.out, m);
      PeerBytesKept(p.s, p.c.out, Apply(p.c, p.s.out, m).out);
    case Server(m) =>
      OutcomeKept(p.s, p.c.out, m);
      OwnBytesKept(p.s, p.c.out, m);
      IdentityKept(p.s, p.c.out, m);
      PeerBytesKept(p.c, p.s.out, Apply(p.s, p.c.out, m).out);
  }

  lemma {:induction false} RunKeeps(p: Pair, turns: seq<Turn>)
    requires PairOk(p) && IsRun(p, turns)
    ensures var q := After(p, turns); PairOk(q) && SameIdentity(p.c, q.c) && SameIdentity(p.s, q.s)
    decreases |turns|
  {
    hide PairOk, Next, CanTurn;
    if turns != [] {
      TurnKeeps(p, turns[0]);
      RunKeeps(Next(p, turns[0]), turns[1..]);
    }
  }

  predicate Begin(p: Pair) {
    Start(p.c) && Start(p.s) && p.c.client && !p.s.client
  }

  /**
   * In every run: a connected client agreed with its server in both directions; a connected server knows that the
   * client expects its export; each connected side consumed exactly one identifier.
   */
  lemma {:induction false} ConnectedMeansAgreed(p: Pair, turns: seq<Turn>)
    requires Begin(p) && IsRun(p, turns)
    ensures var q := After(p, turns);
            && (q.c.phase.Connected? ==> p.s.imported == p.c.exported && p.c.imported == p.s.exported
                                         && |q.c.got| == ID_SIZE)
            && (q.s.phase.Connected? ==> p.c.imported == p.s.exported && |q.s.got| == ID_SIZE)
  {
    RunKeeps(p, turns);
    var q := After(p, turns);
    hide IsRun, After;
    if q.s.out != [] {
      WholeIdentifier(q.s, q.c);
    }
    if q.c.phase.Connected? {
      WholeIdentifier(q.c, q.s);
    }
  }

  /**
   * In every run: once the client wrote one byte beyond its identifier, the two sides agree in both directions. This is
   * the first thing a server can see that tells it so.
   */
  lemma {:induction false} FirstByteMeansAgreed(p: Pair, turns: seq<Turn>)
    requires Begin(p) && IsRun(p, turns) && |After(p, turns).c.out| > ID_SIZE
    ensures p.s.imported == p.c.exported && p.c.imported == p.s.exported
  {
    RunKeeps(p, turns);
    ConnectedMeansAgreed(p, turns);
  }

  /**
   * Nothing fails, nothing is short: the client announces, the server accepts and connects, the client reads nothing.
   */
  const ACCEPTING: seq<Turn> := [
    Client(WriteSome(ID_SIZE)), Server(ReadSome(ID_SIZE)), Server(WriteSome(ID_SIZE)),
    Server(StopCallback), Server(HandOff), Server(Construct(true))]

  lemma {:induction false} TurnFirst(p: Pair, t: Turn, rest: seq<Turn>)
    requires CanTurn(p, t) && IsRun(Next(p, t), rest)
    ensures IsRun(p, [t] + rest) && After(p, [t] + rest) == After(Next(p, t), rest)
  {
    assert ([t] + rest)[0] == t && ([t] + rest)[1..] == rest;
  }

  lemma {:induction false} AcceptsFirst(p: Pair)
    requires Begin(p) && p.c.imported == p.s.exported
    ensures CanTurn(p, ACCEPTING[0]) && CanTurn(Next(p, ACCEPTING[0]), ACCEPTING[1])
    ensures CanTurn(Next(Next(p, ACCEPTING[0]), ACCEPTING[1]), ACCEPTING[2])
    ensures var c := Next(Next(Next(p, ACCEPTING[0]), ACCEPTING[1]), ACCEPTING[2]);
            && c.c.phase == Receiving && |c.c.out| == ID_SIZE && |c.s.imported| == ID_SIZE
            && c.s.phase == Stopping && c.s.callback == Armed && !c.s.failed
  {
    assert forall bs: Bytes :: |bs| == ID_SIZE ==> [] + bs[0..ID_SIZE] == bs;
    var a := Next(p, ACCEPTING[0]);
    assert a.c.out == p.c.imported;
    var b := Next(a, ACCEPTING[1]);
    assert b.s.got == p.s.exported;
  }

  lemma {:induction false} AcceptsLast(c: Pair)
    requires |c.s.imported| == ID_SIZE && c.s.phase == Stopping && c.s.callback == Armed && !c.s.failed
    ensures CanTurn(c, ACCEPTING[3]) && CanTurn(Next(c, ACCEPTING[3]), ACCEPTING[4])
    ensures CanTurn(Next(Next(c, ACCEPTING[3]), ACCEPTING[4]), ACCEPTING[5])
    ensures var f := Next(Next(Next(c, ACCEPTING[3]), ACCEPTING[4]), ACCEPTING[5]);
            f.c == c.c && f.s.phase == Connected
  {
  }

  lemma {:induction false} Accepts(p: Pair)
    requires Begin(p) && p.c.imported == p.s.exported
    ensures IsRun(p, ACCEPTING) && After(p, ACCEPTING).s.phase.Connected?
    ensures After(p, ACCEPTING).c.phase == Receiving && |After(p, ACCEPTING).c.out| == ID_SIZE
  {
    AcceptsFirst(p);
    var a := Next(p, ACCEPTING[0]);
    var b := Next(a, ACCEPTING[1]);
    var c := Next(b, ACCEPTING[2]);
    AcceptsLast(c);
    var d := Next(c, ACCEPTING[3]);
    var e := Next(d, ACCEPTING[4]);
    hide Next, CanTurn;
    TurnFirst(e, ACCEPTING[5], []);
    TurnFirst(d, ACCEPTING[4], ACCEPTING[5..]);
    TurnFirst(c, ACCEPTING[3], ACCEPTING[4..]);
    TurnFirst(b, ACCEPTING[2], ACCEPTING[3..]);
    TurnFirst(a, ACCEPTING[1], ACCEPTING[2..]);
    TurnFirst(p, ACCEPTING[0], ACCEPTING[1..]);
  }

  ghost predicate ServerCanConnect(p: Pair) {
    exists turns :: IsRun(p, turns) && After(p, turns).s.phase.Connected?
  }

  /**
   * Some run connects the server exactly when the client expects the server's export. What the client itself exports
   * plays no part.
   */
  lemma {:induction false} ServerConnectsExactly(p: Pair)
    requires Begin(p)
    ensures ServerCanConnect(p) <==> p.c.imported == p.s.exported
  {
    if p.c.imported == p.s.exported {
      Accepts(p);
    }
    if ServerCanConnect(p) {
      var turns :| IsRun(p, turns) && After(p, turns).s.phase.Connected?;
      ConnectedMeansAgreed(p, turns);
    }
  }

  function Fresh(client: bool, exported: Bytes, imported: Bytes): Side {
    Side(client, exported, imported, if client then Sending(0) else Receiving, [], [], false, false, Armed, 0, false)
  }

  /** A run that connects the server to a client whose export is not the one the server imports. */
  lemma {:induction false} ServerMeetsMismatch(p: Pair)
    requires p == Pair(Fresh(true, seq(ID_SIZE, _ => 1), seq(ID_SIZE, _ => 2)),
             Fresh(false, seq(ID_SIZE, _ => 2), seq(ID_SIZE, _ => 3)))
    ensures Begin(p) && IsRun(p, ACCEPTING) && After(p, ACCEPTING).s.phase.Connected? && p.s.imported != p.c.exported
  {
    assert p.s.imported[0] == 3 && p.c.exported[0] == 1;
    Accepts(p);
  }

  /** A side that agreed read the whole identifier that its peer wrote. */
  lemma {:induction false} WholeIdentifier(a: Side, b: Side)
    requires BytesOk(a, b.out) && BytesOk(b, a.out) && Agreed(a)
    ensures |a.got| == ID_SIZE && b.out != [] && a.exported == b.imported
  {
    assert b.out[..ID_SIZE] == a.got;
    if |b.out| == ID_SIZE {
      assert b.out[..ID_SIZE] == b.out;
      assert b.imported[..ID_SIZE] == b.imported;
    }
  }

  /**
   * In every run: each underlying stream is closed at most once; a stream handed to its connection was never closed
   * by the setup callback and never will be; failure and handoff exclude each other.
   */
  lemma {:induction false} StreamHasOneOwner(p: Pair, turns: seq<Turn>)
    requires Begin(p) && IsRun(p, turns)
    ensures var q := After(p, turns);
            && q.c.closes <= 1 && q.s.closes <= 1
            && (q.c.handedOff ==> !q.c.closedByCallback && !q.c.failed && q.c.callback == Stopped)
            && (q.s.handedOff ==> !q.s.closedByCallback && !q.s.failed && q.s.callback == Stopped)
  {
    RunKeeps(p, turns);
  }

  // ---------------------------------------------------------------------------
  // The read loop

  class SetupReader {
    var arriving: Bytes
    var replies: seq<Reply>

    /** What the next `Read` reports: any count, possible or not, but never bytes that did not arrive. */
    function Report(max: nat): Reply
      reads this
    {
      if replies == [] || |arriving| < replies[0].count <= max then Reply(0, true) else replies[0]
    }

    method Read(max: nat) returns (bs: Bytes, count: int, failed: bool)
      modifies this
      ensures Reply(count, failed) == old(Report(max))
      ensures replies == (if old(replies) == [] then [] else old(replies)[1..])
      ensures old(arriving) == bs + arriving && bs == if 0 <= count <= max then old(arriving)[..count] else []
    {
      var reply := Report(max);
      replies := if replies == [] then [] else replies[1..];
      bs, count, failed := [], reply.count, reply.failed;
      if 0 <= count <= max {
        bs, arriving := arriving[..count], arriving[count..];
      }
    }
  }

  datatype ReadResult = Id(id: Bytes) | BadCount | ShortRead | NoBytes

  /** The replies bring `n` of the bytes that arrive: an error with the last bytes does no harm. */
  predicate Bring(replies: seq<Reply>, n: nat, arriving: nat)
    decreases |replies|
  {
    n == 0 ||
    (replies != [] && 0 < replies[0].count <= n && replies[0].count <= arriving
     && (replies[0].count == n || (!replies[0].failed
        && Bring(replies[1..], n - replies[0].count, arriving - replies[0].count))))
  }

  /** `readInterfaceID`: exactly one identifier is consumed, or the read fails. */
  method ReadInterfaceID(r: SetupReader) returns (res: ReadResult)
    modifies r
    ensures res.Id? <==> Bring(old(r.replies), ID_SIZE, |old(r.arriving)|)
    ensures res.Id? ==> |old(r.arriving)| >= ID_SIZE && res.id == old(r.arriving)[..ID_SIZE]
                        && r.arriving == old(r.arriving)[ID_SIZE..]
  {
    var id: Bytes := [];
    while |id| < ID_SIZE
      invariant |id| < ID_SIZE && old(r.arriving) == id + r.arriving
      invariant Bring(r.replies, ID_SIZE - |id|, |r.arriving|) <==> Bring(old(r.replies), ID_SIZE, |old(r.arriving)|)
    {
      var max := ID_SIZE - |id|;
      var bs, n, failed := r.Read(max);
      if n < 0 || n > max {
        return BadCount;
      }
      assert old(r.arriving) == (id + bs) + r.arriving;
      id := id + bs;
      if |id| == ID_SIZE {
        return Id(id);
      }
      if failed {
        return ShortRead;
      }
      if n == 0 {
        return NoBytes;
      }
    }
    return Id(id);
  }
}
