/**
 * Resource accounting of the TypeScript runtime: outgoing calls and responses take a call slot, a frame-byte
 * reservation and a send lease, and give each back exactly once on every path. One step is one synchronous stretch
 * between suspensions; the user's encoder runs between two steps, so what it calls re-entrantly is a step of its own,
 * and teardown is one step per pending call.
 *
 * The send gate is a chain of promises: whoever asks waits for the promise that was last in the chain and puts its own
 * behind it. Nothing in it names an order or an owner.
 */
module CallAccounting {
  const MAX_OUTGOING_CALLS: nat := 1024
  const MAX_OWNED_FRAME_BYTES: nat := 134_217_776
  const MAX_NATIVE_QUEUED_BYTES: nat := 134_217_776
  const MAX_REQUEST_ID: nat := 0x7fff_ffff_ffff_ffff

  datatype Slot = NoSlot | Held | Returned

  datatype Reservation = NoBytes | Reserved(bytes: nat) | Freed

  /** Where a call or a response stands. */
  datatype Phase =
    | Idle
    | Encoding
    | Waiting(ticket: nat, awaits: nat)
    | Leased(ticket: nat)
    | Refused
    | Awaiting(id: nat)
    | Settled
    | Done

  datatype Task = Task(response: bool, phase: Phase, slot: Slot, frame: Reservation)

  /**
   * The runtime: the counters, the pending calls by request ID, and the send gate. The gate's promises are numbered as
   * they are made: `tail` is the last of the chain, `resolved` are those that are resolved. `grants` records the
   * promises behind the leases in the order in which they were granted.
   */
  datatype Runtime = Runtime(
    tasks: seq<Task>, active: nat, owned: nat,
    pending: map<nat, nat>, nextID: nat, terminal: bool,
    tail: nat, resolved: set<nat>, nextTicket: nat, grants: seq<nat>,
    underflow: bool)

  // ---------------------------------------------------------------------------
  // Giving back

  /** `OutgoingCallSlot.release`: once; a release without an active call would be an underflow. */
  function ReleaseSlot(r: Runtime, i: nat): Runtime
    requires i < |r.tasks|
  {
    if r.tasks[i].slot != Held then r
    else
      r.(tasks := r.tasks[i := r.tasks[i].(slot := Returned)],
         active := if r.active > 0 then r.active - 1 else 0,
         underflow := r.underflow || r.active == 0)
  }

  /** The release function of `reserveFrameBytes`: once. */
  function ReleaseFrame(r: Runtime, i: nat): Runtime
    requires i < |r.tasks|
  {
    match r.tasks[i].frame
    case Reserved(n) =>
      r.(tasks := r.tasks[i := r.tasks[i].(frame := Freed)], owned := if n <= r.owned then r.owned - n else 0,
         underflow := r.underflow || n > r.owned)
    case _ => r
  }

  /** Releasing the send lease, if it is held, resolves the promise that was put into the chain for it. */
  function Leave(r: Runtime, i: nat): Runtime
    requires i < |r.tasks|
  {
    if r.tasks[i].phase.Leased? then r.(resolved := r.resolved + {r.tasks[i].phase.ticket}) else r
  }

  function SetPhase(r: Runtime, i: nat, p: Phase): Runtime
    requires i < |r.tasks|
  {
    r.(tasks := r.tasks[i := r.tasks[i].(phase := p)])
  }

  function TakeSlot(r: Runtime, i: nat): Runtime
    requires i < |r.tasks|
  {
    r.(tasks := r.tasks[i := r.tasks[i].(slot := Held)], active := r.active + 1)
  }

  function TakeFrame(r: Runtime, i: nat, n: nat): Runtime
    requires i < |r.tasks|
  {
    r.(tasks := r.tasks[i := r.tasks[i].(frame := Reserved(n))], owned := r.owned + n)
  }

  /** `acquire`: a new promise goes to the end of the chain; the one before it is awaited. */
  function Acquire(r: Runtime, i: nat): Runtime
    requires i < |r.tasks|
  {
    SetPhase(r, i, Waiting(r.nextTicket, r.tail)).(tail := r.nextTicket, nextTicket := r.nextTicket + 1)
  }

  /** The `finally` clause: whatever is still held goes back. */
  function Unwound(r: Runtime, i: nat): Runtime
    requires i < |r.tasks|
  {
    SetPhase(ReleaseFrame(ReleaseSlot(Leave(r, i), i), i), i, Done)
  }

  /** A failed response ends the connection; a failed call does not. */
  function Failed(r: Runtime, i: nat): Runtime
    requires i < |r.tasks|
  {
    r.(terminal := r.terminal || r.tasks[i].response)
  }

  /** A claimant removed the pending call. */
  function Settle(r: Runtime, id: nat): Runtime
    requires id in r.pending && r.pending[id] < |r.tasks|
  {
    var i := r.pending[id];
    SetPhase(ReleaseSlot(r.(pending := r.pending - {id}), i), i, Settled)
  }

  function Register(r: Runtime, i: nat): Runtime
    requires i < |r.tasks|
  {
    SetPhase(r, i, Awaiting(r.nextID)).(pending := r.pending[r.nextID := i], nextID := r.nextID + 1)
  }

  // ---------------------------------------------------------------------------
  // Steps

  /** How far a call or response gets, from its payload on, before it throws or suspends in the gate. */
  datatype Stop = BeforeFrame | BeforeGate | InGate

  datatype Step =
    | NewTask(response: bool)
    | Drop(i: nat)
    | Begin(i: nat)
    | Prepare(i: nat, size: nat, stop: Stop)
    | Grant(i: nat)
    | Refuse(i: nat)
    | FailBeforeSend(i: nat)
    | Send(i: nat)
    | SendThrows(i: nat)
    | SendResponse(i: nat, ok: bool)
    | Respond(id: nat)
    | Abort(id: nat)
    | Terminate
    | Teardown(id: nat)
    | Finish(i: nat)

  predicate SlotFree(r: Runtime) {
    !r.terminal && r.active < MAX_OUTGOING_CALLS
  }

  predicate BytesFree(r: Runtime, n: nat) {
    n <= MAX_OWNED_FRAME_BYTES && r.owned <= MAX_OWNED_FRAME_BYTES - n
  }

  /** The promise this task awaits is resolved. */
  predicate Woken(r: Runtime, i: nat) {
    i < |r.tasks| && r.tasks[i].phase.Waiting? && r.tasks[i].phase.awaits in r.resolved
  }

  predicate Enabled(r: Runtime, s: Step) {
    match s
    case NewTask(_) => true
    case Drop(i) => i < |r.tasks| && r.tasks[i].phase == Idle
    case Begin(i) => i < |r.tasks| && r.tasks[i].phase == Idle && !r.tasks[i].response && SlotFree(r)
    case Prepare(i, n, stop) =>
      && i < |r.tasks| && r.tasks[i].phase == (if r.tasks[i].response then Idle else Encoding)
      && (stop != BeforeFrame || r.tasks[i].response ==> !r.terminal)
      && (stop != BeforeFrame ==> BytesFree(r, n))
      && (stop == InGate ==> n <= MAX_NATIVE_QUEUED_BYTES)
    case Grant(i) => Woken(r, i) && !r.terminal
    case Refuse(i) => Woken(r, i)
    case FailBeforeSend(i) => i < |r.tasks| && r.tasks[i].phase.Leased? && !r.tasks[i].response
    case Send(i) => i < |r.tasks| && r.tasks[i].phase.Leased? && !r.tasks[i].response && !r.terminal
        && r.nextID <= MAX_REQUEST_ID
    case SendThrows(i) => i < |r.tasks| && r.tasks[i].phase.Leased? && !r.tasks[i].response && !r.terminal
        && r.nextID <= MAX_REQUEST_ID
    case SendResponse(i, _) => i < |r.tasks| && r.tasks[i].phase.Leased? && r.tasks[i].response
    case Respond(id) => id in r.pending && r.pending[id] < |r.tasks|
    case Abort(id) => id in r.pending && r.pending[id] < |r.tasks|
    case Terminate => true
    case Teardown(id) => r.terminal && id in r.pending && r.pending[id] < |r.tasks|
    case Finish(i) => i < |r.tasks| && (r.tasks[i].phase == Settled || r.tasks[i].phase == Refused)
  }

  function PrepareTask(r: Runtime, i: nat, n: nat, stop: Stop): Runtime
    requires i < |r.tasks|
  {
    if stop == BeforeFrame then Unwound(Failed(r, i), i)
    else
      var b := TakeFrame(r, i, n);
      if stop == BeforeGate then Unwound(Failed(b, i), i) else Acquire(b, i)
  }

  function Apply(r: Runtime, s: Step): Runtime
    requires Enabled(r, s)
  {
    match s
    case NewTask(response) => r.(tasks := r.tasks + [Task(response, Idle, NoSlot, NoBytes)])
    case Drop(i) => SetPhase(r, i, Done)
    case Begin(i) => SetPhase(TakeSlot(r, i), i, Encoding)
    case Prepare(i, n, stop) => PrepareTask(r, i, n, stop)
    case Grant(i) => SetPhase(r, i, Leased(r.tasks[i].phase.ticket)).(grants := r.grants + [r.tasks[i].phase.ticket])
    case Refuse(i) => SetPhase(r.(resolved := r.resolved + {r.tasks[i].phase.ticket}), i, Refused)
    case FailBeforeSend(i) => Unwound(r, i)
    case Send(i) => Register(Leave(r, i), i)
    case SendThrows(i) =>
      var sent := Register(Leave(r, i), i);
      Unwound(Settle(sent.(terminal := true), r.nextID), i)
    case SendResponse(i, ok) => Unwound(r.(terminal := r.terminal || !ok), i)
    case Respond(id) => Settle(r, id)
    case Abort(id) => Settle(r, id)
    case Terminate => r.(terminal := true)
    case Teardown(id) => Settle(r, id)
    case Finish(i) => Unwound(Failed(r, i), i)
  }

  predicate IsRun(r: Runtime, steps: seq<Step>)
    decreases |steps|
  {
    steps == [] || (Enabled(r, steps[0]) && IsRun(Apply(r, steps[0]), steps[1..]))
  }

  function After(r: Runtime, steps: seq<Step>): Runtime
    requires IsRun(r, steps)
    decreases |steps|
  {
    if steps == [] then r else After(Apply(r, steps[0]), steps[1..])
  }

  const START: Runtime := Runtime([], 0, 0, map[], 0, false, 0, {0}, 1, [], false)

  // ---------------------------------------------------------------------------
  // What is outstanding

  function SlotOf(t: Task): nat {
    if t.slot == Held then 1 else 0
  }

  function BytesOf(t: Task): nat {
    if t.frame.Reserved? then t.frame.bytes else 0
  }

  function Slots(ts: seq<Task>): nat {
    if ts == [] then 0 else SlotOf(ts[0]) + Slots(ts[1..])
  }

  function Bytes(ts: seq<Task>): nat {
    if ts == [] then 0 else BytesOf(ts[0]) + Bytes(ts[1..])
  }

  lemma {:induction false} Replaced(ts: seq<Task>, i: nat, t: Task)
    requires i < |ts|
    ensures Slots(ts[i := t]) + SlotOf(ts[i]) == Slots(ts) + SlotOf(t)
    ensures Bytes(ts[i := t]) + BytesOf(ts[i]) == Bytes(ts) + BytesOf(t)
    decreases |ts|
  {
    if i == 0 {
      assert ts[i := t][1..] == ts[1..];
    } else {
      Replaced(ts[1..], i - 1, t);
      assert ts[i := t][1..] == ts[1..][i - 1 := t];
    }
  }

  lemma {:induction false} Added(ts: seq<Task>, t: Task)
    ensures Slots(ts + [t]) == Slots(ts) + SlotOf(t) && Bytes(ts + [t]) == Bytes(ts) + BytesOf(t)
    decreases |ts|
  {
    if ts == [] {
      assert ts + [t] == [t] && [t][1..] == [];
    } else {
      Added(ts[1..], t);
      assert (ts + [t])[1..] == ts[1..] + [t];
    }
  }

  lemma {:induction false} Outstanding(ts: seq<Task>, i: nat)
    requires i < |ts|
    ensures SlotOf(ts[i]) <= Slots(ts) && BytesOf(ts[i]) <= Bytes(ts)
    decreases |ts|
  {
    if i > 0 {
      Outstanding(ts[1..], i - 1);
    }
  }

  /** The counters are what is outstanding, within their bounds. */
  predicate Balanced(r: Runtime) {
    && r.active == Slots(r.tasks) && r.owned == Bytes(r.tasks) && !r.underflow
    && r.active <= MAX_OUTGOING_CALLS && r.owned <= MAX_OWNED_FRAME_BYTES
  }

  lemma {:induction false} ReleaseSlotBalances(r: Runtime, i: nat)
    requires Balanced(r) && i < |r.tasks|
    ensures Balanced(ReleaseSlot(r, i)) && |ReleaseSlot(r, i).tasks| == |r.tasks|
  {
    if r.tasks[i].slot == Held {
      Replaced(r.tasks, i, r.tasks[i].(slot := Returned));
      Outstanding(r.tasks, i);
    }
  }

  lemma {:induction false} ReleaseFrameBalances(r: Runtime, i: nat)
    requires Balanced(r) && i < |r.tasks|
    ensures Balanced(ReleaseFrame(r, i)) && |ReleaseFrame(r, i).tasks| == |r.tasks|
  {
    if r.tasks[i].frame.Reserved? {
      Replaced(r.tasks, i, r.tasks[i].(frame := Freed));
      Outstanding(r.tasks, i);
    }
  }

  lemma {:induction false} PhaseBalances(r: Runtime, i: nat, p: Phase)
    requires Balanced(r) && i < |r.tasks|
    ensures Balanced(SetPhase(r, i, p)) && |SetPhase(r, i, p).tasks| == |r.tasks|
  {
    Replaced(r.tasks, i, r.tasks[i].(phase := p));
  }

  lemma {:induction false} UnwoundBalances(r: Runtime, i: nat)
    requires Balanced(r) && i < |r.tasks|
    ensures Balanced(Unwound(r, i)) && |Unwound(r, i).tasks| == |r.tasks|
  {
    hide Balanced, ReleaseSlot, ReleaseFrame, SetPhase;
    var a := Leave(r, i);
    LeaveBalances(r, i);
    ReleaseSlotBalances(a, i);
    ReleaseFrameBalances(ReleaseSlot(a, i), i);
    PhaseBalances(ReleaseFrame(ReleaseSlot(a, i), i), i, Done);
  }

  lemma {:induction false} LeaveBalances(r: Runtime, i: nat)
    requires Balanced(r) && i < |r.tasks|
    ensures Balanced(Leave(r, i)) && Leave(r, i).tasks == r.tasks
  {
    hide Slots, Bytes;
  }

  lemma {:induction false} SettleBalances(r: Runtime, id: nat)
    requires Balanced(r) && id in r.pending && r.pending[id] < |r.tasks|
    ensures Balanced(Settle(r, id)) && |Settle(r, id).tasks| == |r.tasks|
  {
    var a := r.(pending := r.pending - {id});
    assert Balanced(a);
    hide Balanced, ReleaseSlot, SetPhase;
    ReleaseSlotBalances(a, r.pending[id]);
    PhaseBalances(ReleaseSlot(a, r.pending[id]), r.pending[id], Settled);
  }

  lemma {:induction false} RegisterBalances(r: Runtime, i: nat)
    requires Balanced(r) && i < |r.tasks|
    ensures Balanced(Register(r, i)) && |Register(r, i).tasks| == |r.tasks|
  {
    PhaseBalances(r, i, Awaiting(r.nextID));
  }

  lemma {:induction false} BeginBalances(r: Runtime, i: nat)
    requires Balanced(r) && Enabled(r, Begin(i)) && r.tasks[i].slot == NoSlot
    ensures Balanced(Apply(r, Begin(i)))
  {
    Replaced(r.tasks, i, r.tasks[i].(slot := Held));
    PhaseBalances(TakeSlot(r, i), i, Encoding);
  }

  lemma {:induction false} PrepareBalances(r: Runtime, i: nat, n: nat, stop: Stop)
    requires Balanced(r) && Enabled(r, Prepare(i, n, stop)) && r.tasks[i].frame == NoBytes
    ensures Balanced(PrepareTask(r, i, n, stop))
  {
    if stop == BeforeFrame {
      UnwoundBalances(Failed(r, i), i);
    } else {
      var b := TakeFrame(r, i, n);
      Replaced(r.tasks, i, r.tasks[i].(frame := Reserved(n)));
      assert Balanced(b);
      if stop == BeforeGate {
        UnwoundBalances(Failed(b, i), i);
      } else {
        PhaseBalances(b, i, Waiting(b.nextTicket, b.tail));
      }
    }
  }

  // ---------------------------------------------------------------------------
  // What each task holds where it stands

  predicate TaskOk(t: Task) {
    match t.phase
    case Idle => t.slot == NoSlot && t.frame == NoBytes
    case Encoding => !t.response && t.slot == Held && t.frame == NoBytes
    case Waiting(_, _) => t.frame.Reserved? && t.slot == (if t.response then NoSlot else Held)
    case Leased(_) => t.frame.Reserved? && t.slot == (if t.response then NoSlot else Held)
    case Refused => t.frame.Reserved? && t.slot == (if t.response then NoSlot else Held)
    case Awaiting(_) => !t.response && t.frame.Reserved? && t.slot == Held
    case Settled => !t.response && t.frame.Reserved? && t.slot == Returned
    case Done => t.slot != Held && !t.frame.Reserved?
  }

  predicate TasksOk(ts: seq<Task>) {
    forall i :: 0 <= i < |ts| ==> TaskOk(ts[i])
  }

  predicate InGatePhase(p: Phase) {
    p.Waiting? || p.Leased?
  }

  predicate Increasing(xs: seq<nat>) {
    forall i, j :: 0 <= i < j < |xs| ==> xs[i] < xs[j]
  }

  /** Task `i` is in the gate with promise `k`. */
  predicate Holds(ts: seq<Task>, i: int, k: int) {
    0 <= i < |ts| && InGatePhase(ts[i].phase) && ts[i].phase.ticket == k
  }

  predicate Prefix(ks: set<nat>) {
    forall k, j: nat :: k in ks && j < k ==> j in ks
  }

  /** What a task in the gate knows: its promise is open, and the one before it is awaited, or resolved once leased. */
  predicate LinkOk(p: Phase, resolved: set<nat>, nextTicket: nat) {
    InGatePhase(p) ==>
      && 0 < p.ticket < nextTicket && p.ticket !in resolved
      && (p.Waiting? ==> p.awaits == p.ticket - 1) && (p.Leased? ==> p.ticket - 1 in resolved)
  }

  /** The chain: the resolved promises come first, and every other promise made is held by one task of the gate. */
  ghost predicate ChainOk(ts: seq<Task>, resolved: set<nat>, nextTicket: nat) {
    && 0 in resolved && Prefix(resolved) && (forall k :: k in resolved ==> k < nextTicket)
    && (forall i :: 0 <= i < |ts| ==> LinkOk(ts[i].phase, resolved, nextTicket))
    && (forall i, j, k :: Holds(ts, i, k) && Holds(ts, j, k) ==> i == j)
    && (forall k: nat :: k < nextTicket && k !in resolved ==> exists i :: Holds(ts, i, k))
  }

  /** The leases so far: granted in the order of the chain, each now resolved or still held. */
  ghost predicate GrantsOk(ts: seq<Task>, resolved: set<nat>, grants: seq<nat>) {
    && Increasing(grants)
    && (forall g :: g in grants && g !in resolved ==> exists i :: Holds(ts, i, g) && ts[i].phase.Leased?)
  }

  ghost predicate GateOk(r: Runtime) {
    r.tail + 1 == r.nextTicket && ChainOk(r.tasks, r.resolved, r.nextTicket) && GrantsOk(r.tasks, r.resolved, r.grants)
  }

  /** The pending table and the waiting calls are each other's inverse. */
  predicate PendingOk(ts: seq<Task>, pending: map<nat, nat>, nextID: nat) {
    && (forall id :: id in pending ==> pending[id] < |ts| && ts[pending[id]].phase == Awaiting(id) && id < nextID)
    && (forall i :: 0 <= i < |ts| && ts[i].phase.Awaiting? ==>
       ts[i].phase.id in pending && pending[ts[i].phase.id] == i)
  }

  ghost predicate Inv(r: Runtime) {
    Balanced(r) && TasksOk(r.tasks) && GateOk(r) && PendingOk(r.tasks, r.pending, r.nextID)
  }

  // ---------------------------------------------------------------------------
  // Frames of one changed task

  lemma {:induction false} TasksSet(ts: seq<Task>, i: nat, t: Task)
    requires TasksOk(ts) && TaskOk(t) && i < |ts|
    ensures TasksOk(ts[i := t])
  {
    hide TaskOk;
  }

  lemma {:induction false} ChainOther(ts: seq<Task>, resolved: set<nat>, nextTicket: nat, i: nat, t: Task)
    requires ChainOk(ts, resolved, nextTicket) && i < |ts| && !InGatePhase(ts[i].phase) && !InGatePhase(t.phase)
    ensures ChainOk(ts[i := t], resolved, nextTicket)
  {
    var us := ts[i := t];
    assert forall j, k :: Holds(us, j, k) == Holds(ts, j, k);
  }

  lemma {:induction false} ChainGrows(ts: seq<Task>, resolved: set<nat>, nextTicket: nat, t: Task)
    requires ChainOk(ts, resolved, nextTicket) && !InGatePhase(t.phase)
    ensures ChainOk(ts + [t], resolved, nextTicket)
  {
    var us := ts + [t];
    assert forall j, k :: Holds(us, j, k) == Holds(ts, j, k);
  }

  lemma {:induction false} ChainLeaves(ts: seq<Task>, resolved: set<nat>, nextTicket: nat, i: nat, t: Task)
    requires ChainOk(ts, resolved, nextTicket) && i < |ts| && InGatePhase(ts[i].phase)
    requires ts[i].phase.ticket - 1 in resolved
    requires !InGatePhase(t.phase)
    ensures ChainOk(ts[i := t], resolved + {ts[i].phase.ticket}, nextTicket)
  {
    var us, m := ts[i := t], ts[i].phase.ticket;
    assert Holds(ts, i, m) && LinkOk(ts[i].phase, resolved, nextTicket);
    assert forall j, k :: Holds(us, j, k) <==> Holds(ts, j, k) && j != i;
    forall j | 0 <= j < |us|
      ensures LinkOk(us[j].phase, resolved + {m}, nextTicket)
    {
      assert LinkOk(ts[j].phase, resolved, nextTicket);
      if j != i && InGatePhase(us[j].phase) {
        assert Holds(ts, j, ts[j].phase.ticket);
      }
    }
    forall k: nat | k < nextTicket && k !in resolved + {m}
      ensures exists j :: Holds(us, j, k)
    {
      var j :| Holds(ts, j, k);
      assert Holds(us, j, k);
    }
  }

  lemma {:induction false} ChainAdds(ts: seq<Task>, resolved: set<nat>, nextTicket: nat, i: nat, t: Task)
    requires ChainOk(ts, resolved, nextTicket) && i < |ts| && !InGatePhase(ts[i].phase)
    requires 0 < nextTicket && t.phase == Waiting(nextTicket, nextTicket - 1)
    ensures ChainOk(ts[i := t], resolved, nextTicket + 1)
  {
    var us := ts[i := t];
    assert forall j, k :: Holds(us, j, k) <==> Holds(ts, j, k) || (j == i && k == nextTicket);
    forall j | 0 <= j < |us|
      ensures LinkOk(us[j].phase, resolved, nextTicket + 1)
    {
      assert LinkOk(ts[j].phase, resolved, nextTicket);
    }
    forall j, k | Holds(ts, j, k)
      ensures k < nextTicket
    {
      assert LinkOk(ts[j].phase, resolved, nextTicket);
    }
    forall k: nat | k < nextTicket + 1 && k !in resolved
      ensures exists j :: Holds(us, j, k)
    {
      if k == nextTicket {
        assert Holds(us, i, k);
      } else {
        var j :| Holds(ts, j, k);
        assert Holds(us, j, k);
      }
    }
  }

  lemma {:induction false} ChainGrants(ts: seq<Task>, resolved: set<nat>, nextTicket: nat, i: nat, t: Task)
    requires ChainOk(ts, resolved, nextTicket) && i < |ts| && ts[i].phase.Waiting? && ts[i].phase.awaits in resolved
    requires t.phase == Leased(ts[i].phase.ticket)
    ensures ChainOk(ts[i := t], resolved, nextTicket)
  {
    var us := ts[i := t];
    assert LinkOk(ts[i].phase, resolved, nextTicket);
    assert forall j, k :: Holds(us, j, k) == Holds(ts, j, k);
  }

  lemma {:induction false} GrantsKept(ts: seq<Task>, us: seq<Task>, resolved: set<nat>, more: set<nat>,
      grants: seq<nat>)
    requires GrantsOk(ts, resolved, grants) && resolved <= more
    requires forall i, g :: Holds(ts, i, g) && ts[i].phase.Leased? && g !in more ==>
             Holds(us, i, g) && us[i].phase.Leased?
    ensures GrantsOk(us, more, grants)
  {
    forall g | g in grants && g !in more
      ensures exists i :: Holds(us, i, g) && us[i].phase.Leased?
    {
      var i :| Holds(ts, i, g) && ts[i].phase.Leased?;
      assert Holds(us, i, g) && us[i].phase.Leased?;
    }
  }

  /** Two tasks whose predecessors are resolved hold the same promise: both come right after the resolved ones. */
  lemma {:induction false} OneNext(ts: seq<Task>, resolved: set<nat>, nextTicket: nat, i: nat, j: nat)
    requires ChainOk(ts, resolved, nextTicket) && i < |ts| && j < |ts| && InGatePhase(ts[i].phase)
    requires InGatePhase(ts[j].phase)
    requires ts[i].phase.ticket - 1 in resolved && ts[j].phase.ticket - 1 in resolved
    ensures i == j
  {
    var a, b := ts[i].phase.ticket, ts[j].phase.ticket;
    assert LinkOk(ts[i].phase, resolved, nextTicket) && LinkOk(ts[j].phase, resolved, nextTicket);
    assert a == b;
    assert Holds(ts, i, a) && Holds(ts, j, a);
  }

  lemma {:induction false} GrantsAdd(ts: seq<Task>, resolved: set<nat>, nextTicket: nat, grants: seq<nat>, i: nat,
      t: Task)
    requires ChainOk(ts, resolved, nextTicket) && GrantsOk(ts, resolved, grants)
    requires i < |ts| && ts[i].phase.Waiting? && ts[i].phase.awaits in resolved && t.phase == Leased(ts[i].phase.ticket)
    ensures GrantsOk(ts[i := t], resolved, grants + [ts[i].phase.ticket])
  {
    var us, m := ts[i := t], ts[i].phase.ticket;
    var more := grants + [m];
    assert LinkOk(ts[i].phase, resolved, nextTicket);
    assert Holds(us, i, m);
    forall g | g in grants
      ensures g < m && (g !in resolved ==> exists j :: Holds(us, j, g) && us[j].phase.Leased?)
    {
      if g !in resolved {
        var j :| Holds(ts, j, g) && ts[j].phase.Leased?;
        assert LinkOk(ts[j].phase, resolved, nextTicket);
        OneNext(ts, resolved, nextTicket, i, j);
      }
    }
    assert forall k :: 0 <= k < |grants| ==> more[k] == grants[k] && grants[k] in grants;
  }

  lemma {:induction false} PendingOther(ts: seq<Task>, pending: map<nat, nat>, nextID: nat, i: nat, t: Task)
    requires PendingOk(ts, pending, nextID) && i < |ts| && !ts[i].phase.Awaiting? && !t.phase.Awaiting?
    ensures PendingOk(ts[i := t], pending, nextID)
  {
  }

  lemma {:induction false} PendingAdds(ts: seq<Task>, pending: map<nat, nat>, nextID: nat, i: nat, t: Task)
    requires PendingOk(ts, pending, nextID) && i < |ts| && !ts[i].phase.Awaiting? && t.phase == Awaiting(nextID)
    ensures PendingOk(ts[i := t], pending[nextID := i], nextID + 1)
  {
  }

  lemma {:induction false} PendingDrops(ts: seq<Task>, pending: map<nat, nat>, nextID: nat, id: nat, t: Task)
    requires PendingOk(ts, pending, nextID) && id in pending && !t.phase.Awaiting?
    ensures pending[id] < |ts| && PendingOk(ts[pending[id] := t], pending - {id}, nextID)
  {
  }

  // ---------------------------------------------------------------------------
  // What the composed operations do to their task

  function Ended(t: Task): Task {
    Task(t.response, Done, if t.slot == Held then Returned else t.slot, if t.frame.Reserved? then Freed else t.frame)
  }

  lemma {:induction false} ReleaseShape(r: Runtime, i: nat)
    requires i < |r.tasks|
    ensures var s, f, t := ReleaseSlot(r, i), ReleaseFrame(r, i), r.tasks[i];
            && s == r.(tasks := s.tasks, active := s.active, underflow := s.underflow)
            && s.tasks == r.tasks[i := t.(slot := if t.slot == Held then Returned else t.slot)]
            && f == r.(tasks := f.tasks, owned := f.owned, underflow := f.underflow)
            && f.tasks == r.tasks[i := t.(frame := if t.frame.Reserved? then Freed else t.frame)]
  {
  }

  lemma {:induction false} UnwoundShape(r: Runtime, i: nat)
    requires i < |r.tasks|
    ensures var u := Unwound(r, i);
            && u.tasks == r.tasks[i := Ended(r.tasks[i])] && u.pending == r.pending && u.nextID == r.nextID
               && u.terminal == r.terminal
            && u.resolved == Leave(r, i).resolved && u.tail == r.tail && u.nextTicket == r.nextTicket
               && u.grants == r.grants
    ensures TaskOk(Ended(r.tasks[i]))
  {
    var a := Leave(r, i);
    var b := ReleaseSlot(a, i);
    var c := ReleaseFrame(b, i);
    ReleaseShape(a, i);
    ReleaseShape(b, i);
    assert a.tasks == r.tasks;
    hide ReleaseSlot, ReleaseFrame;
  }

  lemma {:induction false} SettleShape(r: Runtime, id: nat)
    requires id in r.pending && r.pending[id] < |r.tasks| && r.tasks[r.pending[id]].slot == Held
    ensures var u := Settle(r, id); var i := r.pending[id];
            && u.tasks == r.tasks[i := r.tasks[i].(slot := Returned, phase := Settled)] && u.pending == r.pending - {id}
               && u.nextID == r.nextID
            && u.resolved == r.resolved && u.tail == r.tail && u.nextTicket == r.nextTicket && u.grants == r.grants
  {
  }

  /** A task outside the gate changes to another phase outside the gate. */
  lemma {:induction false} GateOther(r: Runtime, u: Runtime, i: nat)
    requires GateOk(r) && i < |r.tasks| == |u.tasks| && u.tasks == r.tasks[i := u.tasks[i]]
    requires !InGatePhase(r.tasks[i].phase) && !InGatePhase(u.tasks[i].phase)
    requires u.resolved == r.resolved && u.tail == r.tail && u.nextTicket == r.nextTicket && u.grants == r.grants
    ensures GateOk(u)
  {
    hide ChainOk;
    ChainOther(r.tasks, r.resolved, r.nextTicket, i, u.tasks[i]);
    GrantsKept(r.tasks, u.tasks, r.resolved, u.resolved, r.grants);
  }

  /** Whoever has its turn leaves the gate and resolves its promise. */
  lemma {:induction false} GateLeaves(r: Runtime, u: Runtime, i: nat)
    requires GateOk(r) && i < |r.tasks| == |u.tasks| && u.tasks == r.tasks[i := u.tasks[i]]
    requires InGatePhase(r.tasks[i].phase) && !InGatePhase(u.tasks[i].phase)
    requires r.tasks[i].phase.Waiting? ==> Woken(r, i)
    requires u.resolved == r.resolved + {r.tasks[i].phase.ticket} && u.tail == r.tail && u.nextTicket == r.nextTicket
    requires u.grants == r.grants
    ensures GateOk(u)
  {
    assert LinkOk(r.tasks[i].phase, r.resolved, r.nextTicket);
    hide ChainOk;
    ChainLeaves(r.tasks, r.resolved, r.nextTicket, i, u.tasks[i]);
    GrantsKept(r.tasks, u.tasks, r.resolved, u.resolved, r.grants);
  }

  lemma {:induction false} GateAdds(r: Runtime, u: Runtime, i: nat)
    requires GateOk(r) && i < |r.tasks| == |u.tasks| && u.tasks == r.tasks[i := u.tasks[i]]
    requires !InGatePhase(r.tasks[i].phase) && u.tasks[i].phase == Waiting(r.nextTicket, r.tail)
    requires u.resolved == r.resolved && u.tail == r.nextTicket && u.nextTicket == r.nextTicket + 1
    requires u.grants == r.grants
    ensures GateOk(u)
  {
    hide ChainOk;
    ChainAdds(r.tasks, r.resolved, r.nextTicket, i, u.tasks[i]);
    GrantsKept(r.tasks, u.tasks, r.resolved, u.resolved, r.grants);
  }

  lemma {:induction false} UnwindKeeps(r: Runtime, i: nat)
    requires Inv(r) && i < |r.tasks| && !r.tasks[i].phase.Waiting? && !r.tasks[i].phase.Awaiting?
    ensures Inv(Unwound(r, i))
  {
    hide Balanced, GateOk, PendingOk, TasksOk, Unwound;
    UnwoundBalances(r, i);
    UnwoundShape(r, i);
    var t := Ended(r.tasks[i]);
    TasksSet(r.tasks, i, t);
    PendingOther(r.tasks, r.pending, r.nextID, i, t);
    if r.tasks[i].phase.Leased? {
      GateLeaves(r, Unwound(r, i), i);
    } else {
      GateOther(r, Unwound(r, i), i);
    }
  }

  lemma {:induction false} SettleKeeps(r: Runtime, id: nat)
    requires Inv(r) && id in r.pending
    ensures r.pending[id] < |r.tasks| == |Settle(r, id).tasks| && Inv(Settle(r, id))
    ensures Settle(r, id).tasks[r.pending[id]].phase == Settled
  {
    var i := r.pending[id];
    assert i < |r.tasks| && r.tasks[i].phase == Awaiting(id) && TaskOk(r.tasks[i]);
    hide Balanced, GateOk, PendingOk, TasksOk, Settle;
    SettleBalances(r, id);
    SettleShape(r, id);
    var t := r.tasks[i].(slot := Returned, phase := Settled);
    TasksSet(r.tasks, i, t);
    PendingDrops(r.tasks, r.pending, r.nextID, id, t);
    GateOther(r, Settle(r, id), i);
  }

  lemma {:induction false} SendKeeps(r: Runtime, i: nat)
    requires Inv(r) && i < |r.tasks| && r.tasks[i].phase.Leased? && !r.tasks[i].response
    ensures Inv(Register(Leave(r, i), i))
    ensures var u := Register(Leave(r, i), i);
            r.nextID in u.pending && u.pending[r.nextID] == i && |u.tasks| == |r.tasks|
  {
    assert TaskOk(r.tasks[i]);
    hide Balanced, GateOk, PendingOk, TasksOk;
    LeaveBalances(r, i);
    RegisterBalances(Leave(r, i), i);
    var t := r.tasks[i].(phase := Awaiting(r.nextID));
    TasksSet(r.tasks, i, t);
    PendingAdds(r.tasks, r.pending, r.nextID, i, t);
    GateLeaves(r, Register(Leave(r, i), i), i);
  }

  lemma {:induction false} DropKeeps(r: Runtime, i: nat)
    requires Inv(r) && Enabled(r, Drop(i))
    ensures Inv(Apply(r, Drop(i)))
  {
    assert TaskOk(r.tasks[i]);
    hide Balanced, GateOk, PendingOk, TasksOk;
    PhaseBalances(r, i, Done);
    TasksSet(r.tasks, i, r.tasks[i].(phase := Done));
    PendingOther(r.tasks, r.pending, r.nextID, i, r.tasks[i].(phase := Done));
    GateOther(r, SetPhase(r, i, Done), i);
  }

  lemma {:induction false} BeginKeeps(r: Runtime, i: nat)
    requires Inv(r) && Enabled(r, Begin(i))
    ensures Inv(Apply(r, Begin(i)))
  {
    assert TaskOk(r.tasks[i]);
    BeginBalances(r, i);
    hide Balanced, GateOk, PendingOk, TasksOk;
    var u := Apply(r, Begin(i));
    var t := r.tasks[i].(slot := Held, phase := Encoding);
    assert u.tasks == r.tasks[i := t];
    TasksSet(r.tasks, i, t);
    PendingOther(r.tasks, r.pending, r.nextID, i, t);
    GateOther(r, u, i);
  }

  lemma {:induction false} PrepareKeeps(r: Runtime, i: nat, n: nat, stop: Stop)
    requires Inv(r) && Enabled(r, Prepare(i, n, stop))
    ensures Inv(PrepareTask(r, i, n, stop))
  {
    assert TaskOk(r.tasks[i]);
    PrepareBalances(r, i, n, stop);
    PrepareShape(r, i, n, stop);
    hide Balanced, GateOk, PendingOk, TasksOk, PrepareTask, Enabled;
    var u := PrepareTask(r, i, n, stop);
    var t := u.tasks[i];
    TasksSet(r.tasks, i, t);
    PendingOther(r.tasks, r.pending, r.nextID, i, t);
    if stop == InGate {
      GateAdds(r, u, i);
    } else {
      GateOther(r, u, i);
    }
  }

  lemma {:induction false} PrepareShape(r: Runtime, i: nat, n: nat, stop: Stop)
    requires i < |r.tasks| && r.tasks[i].phase == (if r.tasks[i].response then Idle else Encoding) && TaskOk(r.tasks[i])
    ensures var u := PrepareTask(r, i, n, stop);
            && |u.tasks| == |r.tasks| && u.tasks == r.tasks[i := u.tasks[i]] && TaskOk(u.tasks[i])
               && Onward(r.tasks[i], u.tasks[i])
            && u.pending == r.pending && u.nextID == r.nextID && u.grants == r.grants && u.resolved == r.resolved
            && (if stop == InGate then
                  u.tasks[i].phase == Waiting(r.nextTicket, r.tail) && u.tail == r.nextTicket
                      && u.nextTicket == r.nextTicket + 1
                else u.tasks[i].phase == Done && u.tail == r.tail && u.nextTicket == r.nextTicket)
  {
    var b := TakeFrame(r, i, n);
    assert b.tasks == r.tasks[i := b.tasks[i]];
    if stop == BeforeFrame {
      UnwoundShape(Failed(r, i), i);
    } else if stop == BeforeGate {
      UnwoundShape(Failed(b, i), i);
    }
    hide Unwound;
  }

  lemma {:induction false} NewKeeps(r: Runtime, response: bool)
    requires Inv(r)
    ensures Inv(r.(tasks := r.tasks + [Task(response, Idle, NoSlot, NoBytes)]))
  {
    Added(r.tasks, Task(response, Idle, NoSlot, NoBytes));
    ChainGrows(r.tasks, r.resolved, r.nextTicket, Task(response, Idle, NoSlot, NoBytes));
    var ts := r.tasks + [Task(response, Idle, NoSlot, NoBytes)];
    GrantsKept(r.tasks, ts, r.resolved, r.resolved, r.grants);
    hide Slots, Bytes, ChainOk, GrantsOk;
    assert ts[|r.tasks|] == Task(response, Idle, NoSlot, NoBytes) && forall i :: 0 <= i < |r.tasks| ==>
        ts[i] == r.tasks[i];
  }

  lemma {:induction false} GrantKeeps(r: Runtime, i: nat)
    requires Inv(r) && Enabled(r, Grant(i))
    ensures Inv(Apply(r, Grant(i)))
  {
    assert TaskOk(r.tasks[i]);
    hide Balanced, ChainOk, GrantsOk, PendingOk, TasksOk;
    var t := r.tasks[i].(phase := Leased(r.tasks[i].phase.ticket));
    PhaseBalances(r, i, t.phase);
    BalancedIgnoresGate(SetPhase(r, i, t.phase), r.resolved, r.grants + [r.tasks[i].phase.ticket]);
    TasksSet(r.tasks, i, t);
    PendingOther(r.tasks, r.pending, r.nextID, i, t);
    ChainGrants(r.tasks, r.resolved, r.nextTicket, i, t);
    GrantsAdd(r.tasks, r.resolved, r.nextTicket, r.grants, i, t);
  }

  lemma {:induction false} BalancedIgnoresGate(r: Runtime, resolved: set<nat>, grants: seq<nat>)
    requires Balanced(r)
    ensures Balanced(r.(resolved := resolved, grants := grants))
  {
  }

  lemma {:induction false} RefuseKeeps(r: Runtime, i: nat)
    requires Inv(r) && Enabled(r, Refuse(i))
    ensures Inv(Apply(r, Refuse(i)))
  {
    assert TaskOk(r.tasks[i]);
    hide Balanced, GateOk, PendingOk, TasksOk;
    var t := r.tasks[i].(phase := Refused);
    var a := r.(resolved := r.resolved + {r.tasks[i].phase.ticket});
    BalancedIgnoresGate(r, a.resolved, r.grants);
    PhaseBalances(a, i, Refused);
    TasksSet(r.tasks, i, t);
    PendingOther(r.tasks, r.pending, r.nextID, i, t);
    GateLeaves(r, SetPhase(a, i, Refused), i);
  }

  lemma {:induction false} TerminalKeeps(r: Runtime, terminal: bool)
    requires Inv(r)
    ensures Inv(r.(terminal := terminal))
  {
    hide Slots, Bytes, TasksOk, ChainOk, GrantsOk, PendingOk;
  }

  lemma {:induction false} SendThrowsKeeps(r: Runtime, i: nat)
    requires Inv(r) && Enabled(r, SendThrows(i))
    ensures Inv(Apply(r, SendThrows(i)))
  {
    hide Inv, Register, Settle, Unwound;
    SendKeeps(r, i);
    var sent := Register(Leave(r, i), i);
    TerminalKeeps(sent, true);
    SettleKeeps(sent.(terminal := true), r.nextID);
    UnwindKeeps(Settle(sent.(terminal := true), r.nextID), i);
  }

  lemma {:induction false} StepKeeps(r: Runtime, s: Step)
    requires Inv(r) && Enabled(r, s)
    ensures Inv(Apply(r, s))
  {
    hide Inv, PrepareTask, Unwound, Settle, Register, Leave, SetPhase;
    match s
    case NewTask(response) => NewKeeps(r, response);
    case Drop(i) => DropKeeps(r, i);
    case Begin(i) => BeginKeeps(r, i);
    case Prepare(i, n, stop) => PrepareKeeps(r, i, n, stop);
    case Grant(i) => GrantKeeps(r, i);
    case Refuse(i) => RefuseKeeps(r, i);
    case FailBeforeSend(i) => UnwindKeeps(r, i);
    case Send(i) => SendKeeps(r, i);
    case SendThrows(i) => SendThrowsKeeps(r, i);
    case SendResponse(i, ok) =>
      TerminalKeeps(r, r.terminal || !ok);
      UnwindKeeps(r.(terminal := r.terminal || !ok), i);
    case Respond(id) => SettleKeeps(r, id);
    case Abort(id) => SettleKeeps(r, id);
    case Terminate => TerminalKeeps(r, true);
    case Teardown(id) => SettleKeeps(r, id);
    case Finish(i) =>
      TerminalKeeps(r, r.terminal || r.tasks[i].response);
      UnwindKeeps(Failed(r, i), i);
  }

  lemma {:induction false} RunKeeps(r: Runtime, steps: seq<Step>)
    requires Inv(r) && IsRun(r, steps)
    ensures Inv(After(r, steps))
    decreases |steps|
  {
    hide Inv, Apply, Enabled;
    if steps != [] {
      StepKeeps(r, steps[0]);
      RunKeeps(Apply(r, steps[0]), steps[1..]);
    }
  }

  // ---------------------------------------------------------------------------
  // Main results

  lemma {:induction false} StartOk()
    ensures Inv(START)
  {
  }

  /**
   * In every run: the counters are exactly what is outstanding and within their bounds, no release ever underflows,
   * and a call or response that is done holds nothing.
   */
  lemma {:induction false} CountersAreOutstanding(steps: seq<Step>, i: nat)
    requires IsRun(START, steps) && i < |After(START, steps).tasks|
    ensures var r := After(START, steps);
            && r.active == Slots(r.tasks) <= MAX_OUTGOING_CALLS && r.owned == Bytes(r.tasks) <= MAX_OWNED_FRAME_BYTES
               && !r.underflow
            && (r.tasks[i].phase == Done ==> r.tasks[i].slot != Held && !r.tasks[i].frame.Reserved?)
  {
    hide IsRun, After, Inv;
    StartOk();
    RunKeeps(START, steps);
    InvMeans(After(START, steps), i);
  }

  lemma {:induction false} InvMeans(r: Runtime, i: nat)
    requires Inv(r) && i < |r.tasks|
    ensures r.active == Slots(r.tasks) <= MAX_OUTGOING_CALLS && r.owned == Bytes(r.tasks) <= MAX_OWNED_FRAME_BYTES
    ensures !r.underflow
    ensures r.tasks[i].phase == Done ==> r.tasks[i].slot != Held && !r.tasks[i].frame.Reserved?
  {
    hide Slots, Bytes;
    assert TaskOk(r.tasks[i]);
  }

  /** At most one task holds the send lease. */
  predicate OneLease(ts: seq<Task>) {
    forall i, j :: 0 <= i < |ts| && 0 <= j < |ts| && ts[i].phase.Leased? && ts[j].phase.Leased? ==> i == j
  }

  lemma {:induction false} GateMeans(r: Runtime)
    requires Inv(r)
    ensures GateOk(r) && Prefix(r.resolved) && Increasing(r.grants)
    ensures OneLease(r.tasks)
  {
    forall i, j | 0 <= i < |r.tasks| && 0 <= j < |r.tasks| && r.tasks[i].phase.Leased? && r.tasks[j].phase.Leased?
      ensures i == j
    {
      assert LinkOk(r.tasks[i].phase, r.resolved, r.nextTicket) && LinkOk(r.tasks[j].phase, r.resolved, r.nextTicket);
      OneNext(r.tasks, r.resolved, r.nextTicket, i, j);
    }
  }

  /**
   * In every run the promise chain is a lock with a waiting line: at most one task holds the send lease, leases are
   * granted in the order in which they were asked for, the resolved promises are the first ones of the chain, and every
   * promise made and not resolved is held by exactly one task that is in the gate.
   */
  lemma {:induction false} LeasesInOrder(steps: seq<Step>)
    requires IsRun(START, steps)
    ensures var r := After(START, steps);
            && OneLease(r.tasks) && Increasing(r.grants) && Prefix(r.resolved)
            && (forall k: nat :: k < r.nextTicket && k !in r.resolved ==> exists i :: Holds(r.tasks, i, k))
            && (forall i, j, k :: Holds(r.tasks, i, k) && Holds(r.tasks, j, k) ==> i == j && k !in r.resolved)
  {
    hide IsRun, After, Inv;
    StartOk();
    RunKeeps(START, steps);
    var r := After(START, steps);
    GateMeans(r);
    forall i, k | Holds(r.tasks, i, k)
      ensures k !in r.resolved
    {
      assert LinkOk(r.tasks[i].phase, r.resolved, r.nextTicket);
    }
  }

  lemma {:induction false} FirstOpen(resolved: set<nat>, k: nat) returns (m: nat)
    requires 0 in resolved && k !in resolved
    ensures 0 < m <= k && m !in resolved && m - 1 in resolved
  {
    if k - 1 in resolved {
      m := k;
    } else {
      m := FirstOpen(resolved, k - 1);
    }
  }

  /**
   * In every run the gate is never stuck: while any task waits, one holds the lease or one is woken and can be granted
   * or refused, whatever was granted, refused, cut short or ended before.
   */
  lemma {:induction false} GateNeverStuck(steps: seq<Step>, i: nat)
    requires IsRun(START, steps) && i < |After(START, steps).tasks| && After(START, steps).tasks[i].phase.Waiting?
    ensures var r := After(START, steps);
            exists j :: 0 <= j < |r.tasks| && (r.tasks[j].phase.Leased? || Enabled(r, Refuse(j)))
  {
    hide IsRun, After, Inv;
    StartOk();
    RunKeeps(START, steps);
    var r := After(START, steps);
    GateMeans(r);
    assert LinkOk(r.tasks[i].phase, r.resolved, r.nextTicket);
    var m := FirstOpen(r.resolved, r.tasks[i].phase.ticket);
    var j :| Holds(r.tasks, j, m);
    assert LinkOk(r.tasks[j].phase, r.resolved, r.nextTicket);
  }

  function SlotStage(s: Slot): nat {
    match s
    case NoSlot => 0
    case Held => 1
    case Returned => 2
  }

  function FrameStage(f: Reservation): nat {
    match f
    case NoBytes => 0
    case Reserved(_) => 1
    case Freed => 2
  }

  /** One stretch of a task never takes back what it returned. */
  predicate Onward(a: Task, b: Task) {
    && a.response == b.response
    && SlotStage(a.slot) <= SlotStage(b.slot) && FrameStage(a.frame) <= FrameStage(b.frame)
    && (a.frame.Reserved? && b.frame.Reserved? ==> a.frame == b.frame)
    && (a.phase == Done ==> b == a)
  }

  lemma {:induction false} OnwardSet(ts: seq<Task>, k: nat, t: Task, i: nat)
    requires k < |ts| && Onward(ts[k], t) && i < |ts|
    ensures Onward(ts[i], ts[k := t][i])
  {
  }

  lemma {:induction false} EndedOnward(t: Task)
    requires TaskOk(t)
    ensures Onward(t, Ended(t))
  {
  }

  lemma {:induction false} UnwoundOnward(r: Runtime, k: nat, i: nat)
    requires TasksOk(r.tasks) && k < |r.tasks| && i < |r.tasks|
    ensures |Unwound(r, k).tasks| == |r.tasks| && Onward(r.tasks[i], Unwound(r, k).tasks[i])
  {
    hide Unwound, TaskOk, Onward;
    UnwoundShape(r, k);
    EndedOnward(r.tasks[k]);
    OnwardSet(r.tasks, k, Ended(r.tasks[k]), i);
  }

  lemma {:induction false} SettleOnward(r: Runtime, id: nat, i: nat)
    requires TasksOk(r.tasks) && PendingOk(r.tasks, r.pending, r.nextID) && id in r.pending && i < |r.tasks|
    ensures r.pending[id] < |r.tasks| && |Settle(r, id).tasks| == |r.tasks|
    ensures Onward(r.tasks[i], Settle(r, id).tasks[i])
  {
    var k := r.pending[id];
    assert TaskOk(r.tasks[k]);
    SettleShape(r, id);
    hide Settle, TasksOk, PendingOk;
    OnwardSet(r.tasks, k, r.tasks[k].(slot := Returned, phase := Settled), i);
  }

  lemma {:induction false} PrepareOnward(r: Runtime, k: nat, n: nat, stop: Stop, i: nat)
    requires TasksOk(r.tasks) && Enabled(r, Prepare(k, n, stop)) && i < |r.tasks|
    ensures |PrepareTask(r, k, n, stop).tasks| == |r.tasks| && Onward(r.tasks[i], PrepareTask(r, k, n, stop).tasks[i])
  {
    assert TaskOk(r.tasks[k]);
    PrepareShape(r, k, n, stop);
    hide PrepareTask, TasksOk;
    OnwardSet(r.tasks, k, PrepareTask(r, k, n, stop).tasks[k], i);
  }

  lemma {:induction false} SendOnward(r: Runtime, k: nat, i: nat)
    requires k < |r.tasks| && i < |r.tasks| && r.tasks[k].phase.Leased?
    ensures var sent := Register(Leave(r, k), k); |sent.tasks| == |r.tasks| && Onward(r.tasks[i], sent.tasks[i])
  {
    OnwardSet(r.tasks, k, r.tasks[k].(phase := Awaiting(r.nextID)), i);
  }

  lemma {:induction false} InvParts(r: Runtime)
    requires Inv(r)
    ensures TasksOk(r.tasks) && PendingOk(r.tasks, r.pending, r.nextID)
  {
    hide TasksOk, PendingOk, GateOk, Balanced;
  }

  lemma {:induction false} SendThrowsOnward(r: Runtime, k: nat, i: nat)
    requires Inv(r) && Enabled(r, SendThrows(k)) && i < |r.tasks|
    ensures |Apply(r, SendThrows(k)).tasks| == |r.tasks| && Onward(r.tasks[i], Apply(r, SendThrows(k)).tasks[i])
  {
    hide Settle, Unwound, Register, Inv, Onward, TasksOk, PendingOk;
    SendKeeps(r, k);
    SendOnward(r, k, i);
    var sent := Register(Leave(r, k), k);
    var gone := sent.(terminal := true);
    TerminalKeeps(sent, true);
    InvParts(gone);
    SettleKeeps(gone, r.nextID);
    SettleOnward(gone, r.nextID, i);
    InvParts(Settle(gone, r.nextID));
    UnwoundOnward(Settle(gone, r.nextID), k, i);
    OnwardThrice(r.tasks[i], sent.tasks[i], Settle(gone, r.nextID).tasks[i],
        Unwound(Settle(gone, r.nextID), k).tasks[i]);
  }

  lemma {:induction false} OnwardThrice(a: Task, b: Task, c: Task, d: Task)
    requires Onward(a, b) && Onward(b, c) && Onward(c, d)
    ensures Onward(a, d)
  {
  }

  lemma {:induction false} IdleMeans(r: Runtime, k: nat)
    requires Inv(r) && k < |r.tasks| && r.tasks[k].phase == Idle
    ensures r.tasks[k].slot == NoSlot && r.tasks[k].frame == NoBytes
  {
    hide Balanced, GateOk, PendingOk;
    assert TaskOk(r.tasks[k]);
  }

  lemma {:induction false} StepOnward(r: Runtime, s: Step, i: nat)
    requires Inv(r) && Enabled(r, s) && i < |r.tasks|
    ensures i < |Apply(r, s).tasks| && Onward(r.tasks[i], Apply(r, s).tasks[i])
  {
    hide PrepareTask, Unwound, Settle, Balanced, TasksOk, GateOk, PendingOk, TaskOk;
    match s
    case Begin(k) => IdleMeans(r, k);
    case Prepare(k, n, stop) => PrepareOnward(r, k, n, stop, i);
    case FailBeforeSend(k) => UnwoundOnward(r, k, i);
    case SendThrows(k) => SendThrowsOnward(r, k, i);
    case SendResponse(k, ok) => UnwoundOnward(r.(terminal := r.terminal || !ok), k, i);
    case Respond(id) => SettleOnward(r, id, i);
    case Abort(id) => SettleOnward(r, id, i);
    case Teardown(id) => SettleOnward(r, id, i);
    case Finish(k) => UnwoundOnward(Failed(r, k), k, i);
    case _ =>
  }

  /** Over every run a slot and a reservation are taken at most once and returned at most once, in that order. */
  lemma {:induction false} ReturnedOnce(r: Runtime, steps: seq<Step>, i: nat)
    requires Inv(r) && IsRun(r, steps) && i < |r.tasks|
    ensures i < |After(r, steps).tasks| && Onward(r.tasks[i], After(r, steps).tasks[i])
    decreases |steps|
  {
    hide Inv, Apply, Enabled;
    if steps != [] {
      StepKeeps(r, steps[0]);
      StepOnward(r, steps[0], i);
      ReturnedOnce(Apply(r, steps[0]), steps[1..], i);
    }
  }
}
