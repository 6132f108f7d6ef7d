/**
 * The zero-width facts of an instruction table, computed by three depth-first walks with explicit stacks. They work on
 * every table, also on one written by hand whose instructions refer forward or, through lists, to themselves: it is
 * refused exactly when its records and names contain each other in a circle.
 */
module CodecFacts {
  import opened Leaves
  import opened Codec
  import opened CodecTable
  import opened CodecCompiler

  // ---------------------------------------------------------------------------
  // Tables

  predicate Targets(x: Instr, bound: nat) {
    match x
    case IList(e) => e < bound
    case INamed(target) => target < bound
    case IRecord(fs) => forall k :: 0 <= k < |fs| ==> fs[k].value < bound
    case _ => true
  }

  /** `validateTarget` on every reference. */
  predicate TargetsOk(t: Table) {
    forall i :: 0 <= i < |t| ==> Targets(t[i], |t|)
  }

  /** What an instruction needs before its own facts: a list needs nothing. */
  function NeedOf(x: Instr): Node {
    match x
    case INamed(target) => NList(target)
    case IRecord(fs) => NRecord(fs)
    case _ => NPrim(String)
  }

  function Needs(t: Table): (g: Graph)
    ensures |g.nodes| == |t| && forall i :: 0 <= i < |t| ==> g.nodes[i] == NeedOf(t[i])
  {
    Graph(seq(|t|, i requires 0 <= i < |t| => NeedOf(t[i])), map[])
  }

  /** No record or name contains itself: every instruction has a rank above those it needs. */
  ghost predicate Acyclic(t: Table) {
    exists rank :: Ranks(Needs(t), rank) && forall i: nat :: i < |t| ==> i in rank
  }

  lemma {:induction false} NeedsLinked(t: Table)
    requires TargetsOk(t)
    ensures Linked(Needs(t))
  {
    forall i | 0 <= i < |t|
      ensures NodeLinked(NeedOf(t[i]), |t|)
    {
      assert Targets(t[i], |t|);
    }
  }

  // ---------------------------------------------------------------------------
  // The walk: finished instructions in the order they were finished, open ones on the stack

  /** The finished instructions, ranked by when they were finished. */
  predicate Finished(g: Graph, order: map<nat, nat>) {
    Ranks(g, order) && forall n :: n in order ==> order[n] < |order|
  }

  ghost predicate Walking(g: Graph, root: nat, order: map<nat, nat>, active: set<nat>, work: seq<Task>) {
    && Finished(g, order) && WorkOk(g, order, active, work) && AlwaysRanked(g, root, work)
       && RootPlaced(root, order, work)
    && order.Keys + active <= UpTo(|g.nodes|)
  }

  lemma {:induction false} NoneFinished(g: Graph)
    ensures Finished(g, map[])
  {
  }

  lemma {:induction false} WalkStart(g: Graph, root: nat, order: map<nat, nat>)
    requires root < |g.nodes| && Finished(g, order)
    ensures Walking(g, root, order, {}, [Task(root, false)])
  {
  }

  lemma {:induction false} WalkTop(g: Graph, root: nat, order: map<nat, nat>, active: set<nat>, base: seq<Task>,
      top: Task)
    requires Walking(g, root, order, active, base + [top])
    ensures top.node < |g.nodes| && |order.Keys + active| <= |g.nodes| && (top.exit ==> top.node !in order)
  {
    TopInGraph(g, order, active, base, top);
    Within(order.Keys + active, UpTo(|g.nodes|));
  }

  lemma {:induction false} WalkSkips(g: Graph, root: nat, order: map<nat, nat>, active: set<nat>, base: seq<Task>,
      top: Task)
    requires Walking(g, root, order, active, base + [top]) && top.node in order
    ensures Walking(g, root, order, active, base)
  {
    hide *;
    WalkParts(g, root, order, active, base + [top]);
    WalkTop(g, root, order, active, base, top);
    PopKeepsWork(g, order, active, base, top, order);
    PopKeepsRanked(g, root, base, top);
    RootAfterPop(root, order, base, top, order);
    WalkWhole(g, root, order, active, base);
  }

  lemma {:induction false} WalkParts(g: Graph, root: nat, order: map<nat, nat>, active: set<nat>, work: seq<Task>)
    requires Walking(g, root, order, active, work)
    ensures Finished(g, order) && WorkOk(g, order, active, work) && AlwaysRanked(g, root, work)
    ensures RootPlaced(root, order, work)
    ensures order.Keys + active <= UpTo(|g.nodes|)
  {
  }

  lemma {:induction false} WalkWhole(g: Graph, root: nat, order: map<nat, nat>, active: set<nat>, work: seq<Task>)
    requires Finished(g, order) && WorkOk(g, order, active, work) && AlwaysRanked(g, root, work)
    requires RootPlaced(root, order, work)
    requires order.Keys + active <= UpTo(|g.nodes|)
    ensures Walking(g, root, order, active, work)
  {
  }

  lemma {:induction false} OneMore(order: map<nat, nat>, n: nat)
    requires n !in order
    ensures |order[n := |order|]| == |order| + 1
  {
    var more := order[n := |order|];
    assert more.Keys == order.Keys + {n};
    assert |more| == |more.Keys| && |order| == |order.Keys|;
  }

  lemma {:induction false} BelowStays(g: Graph, order: map<nat, nat>, more: map<nat, nat>, m: nat)
    requires m in order && m < |g.nodes| && PartsBelow(g, order, m)
    requires forall c :: c in order ==> c in more && more[c] == order[c]
    ensures PartsBelow(g, more, m)
  {
    if g.nodes[m].NRecord? {
      assert forall k :: 0 <= k < |g.nodes[m].fields| ==> Below(order, g.nodes[m].fields[k].value, m);
    }
  }

  lemma {:induction false} BelowNew(g: Graph, order: map<nat, nat>, n: nat)
    requires n !in order && n < |g.nodes| && Resolved(g, g.nodes[n], order)
    requires forall m :: m in order ==> order[m] < |order|
    ensures PartsBelow(g, order[n := |order|], n)
  {
  }

  lemma {:induction false} FinishedMore(g: Graph, order: map<nat, nat>, n: nat)
    requires Finished(g, order) && n !in order && n < |g.nodes| && Resolved(g, g.nodes[n], order)
    ensures Finished(g, order[n := |order|])
  {
    var more := order[n := |order|];
    OneMore(order, n);
    forall m | m in more
      ensures m < |g.nodes| && PartsBelow(g, more, m)
    {
      if m != n {
        assert m < |g.nodes| && PartsBelow(g, order, m);
        BelowStays(g, order, more, m);
      } else {
        BelowNew(g, order, n);
      }
    }
    hide PartsBelow;
  }

  lemma {:induction false} WalkFinishes(g: Graph, root: nat, order: map<nat, nat>, active: set<nat>, base: seq<Task>,
      n: nat)
    requires Walking(g, root, order, active, base + [Task(n, true)])
    ensures n < |g.nodes| && n !in order && Resolved(g, g.nodes[n], order)
    ensures Walking(g, root, order[n := |order|], active - {n}, base)
    ensures order[n := |order|].Keys + (active - {n}) == order.Keys + active
  {
    hide *;
    var more, top := order[n := |order|], Task(n, true);
    WalkParts(g, root, order, active, base + [top]);
    ExitResolved(g, order, active, base, n);
    FinishedMore(g, order, n);
    MovesOver(order, more, active, n);
    PopKeepsWork(g, order, active, base, top, more);
    PopKeepsRanked(g, root, base, top);
    RootAfterPop(root, order, base, top, more);
    WalkWhole(g, root, more, active - {n}, base);
  }

  lemma {:induction false} MovesOver(order: map<nat, nat>, more: map<nat, nat>, active: set<nat>, n: nat)
    requires more == order[n := |order|] && n in active
    ensures more.Keys == order.Keys + {n} && more.Keys + (active - {n}) == order.Keys + active
  {
  }

  lemma {:induction false} OpenToo(done: set<nat>, active: set<nat>, n: nat)
    ensures done + (active + {n}) == done + active + {n}
  {
  }

  lemma {:induction false} WalkOpens(g: Graph, root: nat, order: map<nat, nat>, active: set<nat>, base: seq<Task>,
      n: nat)
    requires Linked(g) && Walking(g, root, order, active, base + [Task(n, false)]) && n !in order && n !in active
    requires n < |g.nodes| && !g.nodes[n].NNamed?
    ensures Walking(g, root, order, active + {n}, base + [Task(n, true)] + Parts(g, g.nodes[n]))
    ensures |order.Keys + active| < |order.Keys + (active + {n})| <= |g.nodes|
  {
    hide *;
    WalkParts(g, root, order, active, base + [Task(n, false)]);
    PushKeepsWork(g, order, active, base, n);
    PushKeepsRanked(g, root, base, n);
    RootAfterPush(root, order, base, n, Parts(g, g.nodes[n]));
    Unopened(g, order.Keys + active, n);
    OpenToo(order.Keys, active, n);
    WalkWhole(g, root, order, active + {n}, base + [Task(n, true)] + Parts(g, g.nodes[n]));
  }

  /** What is open and met again contains itself. */
  lemma {:induction false} WalkMeetsCycle(t: Table, root: nat, order: map<nat, nat>, active: set<nat>, base: seq<Task>,
      n: nat)
    requires Walking(Needs(t), root, order, active, base + [Task(n, false)]) && n in active && root < |t|
    ensures !Acyclic(t)
  {
    hide WorkOk, AlwaysRanked, RootPlaced, Ranks;
    WalkTop(Needs(t), root, order, active, base, Task(n, false));
    FailureIsReal(Needs(t), order, active, root, base, n);
  }

  lemma {:induction false} WalkEnds(g: Graph, root: nat, order: map<nat, nat>, active: set<nat>)
    requires Walking(g, root, order, active, [])
    ensures root in order && Finished(g, order)
  {
    hide WorkOk, AlwaysRanked, Finished;
  }

  lemma {:induction false} AllFinished(t: Table, order: map<nat, nat>)
    requires Finished(Needs(t), order) && forall i: nat :: i < |t| ==> i in order
    ensures Acyclic(t)
  {
    hide Ranks;
  }

  /** Push what an instruction needs, the first field on top. */
  method PushNeeds(x: Instr, base: seq<Task>, ghost g: Graph) returns (stack: seq<Task>)
    ensures stack == base + Parts(g, NeedOf(x))
  {
    stack := base;
    match x
    case INamed(target) => stack := stack + [Task(target, false)];
    case IRecord(fs) =>
      var k := |fs|;
      while k > 0
        invariant 0 <= k <= |fs| && stack == base + Reversed(fs[k..])
      {
        k := k - 1;
        ReversedStep(fs, k);
        stack := stack + [Task(fs[k].value, false)];
      }
      assert fs[0..] == fs;
    case _ =>
  }

  // ---------------------------------------------------------------------------
  // Facts that depend on the facts of what is needed

  /** Everything the instruction needs is among these. */
  predicate NeedsIn(x: Instr, done: set<nat>) {
    match x
    case INamed(target) => target in done
    case IRecord(fs) => forall k :: 0 <= k < |fs| ==> fs[k].value in done
    case _ => true
  }

  lemma {:induction false} ResolvedNeeds(t: Table, order: map<nat, nat>, n: nat)
    requires n < |t| && Resolved(Needs(t), Needs(t).nodes[n], order)
    ensures NeedsIn(t[n], order.Keys)
  {
  }

  // ---------------------------------------------------------------------------
  // Zero-width flags

  /** The switch of `instructionZeroWidths`. */
  function FlagOf(x: Instr, states: map<nat, bool>): bool {
    match x
    case IZero => true
    case INamed(target) => target in states && states[target]
    case IRecord(fs) => forall k :: 0 <= k < |fs| ==> fs[k].value in states && states[fs[k].value]
    case _ => false
  }

  lemma {:induction false} FlagStays(x: Instr, states: map<nat, bool>, n: nat, flag: bool)
    requires NeedsIn(x, states.Keys) && n !in states
    ensures FlagOf(x, states[n := flag]) == FlagOf(x, states)
  {
    assert forall c :: c in states ==> states[n := flag][c] == states[c];
    if x.IRecord? {
      assert forall k :: 0 <= k < |x.fields| ==> x.fields[k].value in states;
    }
  }

  /** Every flag so far follows from the others. */
  predicate FlagsHold(t: Table, states: map<nat, bool>) {
    forall j :: j in states ==> j < |t| && NeedsIn(t[j], states.Keys) && states[j] == FlagOf(t[j], states)
  }

  lemma {:induction false} FlagsMore(t: Table, states: map<nat, bool>, n: nat)
    requires FlagsHold(t, states) && n !in states && n < |t| && NeedsIn(t[n], states.Keys)
    ensures FlagsHold(t, states[n := FlagOf(t[n], states)])
  {
    hide FlagOf;
    var more := states[n := FlagOf(t[n], states)];
    assert more.Keys == states.Keys + {n};
    forall j | j in more
      ensures j < |t| && NeedsIn(t[j], more.Keys) && more[j] == FlagOf(t[j], more)
    {
      FlagStays(t[j], states, n, FlagOf(t[n], states));
    }
  }

  /** What the flags mean, instruction by instruction. */
  predicate FlagRule(x: Instr, flags: seq<bool>) {
    match x
    case IZero => true
    case INamed(target) => target < |flags| && flags[target]
    case IRecord(fs) => forall k :: 0 <= k < |fs| ==> fs[k].value < |flags| && flags[fs[k].value]
    case _ => false
  }

  /**
   * Zero-width are the zero instruction, names of zero-width instructions and records of nothing else, and only those.
   */
  predicate Flagged(t: Table, flags: seq<bool>) {
    |flags| == |t| && forall i :: 0 <= i < |t| ==> flags[i] == FlagRule(t[i], flags)
  }

  lemma {:induction false} FlagsAreRight(t: Table, states: map<nat, bool>, flags: seq<bool>)
    requires FlagsHold(t, states) && (forall i: nat :: i < |t| ==> i in states)
    requires |flags| == |t| && forall i :: 0 <= i < |t| ==> i in states && flags[i] == states[i]
    ensures Flagged(t, flags)
  {
    forall i | 0 <= i < |t|
      ensures flags[i] == FlagRule(t[i], flags)
    {
      assert i in states && states[i] == FlagOf(t[i], states) && NeedsIn(t[i], states.Keys);
      match t[i]
      case INamed(target) => assert target in states && target < |t|;
      case IRecord(fs) => assert forall k :: 0 <= k < |fs| ==> fs[k].value in states && fs[k].value < |t|;
      case _ =>
    }
  }

  /** One walk of `instructionZeroWidths`. */
  method FlagFrom(t: Table, root: nat, states0: map<nat, bool>, ghost order0: map<nat, nat>)
    returns (ok: bool, states: map<nat, bool>, ghost order: map<nat, nat>)
    requires TargetsOk(t) && root < |t| && FlagsHold(t, states0) && Finished(Needs(t), order0)
    requires order0.Keys == states0.Keys
    ensures ok ==> FlagsHold(t, states) && Finished(Needs(t), order) && order.Keys == states.Keys && root in states
                   && states0.Keys <= states.Keys
    ensures !ok ==> !Acyclic(t)
  {
    hide *;
    ghost var g := Needs(t);
    NeedsLinked(t);
    WalkStart(g, root, order0);
    states, order := states0, order0;
    var visiting: set<nat>, stack := {}, [Task(root, false)];
    while stack != []
      invariant FlagsHold(t, states) && Walking(g, root, order, visiting, stack) && order.Keys == states.Keys
      invariant states0.Keys <= states.Keys
      decreases |t| - |order.Keys + visiting|, |stack|
    {
      var current, base := stack[|stack| - 1], stack[..|stack| - 1];
      assert stack == base + [current];
      WalkTop(g, root, order, visiting, base, current);
      if current.node in states {
        WalkSkips(g, root, order, visiting, base, current);
        stack := base;
      } else if !current.exit {
        if current.node in visiting {
          WalkMeetsCycle(t, root, order, visiting, base, current.node);
          return false, states, order;
        }
        NeedIsNoName(t[current.node]);
        WalkOpens(g, root, order, visiting, base, current.node);
        visiting := visiting + {current.node};
        stack := PushNeeds(t[current.node], base + [Task(current.node, true)], g);
      } else {
        WalkFinishes(g, root, order, visiting, base, current.node);
        ResolvedNeeds(t, order, current.node);
        FlagsMore(t, states, current.node);
        states, order := states[current.node := FlagOf(t[current.node], states)], order[current.node := |order|];
        visiting, stack := visiting - {current.node}, base;
      }
    }
    WalkEnds(g, root, order, visiting);
    ok := true;
  }

  lemma {:induction false} NeedIsNoName(x: Instr)
    ensures !NeedOf(x).NNamed?
  {
  }

  /** `instructionZeroWidths`: refuses exactly the tables with a circle, and otherwise gives every flag its meaning. */
  method ZeroWidths(t: Table) returns (r: Option<seq<bool>>)
    requires TargetsOk(t)
    ensures r.Some? <==> Acyclic(t)
    ensures r.Some? ==> Flagged(t, r.value)
  {
    hide *;
    var states: map<nat, bool>, root := map[], 0;
    ghost var order: map<nat, nat> := map[];
    NoneFinished(Needs(t));
    NoFlags(t);
    while root < |t|
      invariant 0 <= root <= |t| && FlagsHold(t, states) && Finished(Needs(t), order) && order.Keys == states.Keys
      invariant forall i: nat :: i < root ==> i in states
    {
      if root !in states {
        var ok;
        ok, states, order := FlagFrom(t, root, states, order);
        if !ok {
          return None;
        }
      }
      root := root + 1;
    }
    AllFinished(t, order);
    var flags := seq(|t|, i requires 0 <= i < |t| => i in states && states[i]);
    FlagsAreRight(t, states, flags);
    r := Some(flags);
  }

  lemma {:induction false} NoFlags(t: Table)
    ensures FlagsHold(t, map[])
  {
  }

  // ---------------------------------------------------------------------------
  // Walks among the zero-width instructions

  predicate AllFlagged(flags: seq<bool>, work: seq<Task>) {
    forall k :: 0 <= k < |work| ==> work[k].node < |flags| && flags[work[k].node]
  }

  lemma {:induction false} ReversedFlagged(fs: seq<FieldRef>, flags: seq<bool>)
    requires forall k :: 0 <= k < |fs| ==> fs[k].value < |flags| && flags[fs[k].value]
    ensures AllFlagged(flags, Reversed(fs))
    decreases |fs|
  {
    if fs != [] {
      assert forall k :: 0 <= k < |fs[1..]| ==> fs[1..][k] == fs[k + 1];
      ReversedFlagged(fs[1..], flags);
    }
  }

  /** A zero-width instruction needs only zero-width ones. */
  lemma {:induction false} PushFlagged(t: Table, flags: seq<bool>, base: seq<Task>, n: nat)
    requires Flagged(t, flags) && AllFlagged(flags, base + [Task(n, false)])
    ensures n < |t| && AllFlagged(flags, base + [Task(n, true)] + Parts(Needs(t), NeedOf(t[n])))
  {
    assert (base + [Task(n, false)])[|base|] == Task(n, false);
    assert forall k :: 0 <= k < |base| ==> (base + [Task(n, false)])[k] == base[k];
    assert flags[n] && FlagRule(t[n], flags);
    match t[n]
    case IRecord(fs) => ReversedFlagged(fs, flags);
    case _ =>
  }

  lemma {:induction false} PopFlagged(flags: seq<bool>, base: seq<Task>, top: Task)
    requires AllFlagged(flags, base + [top])
    ensures AllFlagged(flags, base) && top.node < |flags| && flags[top.node]
  {
    assert (base + [top])[|base|] == top;
    assert forall k :: 0 <= k < |base| ==> (base + [top])[k] == base[k];
  }

  /** Every zero-width instruction before `root` is done. */
  predicate DoneTo(flags: seq<bool>, root: nat, done: set<nat>) {
    forall i: nat :: i < root && i < |flags| && flags[i] ==> i in done
  }

  lemma {:induction false} DoneNone(flags: seq<bool>, done: set<nat>)
    ensures DoneTo(flags, 0, done)
  {
  }

  lemma {:induction false} DoneNext(flags: seq<bool>, root: nat, before: set<nat>, done: set<nat>)
    requires DoneTo(flags, root, before) && before <= done && (root < |flags| && flags[root] ==> root in done)
    ensures DoneTo(flags, root + 1, done)
  {
  }

  lemma {:induction false} OneFlagged(flags: seq<bool>, root: nat)
    requires root < |flags| && flags[root]
    ensures AllFlagged(flags, [Task(root, false)])
  {
  }

  /** Nothing is met while it is open, because nothing contains itself. */
  lemma {:induction false} NeverMet(t: Table, root: nat, order: map<nat, nat>, active: set<nat>, base: seq<Task>,
      n: nat)
    requires Acyclic(t) && Walking(Needs(t), root, order, active, base + [Task(n, false)]) && root < |t|
    ensures n !in active
  {
    if n in active {
      WalkMeetsCycle(t, root, order, active, base, n);
    }
  }

  // ---------------------------------------------------------------------------
  // Node costs

  function SumOf(fs: seq<FieldRef>, costs: map<nat, nat>): nat {
    if fs == [] then 0 else (if fs[0].value in costs then costs[fs[0].value] else 0) + SumOf(fs[1..], costs)
  }

  function CostOf(x: Instr, costs: map<nat, nat>): nat {
    match x
    case INamed(target) => if target in costs then costs[target] else 0
    case IRecord(fs) => 1 + SumOf(fs, costs)
    case _ => 0
  }

  lemma {:induction false} SumStays(fs: seq<FieldRef>, costs: map<nat, nat>, more: map<nat, nat>)
    requires forall k :: 0 <= k < |fs| ==>
             fs[k].value in costs && fs[k].value in more && more[fs[k].value] == costs[fs[k].value]
    ensures SumOf(fs, more) == SumOf(fs, costs)
    decreases |fs|
  {
    if fs != [] {
      assert forall k :: 0 <= k < |fs[1..]| ==> fs[1..][k] == fs[k + 1];
      SumStays(fs[1..], costs, more);
    }
  }

  lemma {:induction false} CostStays(x: Instr, costs: map<nat, nat>, n: nat, cost: nat)
    requires NeedsIn(x, costs.Keys) && n !in costs
    ensures CostOf(x, costs[n := cost]) == CostOf(x, costs)
  {
    if x.IRecord? {
      SumStays(x.fields, costs, costs[n := cost]);
    }
  }

  predicate CostsHold(t: Table, flags: seq<bool>, costs: map<nat, nat>) {
    forall j :: j in costs ==> j < |t| && j < |flags| && flags[j] && NeedsIn(t[j], costs.Keys)
                               && costs[j] == CostOf(t[j], costs)
  }

  lemma {:induction false} CostsMore(t: Table, flags: seq<bool>, costs: map<nat, nat>, n: nat)
    requires CostsHold(t, flags, costs) && n !in costs && n < |t| && n < |flags| && flags[n]
    requires NeedsIn(t[n], costs.Keys)
    ensures CostsHold(t, flags, costs[n := CostOf(t[n], costs)])
  {
    hide CostOf;
    var more := costs[n := CostOf(t[n], costs)];
    assert more.Keys == costs.Keys + {n};
    forall j | j in more
      ensures j < |t| && flags[j] && NeedsIn(t[j], more.Keys) && more[j] == CostOf(t[j], more)
    {
      CostStays(t[j], costs, n, CostOf(t[n], costs));
    }
  }

  function SumRule(fs: seq<FieldRef>, costs: seq<nat>): nat {
    if fs == [] then 0 else (if fs[0].value < |costs| then costs[fs[0].value] else 0) + SumRule(fs[1..], costs)
  }

  function CostRule(x: Instr, costs: seq<nat>): nat {
    match x
    case INamed(target) => if target < |costs| then costs[target] else 0
    case IRecord(fs) => 1 + SumRule(fs, costs)
    case _ => 0
  }

  /** A zero-width record costs one node more than its fields together, a name costs what it names. */
  predicate Costed(t: Table, flags: seq<bool>, costs: seq<nat>) {
    |costs| == |flags| == |t| && forall i :: 0 <= i < |t| ==> costs[i] == if flags[i] then CostRule(t[i], costs) else 0
  }

  lemma {:induction false} SumIsRight(fs: seq<FieldRef>, m: map<nat, nat>, costs: seq<nat>)
    requires forall j :: j in m ==> j < |costs| && costs[j] == m[j]
    requires forall k :: 0 <= k < |fs| ==> fs[k].value in m
    ensures SumOf(fs, m) == SumRule(fs, costs)
    decreases |fs|
  {
    if fs != [] {
      assert forall k :: 0 <= k < |fs[1..]| ==> fs[1..][k] == fs[k + 1];
      SumIsRight(fs[1..], m, costs);
    }
  }

  lemma {:induction false} CostsAreRight(t: Table, flags: seq<bool>, m: map<nat, nat>, costs: seq<nat>)
    requires CostsHold(t, flags, m) && |costs| == |flags| == |t| && DoneTo(flags, |t|, m.Keys)
    requires forall i :: 0 <= i < |t| ==> costs[i] == if i in m then m[i] else 0
    ensures Costed(t, flags, costs)
  {
    forall i | 0 <= i < |t| && flags[i]
      ensures costs[i] == CostRule(t[i], costs)
    {
      assert m[i] == CostOf(t[i], m) && NeedsIn(t[i], m.Keys);
      if t[i].IRecord? {
        SumIsRight(t[i].fields, m, costs);
      }
    }
  }

  /** One walk of `buildZeroWidthNodeCosts`. */
  method CostFrom(t: Table, flags: seq<bool>, root: nat, costs0: map<nat, nat>, ghost order0: map<nat, nat>)
    returns (costs: map<nat, nat>, ghost order: map<nat, nat>)
    requires TargetsOk(t) && Acyclic(t) && Flagged(t, flags) && root < |t| && root < |flags|
    requires flags[root]
    requires CostsHold(t, flags, costs0) && Finished(Needs(t), order0) && order0.Keys == costs0.Keys
    ensures CostsHold(t, flags, costs) && Finished(Needs(t), order) && order.Keys == costs.Keys && root in costs
    ensures costs0.Keys <= costs.Keys
  {
    hide *;
    ghost var g := Needs(t);
    NeedsLinked(t);
    WalkStart(g, root, order0);
    OneFlagged(flags, root);
    costs, order := costs0, order0;
    ghost var open: set<nat> := {};
    var stack := [Task(root, false)];
    while stack != []
      invariant CostsHold(t, flags, costs) && Walking(g, root, order, open, stack) && order.Keys == costs.Keys
      invariant costs0.Keys <= costs.Keys
      invariant AllFlagged(flags, stack)
      decreases |t| - |order.Keys + open|, |stack|
    {
      var current, base := stack[|stack| - 1], stack[..|stack| - 1];
      assert stack == base + [current];
      WalkTop(g, root, order, open, base, current);
      PopFlagged(flags, base, current);
      if current.node in costs {
        WalkSkips(g, root, order, open, base, current);
        stack := base;
      } else if !current.exit {
        NeverMet(t, root, order, open, base, current.node);
        NeedIsNoName(t[current.node]);
        WalkOpens(g, root, order, open, base, current.node);
        PushFlagged(t, flags, base, current.node);
        open := open + {current.node};
        stack := PushNeeds(t[current.node], base + [Task(current.node, true)], g);
      } else {
        WalkFinishes(g, root, order, open, base, current.node);
        ResolvedNeeds(t, order, current.node);
        CostsMore(t, flags, costs, current.node);
        costs, order := costs[current.node := CostOf(t[current.node], costs)], order[current.node := |order|];
        open, stack := open - {current.node}, base;
      }
    }
    WalkEnds(g, root, order, open);
  }

  /** `buildZeroWidthNodeCosts`. */
  method NodeCosts(t: Table, flags: seq<bool>) returns (r: seq<nat>)
    requires TargetsOk(t) && Acyclic(t) && Flagged(t, flags)
    ensures Costed(t, flags, r)
  {
    FlagPerInstruction(t, flags);
    hide *;
    var costs: map<nat, nat>, root := map[], 0;
    ghost var order: map<nat, nat> := map[];
    NoneFinished(Needs(t));
    NoCosts(t, flags);
    DoneNone(flags, costs.Keys);
    while root < |t|
      invariant 0 <= root <= |t| && CostsHold(t, flags, costs) && Finished(Needs(t), order) && order.Keys == costs.Keys
      invariant DoneTo(flags, root, costs.Keys)
    {
      ghost var before := costs.Keys;
      if flags[root] && root !in costs {
        costs, order := CostFrom(t, flags, root, costs, order);
      }
      DoneNext(flags, root, before, costs.Keys);
      root := root + 1;
    }
    r := seq(|t|, i requires 0 <= i < |t| => if i in costs then costs[i] else 0);
    CostsAreRight(t, flags, costs, r);
  }

  lemma {:induction false} FlagPerInstruction(t: Table, flags: seq<bool>)
    requires Flagged(t, flags)
    ensures |flags| == |t|
  {
  }

  lemma {:induction false} NoCosts(t: Table, flags: seq<bool>)
    ensures CostsHold(t, flags, map[])
  {
  }

  // ---------------------------------------------------------------------------
  // Zero values

  /** A prebuilt object: its value, and the instruction it was made for. Two objects are the same if the latter is. */
  datatype Held = Held(value: Value, origin: nat)

  type Objects = map<nat, Held>

  /** Defining a property twice fails unless it is the same object. */
  function Define(m: map<string, Held>, name: string, h: Held): Option<map<string, Held>> {
    if name !in m then Some(m[name := h]) else if m[name].origin == h.origin then Some(m) else None
  }

  function FieldValues(fs: seq<FieldRef>, values: Objects): Option<map<string, Held>>
    requires forall k :: 0 <= k < |fs| ==> fs[k].value in values
  {
    if fs == [] then Some(map[])
    else
      var n := |fs| - 1;
      var m := FieldValues(fs[..n], values);
      if m.None? then None else Define(m.value, fs[n].name, values[fs[n].value])
  }

  function Properties(m: map<string, Held>): map<string, Value> {
    map name | name in m :: m[name].value
  }

  function ObjectOf(x: Instr, i: nat, values: Objects): Option<Held>
    requires NeedsIn(x, values.Keys)
  {
    match x
    case INamed(target) => Some(values[target])
    case IRecord(fs) =>
      var m := FieldValues(fs, values);
      if m.Some? then Some(Held(VRecord(Properties(m.value)), i)) else None
    case _ => Some(Held(VRecord(map[]), i))
  }

  /** The property-defining loop over the fields of a zero-width record. */
  method ZeroRecord(fs: seq<FieldRef>, values: Objects) returns (r: Option<map<string, Held>>)
    requires forall k :: 0 <= k < |fs| ==> fs[k].value in values
    ensures r == FieldValues(fs, values)
  {
    var m: map<string, Held> := map[];
    var k := 0;
    while k < |fs|
      invariant 0 <= k <= |fs| && FieldValues(fs[..k], values) == Some(m)
    {
      assert fs[..k + 1][..k] == fs[..k];
      var next := Define(m, fs[k].name, values[fs[k].value]);
      if next.None? {
        ClashStays(fs, values, k + 1);
        return None;
      }
      m := next.value;
      k := k + 1;
    }
    assert fs[..k] == fs;
    r := Some(m);
  }

  lemma {:induction false} ClashStays(fs: seq<FieldRef>, values: Objects, k: nat)
    requires (forall k :: 0 <= k < |fs| ==> fs[k].value in values) && k <= |fs| && FieldValues(fs[..k], values).None?
    ensures FieldValues(fs, values).None?
    decreases |fs|
  {
    if k < |fs| {
      assert fs[..|fs| - 1][..k] == fs[..k];
      ClashStays(fs[..|fs| - 1], values, k);
    } else {
      assert fs[..k] == fs;
    }
  }

  lemma {:induction false} FieldValuesStay(fs: seq<FieldRef>, values: Objects, more: Objects)
    requires forall k :: 0 <= k < |fs| ==>
             fs[k].value in values && fs[k].value in more && more[fs[k].value] == values[fs[k].value]
    ensures FieldValues(fs, more) == FieldValues(fs, values)
    decreases |fs|
  {
    if fs != [] {
      FieldValuesStay(fs[..|fs| - 1], values, more);
    }
  }

  lemma {:induction false} ObjectStays(x: Instr, i: nat, values: Objects, n: nat, h: Held)
    requires NeedsIn(x, values.Keys) && n !in values
    ensures NeedsIn(x, values[n := h].Keys) && ObjectOf(x, i, values[n := h]) == ObjectOf(x, i, values)
  {
    if x.IRecord? {
      FieldValuesStay(x.fields, values, values[n := h]);
    }
  }

  /** Objects follow from those of the parts, and each is the one made for its origin. */
  predicate ObjectsHold(t: Table, flags: seq<bool>, values: Objects) {
    forall j :: j in values ==>
      && j < |t| && j < |flags| && flags[j] && NeedsIn(t[j], values.Keys)
      && ObjectOf(t[j], j, values) == Some(values[j])
      && values[j].origin in values && values[values[j].origin] == values[j]
  }

  lemma {:induction false} ObjectsMore(t: Table, flags: seq<bool>, values: Objects, n: nat)
    requires ObjectsHold(t, flags, values) && n !in values && n < |t| && n < |flags| && flags[n]
    requires NeedsIn(t[n], values.Keys) && ObjectOf(t[n], n, values).Some?
    ensures ObjectsHold(t, flags, values[n := ObjectOf(t[n], n, values).value])
  {
    var h := ObjectOf(t[n], n, values).value;
    var more := values[n := h];
    assert h.origin in more && more[h.origin] == h;
    hide ObjectOf;
    forall j | j in more
      ensures j < |t| && flags[j] && NeedsIn(t[j], more.Keys) && ObjectOf(t[j], j, more) == Some(more[j])
      ensures more[j].origin in more && more[more[j].origin] == more[j]
    {
      ObjectStays(t[j], j, values, n, h);
    }
  }

  predicate ValueRule(x: Instr, v: Value, values: seq<Value>) {
    match x
    case INamed(target) => target < |values| && v == values[target]
    case IRecord(fs) =>
      && v.VRecord? && v.fields.Keys == RefNames(fs)
      && forall k :: 0 <= k < |fs| ==>
         fs[k].name in v.fields && fs[k].value < |values| && v.fields[fs[k].name] == values[fs[k].value]
    case _ => v == VRecord(map[])
  }

  /** The one value of each zero-width instruction: an object with exactly its fields, each with its one value. */
  predicate Valued(t: Table, flags: seq<bool>, values: seq<Value>) {
    |values| == |flags| == |t| && forall i :: 0 <= i < |t| ==>
        if flags[i] then ValueRule(t[i], values[i], values) else values[i] == Undefined
  }

  /** Fields of one name hold the same object. */
  predicate OneObjectPerName(fs: seq<FieldRef>, values: Objects)
    requires forall k :: 0 <= k < |fs| ==> fs[k].value in values
  {
    forall j, k :: 0 <= j < k < |fs| && fs[j].name == fs[k].name ==>
      values[fs[j].value].origin == values[fs[k].value].origin
  }

  /** The properties are those of the fields, each with the object of a field of its name. */
  predicate Defines(m: map<string, Held>, fs: seq<FieldRef>, values: Objects)
    requires forall k :: 0 <= k < |fs| ==> fs[k].value in values
  {
    && (forall k :: 0 <= k < |fs| ==> fs[k].name in m && m[fs[k].name].origin == values[fs[k].value].origin)
    && (forall name :: name in m ==> exists k :: 0 <= k < |fs| && fs[k].name == name && m[name] == values[fs[k].value])
  }

  lemma {:induction false} DefinedBy(m: map<string, Held>, fs: seq<FieldRef>, values: Objects, f: FieldRef,
      name: string)
    returns (k: nat)
    requires (forall k :: 0 <= k < |fs| ==> fs[k].value in values) && f.value in values && Defines(m, fs, values)
    requires Define(m, f.name, values[f.value]).Some? && name in Define(m, f.name, values[f.value]).value
    ensures k < |fs + [f]| && (fs + [f])[k].name == name && (fs + [f])[k].value in values
    ensures Define(m, f.name, values[f.value]).value[name] == values[(fs + [f])[k].value]
  {
    if name in m {
      k :| 0 <= k < |fs| && fs[k].name == name && m[name] == values[fs[k].value];
    } else {
      k := |fs|;
    }
  }

  lemma {:induction false} DefinesMore(m: map<string, Held>, fs: seq<FieldRef>, values: Objects, f: FieldRef)
    requires (forall k :: 0 <= k < |fs| ==> fs[k].value in values) && f.value in values && Defines(m, fs, values)
    requires Define(m, f.name, values[f.value]).Some?
    ensures forall k :: 0 <= k < |fs + [f]| ==> (fs + [f])[k].value in values
    ensures Defines(Define(m, f.name, values[f.value]).value, fs + [f], values)
  {
    var gs, m' := fs + [f], Define(m, f.name, values[f.value]).value;
    assert gs[|fs|] == f && forall k :: 0 <= k < |fs| ==> gs[k] == fs[k];
    forall name | name in m'
      ensures exists k :: 0 <= k < |gs| && gs[k].name == name && m'[name] == values[gs[k].value]
    {
      var k := DefinedBy(m, fs, values, f, name);
      assert gs[k].name == name && m'[name] == values[gs[k].value];
    }
  }

  lemma {:induction false} PerNameMore(fs: seq<FieldRef>, values: Objects, f: FieldRef)
    requires (forall k :: 0 <= k < |fs| ==> fs[k].value in values) && f.value in values
    ensures forall k :: 0 <= k < |fs + [f]| ==> (fs + [f])[k].value in values
    ensures OneObjectPerName(fs + [f], values) <==>
            && OneObjectPerName(fs, values)
            && forall k :: 0 <= k < |fs| && fs[k].name == f.name ==>
                 values[fs[k].value].origin == values[f.value].origin
  {
    var gs := fs + [f];
    assert gs[|fs|] == f && forall k :: 0 <= k < |fs| ==> gs[k] == fs[k];
    if OneObjectPerName(gs, values) {
      forall k | 0 <= k < |fs| && fs[k].name == f.name
        ensures values[fs[k].value].origin == values[f.value].origin
      {
        assert gs[k].name == gs[|fs|].name;
      }
    }
  }

  lemma {:induction false} FieldValuesHave(fs: seq<FieldRef>, values: Objects)
    requires forall k :: 0 <= k < |fs| ==> fs[k].value in values
    ensures FieldValues(fs, values).Some? <==> OneObjectPerName(fs, values)
    ensures FieldValues(fs, values).Some? ==> Defines(FieldValues(fs, values).value, fs, values)
    decreases |fs|
  {
    if fs != [] {
      var n := |fs| - 1;
      var front, f := fs[..n], fs[n];
      assert fs == front + [f];
      FieldValuesHave(front, values);
      FieldValuesNext(fs, values);
      hide FieldValues, OneObjectPerName;
      PerNameMore(front, values, f);
      var m := FieldValues(front, values);
      if m.Some? {
        if f.name in m.value {
          var k :| 0 <= k < |front| && front[k].name == f.name && m.value[f.name] == values[front[k].value];
        }
        if Define(m.value, f.name, values[f.value]).Some? {
          DefinesMore(m.value, front, values, f);
        }
      }
    }
  }

  lemma {:induction false} DefinedNames(m: map<string, Held>, fs: seq<FieldRef>, values: Objects)
    requires (forall k :: 0 <= k < |fs| ==> fs[k].value in values) && Defines(m, fs, values)
    ensures m.Keys == RefNames(fs)
  {
  }

  lemma {:induction false} FieldValuesNext(fs: seq<FieldRef>, values: Objects)
    requires fs != [] && forall k :: 0 <= k < |fs| ==> fs[k].value in values
    ensures var n := |fs| - 1; var m := FieldValues(fs[..n], values);
            FieldValues(fs, values) == if m.None? then None else Define(m.value, fs[n].name, values[fs[n].value])
  {
  }

  /** Objects of one origin are one object. */
  lemma {:induction false} OneOrigin(t: Table, flags: seq<bool>, m: Objects, i: nat, j: nat)
    requires ObjectsHold(t, flags, m) && i in m && j in m && m[i].origin == m[j].origin
    ensures m[i] == m[j]
  {
    hide ObjectOf;
  }

  lemma {:induction false} HeldIs(t: Table, flags: seq<bool>, m: Objects, fs: seq<FieldRef>, held: map<string, Held>,
      k: nat)
    requires ObjectsHold(t, flags, m) && (forall k :: 0 <= k < |fs| ==> fs[k].value in m) && Defines(held, fs, m)
    requires k < |fs|
    ensures fs[k].name in held && held[fs[k].name] == m[fs[k].value]
  {
    hide ObjectsHold;
    var j :| 0 <= j < |fs| && fs[j].name == fs[k].name && held[fs[k].name] == m[fs[j].value];
    OneOrigin(t, flags, m, fs[j].value, fs[k].value);
  }

  lemma {:induction false} HeldHasRule(m: Objects, values: seq<Value>, fs: seq<FieldRef>, held: map<string, Held>)
    requires held.Keys == RefNames(fs)
    requires forall k :: 0 <= k < |fs| ==> fs[k].value in m && fs[k].name in held && held[fs[k].name] == m[fs[k].value]
    requires forall j :: j in m ==> j < |values| && values[j] == m[j].value
    ensures ValueRule(IRecord(fs), VRecord(Properties(held)), values)
  {
    hide RefNames;
  }

  lemma {:induction false} RecordHasRule(t: Table, flags: seq<bool>, m: Objects, values: seq<Value>,
      fs: seq<FieldRef>, held: map<string, Held>)
    requires ObjectsHold(t, flags, m) && (forall k :: 0 <= k < |fs| ==> fs[k].value in m) && Defines(held, fs, m)
    requires forall j :: j in m ==> j < |values| && values[j] == m[j].value
    ensures ValueRule(IRecord(fs), VRecord(Properties(held)), values)
  {
    hide *;
    DefinedNames(held, fs, m);
    forall k | 0 <= k < |fs|
      ensures fs[k].value in m && fs[k].name in held && held[fs[k].name] == m[fs[k].value]
    {
      HeldIs(t, flags, m, fs, held, k);
    }
    HeldHasRule(m, values, fs, held);
  }

  lemma {:induction false} ObjectHasRule(t: Table, flags: seq<bool>, m: Objects, values: seq<Value>, i: nat)
    requires ObjectsHold(t, flags, m) && i in m && i < |t|
    requires forall j :: j in m ==> j < |values| && values[j] == m[j].value
    ensures ValueRule(t[i], m[i].value, values)
  {
    assert NeedsIn(t[i], m.Keys) && ObjectOf(t[i], i, m) == Some(m[i]);
    hide FieldValues, ObjectsHold, Properties, Defines, OneObjectPerName;
    if t[i].IRecord? {
      var fs := t[i].fields;
      FieldValuesHave(fs, m);
      RecordHasRule(t, flags, m, values, fs, FieldValues(fs, m).value);
      assert t[i] == IRecord(fs);
    }
  }

  lemma {:induction false} ValuesAreRight(t: Table, flags: seq<bool>, m: Objects, values: seq<Value>)
    requires ObjectsHold(t, flags, m) && |values| == |flags| == |t| && DoneTo(flags, |t|, m.Keys)
    requires forall i :: 0 <= i < |t| ==> values[i] == if i in m then m[i].value else Undefined
    ensures Valued(t, flags, values)
  {
    hide ValueRule, ObjectOf;
    forall i | 0 <= i < |t| && flags[i]
      ensures ValueRule(t[i], values[i], values)
    {
      ObjectHasRule(t, flags, m, values, i);
    }
  }

  /** The object of an instruction whose parts have theirs. */
  method ZeroValueOf(x: Instr, i: nat, values: Objects) returns (r: Option<Held>)
    requires NeedsIn(x, values.Keys)
    ensures r == ObjectOf(x, i, values)
  {
    match x
    case INamed(target) => r := Some(values[target]);
    case IRecord(fs) =>
      var m := ZeroRecord(fs, values);
      r := if m.Some? then Some(Held(VRecord(Properties(m.value)), i)) else None;
    case _ => r := Some(Held(VRecord(map[]), i));
  }

  // ---------------------------------------------------------------------------
  // When two fields of one name hold the same object

  /** The instruction that a chain of names ends at. */
  ghost function Base(t: Table, rank: map<nat, nat>, i: nat): nat
    requires Ranks(Needs(t), rank) && i in rank
    decreases rank[i]
  {
    assert i < |t| && PartsBelow(Needs(t), rank, i);
    match t[i]
    case INamed(target) => Base(t, rank, target)
    case _ => i
  }

  ghost predicate SameBase(t: Table, rank: map<nat, nat>, i: nat, j: nat)
    requires Ranks(Needs(t), rank)
  {
    i in rank && j in rank && Base(t, rank, i) == Base(t, rank, j)
  }

  ghost predicate BasePerName(t: Table, rank: map<nat, nat>, fs: seq<FieldRef>)
    requires Ranks(Needs(t), rank)
  {
    forall j, k :: 0 <= j < k < |fs| && fs[j].name == fs[k].name ==> SameBase(t, rank, fs[j].value, fs[k].value)
  }

  /** Fields of one name in a zero-width record are names of one instruction. */
  ghost predicate Consistent(t: Table, flags: seq<bool>) {
    forall rank, i :: Ranks(Needs(t), rank) && 0 <= i < |t| && i < |flags| && flags[i] && t[i].IRecord? && i in rank ==>
      BasePerName(t, rank, t[i].fields)
  }

  lemma {:induction false} OriginIsBase(t: Table, flags: seq<bool>, values: Objects, rank: map<nat, nat>, i: nat)
    requires ObjectsHold(t, flags, values) && i in values && Ranks(Needs(t), rank) && i in rank
    ensures values[i].origin == Base(t, rank, i)
    decreases rank[i]
  {
    hide FieldValues;
    assert PartsBelow(Needs(t), rank, i);
    if t[i].INamed? {
      OriginIsBase(t, flags, values, rank, t[i].target);
    }
  }

  lemma {:induction false} OriginsAreBases(t: Table, flags: seq<bool>, values: Objects, rank: map<nat, nat>, i: nat)
    requires ObjectsHold(t, flags, values) && Ranks(Needs(t), rank) && i in rank && i < |t| && t[i].IRecord?
    requires NeedsIn(t[i], values.Keys)
    ensures BasePerName(t, rank, t[i].fields) <==> OneObjectPerName(t[i].fields, values)
  {
    assert PartsBelow(Needs(t), rank, i);
    var fs := t[i].fields;
    hide ObjectsHold, Ranks, Base;
    forall k | 0 <= k < |fs|
      ensures fs[k].value in rank && values[fs[k].value].origin == Base(t, rank, fs[k].value)
    {
      assert Below(rank, fs[k].value, i);
      OriginIsBase(t, flags, values, rank, fs[k].value);
    }
  }

  /** A property defined twice with two objects: the table is not consistent. */
  lemma {:induction false} ClashIsReal(t: Table, flags: seq<bool>, values: Objects, n: nat)
    requires ObjectsHold(t, flags, values) && Acyclic(t) && n < |t| && n < |flags| && flags[n]
    requires NeedsIn(t[n], values.Keys) && ObjectOf(t[n], n, values).None?
    ensures !Consistent(t, flags)
  {
    var rank :| Ranks(Needs(t), rank) && forall i: nat :: i < |t| ==> i in rank;
    hide ObjectsHold, Ranks, FieldValues, BasePerName;
    FieldValuesHave(t[n].fields, values);
    OriginsAreBases(t, flags, values, rank, n);
  }

  lemma {:induction false} AllIsConsistent(t: Table, flags: seq<bool>, values: Objects)
    requires ObjectsHold(t, flags, values) && DoneTo(flags, |t|, values.Keys)
    ensures Consistent(t, flags)
  {
    hide Ranks, FieldValues, BasePerName;
    forall rank, i | Ranks(Needs(t), rank) && 0 <= i < |t| && i < |flags| && flags[i] && t[i].IRecord? && i in rank
      ensures BasePerName(t, rank, t[i].fields)
    {
      assert ObjectOf(t[i], i, values).Some?;
      FieldValuesHave(t[i].fields, values);
      OriginsAreBases(t, flags, values, rank, i);
    }
  }

  lemma {:induction false} SameKeys(values: Objects, order: map<nat, nat>, n: nat, h: Held)
    requires order.Keys == values.Keys
    ensures order[n := |order|].Keys == values[n := h].Keys && values.Keys <= values[n := h].Keys
  {
  }

  /** One walk of `buildZeroValues`. */
  method ValueFrom(t: Table, flags: seq<bool>, root: nat, values0: Objects, ghost order0: map<nat, nat>)
    returns (ok: bool, values: Objects, ghost order: map<nat, nat>)
    requires TargetsOk(t) && Acyclic(t) && Flagged(t, flags) && root < |t| && root < |flags| && flags[root]
    requires ObjectsHold(t, flags, values0) && Finished(Needs(t), order0) && order0.Keys == values0.Keys
    ensures !ok ==> !Consistent(t, flags)
    ensures ok ==> ObjectsHold(t, flags, values) && Finished(Needs(t), order) && order.Keys == values.Keys
    ensures ok ==> root in values && values0.Keys <= values.Keys
  {
    hide *;
    ghost var g := Needs(t);
    NeedsLinked(t);
    WalkStart(g, root, order0);
    OneFlagged(flags, root);
    values, order := values0, order0;
    ghost var open: set<nat> := {};
    var stack := [Task(root, false)];
    while stack != []
      invariant ObjectsHold(t, flags, values) && Walking(g, root, order, open, stack) && order.Keys == values.Keys
      invariant values0.Keys <= values.Keys && AllFlagged(flags, stack)
      decreases |t| - |order.Keys + open|, |stack|
    {
      var current, base := stack[|stack| - 1], stack[..|stack| - 1];
      assert stack == base + [current];
      WalkTop(g, root, order, open, base, current);
      PopFlagged(flags, base, current);
      if current.node in values {
        WalkSkips(g, root, order, open, base, current);
        stack := base;
      } else if !current.exit {
        NeverMet(t, root, order, open, base, current.node);
        NeedIsNoName(t[current.node]);
        WalkOpens(g, root, order, open, base, current.node);
        PushFlagged(t, flags, base, current.node);
        open := open + {current.node};
        stack := PushNeeds(t[current.node], base + [Task(current.node, true)], g);
      } else {
        WalkFinishes(g, root, order, open, base, current.node);
        ResolvedNeeds(t, order, current.node);
        var h := ZeroValueOf(t[current.node], current.node, values);
        if h.None? {
          ClashIsReal(t, flags, values, current.node);
          return false, values, order;
        }
        ObjectsMore(t, flags, values, current.node);
        SameKeys(values, order, current.node, h.value);
        values, order := values[current.node := h.value], order[current.node := |order|];
        open, stack := open - {current.node}, base;
      }
    }
    WalkEnds(g, root, order, open);
    ok := true;
  }

  /** `buildZeroValues`: fails exactly when a zero-width record defines one property with two objects. */
  method ZeroValues(t: Table, flags: seq<bool>) returns (r: Option<seq<Value>>)
    requires TargetsOk(t) && Acyclic(t) && Flagged(t, flags)
    ensures r.Some? <==> Consistent(t, flags)
    ensures r.Some? ==> Valued(t, flags, r.value)
  {
    FlagPerInstruction(t, flags);
    hide *;
    var values: Objects, root := map[], 0;
    ghost var order: map<nat, nat> := map[];
    NoneFinished(Needs(t));
    NoObjects(t, flags);
    DoneNone(flags, values.Keys);
    while root < |t|
      invariant 0 <= root <= |t| && ObjectsHold(t, flags, values) && Finished(Needs(t), order)
      invariant order.Keys == values.Keys && DoneTo(flags, root, values.Keys)
    {
      ghost var before := values.Keys;
      if flags[root] && root !in values {
        var ok;
        ok, values, order := ValueFrom(t, flags, root, values, order);
        if !ok {
          return None;
        }
      }
      DoneNext(flags, root, before, values.Keys);
      root := root + 1;
    }
    AllIsConsistent(t, flags, values);
    var all := seq(|t|, i requires 0 <= i < |t| => if i in values then values[i].value else Undefined);
    ValuesAreRight(t, flags, values, all);
    r := Some(all);
  }

  lemma {:induction false} NoObjects(t: Table, flags: seq<bool>)
    ensures ObjectsHold(t, flags, map[])
  {
  }

  // ---------------------------------------------------------------------------
  // The facts are unique

  /** In a table without a circle the rule leaves no choice of flags. */
  lemma {:induction false} OneFlagging(t: Table, rank: map<nat, nat>, a: seq<bool>, b: seq<bool>, i: nat)
    requires Ranks(Needs(t), rank) && Flagged(t, a) && Flagged(t, b) && i < |t| && i in rank
    ensures a[i] == b[i]
    decreases rank[i]
  {
    assert PartsBelow(Needs(t), rank, i);
    match t[i]
    case INamed(target) => OneFlagging(t, rank, a, b, target);
    case IRecord(fs) =>
      forall k | 0 <= k < |fs|
        ensures fs[k].value < |t| && a[fs[k].value] == b[fs[k].value]
      {
        assert Below(rank, fs[k].value, i);
        OneFlagging(t, rank, a, b, fs[k].value);
      }
    case _ =>
  }

  lemma {:induction false} SameSums(fs: seq<FieldRef>, a: seq<nat>, b: seq<nat>)
    requires |a| == |b| && forall k :: 0 <= k < |fs| ==> fs[k].value < |a| && a[fs[k].value] == b[fs[k].value]
    ensures SumRule(fs, a) == SumRule(fs, b)
    decreases |fs|
  {
    if fs != [] {
      assert forall k :: 0 <= k < |fs[1..]| ==> fs[1..][k] == fs[k + 1];
      SameSums(fs[1..], a, b);
    }
  }

  lemma {:induction false} OneCosting(t: Table, rank: map<nat, nat>, flags: seq<bool>, a: seq<nat>, b: seq<nat>, i: nat)
    requires Ranks(Needs(t), rank) && Flagged(t, flags) && Costed(t, flags, a) && Costed(t, flags, b) && i < |t|
    requires i in rank
    ensures a[i] == b[i]
    decreases rank[i]
  {
    assert PartsBelow(Needs(t), rank, i);
    match t[i]
    case INamed(target) => OneCosting(t, rank, flags, a, b, target);
    case IRecord(fs) =>
      forall k | 0 <= k < |fs|
        ensures fs[k].value < |t| && a[fs[k].value] == b[fs[k].value]
      {
        assert Below(rank, fs[k].value, i);
        OneCosting(t, rank, flags, a, b, fs[k].value);
      }
      SameSums(fs, a, b);
    case _ =>
  }

  lemma {:induction false} OneValuing(t: Table, rank: map<nat, nat>, flags: seq<bool>, a: seq<Value>, b: seq<Value>,
      i: nat)
    requires Ranks(Needs(t), rank) && Flagged(t, flags) && Valued(t, flags, a) && Valued(t, flags, b) && i < |t|
    requires i in rank
    ensures a[i] == b[i]
    decreases rank[i]
  {
    assert PartsBelow(Needs(t), rank, i);
    if flags[i] {
      assert ValueRule(t[i], a[i], a) && ValueRule(t[i], b[i], b);
      match t[i]
      case INamed(target) => OneValuing(t, rank, flags, a, b, target);
      case IRecord(fs) =>
        forall k | 0 <= k < |fs|
          ensures fs[k].value < |t| && a[fs[k].value] == b[fs[k].value]
        {
          assert Below(rank, fs[k].value, i);
          OneValuing(t, rank, flags, a, b, fs[k].value);
        }
        SameRecords(fs, a[i], b[i], a, b);
      case _ =>
    }
  }

  lemma {:induction false} SameRecords(fs: seq<FieldRef>, v: Value, w: Value, a: seq<Value>, b: seq<Value>)
    requires ValueRule(IRecord(fs), v, a) && ValueRule(IRecord(fs), w, b)
    requires |a| == |b| && forall k :: 0 <= k < |fs| ==> fs[k].value < |a| && a[fs[k].value] == b[fs[k].value]
    ensures v == w
  {
    forall name | name in RefNames(fs)
      ensures v.fields[name] == w.fields[name]
    {
      var k :| 0 <= k < |fs| && fs[k].name == name;
    }
    assert v.fields == w.fields;
  }

  // ---------------------------------------------------------------------------
  // In a table that refers only to earlier instructions

  predicate NamesDistinct(fs: seq<FieldRef>) {
    forall j, k :: 0 <= j < k < |fs| ==> fs[j].name != fs[k].name
  }

  lemma {:induction false} OrderedRefs(fs: seq<FieldRef>, bound: nat)
    requires RefsOk(fs, bound)
    ensures NamesDistinct(fs) && forall k :: 0 <= k < |fs| ==> fs[k].value < bound
    decreases |fs|
  {
    if fs != [] {
      OrderedRefs(fs[1..], bound);
      assert forall k :: 1 <= k < |fs| ==> fs[k] == fs[1..][k - 1];
    }
  }

  lemma {:induction false} OrderedIsSound(t: Table)
    requires Ordered(t)
    ensures TargetsOk(t) && Acyclic(t) && forall flags :: Consistent(t, flags)
  {
    hide RefsOk;
    var rank := map i | i in UpTo(|t|) :: i;
    forall i | 0 <= i < |t|
      ensures Targets(t[i], |t|) && (t[i].IRecord? ==> NamesDistinct(t[i].fields)) && PartsBelow(Needs(t), rank, i)
    {
      assert InstrOk(t[i], i);
      if t[i].IRecord? {
        OrderedRefs(t[i].fields, i);
      }
    }
    assert Ranks(Needs(t), rank);
  }

  lemma {:induction false} OrderedFlag(t: Table, flags: seq<bool>, i: nat)
    requires Ordered(t) && Flagged(t, flags) && i < |t|
    ensures flags[i] == ZeroAt(t, i)
    decreases i, 1, 0
  {
    assert InstrOk(t[i], i);
    match t[i]
    case INamed(target) => OrderedFlag(t, flags, target);
    case IRecord(fs) => OrderedFieldFlags(t, flags, fs, i);
    case _ =>
  }

  lemma {:induction false} OrderedFieldFlags(t: Table, flags: seq<bool>, fs: seq<FieldRef>, i: nat)
    requires Ordered(t) && Flagged(t, flags) && i <= |t| && RefsOk(fs, i)
    ensures (forall k :: 0 <= k < |fs| ==> fs[k].value < |flags| && flags[fs[k].value]) <==> ZeroFieldsAt(t, fs, i)
    decreases i, 0, |fs|
  {
    hide ZeroAt, Flagged;
    FlagPerInstruction(t, flags);
    if fs != [] {
      OrderedFlag(t, flags, fs[0].value);
      OrderedFieldFlags(t, flags, fs[1..], i);
      assert forall k :: 0 <= k < |fs[1..]| ==> fs[1..][k] == fs[k + 1];
      assert forall k :: 1 <= k < |fs| ==> fs[k] == fs[1..][k - 1];
    }
  }

  lemma {:induction false} OrderedCost(t: Table, flags: seq<bool>, costs: seq<nat>, i: nat)
    requires Ordered(t) && Flagged(t, flags) && Costed(t, flags, costs) && i < |t| && flags[i]
    ensures costs[i] == CostAt(t, i)
    decreases i, 1, 0
  {
    assert InstrOk(t[i], i) && FlagRule(t[i], flags);
    match t[i]
    case INamed(target) => OrderedCost(t, flags, costs, target);
    case IRecord(fs) => OrderedFieldCosts(t, flags, costs, fs, i);
    case _ =>
  }

  lemma {:induction false} OrderedFieldCosts(t: Table, flags: seq<bool>, costs: seq<nat>, fs: seq<FieldRef>, i: nat)
    requires Ordered(t) && Flagged(t, flags) && Costed(t, flags, costs) && i <= |t| && RefsOk(fs, i)
    requires forall k :: 0 <= k < |fs| ==> fs[k].value < |flags| && flags[fs[k].value]
    ensures SumRule(fs, costs) == CostFieldsAt(t, fs, i)
    decreases i, 0, |fs|
  {
    assert |costs| == |t|;
    hide CostAt, Costed, Flagged;
    if fs != [] {
      OrderedCost(t, flags, costs, fs[0].value);
      assert forall k :: 0 <= k < |fs[1..]| ==> fs[1..][k] == fs[k + 1];
      OrderedFieldCosts(t, flags, costs, fs[1..], i);
    }
  }

  lemma {:induction false} ZeroRecordMeans(t: Table, i: nat, m: map<string, Value>)
    requires Ordered(t) && i < |t| && t[i].IRecord? && m.Keys == RefNames(t[i].fields)
    requires forall j :: 0 <= j < |t[i].fields| ==>
               var f := t[i].fields[j]; f.name in m && f.value < i && m[f.name] == ZeroOf(Resolve(t, f.value))
    ensures VRecord(m) == ZeroOf(Resolve(t, i))
  {
    var fs := t[i].fields;
    var z := ZeroFields(ResolveFields(t, fs, i));
    ZeroFieldsHave(t, fs, i);
    forall n | n in RefNames(fs)
      ensures m[n] == z[n]
    {
      var j :| 0 <= j < |fs| && fs[j].name == n;
      ZeroFieldAt(t, fs, i, j);
    }
    assert m == z;
  }

  lemma {:induction false} ZeroFieldAt(t: Table, fs: seq<FieldRef>, i: nat, j: nat)
    requires Ordered(t) && i <= |t| && RefsOk(fs, i) && j < |fs|
    ensures fs[j].value < i
    ensures var z := ZeroFields(ResolveFields(t, fs, i));
            fs[j].name in z && z[fs[j].name] == ZeroOf(Resolve(t, fs[j].value))
    decreases |fs|
  {
    assert ResolveFields(t, fs, i)[1..] == ResolveFields(t, fs[1..], i);
    if j > 0 {
      OrderedRefs(fs, i);
      ZeroFieldAt(t, fs[1..], i, j - 1);
    }
  }

  lemma {:induction false} OrderedValue(t: Table, flags: seq<bool>, values: seq<Value>, i: nat)
    requires Ordered(t) && Flagged(t, flags) && Valued(t, flags, values) && i < |t| && flags[i]
    ensures values[i] == ZeroOf(Resolve(t, i))
    decreases i
  {
    assert InstrOk(t[i], i) && FlagRule(t[i], flags) && ValueRule(t[i], values[i], values);
    match t[i]
    case INamed(target) => OrderedValue(t, flags, values, target);
    case IRecord(fs) =>
      hide ZeroOf, Resolve, Valued, Flagged, RefsOk;
      forall k | 0 <= k < |fs|
        ensures fs[k].value < i && values[fs[k].value] == ZeroOf(Resolve(t, fs[k].value))
      {
        OrderedRefs(fs, i);
        OrderedValue(t, flags, values, fs[k].value);
      }
      ZeroRecordMeans(t, i, values[i].fields);
    case _ =>
  }
}
