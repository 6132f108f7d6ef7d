/** The LIFO codec machine of the TypeScript runtime, proved against the meaning of its instruction table. */
module CodecVm {
  import opened LittleEndian
  import opened Leaves
  import opened Codec
  import opened CodecTable
  import opened CodecBuffers

  /** A compiled program with its precomputed zero-width facts. */
  datatype Program = Program(table: Table, root: nat, zeroWidths: seq<bool>, zeroValues: seq<Value>, costs: seq<nat>)

  predicate WellBuilt(p: Program) {
    && Ordered(p.table) && p.root < |p.table|
    && |p.zeroWidths| == |p.zeroValues| == |p.costs| == |p.table|
    && (forall i :: 0 <= i < |p.table| ==> p.zeroWidths[i] == ZeroAt(p.table, i))
    && (forall i :: 0 <= i < |p.table| && p.zeroWidths[i] ==>
          p.zeroValues[i] == ZeroOf(Resolve(p.table, i)) && p.costs[i] == CostAt(p.table, i))
  }

  // ---------------------------------------------------------------------------
  // Termination: a popped instruction is replaced by boundedly many earlier ones

  function FieldCount(t: Table): nat {
    if t == [] then 0
    else
      var x := t[|t| - 1];
      (if x.IRecord? then |x.fields| else 0) + FieldCount(t[..|t| - 1])
  }

  lemma {:induction false} FieldCountBounds(t: Table, i: nat)
    requires i < |t| && t[i].IRecord?
    ensures |t[i].fields| <= FieldCount(t)
    decreases |t|
  {
    if i < |t| - 1 {
      FieldCountBounds(t[..|t| - 1], i);
    }
  }

  /** More than one instruction can ever push. */
  function Branching(t: Table): nat {
    MAX_LIST + FieldCount(t)
  }

  function Weight(b: nat, i: nat): (w: nat)
    ensures w >= 1
  {
    if i == 0 then 1 else (b + 1) * Weight(b, i - 1)
  }

  lemma {:induction false} WeightGrows(b: nat, i: nat, j: nat)
    requires i <= j
    ensures Weight(b, i) <= Weight(b, j)
    decreases j
  {
    if i < j {
      WeightGrows(b, i, j - 1);
      assert Weight(b, j) == b * Weight(b, j - 1) + Weight(b, j - 1);
      assert b * Weight(b, j - 1) >= 0;
    }
  }

  function Load(b: nat, indexes: seq<nat>): nat {
    if indexes == [] then 0 else Weight(b, indexes[|indexes| - 1]) + Load(b, indexes[..|indexes| - 1])
  }

  lemma {:induction false} LoadAppend(b: nat, xs: seq<nat>, ys: seq<nat>)
    ensures Load(b, xs + ys) == Load(b, xs) + Load(b, ys)
    decreases |ys|
  {
    if ys == [] {
      assert xs + ys == xs;
    } else {
      assert (xs + ys)[..|xs + ys| - 1] == xs + ys[..|ys| - 1];
      LoadAppend(b, xs, ys[..|ys| - 1]);
    }
  }

  lemma {:induction false} OneMore(n: nat, w: nat)
    ensures (n + 1) * w == n * w + w
  {
  }

  lemma {:induction false} LoadBound(b: nat, xs: seq<nat>, i: nat)
    requires forall k :: 0 <= k < |xs| ==> xs[k] < i
    ensures xs != [] ==> i > 0 && Load(b, xs) <= |xs| * Weight(b, i - 1)
    ensures xs == [] ==> Load(b, xs) == 0
    decreases |xs|
  {
    hide Weight;
    if xs != [] {
      var n := |xs| - 1;
      LoadBound(b, xs[..n], i);
      WeightGrows(b, xs[n], i - 1);
      OneMore(n, Weight(b, i - 1));
    }
  }

  lemma {:induction false} Scale(a: nat, b: nat, w: nat)
    requires a <= b
    ensures a * w <= b * w
    decreases b
  {
    if a < b {
      Scale(a, b - 1, w);
      assert b * w == (b - 1) * w + w;
    }
  }

  lemma {:induction false} SingleLoad(b: nat, i: nat)
    ensures Load(b, [i]) == Weight(b, i)
  {
    assert Load(b, []) == 0;
    assert [i][..0] == [];
  }

  /** Replacing an instruction by at most `b` earlier ones reduces the load. */
  lemma {:induction false} LoadFalls(b: nat, base: seq<nat>, i: nat, pushed: seq<nat>)
    requires |pushed| <= b && forall k :: 0 <= k < |pushed| ==> pushed[k] < i
    ensures Load(b, base + pushed) < Load(b, base + [i])
  {
    LoadBound(b, pushed, i);
    if pushed != [] {
      WeightStep(b, i);
      Scale(|pushed|, b, Weight(b, i - 1));
    }
    hide Weight, Load;
    LoadAppend(b, base, pushed);
    LoadAppend(b, base, [i]);
    SingleLoad(b, i);
  }

  lemma {:induction false} WeightStep(b: nat, i: nat)
    requires i > 0
    ensures Weight(b, i) == b * Weight(b, i - 1) + Weight(b, i - 1)
  {
  }

  // ---------------------------------------------------------------------------
  // Encoding

  datatype Work = Work(index: nat, value: Value)

  function Indexes(stack: seq<Work>): seq<nat> {
    seq(|stack|, k requires 0 <= k < |stack| => stack[k].index)
  }

  predicate InTable(t: Table, stack: seq<Work>) {
    forall k :: 0 <= k < |stack| ==> stack[k].index < |t|
  }

  /** What the whole stack will emit and charge; the top is the last element. */
  function EncStack(t: Table, stack: seq<Work>): Option<Emit>
    requires Ordered(t) && InTable(t, stack)
    decreases |stack|
  {
    if stack == [] then Some(Emit([], 0))
    else
      var top := stack[|stack| - 1];
      Then(EncI(t, top.index, top.value), EncStack(t, stack[..|stack| - 1]))
  }

  lemma {:induction false} EncPush(t: Table, stack: seq<Work>, w: Work)
    requires Ordered(t) && InTable(t, stack) && w.index < |t|
    ensures EncStack(t, stack + [w]) == Then(EncI(t, w.index, w.value), EncStack(t, stack))
  {
    assert (stack + [w])[..|stack|] == stack;
  }

  /** The element frames, pushed in reverse so that the first element is on top. */
  function ElemWork(e: nat, vs: seq<Value>): (r: seq<Work>)
    ensures |r| == |vs| && forall k :: 0 <= k < |r| ==> r[k].index == e
  {
    if vs == [] then [] else ElemWork(e, vs[1..]) + [Work(e, vs[0])]
  }

  function FieldWork(fs: seq<FieldRef>, m: map<string, Value>): (r: seq<Work>)
    requires forall k :: 0 <= k < |fs| ==> fs[k].name in m
    ensures |r| == |fs|
  {
    if fs == [] then [] else FieldWork(fs[1..], m) + [Work(fs[0].value, m[fs[0].name])]
  }

  lemma {:induction false} ThenAssoc(a: Option<Emit>, b: Option<Emit>, c: Option<Emit>)
    ensures Then(Then(a, b), c) == Then(a, Then(b, c))
  {
    if a.Some? && b.Some? && c.Some? {
      assert a.value.bytes + b.value.bytes + c.value.bytes == a.value.bytes + (b.value.bytes + c.value.bytes);
    }
  }

  lemma {:induction false} ThenNothing(a: Option<Emit>)
    ensures Then(Some(Emit([], 0)), a) == a && Then(a, Some(Emit([], 0))) == a
  {
    if a.Some? {
      assert [] + a.value.bytes == a.value.bytes && a.value.bytes + [] == a.value.bytes;
    }
  }

  lemma {:induction false} ElemWorkEmits(t: Table, base: seq<Work>, e: nat, vs: seq<Value>)
    requires Ordered(t) && InTable(t, base) && e < |t|
    ensures InTable(t, base + ElemWork(e, vs))
    ensures EncStack(t, base + ElemWork(e, vs)) == Then(EncIElems(t, e, vs), EncStack(t, base))
    decreases |vs|
  {
    hide EncI, EncStack;
    if vs == [] {
      assert base + ElemWork(e, vs) == base;
      ThenNothing(EncStack(t, base));
    } else {
      var rest := base + ElemWork(e, vs[1..]);
      ElemWorkEmits(t, base, e, vs[1..]);
      assert base + ElemWork(e, vs) == rest + [Work(e, vs[0])];
      EncPush(t, rest, Work(e, vs[0]));
      ThenAssoc(EncI(t, e, vs[0]), EncIElems(t, e, vs[1..]), EncStack(t, base));
    }
  }

  lemma {:induction false} FieldWorkEmits(t: Table, base: seq<Work>, fs: seq<FieldRef>, i: nat, m: map<string, Value>)
    requires Ordered(t) && InTable(t, base) && i <= |t| && RefsOk(fs, i)
    requires forall k :: 0 <= k < |fs| ==> fs[k].name in m
    ensures InTable(t, base + FieldWork(fs, m))
    ensures EncStack(t, base + FieldWork(fs, m)) == Then(EncIFields(t, fs, i, m), EncStack(t, base))
    ensures forall k :: 0 <= k < |fs| ==> FieldWork(fs, m)[k].index < i
    decreases |fs|
  {
    hide EncI, EncStack;
    if fs == [] {
      assert base + FieldWork(fs, m) == base;
      ThenNothing(EncStack(t, base));
    } else {
      var rest := base + FieldWork(fs[1..], m);
      var w := Work(fs[0].value, m[fs[0].name]);
      FieldWorkEmits(t, base, fs[1..], i, m);
      assert base + FieldWork(fs, m) == rest + [w];
      EncPush(t, rest, w);
      ThenAssoc(EncI(t, fs[0].value, m[fs[0].name]), EncIFields(t, fs[1..], i, m), EncStack(t, base));
    }
  }

  /** The emission fits the room that is left in the output and in the budget. */
  predicate FitsIn(e: Option<Emit>, bytes: nat, nodes: nat) {
    e.Some? && |e.value.bytes| <= bytes && e.value.cost <= nodes
  }

  function Room(buffer: EncoderBuffer): nat
    requires buffer.Valid()
    reads buffer, buffer.buffer
  {
    buffer.maximum - buffer.used
  }

  function Remaining(budget: CodecBudget): nat
    requires budget.Valid()
    reads budget
  {
    budget.limit - budget.used
  }

  lemma {:induction false} RemainingIs(budget: CodecBudget)
    requires budget.Valid()
    ensures Remaining(budget) == budget.limit - budget.used
  {
  }

  /** Push the elements of a list, the first on top. */
  method PushElems(e: nat, vs: seq<Value>, base: seq<Work>) returns (stack: seq<Work>)
    ensures stack == base + ElemWork(e, vs)
  {
    stack := base;
    var k := |vs|;
    while k > 0
      invariant 0 <= k <= |vs| && stack == base + ElemWork(e, vs[k..])
    {
      k := k - 1;
      assert vs[k..][1..] == vs[k + 1..];
      stack := stack + [Work(e, vs[k])];
    }
    assert vs[0..] == vs;
  }

  /** `encodeListFrame`: count first, then the elements as work, or their charge at once if they have no width. */
  method EncodeListFrame(p: Program, i: nat, v: Value, base: seq<Work>, buffer: EncoderBuffer, budget: CodecBudget)
    returns (ok: bool, stack: seq<Work>, ghost now: Emit)
    requires WellBuilt(p) && i < |p.table| && p.table[i].IList? && InTable(p.table, base)
    requires buffer.Valid() && budget.Valid()
    modifies buffer, buffer.buffer, budget
    ensures buffer.Valid() && budget.Valid() && (buffer.buffer == old(buffer.buffer) || fresh(buffer.buffer))
    ensures !ok ==> !FitsIn(EncI(p.table, i, v), old(Room(buffer)), old(Remaining(budget)))
    ensures ok ==> buffer.Contents() == old(buffer.Contents()) + now.bytes && budget.used == old(budget.used) + now.cost
    ensures ok ==> InTable(p.table, stack)
                   && Then(EncI(p.table, i, v), EncStack(p.table, base)) == Then(Some(now), EncStack(p.table, stack))
    ensures ok ==> Load(Branching(p.table), Indexes(stack)) < Load(Branching(p.table), Indexes(base) + [i])
  {
    hide EncStack, Put, Load, Branching, WellBuilt, EncI, ElemWork, ZeroAt, CostAt, Resolve, ZeroOf, InTable;
    stack, now := base, Emit([], 0);
    ghost var t := p.table;
    var e := p.table[i].element;
    ListFacts(p, i);
    hide Ordered;
    if !v.VList? || |v.elems| > MAX_LIST {
      ListRefused(t, i, v);
      return false, stack, now;
    }
    var n := |v.elems|;
    if EncI(t, i, v).Some? {
      ListAtLeast(t, i, v);
    }
    ok := budget.Charge(1 + n);
    if !ok {
      return;
    }
    ok := buffer.Append(Put(n, 8));
    if !ok {
      return;
    }
    if p.zeroWidths[e] {
      ok := budget.Charge(n * p.costs[e]);
      now := Emit(Put(n, 8), 1 + n + n * p.costs[e]);
      ZeroListEmits(p, i, v, base);
      return;
    }
    now := Emit(Put(n, 8), 1 + n);
    stack := PushElems(e, v.elems, base);
    ListEmits(t, i, v, base);
  }

  lemma {:induction false} ListFacts(p: Program, i: nat)
    requires WellBuilt(p) && i < |p.table| && p.table[i].IList?
    ensures Ordered(p.table)
    ensures var e := p.table[i].element;
            && e < i && |p.zeroWidths| == |p.zeroValues| == |p.costs| == |p.table|
            && p.zeroWidths[e] == ZeroAt(p.table, e)
            && (p.zeroWidths[e] ==> p.zeroValues[e] == ZeroOf(Resolve(p.table, e)) && p.costs[e] == CostAt(p.table, e))
  {
    OrderedAt(p.table, i);
  }

  lemma {:induction false} ListRefused(t: Table, i: nat, v: Value)
    requires Ordered(t) && i < |t| && t[i].IList? && (!v.VList? || |v.elems| > MAX_LIST)
    ensures EncI(t, i, v).None?
  {
  }

  lemma {:induction false} ListAtLeast(t: Table, i: nat, v: Value)
    requires Ordered(t) && i < |t| && t[i].IList? && EncI(t, i, v).Some?
    ensures var e := t[i].element; var n := |v.elems|; var r := EncI(t, i, v).value;
            |r.bytes| >= 8 && r.cost >= 1 + n + (if ZeroAt(t, e) then n * CostAt(t, e) else 0)
  {
    hide Put;
  }

  lemma {:induction false} ZeroListEmits(p: Program, i: nat, v: Value, base: seq<Work>)
    requires WellBuilt(p) && i < |p.table| && p.table[i].IList? && InTable(p.table, base)
    requires v.VList? && |v.elems| <= MAX_LIST && p.table[i].element < |p.zeroWidths|
    requires p.zeroWidths[p.table[i].element]
    ensures var e := p.table[i].element; var n := |v.elems|;
            e < |p.costs| && EncI(p.table, i, v) == Some(Emit(Put(n, 8), 1 + n + n * p.costs[e]))
    ensures Load(Branching(p.table), Indexes(base)) < Load(Branching(p.table), Indexes(base) + [i])
  {
    hide Put, Load, Branching;
    ListFacts(p, i);
    LoadFalls(Branching(p.table), Indexes(base), i, []);
    assert Indexes(base) + [] == Indexes(base);
  }

  lemma {:induction false} ListEmits(t: Table, i: nat, v: Value, base: seq<Work>)
    requires Ordered(t) && i < |t| && t[i].IList? && InTable(t, base) && t[i].element < i
    requires v.VList? && |v.elems| <= MAX_LIST && !ZeroAt(t, t[i].element)
    ensures var e := t[i].element; var n := |v.elems|; var stack := base + ElemWork(e, v.elems);
            && InTable(t, stack)
            && Then(EncI(t, i, v), EncStack(t, base)) == Then(Some(Emit(Put(n, 8), 1 + n)), EncStack(t, stack))
            && Load(Branching(t), Indexes(stack)) < Load(Branching(t), Indexes(base) + [i])
  {
    hide EncStack, Put, Load;
    var e := t[i].element;
    var work := ElemWork(e, v.elems);
    ElemWorkEmits(t, base, e, v.elems);
    ThenAssoc(Some(Emit(Put(|v.elems|, 8), 1 + |v.elems|)), EncIElems(t, e, v.elems), EncStack(t, base));
    LoadFalls(Branching(t), Indexes(base), i, Indexes(work));
    assert Indexes(base + work) == Indexes(base) + Indexes(work);
  }

  lemma {:induction false} OrderedAt(t: Table, i: nat)
    requires Ordered(t) && i < |t|
    ensures InstrOk(t[i], i)
  {
  }

  lemma {:induction false} TableOrdered(p: Program)
    requires WellBuilt(p)
    ensures Ordered(p.table)
  {
  }

  lemma {:induction false} RecordAtLeast(t: Table, i: nat, v: Value)
    requires Ordered(t) && i < |t| && t[i].IRecord? && EncI(t, i, v).Some?
    ensures ClosedRecord(v, RefNames(t[i].fields)) && EncI(t, i, v).value.cost >= 1
  {
    hide RefNames;
  }

  lemma {:induction false} EncRecord(t: Table, i: nat, v: Value)
    requires Ordered(t) && i < |t| && t[i].IRecord? && ClosedRecord(v, RefNames(t[i].fields))
    ensures RefsOk(t[i].fields, i) && (forall j :: 0 <= j < |t[i].fields| ==> t[i].fields[j].name in v.fields)
    ensures EncI(t, i, v) == Then(Some(Emit([], 1)), EncIFields(t, t[i].fields, i, v.fields))
  {
    OrderedAt(t, i);
    assert forall j :: 0 <= j < |t[i].fields| ==> t[i].fields[j].name in RefNames(t[i].fields);
  }

  /** Pushing the parts of a record in place of the record makes the stack lighter. */
  lemma {:induction false} RecordLoad(t: Table, base: seq<nat>, i: nat, pushed: seq<nat>)
    requires i < |t| && t[i].IRecord? && |pushed| == |t[i].fields| && forall k :: 0 <= k < |pushed| ==> pushed[k] < i
    ensures Load(Branching(t), base + pushed) < Load(Branching(t), base + [i])
  {
    FieldCountBounds(t, i);
    hide Load, FieldCount;
    LoadFalls(Branching(t), base, i, pushed);
  }

  lemma {:induction false} RecordEmits(t: Table, i: nat, v: Value, base: seq<Work>)
    requires Ordered(t) && i < |t| && t[i].IRecord? && InTable(t, base) && ClosedRecord(v, RefNames(t[i].fields))
    ensures forall j :: 0 <= j < |t[i].fields| ==> t[i].fields[j].name in v.fields
    ensures var stack := base + FieldWork(t[i].fields, v.fields);
            && InTable(t, stack)
            && Then(EncI(t, i, v), EncStack(t, base)) == Then(Some(Emit([], 1)), EncStack(t, stack))
            && Load(Branching(t), Indexes(stack)) < Load(Branching(t), Indexes(base) + [i])
  {
    var fs := t[i].fields;
    EncRecord(t, i, v);
    hide EncStack, Load, Branching, Ordered, RefNames, FieldWork, EncI, EncIFields, InstrOk, RefsOk;
    FieldWorkEmits(t, base, fs, i, v.fields);
    ThenAssoc(Some(Emit([], 1)), EncIFields(t, fs, i, v.fields), EncStack(t, base));
    var work := FieldWork(fs, v.fields);
    assert Indexes(base + work) == Indexes(base) + Indexes(work);
    RecordLoad(t, Indexes(base), i, Indexes(work));
  }

  /** Push the fields of a record, the first on top. */
  method PushFields(fs: seq<FieldRef>, m: map<string, Value>, base: seq<Work>) returns (stack: seq<Work>)
    requires forall k :: 0 <= k < |fs| ==> fs[k].name in m
    ensures stack == base + FieldWork(fs, m)
  {
    stack := base;
    var k := |fs|;
    while k > 0
      invariant 0 <= k <= |fs| && (forall j :: 0 <= j < |fs[k..]| ==> fs[k..][j].name in m)
      invariant stack == base + FieldWork(fs[k..], m)
    {
      k := k - 1;
      assert fs[k..][1..] == fs[k + 1..];
      stack := stack + [Work(fs[k].value, m[fs[k].name])];
    }
    assert fs[0..] == fs;
  }

  /** `encodeRecordFrame`: one node, exactly the declared members, fields as work in declaration order. */
  method EncodeRecordFrame(p: Program, i: nat, v: Value, base: seq<Work>, budget: CodecBudget)
    returns (ok: bool, stack: seq<Work>)
    requires WellBuilt(p) && i < |p.table| && p.table[i].IRecord? && InTable(p.table, base) && budget.Valid()
    modifies budget
    ensures budget.Valid()
    ensures !ok ==> EncI(p.table, i, v).None? || EncI(p.table, i, v).value.cost > old(Remaining(budget))
    ensures ok ==> budget.used == old(budget.used) + 1
    ensures ok ==> InTable(p.table, stack)
                   && Then(EncI(p.table, i, v), EncStack(p.table, base)) ==
                      Then(Some(Emit([], 1)), EncStack(p.table, stack))
    ensures ok ==> Load(Branching(p.table), Indexes(stack)) < Load(Branching(p.table), Indexes(base) + [i])
  {
    TableOrdered(p);
    hide EncStack, Load, Branching, Ordered, WellBuilt, EncI, FieldWork, InTable;
    stack := base;
    ghost var t := p.table;
    var fs := p.table[i].fields;
    if EncI(t, i, v).Some? {
      RecordAtLeast(t, i, v);
    }
    ok := budget.Charge(1);
    if !ok {
      return;
    }
    if !ClosedRecord(v, RefNames(fs)) {
      return false, stack;
    }
    assert forall j :: 0 <= j < |fs| ==> fs[j].name in RefNames(fs);
    stack := PushFields(fs, v.fields, base);
    RecordEmits(t, i, v, base);
  }

  lemma {:induction false} GoalExceeds(done: Emit, top: Option<Emit>, rest: Option<Emit>, bytes: nat, nodes: nat)
    requires |done.bytes| <= bytes && done.cost <= nodes
    requires !FitsIn(top, bytes - |done.bytes|, nodes - done.cost)
    ensures !FitsIn(Then(Some(done), Then(top, rest)), bytes, nodes)
  {
  }

  /**
   * `encodeProgramInto`: terminates on every value; succeeds exactly when the table encodes the value and the result
   * fits the output limit and the node budget; and then appends exactly that encoding.
   */
  method EncodeInto(p: Program, v: Value, buffer: EncoderBuffer, budget: CodecBudget) returns (ok: bool)
    requires WellBuilt(p) && buffer.Valid() && budget.Valid()
    modifies buffer, buffer.buffer, budget
    ensures buffer.Valid() && budget.Valid() && (buffer.buffer == old(buffer.buffer) || fresh(buffer.buffer))
    ensures ok <==> FitsIn(EncI(p.table, p.root, v), old(Room(buffer)), old(Remaining(budget)))
    ensures ok ==> var e := EncI(p.table, p.root, v).value;
                   buffer.Contents() == old(buffer.Contents()) + e.bytes && budget.used == old(budget.used) + e.cost
  {
    hide Load, EncI, WellBuilt, Branching, Indexes, FitsIn, EncStack, Then;
    ghost var t := p.table;
    Built(p);
    hide Ordered;
    var stack := [Work(p.root, v)];
    ghost var goal := EncI(t, p.root, v);
    ghost var done := Emit([], 0);
    StackOfOne(t, p.root, v);
    while stack != []
      invariant InTable(t, stack) && goal == Then(Some(done), EncStack(t, stack))
      invariant buffer.Valid() && budget.Valid() && (buffer.buffer == old(buffer.buffer) || fresh(buffer.buffer))
      invariant buffer.Contents() == old(buffer.Contents()) + done.bytes
      invariant budget.used == old(budget.used) + done.cost
      decreases Load(Branching(t), Indexes(stack))
    {
      var top := stack[|stack| - 1];
      var base := stack[..|stack| - 1];
      assert base + [top] == stack;
      var step, next, now := EncodeFrame(p, top.index, top.value, base, buffer, budget);
      if !step {
        TurnFails(t, done, base, top, old(Room(buffer)), old(Remaining(budget)));
        return false;
      }
      TurnKeepsGoal(t, done, base, top, now, next);
      done, stack := Join(done, now), next;
    }
    EmptyStack(t, done);
    DoneFits(done, old(Room(buffer)), old(Remaining(budget)));
    return true;
  }

  function Join(a: Emit, b: Emit): Emit {
    Emit(a.bytes + b.bytes, a.cost + b.cost)
  }

  lemma {:induction false} TurnFails(t: Table, done: Emit, base: seq<Work>, top: Work, bytes: nat, nodes: nat)
    requires Ordered(t) && InTable(t, base) && top.index < |t| && |done.bytes| <= bytes && done.cost <= nodes
    requires !FitsIn(EncI(t, top.index, top.value), bytes - |done.bytes|, nodes - done.cost)
    ensures !FitsIn(Then(Some(done), EncStack(t, base + [top])), bytes, nodes)
  {
    hide EncStack, EncI;
    EncPush(t, base, top);
    GoalExceeds(done, EncI(t, top.index, top.value), EncStack(t, base), bytes, nodes);
  }

  lemma {:induction false} TurnKeepsGoal(t: Table, done: Emit, base: seq<Work>, top: Work, now: Emit, next: seq<Work>)
    requires Ordered(t) && InTable(t, base) && top.index < |t| && InTable(t, next)
    requires Then(EncI(t, top.index, top.value), EncStack(t, base)) == Then(Some(now), EncStack(t, next))
    ensures Then(Some(done), EncStack(t, base + [top])) == Then(Some(Join(done, now)), EncStack(t, next))
    ensures Indexes(base + [top]) == Indexes(base) + [top.index]
  {
    hide EncStack, EncI;
    EncPush(t, base, top);
    ThenAssoc(Some(done), Some(now), EncStack(t, next));
  }

  lemma {:induction false} DoneFits(e: Emit, bytes: nat, nodes: nat)
    requires |e.bytes| <= bytes && e.cost <= nodes
    ensures FitsIn(Some(e), bytes, nodes)
  {
  }

  lemma {:induction false} EmptyStack(t: Table, done: Emit)
    requires Ordered(t)
    ensures Then(Some(done), EncStack(t, [])) == Some(done)
  {
    ThenNothing(Some(done));
  }

  lemma {:induction false} Built(p: Program)
    requires WellBuilt(p)
    ensures Ordered(p.table) && p.root < |p.table|
  {
  }

  lemma {:induction false} StackOfOne(t: Table, i: nat, v: Value)
    requires Ordered(t) && i < |t|
    ensures Then(Some(Emit([], 0)), EncStack(t, [Work(i, v)])) == EncI(t, i, v)
  {
    EncPush(t, [], Work(i, v));
    assert [] + [Work(i, v)] == [Work(i, v)];
    ThenNothing(EncI(t, i, v));
  }

  /** One turn of the loop: the popped instruction either emits, or is replaced by earlier ones. */
  method EncodeFrame(p: Program, i: nat, v: Value, base: seq<Work>, buffer: EncoderBuffer, budget: CodecBudget)
    returns (ok: bool, stack: seq<Work>, ghost now: Emit)
    requires WellBuilt(p) && i < |p.table| && InTable(p.table, base)
    requires buffer.Valid() && budget.Valid()
    modifies buffer, buffer.buffer, budget
    ensures buffer.Valid() && budget.Valid() && (buffer.buffer == old(buffer.buffer) || fresh(buffer.buffer))
    ensures !ok ==> !FitsIn(EncI(p.table, i, v), old(Room(buffer)), old(Remaining(budget)))
    ensures ok ==> buffer.Contents() == old(buffer.Contents()) + now.bytes && budget.used == old(budget.used) + now.cost
    ensures ok ==> InTable(p.table, stack)
                   && Then(EncI(p.table, i, v), EncStack(p.table, base)) == Then(Some(now), EncStack(p.table, stack))
    ensures ok ==> Load(Branching(p.table), Indexes(stack)) < Load(Branching(p.table), Indexes(base) + [i])
  {
    hide EncStack, Load;
    ghost var t := p.table;
    LoadFalls(Branching(t), Indexes(base), i, []);
    assert Indexes(base) + [] == Indexes(base);
    stack, now, ok := base, Emit([], 0), true;
    match p.table[i] {
      case IPrim(prim) =>
        var bytes := EncodeLeaf(prim, v);
        if bytes.None? {
          ok := false;
        } else {
          ok := buffer.Append(bytes.value);
          now := Emit(bytes.value, 0);
        }
      case IZero =>
        ok := ClosedRecord(v, {});
        assert buffer.Contents() + [] == buffer.Contents();
      case INamed(target) =>
        assert InstrOk(t[i], i);
        stack := base + [Work(target, v)];
        EncPush(t, base, Work(target, v));
        ThenNothing(EncStack(t, stack));
        LoadFalls(Branching(t), Indexes(base), i, [target]);
        assert Indexes(stack) == Indexes(base) + [target];
        assert buffer.Contents() + [] == buffer.Contents();
      case IList(_) =>
        ok, stack, now := EncodeListFrame(p, i, v, base, buffer, budget);
      case IRecord(_) =>
        ok, stack := EncodeRecordFrame(p, i, v, base, budget);
        now := Emit([], 1);
        assert buffer.Contents() + [] == buffer.Contents();
    }
  }
}
