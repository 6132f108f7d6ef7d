/**
 * The codec compiler: a type graph is walked post-order with an explicit work stack, each occurrence is compiled
 * once, and the table that results refers only to earlier instructions and means what the graph means.
 */
module CodecCompiler {
  import opened LittleEndian
  import opened Leaves
  import opened Codec
  import opened CodecTable
  import opened CodecVm

  /** A type occurrence. Occurrences are objects: two with the same structure are still two nodes. */
  datatype Node = NPrim(p: Prim) | NList(elem: nat) | NRecord(fields: seq<FieldRef>) | NNamed(name: string)

  /** The occurrences of an interface and the underlying occurrence of each type declaration. */
  datatype Graph = Graph(nodes: seq<Node>, decls: map<string, nat>)

  predicate NodeShaped(node: Node, size: nat) {
    match node
    case NPrim(p) => IsPrim(p)
    case NList(e) => e < size
    case NRecord(fs) => RefsOk(fs, size)
    case NNamed(_) => true
  }

  /** Known primitives, distinct field names, and edges that end at nodes. */
  predicate Shaped(g: Graph) {
    && (forall i :: 0 <= i < |g.nodes| ==> NodeShaped(g.nodes[i], |g.nodes|))
    && (forall n :: n in g.decls ==> g.decls[n] < |g.nodes|)
  }

  predicate NodeLinked(node: Node, size: nat) {
    match node
    case NList(e) => e < size
    case NRecord(fs) => forall k :: 0 <= k < |fs| ==> fs[k].value < size
    case _ => true
  }

  /** Edges end at nodes. */
  predicate Linked(g: Graph) {
    && (forall i :: 0 <= i < |g.nodes| ==> NodeLinked(g.nodes[i], |g.nodes|))
    && (forall n :: n in g.decls ==> g.decls[n] < |g.nodes|)
  }

  lemma {:induction false} RefsLinked(fs: seq<FieldRef>, bound: nat)
    requires RefsOk(fs, bound)
    ensures forall k :: 0 <= k < |fs| ==> fs[k].value < bound
    decreases |fs|
  {
    if fs != [] {
      RefsLinked(fs[1..], bound);
      assert forall k :: 1 <= k < |fs| ==> fs[k] == fs[1..][k - 1];
    }
  }

  lemma {:induction false} ShapedIsLinked(g: Graph)
    requires Shaped(g)
    ensures Linked(g)
  {
    hide RefsOk;
    forall i | 0 <= i < |g.nodes|
      ensures NodeLinked(g.nodes[i], |g.nodes|)
    {
      assert NodeShaped(g.nodes[i], |g.nodes|);
      if g.nodes[i].NRecord? {
        RefsLinked(g.nodes[i].fields, |g.nodes|);
      }
    }
  }

  predicate Below(rank: map<nat, nat>, c: nat, n: nat)
    requires n in rank
  {
    c in rank && rank[c] < rank[n]
  }

  predicate FieldsBelow(rank: map<nat, nat>, fs: seq<FieldRef>, n: nat)
    requires n in rank
  {
    forall k :: 0 <= k < |fs| ==> Below(rank, fs[k].value, n)
  }

  predicate PartsBelow(g: Graph, rank: map<nat, nat>, n: nat)
    requires n in rank && n < |g.nodes|
  {
    match g.nodes[n]
    case NPrim(p) => true
    case NList(e) => Below(rank, e, n)
    case NRecord(fs) => FieldsBelow(rank, fs, n)
    case NNamed(name) => name in g.decls && Below(rank, g.decls[name], n)
  }

  /** Every ranked occurrence has only ranked, lower parts: nothing below it is unresolved or recursive. */
  predicate Ranks(g: Graph, rank: map<nat, nat>) {
    forall n :: n in rank ==> n < |g.nodes| && PartsBelow(g, rank, n)
  }

  /** The occurrence resolves to a finite type: this is what interface validation promises of every root. */
  ghost predicate Resolves(g: Graph, n: nat) {
    exists rank :: Ranks(g, rank) && n in rank
  }

  /** The type that an occurrence stands for, with every name replaced by its declaration. */
  function Meaning(g: Graph, rank: map<nat, nat>, n: nat): Type
    requires Ranks(g, rank) && n in rank
    decreases rank[n], 1, 0
  {
    match g.nodes[n]
    case NPrim(p) => TPrim(p)
    case NList(e) => TList(Meaning(g, rank, e))
    case NRecord(fs) => TRecord(MeaningFields(g, rank, n, fs))
    case NNamed(name) => Meaning(g, rank, g.decls[name])
  }

  function MeaningFields(g: Graph, rank: map<nat, nat>, n: nat, fs: seq<FieldRef>): seq<Field>
    requires Ranks(g, rank) && n in rank && FieldsBelow(rank, fs, n)
    decreases rank[n], 0, |fs|
  {
    if fs == [] then []
    else
      assert Below(rank, fs[0].value, n);
      assert forall k :: 0 <= k < |fs[1..]| ==> fs[1..][k] == fs[k + 1];
      [Field(fs[0].name, Meaning(g, rank, fs[0].value))] + MeaningFields(g, rank, n, fs[1..])
  }

  // ---------------------------------------------------------------------------
  // Translation through the cache

  function MapFields(fs: seq<FieldRef>, cache: map<nat, nat>): seq<FieldRef>
    requires forall k :: 0 <= k < |fs| ==> fs[k].value in cache
  {
    if fs == [] then [] else [FieldRef(fs[0].name, cache[fs[0].value])] + MapFields(fs[1..], cache)
  }

  predicate Resolved(g: Graph, node: Node, cache: map<nat, nat>) {
    match node
    case NPrim(_) => true
    case NList(e) => e in cache
    case NRecord(fs) => forall k :: 0 <= k < |fs| ==> fs[k].value in cache
    case NNamed(n) => n in g.decls && g.decls[n] in cache
  }

  /** `finishType`. */
  function Translate(g: Graph, node: Node, cache: map<nat, nat>): Instr
    requires Resolved(g, node, cache)
  {
    match node
    case NPrim(p) => IPrim(p)
    case NList(e) => IList(cache[e])
    case NRecord(fs) => IRecord(MapFields(fs, cache))
    case NNamed(n) => INamed(cache[g.decls[n]])
  }

  /** Every cached occurrence has its instruction, built from the instructions of its parts. */
  ghost predicate CacheOk(g: Graph, cache: map<nat, nat>, t: Table) {
    && Ordered(t)
    && forall n :: n in cache ==>
         && n < |g.nodes| && cache[n] < |t| && Resolved(g, g.nodes[n], cache)
         && t[cache[n]] == Translate(g, g.nodes[n], cache)
  }

  lemma {:induction false} MapFieldsNames(fs: seq<FieldRef>, cache: map<nat, nat>)
    requires forall k :: 0 <= k < |fs| ==> fs[k].value in cache
    ensures RefNames(MapFields(fs, cache)) == RefNames(fs)
    decreases |fs|
  {
    if fs != [] {
      assert forall k :: 0 <= k < |fs[1..]| ==> fs[1..][k] == fs[k + 1];
      MapFieldsNames(fs[1..], cache);
      RefNamesCons(fs);
      RefNamesCons(MapFields(fs, cache));
    }
  }

  lemma {:induction false} MapFieldsOk(fs: seq<FieldRef>, cache: map<nat, nat>, bound: nat, n: nat)
    requires forall k :: 0 <= k < |fs| ==> fs[k].value in cache && cache[fs[k].value] < n
    requires RefsOk(fs, bound)
    ensures RefsOk(MapFields(fs, cache), n)
    decreases |fs|
  {
    if fs != [] {
      assert forall k :: 0 <= k < |fs[1..]| ==> fs[1..][k] == fs[k + 1];
      MapFieldsOk(fs[1..], cache, bound, n);
      MapFieldsNames(fs[1..], cache);
    }
  }

  lemma {:induction false} MapFieldsExtend(fs: seq<FieldRef>, cache: map<nat, nat>, n: nat, index: nat)
    requires forall k :: 0 <= k < |fs| ==> fs[k].value in cache && fs[k].value != n
    ensures MapFields(fs, cache[n := index]) == MapFields(fs, cache)
    decreases |fs|
  {
    if fs != [] {
      assert forall k :: 0 <= k < |fs[1..]| ==> fs[1..][k] == fs[k + 1];
      MapFieldsExtend(fs[1..], cache, n, index);
    }
  }

  lemma {:induction false} TranslateExtend(g: Graph, node: Node, cache: map<nat, nat>, n: nat, index: nat)
    requires Resolved(g, node, cache) && n !in cache
    ensures Resolved(g, node, cache[n := index])
    ensures Translate(g, node, cache[n := index]) == Translate(g, node, cache)
  {
    if node.NRecord? {
      MapFieldsExtend(node.fields, cache, n, index);
    }
  }

  lemma {:induction false} RecordPartsCached(g: Graph, cache: map<nat, nat>, t: Table, n: nat)
    requires Shaped(g) && CacheOk(g, cache, t) && n < |g.nodes| && Resolved(g, g.nodes[n], cache)
    ensures InstrOk(Translate(g, g.nodes[n], cache), |t|)
  {
    match g.nodes[n]
    case NRecord(fs) => MapFieldsOk(fs, cache, |g.nodes|, |t|);
    case _ =>
  }

  /** Appending the instruction of a finished occurrence keeps the table ordered and the cache true. */
  lemma {:induction false} FinishKeepsCache(g: Graph, cache: map<nat, nat>, t: Table, n: nat)
    requires Shaped(g) && CacheOk(g, cache, t) && n < |g.nodes| && n !in cache && Resolved(g, g.nodes[n], cache)
    ensures CacheOk(g, cache[n := |t|], t + [Translate(g, g.nodes[n], cache)])
  {
    var x := Translate(g, g.nodes[n], cache);
    var t' := t + [x];
    var cache' := cache[n := |t|];
    RecordPartsCached(g, cache, t, n);
    assert Ordered(t');
    forall m | m in cache'
      ensures m < |g.nodes| && cache'[m] < |t'| && Resolved(g, g.nodes[m], cache')
      ensures t'[cache'[m]] == Translate(g, g.nodes[m], cache')
    {
      TranslateExtend(g, g.nodes[m], cache, n, |t|);
    }
  }

  // ---------------------------------------------------------------------------
  // The compiled table means what the graph means

  lemma {:induction false} CompiledMeaning(g: Graph, rank: map<nat, nat>, cache: map<nat, nat>, t: Table, n: nat)
    requires Ranks(g, rank) && n in rank && CacheOk(g, cache, t) && n in cache
    ensures Resolve(t, cache[n]) == Meaning(g, rank, n)
    decreases rank[n], 1, 0
  {
    assert PartsBelow(g, rank, n);
    match g.nodes[n]
    case NPrim(_) =>
    case NList(e) => CompiledMeaning(g, rank, cache, t, e);
    case NRecord(fs) => CompiledFields(g, rank, cache, t, n, fs, cache[n]);
    case NNamed(name) => CompiledMeaning(g, rank, cache, t, g.decls[name]);
  }

  lemma {:induction false} CompiledFields(g: Graph, rank: map<nat, nat>, cache: map<nat, nat>, t: Table, n: nat,
                                          fs: seq<FieldRef>, i: nat)
    requires Ranks(g, rank) && n in rank && CacheOk(g, cache, t) && FieldsBelow(rank, fs, n)
    requires forall k :: 0 <= k < |fs| ==> fs[k].value in cache
    requires i <= |t| && RefsOk(MapFields(fs, cache), i)
    ensures ResolveFields(t, MapFields(fs, cache), i) == MeaningFields(g, rank, n, fs)
    decreases rank[n], 0, |fs|
  {
    if fs != [] {
      assert Below(rank, fs[0].value, n);
      assert forall k :: 0 <= k < |fs[1..]| ==> fs[1..][k] == fs[k + 1];
      var ms := MapFields(fs, cache);
      assert ms[1..] == MapFields(fs[1..], cache);
      CompiledMeaning(g, rank, cache, t, fs[0].value);
      CompiledFields(g, rank, cache, t, n, fs[1..], i);
    }
  }

  /** A true cache is itself a ranking: whatever was compiled resolves. */
  lemma {:induction false} CacheRanks(g: Graph, cache: map<nat, nat>, t: Table)
    requires CacheOk(g, cache, t)
    ensures Ranks(g, cache)
  {
    forall n | n in cache
      ensures n < |g.nodes| && PartsBelow(g, cache, n)
    {
      assert InstrOk(t[cache[n]], cache[n]);
      if g.nodes[n].NRecord? {
        MappedBelow(g.nodes[n].fields, cache, cache[n]);
      }
    }
  }

  lemma {:induction false} MappedBelow(fs: seq<FieldRef>, cache: map<nat, nat>, i: nat)
    requires forall k :: 0 <= k < |fs| ==> fs[k].value in cache
    requires RefsOk(MapFields(fs, cache), i)
    ensures forall k :: 0 <= k < |fs| ==> cache[fs[k].value] < i
    decreases |fs|
  {
    if fs != [] {
      assert forall k :: 0 <= k < |fs[1..]| ==> fs[1..][k] == fs[k + 1];
      var ms := MapFields(fs, cache);
      assert ms[1..] == MapFields(fs[1..], cache);
      MappedBelow(fs[1..], cache, i);
      assert forall k :: 1 <= k < |fs| ==> fs[k] == fs[1..][k - 1];
    }
  }

  // ---------------------------------------------------------------------------
  // The compile loop

  datatype Task = Task(node: nat, exit: bool)

  function Reversed(fs: seq<FieldRef>): seq<Task> {
    if fs == [] then [] else Reversed(fs[1..]) + [Task(fs[0].value, false)]
  }

  /** The occurrences that an occurrence asks for first, the first field on top. */
  function Parts(g: Graph, node: Node): seq<Task>
    requires node.NNamed? ==> node.name in g.decls
  {
    match node
    case NPrim(_) => []
    case NList(e) => [Task(e, false)]
    case NRecord(fs) => Reversed(fs)
    case NNamed(name) => [Task(g.decls[name], false)]
  }

  lemma {:induction false} ReversedHas(fs: seq<FieldRef>, bound: nat)
    requires forall k :: 0 <= k < |fs| ==> fs[k].value < bound
    ensures forall k :: 0 <= k < |Reversed(fs)| ==> !Reversed(fs)[k].exit && Reversed(fs)[k].node < bound
    ensures forall k :: 0 <= k < |fs| ==> Task(fs[k].value, false) in Reversed(fs)
    ensures forall rank, n :: n in rank && FieldsBelow(rank, fs, n) ==>
              forall k :: 0 <= k < |Reversed(fs)| ==> Below(rank, Reversed(fs)[k].node, n)
    decreases |fs|
  {
    if fs != [] {
      ReversedHas(fs[1..], bound);
      assert forall k :: 0 <= k < |fs[1..]| ==> fs[1..][k] == fs[k + 1];
      forall k | 0 <= k < |fs|
        ensures Task(fs[k].value, false) in Reversed(fs)
      {
        if k > 0 {
          assert Task(fs[1..][k - 1].value, false) in Reversed(fs[1..]);
        } else {
          assert Reversed(fs)[|Reversed(fs)| - 1] == Task(fs[0].value, false);
        }
      }
      forall rank: map<nat, nat>, n: nat | n in rank && FieldsBelow(rank, fs, n)
        ensures forall k :: 0 <= k < |Reversed(fs)| ==> Below(rank, Reversed(fs)[k].node, n)
      {
        assert FieldsBelow(rank, fs[1..], n);
        assert Below(rank, fs[0].value, n);
      }
    }
  }

  /** A part is compiled or waits above position `j`. */
  predicate Waits(cache: map<nat, nat>, work: seq<Task>, c: nat, j: nat) {
    c in cache || exists k :: j < k < |work| && work[k].node == c
  }

  predicate Covered(g: Graph, cache: map<nat, nat>, work: seq<Task>, node: Node, j: nat) {
    match node
    case NPrim(_) => true
    case NList(e) => Waits(cache, work, e, j)
    case NRecord(fs) => forall k :: 0 <= k < |fs| ==> Waits(cache, work, fs[k].value, j)
    case NNamed(name) => name in g.decls && Waits(cache, work, g.decls[name], j)
  }

  predicate WorkOk(g: Graph, cache: map<nat, nat>, active: set<nat>, work: seq<Task>) {
    && (forall k :: 0 <= k < |work| ==> work[k].node < |g.nodes|)
    && (forall k :: 0 <= k < |work| && work[k].exit ==> work[k].node in active && work[k].node !in cache)
    && (forall n :: n in active ==> n < |g.nodes| && Task(n, true) in work)
    && (forall j, k :: 0 <= j < k < |work| && work[j].exit && work[k].exit ==> work[j].node != work[k].node)
    && (forall j :: 0 <= j < |work| && work[j].exit ==> Covered(g, cache, work, g.nodes[work[j].node], j))
  }

  /** Every ranking of the root ranks the whole stack, lower above each open occurrence. */
  predicate StackRanked(rank: map<nat, nat>, work: seq<Task>) {
    && (forall k :: 0 <= k < |work| ==> work[k].node in rank)
    && (forall j, k :: 0 <= j < k < |work| && work[j].exit ==> Below(rank, work[k].node, work[j].node))
  }

  ghost predicate AlwaysRanked(g: Graph, root: nat, work: seq<Task>) {
    forall rank :: Ranks(g, rank) && root in rank ==> StackRanked(rank, work)
  }

  predicate RootPlaced(root: nat, cache: map<nat, nat>, work: seq<Task>) {
    root in cache || (|work| > 0 && work[0].node == root)
  }

  lemma {:induction false} WaitsAfterPop(cache: map<nat, nat>, base: seq<Task>, top: Task, cache': map<nat, nat>,
      c: nat, j: nat)
    requires j < |base| && Waits(cache, base + [top], c, j)
    requires top.node in cache' && forall m :: m in cache ==> m in cache'
    ensures Waits(cache', base, c, j)
  {
    if c !in cache {
      var k :| j < k < |base + [top]| && (base + [top])[k].node == c;
      if k < |base| {
        assert base[k].node == c;
      }
    }
  }

  lemma {:induction false} CoveredAfterPop(g: Graph, cache: map<nat, nat>, base: seq<Task>, top: Task,
      cache': map<nat, nat>, node: Node, j: nat)
    requires j < |base| && Covered(g, cache, base + [top], node, j)
    requires top.node in cache' && forall m :: m in cache ==> m in cache'
    ensures Covered(g, cache', base, node, j)
  {
    match node
    case NPrim(_) =>
    case NList(e) => WaitsAfterPop(cache, base, top, cache', e, j);
    case NRecord(fs) =>
      forall k | 0 <= k < |fs|
        ensures Waits(cache', base, fs[k].value, j)
      {
        WaitsAfterPop(cache, base, top, cache', fs[k].value, j);
      }
    case NNamed(name) => WaitsAfterPop(cache, base, top, cache', g.decls[name], j);
  }

  /** Leaving an occurrence that is now compiled. */
  lemma {:induction false} PopKeepsWork(g: Graph, cache: map<nat, nat>, active: set<nat>, base: seq<Task>, top: Task,
      cache': map<nat, nat>)
    requires WorkOk(g, cache, active, base + [top])
    requires cache'.Keys == cache.Keys + {top.node} && (top.exit || top.node in cache)
    ensures WorkOk(g, cache', if top.exit then active - {top.node} else active, base)
  {
    hide Covered;
    var work := base + [top];
    var active' := if top.exit then active - {top.node} else active;
    assert forall k :: 0 <= k < |base| ==> work[k] == base[k];
    assert work[|base|] == top;
    forall n | n in active'
      ensures n < |g.nodes| && Task(n, true) in base
    {
      assert Task(n, true) in work;
    }
    forall j | 0 <= j < |base| && base[j].exit
      ensures Covered(g, cache', base, g.nodes[base[j].node], j)
    {
      CoveredAfterPop(g, cache, base, top, cache', g.nodes[base[j].node], j);
    }
  }

  lemma {:induction false} WaitsAfterPush(cache: map<nat, nat>, base: seq<Task>, n: nat, parts: seq<Task>, c: nat,
      j: nat)
    requires j < |base| && Waits(cache, base + [Task(n, false)], c, j)
    ensures Waits(cache, base + [Task(n, true)] + parts, c, j)
  {
    if c !in cache {
      var k :| j < k < |base + [Task(n, false)]| && (base + [Task(n, false)])[k].node == c;
      assert (base + [Task(n, true)] + parts)[k].node == c;
    }
  }

  lemma {:induction false} CoveredAfterPush(g: Graph, cache: map<nat, nat>, base: seq<Task>, n: nat, parts: seq<Task>,
      node: Node, j: nat)
    requires j < |base| && Covered(g, cache, base + [Task(n, false)], node, j)
    ensures Covered(g, cache, base + [Task(n, true)] + parts, node, j)
  {
    match node
    case NPrim(_) =>
    case NList(e) => WaitsAfterPush(cache, base, n, parts, e, j);
    case NRecord(fs) =>
      forall k | 0 <= k < |fs|
        ensures Waits(cache, base + [Task(n, true)] + parts, fs[k].value, j)
      {
        WaitsAfterPush(cache, base, n, parts, fs[k].value, j);
      }
    case NNamed(name) => WaitsAfterPush(cache, base, n, parts, g.decls[name], j);
  }

  lemma {:induction false} WaitsOnTop(cache: map<nat, nat>, base: seq<Task>, n: nat, parts: seq<Task>, c: nat)
    requires Task(c, false) in parts
    ensures Waits(cache, base + [Task(n, true)] + parts, c, |base|)
  {
    var k :| 0 <= k < |parts| && parts[k] == Task(c, false);
    assert (base + [Task(n, true)] + parts)[|base| + 1 + k].node == c;
  }

  lemma {:induction false} PartsShape(g: Graph, n: nat)
    requires Linked(g) && n < |g.nodes| && (g.nodes[n].NNamed? ==> g.nodes[n].name in g.decls)
    ensures var parts := Parts(g, g.nodes[n]); forall k :: 0 <= k < |parts| ==>
            !parts[k].exit && parts[k].node < |g.nodes|
  {
    assert NodeLinked(g.nodes[n], |g.nodes|);
    if g.nodes[n].NRecord? {
      ReversedHas(g.nodes[n].fields, |g.nodes|);
    }
  }

  lemma {:induction false} PartsCover(g: Graph, cache: map<nat, nat>, base: seq<Task>, n: nat)
    requires Linked(g) && n < |g.nodes| && (g.nodes[n].NNamed? ==> g.nodes[n].name in g.decls)
    ensures Covered(g, cache, base + [Task(n, true)] + Parts(g, g.nodes[n]), g.nodes[n], |base|)
  {
    hide Waits;
    assert NodeLinked(g.nodes[n], |g.nodes|);
    var parts := Parts(g, g.nodes[n]);
    match g.nodes[n]
    case NPrim(_) =>
    case NList(e) => assert parts[0] == Task(e, false); WaitsOnTop(cache, base, n, parts, e);
    case NRecord(fs) =>
      ReversedHas(fs, |g.nodes|);
      forall k | 0 <= k < |fs|
        ensures Waits(cache, base + [Task(n, true)] + parts, fs[k].value, |base|)
      {
        WaitsOnTop(cache, base, n, parts, fs[k].value);
      }
    case NNamed(name) => assert parts[0] == Task(g.decls[name], false);
        WaitsOnTop(cache, base, n, parts, g.decls[name]);
  }

  /** Opening an occurrence: its parts wait above its exit. */
  lemma {:induction false} PushKeepsWork(g: Graph, cache: map<nat, nat>, active: set<nat>, base: seq<Task>, n: nat)
    requires Linked(g) && WorkOk(g, cache, active, base + [Task(n, false)]) && n !in cache && n !in active
    requires n < |g.nodes|
    requires g.nodes[n].NNamed? ==> g.nodes[n].name in g.decls
    ensures WorkOk(g, cache, active + {n}, base + [Task(n, true)] + Parts(g, g.nodes[n]))
  {
    hide Covered, Parts;
    var parts := Parts(g, g.nodes[n]);
    var before := base + [Task(n, false)];
    var work := base + [Task(n, true)] + parts;
    PartsShape(g, n);
    assert forall k :: 0 <= k < |base| ==> work[k] == base[k] && before[k] == base[k];
    assert forall k :: |base| < k < |work| ==> work[k] == parts[k - |base| - 1];
    assert work[|base|] == Task(n, true);
    forall m | m in active + {n}
      ensures m < |g.nodes| && Task(m, true) in work
    {
      if m in active {
        assert Task(m, true) in before;
      }
    }
    forall j | 0 <= j < |work| && work[j].exit
      ensures Covered(g, cache, work, g.nodes[work[j].node], j)
    {
      if j < |base| {
        assert Covered(g, cache, before, g.nodes[before[j].node], j);
        CoveredAfterPush(g, cache, base, n, parts, g.nodes[base[j].node], j);
      } else {
        PartsCover(g, cache, base, n);
      }
    }
  }

  lemma {:induction false} PartsRanked(g: Graph, rank: map<nat, nat>, n: nat)
    requires Linked(g) && Ranks(g, rank) && n in rank && n < |g.nodes|
    ensures g.nodes[n].NNamed? ==> g.nodes[n].name in g.decls
    ensures var parts := Parts(g, g.nodes[n]); forall k :: 0 <= k < |parts| ==> Below(rank, parts[k].node, n)
  {
    assert PartsBelow(g, rank, n);
    assert NodeLinked(g.nodes[n], |g.nodes|);
    if g.nodes[n].NRecord? {
      ReversedHas(g.nodes[n].fields, |g.nodes|);
    }
  }

  lemma {:induction false} PushStackRanked(rank: map<nat, nat>, base: seq<Task>, n: nat, parts: seq<Task>)
    requires StackRanked(rank, base + [Task(n, false)]) && n in rank
    requires forall k :: 0 <= k < |parts| ==> !parts[k].exit && Below(rank, parts[k].node, n)
    ensures StackRanked(rank, base + [Task(n, true)] + parts)
  {
    var before := base + [Task(n, false)];
    var work := base + [Task(n, true)] + parts;
    assert before[|base|] == Task(n, false);
    assert forall k :: 0 <= k < |base| ==> work[k] == before[k];
    forall j, k | 0 <= j < k < |work| && work[j].exit
      ensures work[j].node in rank && Below(rank, work[k].node, work[j].node)
    {
      if k > |base| {
        assert work[k] == parts[k - |base| - 1];
        if j < |base| {
          assert Below(rank, before[|base|].node, before[j].node);
        }
      } else {
        assert Below(rank, before[k].node, before[j].node);
      }
    }
  }

  lemma {:induction false} PushKeepsRanked(g: Graph, root: nat, base: seq<Task>, n: nat)
    requires Linked(g) && AlwaysRanked(g, root, base + [Task(n, false)]) && n < |g.nodes|
    requires g.nodes[n].NNamed? ==> g.nodes[n].name in g.decls
    ensures AlwaysRanked(g, root, base + [Task(n, true)] + Parts(g, g.nodes[n]))
  {
    hide Parts, Ranks;
    PartsShape(g, n);
    var parts := Parts(g, g.nodes[n]);
    forall rank | Ranks(g, rank) && root in rank
      ensures StackRanked(rank, base + [Task(n, true)] + parts)
    {
      assert StackRanked(rank, base + [Task(n, false)]);
      assert (base + [Task(n, false)])[|base|] == Task(n, false);
      PartsRanked(g, rank, n);
      PushStackRanked(rank, base, n, parts);
    }
  }

  lemma {:induction false} PopKeepsRanked(g: Graph, root: nat, base: seq<Task>, top: Task)
    requires AlwaysRanked(g, root, base + [top])
    ensures AlwaysRanked(g, root, base)
  {
    hide Ranks;
    var work := base + [top];
    assert forall k :: 0 <= k < |base| ==> work[k] == base[k];
    forall rank | Ranks(g, rank) && root in rank
      ensures StackRanked(rank, base)
    {
      assert StackRanked(rank, work);
    }
  }

  /** An occurrence found open below itself, or a name without a declaration, has no ranking. */
  lemma {:induction false} FailureIsReal(g: Graph, cache: map<nat, nat>, active: set<nat>, root: nat, base: seq<Task>,
      n: nat)
    requires WorkOk(g, cache, active, base + [Task(n, false)]) && AlwaysRanked(g, root, base + [Task(n, false)])
    requires n < |g.nodes|
    requires n in active || (g.nodes[n].NNamed? && g.nodes[n].name !in g.decls)
    ensures !Resolves(g, root)
  {
    hide Covered, Ranks;
    var work := base + [Task(n, false)];
    assert work[|base|] == Task(n, false);
    forall rank | Ranks(g, rank)
      ensures root !in rank
    {
      if root in rank {
        assert StackRanked(rank, work);
        if n in active {
          assert Task(n, true) in work;
          OpenOnce(rank, work, n);
        } else {
          Unnamed(g, rank, n);
        }
      }
    }
  }

  lemma {:induction false} OpenOnce(rank: map<nat, nat>, work: seq<Task>, n: nat)
    requires StackRanked(rank, work) && work != [] && work[|work| - 1] == Task(n, false)
    ensures Task(n, true) !in work
  {
    forall j | 0 <= j < |work| && work[j].exit
      ensures work[j].node != n
    {
      assert Below(rank, work[|work| - 1].node, work[j].node);
    }
  }

  lemma {:induction false} Unnamed(g: Graph, rank: map<nat, nat>, n: nat)
    requires Ranks(g, rank) && n in rank
    ensures g.nodes[n].NNamed? ==> g.nodes[n].name in g.decls
  {
    assert PartsBelow(g, rank, n);
  }

  lemma {:induction false} ExitResolved(g: Graph, cache: map<nat, nat>, active: set<nat>, base: seq<Task>, n: nat)
    requires WorkOk(g, cache, active, base + [Task(n, true)])
    ensures n < |g.nodes| && n !in cache && n in active && Resolved(g, g.nodes[n], cache)
  {
    var work := base + [Task(n, true)];
    assert work[|base|] == Task(n, true);
    assert Covered(g, cache, work, g.nodes[n], |base|);
  }

  function UpTo(n: nat): (s: set<nat>)
    ensures forall i: nat :: i in s <==> i < n
    ensures |s| == n
  {
    if n == 0 then {} else UpTo(n - 1) + {n - 1}
  }

  lemma {:induction false} Unopened(g: Graph, seen: set<nat>, n: nat)
    requires seen <= UpTo(|g.nodes|) && n < |g.nodes| && n !in seen
    ensures seen + {n} <= UpTo(|g.nodes|) && |seen| < |seen + {n}| <= |g.nodes|
  {
    Within(seen + {n}, UpTo(|g.nodes|));
  }

  lemma {:induction false} Within(a: set<nat>, b: set<nat>)
    requires a <= b
    ensures |a| <= |b|
    decreases a
  {
    if x :| x in a {
      Within(a - {x}, b - {x});
    }
  }

  lemma {:induction false} OnlyZero()
    ensures Ordered([IZero]) && Resolve([IZero], 0) == TRecord([])
  {
  }

  lemma {:induction false} StartOk(g: Graph, root: nat)
    requires root < |g.nodes|
    ensures CacheOk(g, map[], []) && WorkOk(g, map[], {}, [Task(root, false)])
    ensures AlwaysRanked(g, root, [Task(root, false)]) && RootPlaced(root, map[], [Task(root, false)])
  {
  }

  lemma {:induction false} TopInGraph(g: Graph, cache: map<nat, nat>, active: set<nat>, base: seq<Task>, top: Task)
    requires WorkOk(g, cache, active, base + [top])
    ensures top.node < |g.nodes| && (top.exit ==> top.node !in cache)
  {
    assert (base + [top])[|base|] == top;
  }

  lemma {:induction false} RootAfterPop(root: nat, cache: map<nat, nat>, base: seq<Task>, top: Task,
      cache': map<nat, nat>)
    requires RootPlaced(root, cache, base + [top]) && cache'.Keys == cache.Keys + {top.node}
    ensures RootPlaced(root, cache', base)
  {
    assert base != [] ==> (base + [top])[0] == base[0];
  }

  lemma {:induction false} RootAfterPush(root: nat, cache: map<nat, nat>, base: seq<Task>, n: nat, parts: seq<Task>)
    requires RootPlaced(root, cache, base + [Task(n, false)])
    ensures RootPlaced(root, cache, base + [Task(n, true)] + parts)
  {
    assert base != [] ==> (base + [Task(n, false)])[0] == base[0];
  }

  lemma {:induction false} Compiled(g: Graph, root: nat, cache: map<nat, nat>, t: Table)
    requires CacheOk(g, cache, t) && RootPlaced(root, cache, [])
    ensures root in cache && Ordered(t) && cache[root] < |t| && Resolves(g, root)
    ensures forall rank :: Ranks(g, rank) && root in rank ==> Resolve(t, cache[root]) == Meaning(g, rank, root)
  {
    CacheRanks(g, cache, t);
    forall rank | Ranks(g, rank) && root in rank
      ensures Resolve(t, cache[root]) == Meaning(g, rank, root)
    {
      CompiledMeaning(g, rank, cache, t, root);
    }
  }

  lemma {:induction false} ReversedStep(fs: seq<FieldRef>, k: nat)
    requires k < |fs|
    ensures Reversed(fs[k..]) == Reversed(fs[k + 1..]) + [Task(fs[k].value, false)]
  {
    assert fs[k..][1..] == fs[k + 1..];
  }

  /** Push the parts of an occurrence, the last field first. */
  method PushParts(g: Graph, node: Node, base: seq<Task>) returns (work: seq<Task>)
    requires node.NNamed? ==> node.name in g.decls
    ensures work == base + Parts(g, node)
  {
    work := base;
    match node
    case NPrim(_) =>
    case NList(e) => work := work + [Task(e, false)];
    case NNamed(name) => work := work + [Task(g.decls[name], false)];
    case NRecord(fs) =>
      var k := |fs|;
      while k > 0
        invariant 0 <= k <= |fs| && work == base + Reversed(fs[k..])
      {
        k := k - 1;
        ReversedStep(fs, k);
        work := work + [Task(fs[k].value, false)];
      }
      assert fs[0..] == fs;
  }

  /**
   * `compileCodecProgram`: it succeeds exactly when the root resolves, and then the table refers only to earlier
   * instructions and its root instruction means the type that the root occurrence stands for.
   */
  method Compile(g: Graph, root: Option<nat>) returns (r: Option<(Table, nat)>)
    requires Shaped(g) && (root.Some? ==> root.value < |g.nodes|)
    ensures r.Some? <==> (root.None? || Resolves(g, root.value))
    ensures r.Some? ==> Ordered(r.value.0) && r.value.1 < |r.value.0|
    ensures r.Some? && root.None? ==> Resolve(r.value.0, r.value.1) == TRecord([])
    ensures r.Some? && root.Some? ==>
              forall rank :: Ranks(g, rank) && root.value in rank ==>
                Resolve(r.value.0, r.value.1) == Meaning(g, rank, root.value)
  {
    hide *;
    if root.None? {
      OnlyZero();
      return Some(([IZero], 0));
    }
    var start := root.value;
    var t: Table, cache: map<nat, nat>, active: set<nat> := [], map[], {};
    var work := [Task(start, false)];
    StartOk(g, start);
    ShapedIsLinked(g);
    while work != []
      invariant CacheOk(g, cache, t) && WorkOk(g, cache, active, work)
      invariant AlwaysRanked(g, start, work) && RootPlaced(start, cache, work)
      invariant cache.Keys + active <= UpTo(|g.nodes|)
      decreases |g.nodes| - |cache.Keys + active|, |work|
    {
      var top, base := work[|work| - 1], work[..|work| - 1];
      assert work == base + [top];
      TopInGraph(g, cache, active, base, top);
      if top.node in cache {
        PopKeepsWork(g, cache, active, base, top, cache);
        PopKeepsRanked(g, start, base, top);
        RootAfterPop(start, cache, base, top, cache);
        Within(cache.Keys + active, UpTo(|g.nodes|));
        work := base;
      } else if top.exit {
        ExitResolved(g, cache, active, base, top.node);
        FinishKeepsCache(g, cache, t, top.node);
        var cache' := cache[top.node := |t|];
        PopKeepsWork(g, cache, active, base, top, cache');
        PopKeepsRanked(g, start, base, top);
        RootAfterPop(start, cache, base, top, cache');
        assert cache'.Keys + (active - {top.node}) == cache.Keys + active;
        Within(cache.Keys + active, UpTo(|g.nodes|));
        t := t + [Translate(g, g.nodes[top.node], cache)];
        cache, active, work := cache', active - {top.node}, base;
      } else if top.node in active {
        FailureIsReal(g, cache, active, start, base, top.node);
        return None;
      } else {
        var node := g.nodes[top.node];
        if node.NNamed? && node.name !in g.decls {
          FailureIsReal(g, cache, active, start, base, top.node);
          return None;
        }
        PushKeepsWork(g, cache, active, base, top.node);
        PushKeepsRanked(g, start, base, top.node);
        RootAfterPush(start, cache, base, top.node, Parts(g, node));
        Unopened(g, cache.Keys + active, top.node);
        assert cache.Keys + (active + {top.node}) == cache.Keys + active + {top.node};
        active := active + {top.node};
        work := PushParts(g, node, base + [Task(top.node, true)]);
      }
    }
    Compiled(g, start, cache, t);
    r := Some((t, cache[start]));
  }
}
