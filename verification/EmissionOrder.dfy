/**
 * The stable topological emission order of named types. It always takes the smallest ready wire name, so it depends
 * only on the type graph, and it fails exactly on cyclic graphs.
 */
module EmissionOrders {
  import opened Lists

  // ---------------------------------------------------------------------------
  // Names in byte order

  predicate Less(a: string, b: string) {
    if b == "" then false
    else if a == "" then true
    else if a[0] != b[0] then a[0] < b[0]
    else Less(a[1..], b[1..])
  }

  lemma {:induction false} LessIrreflexive(a: string)
    ensures !Less(a, a)
    decreases |a|
  {
    if a != "" {
      LessIrreflexive(a[1..]);
    }
  }

  lemma {:induction false} LessTransitive(a: string, b: string, c: string)
    requires Less(a, b) && Less(b, c)
    ensures Less(a, c)
    decreases |a|
  {
    if a != "" && a[0] == b[0] && b[0] == c[0] {
      LessTransitive(a[1..], b[1..], c[1..]);
    }
  }

  lemma {:induction false} LessTotal(a: string, b: string)
    ensures a == b || Less(a, b) || Less(b, a)
    decreases |a|
  {
    if a != "" && b != "" && a[0] == b[0] {
      LessTotal(a[1..], b[1..]);
      assert a == [a[0]] + a[1..] && b == [b[0]] + b[1..];
    }
  }

  // ---------------------------------------------------------------------------
  // The order

  /** The recorded types and the distinct names each refers to. */
  datatype TypeGraph = TypeGraph(names: set<string>, deps: map<string, set<string>>)

  predicate WellFormed(g: TypeGraph) {
    forall n :: n in g.names ==> n in g.deps && g.deps[n] <= g.names
  }

  function Elements(xs: seq<string>): set<string> {
    set i | 0 <= i < |xs| :: xs[i]
  }

  /** The types not yet emitted whose dependencies all are. */
  function Ready(g: TypeGraph, done: set<string>): set<string>
    requires WellFormed(g)
  {
    set n | n in g.names && n !in done && g.deps[n] <= done
  }

  predicate Least(x: string, s: set<string>) {
    x in s && forall y :: y in s ==> y == x || Less(x, y)
  }

  /** Every position holds the smallest name that was ready there. */
  ghost predicate Greedy(g: TypeGraph, order: seq<string>)
    requires WellFormed(g)
  {
    forall k :: 0 <= k < |order| ==> Least(order[k], Ready(g, Elements(order[..k])))
  }

  /** A set of types each of which refers to another of them, or to itself. */
  predicate Knot(g: TypeGraph, s: set<string>) {
    s != {} && s <= g.names && forall n :: n in s ==> n in g.deps && g.deps[n] * s != {}
  }

  /** A chain of types each of which refers to the next. */
  predicate Path(g: TypeGraph, p: seq<string>) {
    && (forall i :: 0 <= i < |p| ==> p[i] in g.names && p[i] in g.deps)
    && (forall i :: 0 <= i < |p| - 1 ==> p[i + 1] in g.deps[p[i]])
  }

  /** A chain of references from a type back to itself. */
  predicate Cycle(g: TypeGraph, p: seq<string>) {
    Path(g, p) && |p| > 1 && p[0] == p[|p| - 1]
  }

  ghost predicate Cyclic(g: TypeGraph) {
    exists p :: Cycle(g, p)
  }

  /** A chain of references from `n` that comes twice through one type. */
  predicate RunsIntoCycle(g: TypeGraph, p: seq<string>, n: string) {
    Path(g, p) && p != [] && p[0] == n && !NoRepeats(p)
  }

  /** The types from which references lead into a cycle. */
  ghost function Caught(g: TypeGraph): set<string> {
    set n | n in g.names && exists p :: RunsIntoCycle(g, p, n)
  }

  lemma {:induction false} LeastUnique(x: string, y: string, s: set<string>)
    requires Least(x, s) && Least(y, s)
    ensures x == y
  {
    if x != y {
      LessTransitive(x, y, x);
      LessIrreflexive(x);
    }
  }

  lemma {:induction false} ElementsSnoc(xs: seq<string>, k: nat)
    requires k < |xs|
    ensures Elements(xs[..k + 1]) == Elements(xs[..k]) + {xs[k]}
  {
    assert xs[..k + 1] == xs[..k] + [xs[k]];
    ElementsAppend(xs[..k], xs[k]);
  }

  lemma {:induction false} ElementsAppend(xs: seq<string>, x: string)
    ensures Elements(xs + [x]) == Elements(xs) + {x}
  {
    var r := xs + [x];
    assert r[|xs|] == x && forall i :: 0 <= i < |xs| ==> r[i] == xs[i];
    forall n | n in Elements(xs)
      ensures n in Elements(r)
    {
      var i :| 0 <= i < |xs| && xs[i] == n;
      assert r[i] == n;
    }
    assert x in Elements(r);
  }

  /** Two greedy orders agree as far as both go. */
  lemma {:induction false} GreedyAgrees(g: TypeGraph, a: seq<string>, b: seq<string>, k: nat)
    requires WellFormed(g) && Greedy(g, a) && Greedy(g, b) && k <= |a| && k <= |b|
    ensures a[..k] == b[..k]
    decreases k
  {
    if k > 0 {
      GreedyAgrees(g, a, b, k - 1);
      LeastUnique(a[k - 1], b[k - 1], Ready(g, Elements(a[..k - 1])));
      assert a[..k] == a[..k - 1] + [a[k - 1]] && b[..k] == b[..k - 1] + [b[k - 1]];
    }
  }

  /** Every type follows all its dependencies, and none comes twice. */
  lemma {:induction false} GreedyFollows(g: TypeGraph, order: seq<string>, k: nat)
    requires WellFormed(g) && Greedy(g, order) && k < |order|
    ensures order[k] in g.names && g.deps[order[k]] <= Elements(order[..k]) && order[k] !in Elements(order[..k])
  {
    assert Least(order[k], Ready(g, Elements(order[..k])));
  }

  lemma {:induction false} FullIsAll(g: TypeGraph, order: seq<string>, k: nat)
    requires WellFormed(g) && Greedy(g, order) && k <= |order| && Elements(order[..k]) == g.names
    ensures k == |order|
  {
    if k < |order| {
      GreedyFollows(g, order, k);
    }
  }

  /** An order of all types is unique: nothing but the graph decides it. */
  lemma {:induction false} OrderIsUnique(g: TypeGraph, a: seq<string>, b: seq<string>)
    requires WellFormed(g) && Greedy(g, a) && Greedy(g, b) && Elements(a) == g.names && Elements(b) == g.names
    ensures a == b
  {
    assert a[..|a|] == a && b[..|b|] == b;
    if |a| <= |b| {
      GreedyAgrees(g, a, b, |a|);
      FullIsAll(g, b, |a|);
    } else {
      GreedyAgrees(g, a, b, |b|);
      FullIsAll(g, a, |b|);
    }
  }

  lemma {:induction false} KnotNotCovered(g: TypeGraph, s: set<string>, n: string, x: set<string>)
    requires Knot(g, s) && n in g.deps && x !! s
    ensures n in s ==> !(g.deps[n] <= x)
  {
    if n in s {
      var d :| d in g.deps[n] * s;
      assert d !in x;
    }
  }

  /** A knot keeps all its members out of every greedy order. */
  lemma {:induction false} KnotStaysOut(g: TypeGraph, s: set<string>, order: seq<string>, k: nat)
    requires WellFormed(g) && Greedy(g, order) && Knot(g, s) && k <= |order|
    ensures Elements(order[..k]) !! s
    decreases k
  {
    hide Knot;
    if k > 0 {
      KnotStaysOut(g, s, order, k - 1);
      GreedyFollows(g, order, k - 1);
      ElementsSnoc(order, k - 1);
      KnotNotCovered(g, s, order[k - 1], Elements(order[..k - 1]));
    }
  }

  lemma {:induction false} NoKnot(g: TypeGraph, order: seq<string>, s: set<string>)
    requires WellFormed(g) && Greedy(g, order) && Elements(order) == g.names
    ensures !Knot(g, s)
  {
    assert order[..|order|] == order;
    if Knot(g, s) {
      KnotStaysOut(g, s, order, |order|);
    }
  }

  // ---------------------------------------------------------------------------
  // Knots and cycles

  lemma {:induction false} RepeatIsCycle(g: TypeGraph, p: seq<string>)
    requires Path(g, p) && !NoRepeats(p)
    ensures Cyclic(g)
  {
    var i, j :| 0 <= i < j < |p| && p[i] == p[j];
    var q := p[i..j + 1];
    assert forall k :: 0 <= k < |q| ==> q[k] == p[i + k];
    assert Cycle(g, q);
  }

  lemma {:induction false} RepeatIsKnot(g: TypeGraph, p: seq<string>) returns (s: set<string>)
    requires Path(g, p) && !NoRepeats(p)
    ensures Knot(g, s) && p[0] in s
  {
    var i, j :| 0 <= i < j < |p| && p[i] == p[j];
    s := Elements(p[..j]);
    assert p[..j][0] == p[0] && p[..j][i] == p[i];
    forall n | n in s
      ensures n in g.names && n in g.deps && g.deps[n] * s != {}
    {
      var k :| 0 <= k < j && p[k] == n;
      var next := if k + 1 < j then k + 1 else i;
      assert p[k + 1] == p[next] && p[..j][next] == p[next];
      assert p[next] in g.deps[n] * s;
    }
  }

  /** From every type of a knot there is a chain of any length that stays in the knot. */
  lemma {:induction false} KnotWalk(g: TypeGraph, s: set<string>, n: string, length: nat) returns (p: seq<string>)
    requires Knot(g, s) && n in s
    ensures Path(g, p) && |p| == length + 1 && p[0] == n && Elements(p) <= s
    decreases length
  {
    if length == 0 {
      p := [n];
    } else {
      var d :| d in g.deps[n] * s;
      var rest := KnotWalk(g, s, d, length - 1);
      p := [n] + rest;
      assert forall k :: 1 <= k < |p| ==> p[k] == rest[k - 1] && rest[k - 1] in Elements(rest);
    }
  }

  lemma {:induction false} TooLongRepeats(p: seq<string>, s: set<string>)
    requires Elements(p) <= s && |p| > |s|
    ensures !NoRepeats(p)
  {
    if NoRepeats(p) {
      CountElements(p);
      Smaller(Elements(p), s);
    }
  }

  lemma {:induction false} KnotIsCaught(g: TypeGraph, s: set<string>, n: string)
    requires Knot(g, s) && n in s
    ensures n in Caught(g)
  {
    var p := KnotWalk(g, s, n, |s|);
    TooLongRepeats(p, s);
    assert RunsIntoCycle(g, p, n);
  }

  lemma {:induction false} CaughtIsKnot(g: TypeGraph, n: string) returns (s: set<string>)
    requires n in Caught(g)
    ensures Knot(g, s) && n in s
  {
    var p :| RunsIntoCycle(g, p, n);
    s := RepeatIsKnot(g, p);
  }

  /** A graph has a knot exactly when it has a cycle. */
  lemma {:induction false} KnotsAreCycles(g: TypeGraph)
    ensures (exists s :: Knot(g, s)) <==> Cyclic(g)
    ensures Cyclic(g) <==> Caught(g) != {}
  {
    if s :| Knot(g, s) {
      var n :| n in s;
      KnotIsCaught(g, s, n);
    }
    if n :| n in Caught(g) {
      var p :| RunsIntoCycle(g, p, n);
      RepeatIsCycle(g, p);
      var s := CaughtIsKnot(g, n);
    }
    if p :| Cycle(g, p) {
      var s := RepeatIsKnot(g, p);
    }
  }

  lemma {:induction false} OrderedIsAcyclic(g: TypeGraph, order: seq<string>)
    requires WellFormed(g) && Greedy(g, order) && Elements(order) == g.names
    ensures !Cyclic(g)
  {
    hide Knot, Cyclic, Greedy;
    if Cyclic(g) {
      KnotsAreCycles(g);
      var s :| Knot(g, s);
      NoKnot(g, order, s);
    }
  }

  lemma {:induction false} NotReady(g: TypeGraph, done: set<string>, n: string)
    requires WellFormed(g) && n in g.names && n !in done && n !in Ready(g, done)
    ensures n in g.deps && g.deps[n] * (g.names - done) != {}
  {
    var d :| d in g.deps[n] && d !in done;
    assert d in g.deps[n] * (g.names - done);
  }

  /** Types that remain when nothing is ready form a knot. */
  lemma {:induction false} StuckIsKnot(g: TypeGraph, done: set<string>)
    requires WellFormed(g) && Ready(g, done) == {} && !(g.names <= done)
    ensures Knot(g, g.names - done)
  {
    hide Ready, WellFormed;
    var s := g.names - done;
    forall n | n in s
      ensures n in g.deps && g.deps[n] * s != {}
    {
      NotReady(g, done, n);
    }
    var n :| n in g.names && n !in done;
    assert n in s;
    assert Knot(g, s);
  }

  /** What a greedy order that is stuck leaves out are the types caught in a cycle: the greatest knot. */
  lemma {:induction false} StuckIsCaught(g: TypeGraph, order: seq<string>)
    requires WellFormed(g) && Greedy(g, order) && Ready(g, Elements(order)) == {} && !(g.names <= Elements(order))
    ensures g.names - Elements(order) == Caught(g) && Cyclic(g)
  {
    hide Greedy, Ready, Knot;
    var left := g.names - Elements(order);
    StuckIsKnot(g, Elements(order));
    KnotsAreCycles(g);
    forall n | n in left
      ensures n in Caught(g)
    {
      KnotIsCaught(g, left, n);
    }
    forall n | n in Caught(g)
      ensures n in left
    {
      var s := CaughtIsKnot(g, n);
      KnotStaysOut(g, s, order, |order|);
      assert order[..|order|] == order;
    }
  }

  // ---------------------------------------------------------------------------
  // Counting dependencies

  /** The references of every type are known. */
  predicate Covers(types: seq<string>, refs: map<string, seq<string>>) {
    forall n :: n in Elements(types) ==> n in refs
  }

  /** The graph of the recorded types: what each refers to, however often. */
  function GraphOf(types: seq<string>, refs: map<string, seq<string>>): TypeGraph
    requires Covers(types, refs)
  {
    TypeGraph(Elements(types), map n | n in Elements(types) :: Elements(refs[n]))
  }

  /** Each count is the number of dependencies not yet emitted. */
  predicate Counts(g: TypeGraph, indegree: map<string, nat>, done: set<string>)
    requires WellFormed(g)
  {
    forall n :: n in g.names ==> n in indegree && indegree[n] == |g.deps[n] - done|
  }

  /** The dependents of a name among `some`, each once. */
  ghost predicate DependentsOf(g: TypeGraph, xs: seq<string>, d: string, some: set<string>)
    requires WellFormed(g)
  {
    NoRepeats(xs) && forall n :: n in xs <==> n in some && n in g.names && d in g.deps[n]
  }

  ghost predicate Inverse(g: TypeGraph, dependents: map<string, seq<string>>, some: set<string>)
    requires WellFormed(g)
  {
    forall d :: d in g.names ==> d in dependents && DependentsOf(g, dependents[d], d, some)
  }

  /** The references of one type, each counted once. */
  method CountOne(ghost g: TypeGraph, refs: seq<string>, rec: string, ghost some: set<string>,
      dependents0: map<string, seq<string>>)
    returns (count: nat, dependents: map<string, seq<string>>)
    requires WellFormed(g) && rec in g.names && g.deps[rec] == Elements(refs) && rec !in some
    requires Inverse(g, dependents0, some)
    ensures count == |g.deps[rec]| && Inverse(g, dependents, some + {rec})
  {
    hide WellFormed;
    count, dependents := 0, dependents0;
    var seen: set<string> := {};
    var i := 0;
    assert Elements(refs[..0]) == {};
    RecordNone(g, dependents, rec, some);
    hide DependentsOf, Inverse;
    while i < |refs|
      invariant 0 <= i <= |refs| && seen == Elements(refs[..i]) && count == |seen|
      invariant Recorded(g, dependents, rec, some, seen)
    {
      var dep := refs[i];
      ElementsSnoc(refs, i);
      if dep !in seen {
        assert dep in Elements(refs);
        RefInNames(g, rec, dep);
        RecordStep(g, dependents, rec, some, seen, dep);
        seen := seen + {dep};
        count := count + 1;
        dependents := dependents[dep := dependents[dep] + [rec]];
      } else {
        assert seen + {dep} == seen;
      }
      i := i + 1;
    }
    assert refs[..i] == refs;
    RecordedAll(g, dependents, rec, some);
  }

  lemma {:induction false} RefInNames(g: TypeGraph, rec: string, dep: string)
    requires WellFormed(g) && rec in g.names && dep in g.deps[rec]
    ensures dep in g.names
  {
  }

  /** The dependents found so far, with `rec` recorded under the names in `seen`. */
  ghost predicate Recorded(g: TypeGraph, dependents: map<string, seq<string>>, rec: string, some: set<string>,
      seen: set<string>)
    requires WellFormed(g)
  {
    forall d :: d in g.names ==> d in dependents
                                 && DependentsOf(g, dependents[d], d, if d in seen then some + {rec} else some)
  }

  lemma {:induction false} RecordNone(g: TypeGraph, dependents: map<string, seq<string>>, rec: string,
      some: set<string>)
    requires WellFormed(g) && Inverse(g, dependents, some)
    ensures Recorded(g, dependents, rec, some, {})
  {
    hide DependentsOf;
  }

  lemma {:induction false} RecordStep(g: TypeGraph, dependents: map<string, seq<string>>, rec: string,
      some: set<string>, seen: set<string>, dep: string)
    requires WellFormed(g) && Recorded(g, dependents, rec, some, seen) && rec in g.names && dep in g.deps[rec]
    requires dep in g.names
    requires dep !in seen && rec !in some
    ensures dep in dependents
    ensures Recorded(g, dependents[dep := dependents[dep] + [rec]], rec, some, seen + {dep})
  {
    var xs := dependents[dep];
    assert DependentsOf(g, xs, dep, some);
    assert rec !in xs;
    assert DependentsOf(g, xs + [rec], dep, some + {rec}) by { AppendDependent(g, xs, dep, some, rec); }
    hide DependentsOf;
  }

  lemma {:induction false} AppendDependent(g: TypeGraph, xs: seq<string>, d: string, some: set<string>, rec: string)
    requires WellFormed(g) && DependentsOf(g, xs, d, some) && rec in g.names && d in g.deps[rec] && rec !in some
    ensures DependentsOf(g, xs + [rec], d, some + {rec})
  {
    var ys := xs + [rec];
    assert rec !in xs;
    assert forall i :: 0 <= i < |xs| ==> ys[i] == xs[i] && xs[i] in xs;
    assert ys[|xs|] == rec;
    forall n
      ensures n in ys <==> n in some + {rec} && n in g.names && d in g.deps[n]
    {
      assert n in ys <==> n in xs || n == rec;
    }
  }

  lemma {:induction false} RecordedAll(g: TypeGraph, dependents: map<string, seq<string>>, rec: string,
      some: set<string>)
    requires WellFormed(g) && rec in g.names && Recorded(g, dependents, rec, some, g.deps[rec]) && rec !in some
    ensures Inverse(g, dependents, some + {rec})
  {
    forall d | d in g.names
      ensures d in dependents && DependentsOf(g, dependents[d], d, some + {rec})
    {
      if d !in g.deps[rec] {
        assert DependentsOf(g, dependents[d], d, some);
      }
    }
  }

  /** The types in `some` have been counted. */
  predicate Counted(g: TypeGraph, indegree: map<string, nat>, some: set<string>) {
    forall n :: n in g.names ==> n in indegree && (n in some ==> n in g.deps && indegree[n] == |g.deps[n]|)
  }

  /** The counts and the dependents of all types. */
  method CountDependencies(types: seq<string>, refs: map<string, seq<string>>)
    returns (indegree: map<string, nat>, dependents: map<string, seq<string>>)
    requires NoRepeats(types) && Covers(types, refs) && WellFormed(GraphOf(types, refs))
    ensures Counts(GraphOf(types, refs), indegree, {}) && Inverse(GraphOf(types, refs), dependents, Elements(types))
  {
    hide *;
    ghost var g := GraphOf(types, refs);
    indegree := map n | n in Elements(types) :: 0;
    dependents := map n | n in Elements(types) :: [];
    var i := 0;
    NothingCounted(types, refs, indegree, dependents);
    while i < |types|
      invariant 0 <= i <= |types| && Inverse(g, dependents, Elements(types[..i]))
      invariant Counted(g, indegree, Elements(types[..i]))
    {
      var rec := types[i];
      RecFacts(types, refs, i);
      var count: nat;
      count, dependents := CountOne(g, refs[rec], rec, Elements(types[..i]), dependents);
      CountedStep(g, indegree, Elements(types[..i]), rec);
      indegree := indegree[rec := count];
      i := i + 1;
    }
    assert types[..i] == types;
    GraphNames(types, refs);
    CountsStart(g, indegree);
  }

  lemma {:induction false} NothingCounted(types: seq<string>, refs: map<string, seq<string>>,
      indegree: map<string, nat>, dependents: map<string, seq<string>>)
    requires Covers(types, refs) && WellFormed(GraphOf(types, refs))
    requires indegree == map n | n in Elements(types) :: 0
    requires dependents == map n | n in Elements(types) :: []
    ensures Inverse(GraphOf(types, refs), dependents, Elements(types[..0]))
    ensures Counted(GraphOf(types, refs), indegree, Elements(types[..0]))
  {
    assert Elements(types[..0]) == {};
  }

  lemma {:induction false} RecFacts(types: seq<string>, refs: map<string, seq<string>>, i: nat)
    requires NoRepeats(types) && Covers(types, refs) && i < |types|
    ensures var g := GraphOf(types, refs); var rec := types[i];
            && rec in g.names && rec in g.deps && rec in refs && g.deps[rec] == Elements(refs[rec])
            && rec !in Elements(types[..i]) && Elements(types[..i + 1]) == Elements(types[..i]) + {rec}
  {
    assert types[i] in Elements(types);
    ElementsSnoc(types, i);
  }

  lemma {:induction false} CountedStep(g: TypeGraph, indegree: map<string, nat>, some: set<string>, rec: string)
    requires Counted(g, indegree, some) && rec in g.deps
    ensures Counted(g, indegree[rec := |g.deps[rec]|], some + {rec})
  {
  }

  lemma {:induction false} CountsStart(g: TypeGraph, indegree: map<string, nat>)
    requires WellFormed(g) && Counted(g, indegree, g.names)
    ensures Counts(g, indegree, {})
  {
    forall n | n in g.names
      ensures g.deps[n] - {} == g.deps[n]
    {
    }
  }

  // ---------------------------------------------------------------------------
  // The ready list

  predicate Sorted(xs: seq<string>) {
    forall i, j :: 0 <= i < j < |xs| ==> Less(xs[i], xs[j])
  }

  /** `insertSorted`. */
  method InsertSorted(ready: seq<string>, x: string) returns (r: seq<string>)
    requires Sorted(ready) && x !in ready
    ensures Sorted(r) && Elements(r) == Elements(ready) + {x}
  {
    hide Less;
    var i := 0;
    while i < |ready| && Less(ready[i], x)
      invariant 0 <= i <= |ready| && forall k :: 0 <= k < i ==> Less(ready[k], x)
    {
      i := i + 1;
    }
    if i < |ready| {
      LessTotal(ready[i], x);
    }
    r := ready[..i] + [x] + ready[i..];
    InsertedSorted(ready, x, i);
  }

  lemma {:induction false} InsertedSorted(xs: seq<string>, x: string, i: nat)
    requires Sorted(xs) && i <= |xs| && (forall k :: 0 <= k < i ==> Less(xs[k], x)) && (i < |xs| ==> Less(x, xs[i]))
    ensures var r := xs[..i] + [x] + xs[i..]; Sorted(r) && Elements(r) == Elements(xs) + {x}
  {
    hide Less;
    var r := xs[..i] + [x] + xs[i..];
    assert forall k :: 0 <= k < i ==> r[k] == xs[k];
    assert r[i] == x && forall k :: i < k < |r| ==> r[k] == xs[k - 1];
    forall j, k | 0 <= j < k < |r|
      ensures Less(r[j], r[k])
    {
      if k > i && j == i && k - 1 > i {
        LessTransitive(x, xs[i], xs[k - 1]);
      }
    }
    forall n | n in Elements(xs)
      ensures n in Elements(r)
    {
      var k :| 0 <= k < |xs| && xs[k] == n;
      assert r[if k < i then k else k + 1] == n;
    }
    assert x in Elements(r);
  }

  /** What is emitted is closed under dependencies. */
  predicate Closed(g: TypeGraph, done: set<string>)
    requires WellFormed(g)
  {
    forall n :: n in done ==> n in g.names && g.deps[n] <= done
  }

  /** The types that become ready when `rec` is emitted. */
  function Freed(g: TypeGraph, done: set<string>, rec: string, some: set<string>): set<string>
    requires WellFormed(g)
  {
    set n | n in some && n in g.names && g.deps[n] <= done + {rec}
  }

  lemma {:induction false} ReadyAfter(g: TypeGraph, done: set<string>, rec: string, xs: seq<string>)
    requires WellFormed(g) && Closed(g, done) && rec in Ready(g, done) && DependentsOf(g, xs, rec, g.names)
    ensures Ready(g, done + {rec}) == (Ready(g, done) - {rec}) + Freed(g, done, rec, Elements(xs))
    ensures Closed(g, done + {rec})
  {
    assert forall n :: n in Elements(xs) <==> n in xs;
    forall n
      ensures n in Ready(g, done + {rec}) <==> n in (Ready(g, done) - {rec}) + Freed(g, done, rec, Elements(xs))
    {
      if n in g.names && g.deps[n] <= done + {rec} && rec !in g.deps[n] {
        assert g.deps[n] <= done;
      }
    }
  }

  lemma {:induction false} OneFewer(deps: set<string>, done: set<string>, rec: string)
    requires rec in deps && rec !in done
    ensures |deps - done| > 0 && |deps - (done + {rec})| == |deps - done| - 1
    ensures |deps - (done + {rec})| == 0 <==> deps <= done + {rec}
  {
    assert rec in deps - done;
    assert deps - (done + {rec}) == (deps - done) - {rec};
    if |deps - (done + {rec})| == 0 {
      assert deps - (done + {rec}) == {};
    }
  }

  /** The counts while the dependents of `rec` are visited. */
  predicate CountsDuring(g: TypeGraph, indegree: map<string, nat>, done: set<string>, rec: string, visited: set<string>)
    requires WellFormed(g)
  {
    forall n :: n in g.names ==> n in indegree
                                 && indegree[n] == |g.deps[n] - (if n in visited then done + {rec} else done)|
  }

  lemma {:induction false} CountsAfter(g: TypeGraph, indegree: map<string, nat>, done: set<string>, rec: string,
      xs: seq<string>)
    requires WellFormed(g) && DependentsOf(g, xs, rec, g.names) && CountsDuring(g, indegree, done, rec, Elements(xs))
    ensures Counts(g, indegree, done + {rec})
  {
    forall n | n in g.names
      ensures n in indegree && indegree[n] == |g.deps[n] - (done + {rec})|
    {
      if n !in xs {
        assert n !in Elements(xs);
        assert g.deps[n] - (done + {rec}) == g.deps[n] - done;
      }
    }
  }

  /** Emitting `rec`: its dependents lose one dependency each, and those with none left become ready. */
  method Release(ghost g: TypeGraph, ghost done: set<string>, rec: string, xs: seq<string>, indegree0: map<string, nat>,
      ready0: seq<string>)
    returns (indegree: map<string, nat>, ready: seq<string>)
    requires WellFormed(g) && Closed(g, done) && rec in Ready(g, done) && DependentsOf(g, xs, rec, g.names)
    requires Counts(g, indegree0, done) && Sorted(ready0) && Elements(ready0) == Ready(g, done) - {rec}
    ensures Counts(g, indegree, done + {rec}) && Sorted(ready) && Elements(ready) == Ready(g, done + {rec})
  {
    hide *;
    indegree, ready := indegree0, ready0;
    var i := 0;
    ReleaseStart(g, done, rec, xs, indegree);
    while i < |xs|
      invariant 0 <= i <= |xs| && CountsDuring(g, indegree, done, rec, Elements(xs[..i]))
      invariant Sorted(ready) && Elements(ready) == (Ready(g, done) - {rec}) + Freed(g, done, rec, Elements(xs[..i]))
    {
      var dep := xs[i];
      CountStep(g, done, rec, xs, i, indegree);
      FreedStep(g, done, rec, xs, i, indegree);
      indegree := indegree[dep := indegree[dep] - 1];
      if indegree[dep] == 0 {
        NotElement(ready, dep);
        ready := InsertSorted(ready, dep);
      }
      i := i + 1;
    }
    assert xs[..i] == xs;
    ReadyAfter(g, done, rec, xs);
    CountsAfter(g, indegree, done, rec, xs);
  }

  lemma {:induction false} ReleaseStart(g: TypeGraph, done: set<string>, rec: string, xs: seq<string>,
      indegree: map<string, nat>)
    requires WellFormed(g) && Counts(g, indegree, done)
    ensures CountsDuring(g, indegree, done, rec, Elements(xs[..0])) && Freed(g, done, rec, Elements(xs[..0])) == {}
  {
    assert Elements(xs[..0]) == {};
  }

  lemma {:induction false} NotElement(xs: seq<string>, x: string)
    requires x !in Elements(xs)
    ensures x !in xs
  {
  }

  /** A dependent of `rec` that has not been visited. */
  lemma {:induction false} DependentFacts(g: TypeGraph, done: set<string>, rec: string, xs: seq<string>, i: nat)
    requires WellFormed(g) && rec in Ready(g, done) && DependentsOf(g, xs, rec, g.names) && i < |xs|
    ensures xs[i] in g.names && rec in g.deps[xs[i]] && rec !in done && xs[i] !in Elements(xs[..i])
    ensures Elements(xs[..i + 1]) == Elements(xs[..i]) + {xs[i]}
    ensures xs[i] !in Ready(g, done)
  {
    assert xs[i] in xs;
    ElementsSnoc(xs, i);
    FirstTime(xs, i);
  }

  lemma {:induction false} CountLower(g: TypeGraph, indegree: map<string, nat>, done: set<string>, rec: string,
      visited: set<string>, n: string)
    requires WellFormed(g) && CountsDuring(g, indegree, done, rec, visited) && n in g.names && n !in visited
    requires |g.deps[n] - (done + {rec})| == |g.deps[n] - done| - 1
    ensures n in indegree && indegree[n] > 0
    ensures CountsDuring(g, indegree[n := indegree[n] - 1], done, rec, visited + {n})
  {
    assert n in indegree && indegree[n] == |g.deps[n] - done|;
    var less := indegree[n := indegree[n] - 1];
    forall m | m in g.names
      ensures m in less && less[m] == |g.deps[m] - (if m in visited + {n} then done + {rec} else done)|
    {
      assert m in indegree && indegree[m] == |g.deps[m] - (if m in visited then done + {rec} else done)|;
    }
  }

  lemma {:induction false} CountStep(g: TypeGraph, done: set<string>, rec: string, xs: seq<string>, i: nat,
      indegree: map<string, nat>)
    requires WellFormed(g) && rec in Ready(g, done) && DependentsOf(g, xs, rec, g.names) && i < |xs|
    requires CountsDuring(g, indegree, done, rec, Elements(xs[..i]))
    ensures xs[i] in indegree && indegree[xs[i]] > 0
    ensures CountsDuring(g, indegree[xs[i] := indegree[xs[i]] - 1], done, rec, Elements(xs[..i + 1]))
  {
    DependentFacts(g, done, rec, xs, i);
    OneFewer(g.deps[xs[i]], done, rec);
    var n, visited := xs[i], Elements(xs[..i]);
    assert n in g.names && n in indegree && indegree[n] == |g.deps[n] - done|;
    CountLower(g, indegree, done, rec, visited, n);
    hide *;
  }

  lemma {:induction false} FreedStep(g: TypeGraph, done: set<string>, rec: string, xs: seq<string>, i: nat,
      indegree: map<string, nat>)
    requires WellFormed(g) && rec in Ready(g, done) && DependentsOf(g, xs, rec, g.names) && i < |xs|
    requires CountsDuring(g, indegree, done, rec, Elements(xs[..i])) && xs[i] in indegree
    ensures Freed(g, done, rec, Elements(xs[..i + 1])) ==
            Freed(g, done, rec, Elements(xs[..i])) + (if indegree[xs[i]] == 1 then {xs[i]} else {})
    ensures xs[i] !in Ready(g, done) && xs[i] !in Freed(g, done, rec, Elements(xs[..i]))
  {
    DependentFacts(g, done, rec, xs, i);
    OneFewer(g.deps[xs[i]], done, rec);
    hide Elements, Ready, DependentsOf, WellFormed;
  }

  lemma {:induction false} FirstTime(xs: seq<string>, i: nat)
    requires NoRepeats(xs) && i < |xs|
    ensures xs[i] !in Elements(xs[..i])
  {
  }

  // ---------------------------------------------------------------------------
  // The whole algorithm

  datatype Emission = Order(names: seq<string>) | Unrecorded | Recursive(smallest: string)

  method AllRecorded(types: seq<string>, refs: map<string, seq<string>>) returns (ok: bool)
    requires Covers(types, refs)
    ensures ok <==> WellFormed(GraphOf(types, refs))
  {
    var i := 0;
    ghost var g := GraphOf(types, refs);
    while i < |types|
      invariant 0 <= i <= |types|
      invariant forall k :: 0 <= k < i ==> types[k] in g.deps && g.deps[types[k]] <= g.names
    {
      assert types[i] in Elements(types);
      var k := 0;
      while k < |refs[types[i]]|
        invariant 0 <= k <= |refs[types[i]]|
        invariant forall j :: 0 <= j < k ==> refs[types[i]][j] in g.names
      {
        if refs[types[i]][k] !in types {
          assert refs[types[i]][k] in g.deps[types[i]];
          return false;
        }
        assert refs[types[i]][k] in Elements(types);
        k := k + 1;
      }
      i := i + 1;
    }
    return true;
  }

  function ReadyAmong(g: TypeGraph, some: set<string>): set<string>
    requires WellFormed(g)
  {
    set n | n in some && n in Ready(g, {})
  }

  /** The types with no dependencies, in name order. */
  method InitialReady(ghost g: TypeGraph, types: seq<string>, indegree: map<string, nat>) returns (ready: seq<string>)
    requires WellFormed(g) && NoRepeats(types) && g.names == Elements(types) && Counts(g, indegree, {})
    ensures Sorted(ready) && Elements(ready) == Ready(g, {})
  {
    hide *;
    ready := [];
    var i := 0;
    InitialStart(g, types);
    EmptySorted();
    while i < |types|
      invariant 0 <= i <= |types| && Sorted(ready) && Elements(ready) == ReadyAmong(g, Elements(types[..i]))
    {
      InitialStep(g, types, indegree, i);
      if indegree[types[i]] == 0 {
        NotElement(ready, types[i]);
        ready := InsertSorted(ready, types[i]);
      }
      i := i + 1;
    }
    assert types[..i] == types;
    InitialEnd(g);
  }

  lemma {:induction false} InitialStart(g: TypeGraph, types: seq<string>)
    requires WellFormed(g)
    ensures Elements([]) == {} && ReadyAmong(g, Elements(types[..0])) == {}
  {
    assert Elements(types[..0]) == {};
  }

  lemma {:induction false} InitialEnd(g: TypeGraph)
    requires WellFormed(g)
    ensures ReadyAmong(g, g.names) == Ready(g, {})
  {
  }

  lemma {:induction false} InitialStep(g: TypeGraph, types: seq<string>, indegree: map<string, nat>, i: nat)
    requires WellFormed(g) && NoRepeats(types) && g.names == Elements(types) && Counts(g, indegree, {}) && i < |types|
    ensures types[i] in indegree && types[i] !in ReadyAmong(g, Elements(types[..i]))
    ensures ReadyAmong(g, Elements(types[..i + 1])) ==
            ReadyAmong(g, Elements(types[..i])) + (if indegree[types[i]] == 0 then {types[i]} else {})
  {
    assert types[i] in Elements(types);
    ElementsSnoc(types, i);
    FirstTime(types, i);
    NoDependencies(g, indegree, types[i]);
    hide Elements, Ready, WellFormed;
  }

  lemma {:induction false} EmptySorted()
    ensures Sorted([])
  {
  }

  lemma {:induction false} NoDependencies(g: TypeGraph, indegree: map<string, nat>, n: string)
    requires WellFormed(g) && Counts(g, indegree, {}) && n in g.names
    ensures indegree[n] == 0 <==> n in Ready(g, {})
  {
    assert g.deps[n] - {} == g.deps[n];
  }

  lemma {:induction false} FirstIsLeast(ready: seq<string>)
    requires Sorted(ready) && ready != []
    ensures Least(ready[0], Elements(ready))
    ensures Sorted(ready[1..]) && Elements(ready[1..]) == Elements(ready) - {ready[0]}
  {
    hide Less;
    var rest := ready[1..];
    assert forall i :: 0 <= i < |rest| ==> rest[i] == ready[i + 1];
    forall y | y in Elements(ready)
      ensures y == ready[0] || Less(ready[0], y)
    {
      var i :| 0 <= i < |ready| && ready[i] == y;
    }
    forall n
      ensures n in Elements(rest) <==> n in Elements(ready) - {ready[0]}
    {
      if n in Elements(rest) {
        var i :| 0 <= i < |rest| && rest[i] == n;
        assert Less(ready[0], ready[i + 1]);
        LessIrreflexive(ready[0]);
      }
      if n in Elements(ready) - {ready[0]} {
        var i :| 0 <= i < |ready| && ready[i] == n;
        assert rest[i - 1] == n;
      }
    }
  }

  lemma {:induction false} GreedyGrows(g: TypeGraph, order: seq<string>, x: string)
    requires WellFormed(g) && Greedy(g, order) && Least(x, Ready(g, Elements(order)))
    ensures Greedy(g, order + [x]) && Elements(order + [x]) == Elements(order) + {x}
  {
    hide Less, Ready;
    ElementsAppend(order, x);
    var r := order + [x];
    assert r[..|order|] == order;
    forall k | 0 <= k < |r|
      ensures Least(r[k], Ready(g, Elements(r[..k])))
    {
      if k < |order| {
        assert r[..k] == order[..k];
      }
    }
  }

  /** The smallest of the types seen so far that are not emitted, if there is one. */
  ghost predicate SmallestSoFar(g: TypeGraph, done: set<string>, types: seq<string>, i: nat, found: bool,
      smallest: string)
    requires i <= |types|
  {
    if found then
      && smallest in g.names - done
      && (forall k :: 0 <= k < i && types[k] !in done ==> types[k] == smallest || Less(smallest, types[k]))
    else forall k :: 0 <= k < i ==> types[k] in done
  }

  /** The smallest of the types that still have dependencies. */
  method SmallestLeft(ghost g: TypeGraph, ghost done: set<string>, types: seq<string>, indegree: map<string, nat>)
    returns (smallest: string)
    requires WellFormed(g) && g.names == Elements(types) && Counts(g, indegree, done) && Ready(g, done) == {}
    requires !(g.names <= done)
    requires Closed(g, done)
    ensures Least(smallest, g.names - done)
  {
    var found := false;
    smallest := "";
    var i := 0;
    assert SmallestSoFar(g, done, types, 0, found, smallest);
    hide *;
    while i < |types|
      invariant 0 <= i <= |types| && SmallestSoFar(g, done, types, i, found, smallest)
    {
      InTypes(types, i);
      LeftHasCount(g, indegree, done, types[i]);
      SmallestStep(g, done, types, i, found, smallest);
      if indegree[types[i]] > 0 && (!found || Less(types[i], smallest)) {
        smallest, found := types[i], true;
      }
      i := i + 1;
    }
    SmallestEnd(g, done, types, found, smallest);
  }

  lemma {:induction false} InTypes(types: seq<string>, i: nat)
    requires i < |types|
    ensures types[i] in Elements(types)
  {
  }

  lemma {:induction false} SmallestStep(g: TypeGraph, done: set<string>, types: seq<string>, i: nat, found: bool,
      smallest: string)
    requires i < |types| && SmallestSoFar(g, done, types, i, found, smallest) && types[i] in g.names
    ensures types[i] in done ==> SmallestSoFar(g, done, types, i + 1, found, smallest)
    ensures types[i] !in done && (!found || Less(types[i], smallest)) ==>
            SmallestSoFar(g, done, types, i + 1, true, types[i])
    ensures types[i] !in done && found && !Less(types[i], smallest) ==>
            SmallestSoFar(g, done, types, i + 1, found, smallest)
  {
    if found && Less(types[i], smallest) {
      SmallerStill(types, i, done, smallest);
    }
    LessTotal(types[i], smallest);
    hide Less;
  }

  lemma {:induction false} SmallestEnd(g: TypeGraph, done: set<string>, types: seq<string>, found: bool,
      smallest: string)
    requires g.names == Elements(types) && !(g.names <= done) && SmallestSoFar(g, done, types, |types|, found, smallest)
    ensures Least(smallest, g.names - done)
  {
    hide Less;
    var n :| n in g.names && n !in done;
    var k :| 0 <= k < |types| && types[k] == n;
    forall y | y in g.names - done
      ensures y == smallest || Less(smallest, y)
    {
      var k :| 0 <= k < |types| && types[k] == y;
    }
  }

  lemma {:induction false} SmallerStill(types: seq<string>, i: nat, done: set<string>, smallest: string)
    requires i < |types| && Less(types[i], smallest)
    requires forall k :: 0 <= k < i && types[k] !in done ==> types[k] == smallest || Less(smallest, types[k])
    ensures forall k :: 0 <= k < i && types[k] !in done ==> Less(types[i], types[k])
  {
    forall k | 0 <= k < i && types[k] !in done
      ensures Less(types[i], types[k])
    {
      if types[k] != smallest {
        LessTransitive(types[i], smallest, types[k]);
      }
    }
  }

  lemma {:induction false} LeftHasCount(g: TypeGraph, indegree: map<string, nat>, done: set<string>, n: string)
    requires WellFormed(g) && Counts(g, indegree, done) && Ready(g, done) == {} && Closed(g, done) && n in g.names
    ensures indegree[n] > 0 <==> n !in done
  {
    if n in done {
      assert g.deps[n] - done == {};
    } else {
      assert n !in Ready(g, done);
      var d :| d in g.deps[n] && d !in done;
      assert d in g.deps[n] - done;
    }
  }

  /** Emit the smallest ready type until none is ready. */
  method EmitAll(ghost g: TypeGraph, ready0: seq<string>, indegree0: map<string, nat>,
      dependents: map<string, seq<string>>)
    returns (order: seq<string>, indegree: map<string, nat>)
    requires WellFormed(g) && Counts(g, indegree0, {}) && Inverse(g, dependents, g.names)
    requires Sorted(ready0) && Elements(ready0) == Ready(g, {})
    ensures Greedy(g, order) && Closed(g, Elements(order)) && Counts(g, indegree, Elements(order))
    ensures Ready(g, Elements(order)) == {}
  {
    hide *;
    var ready := ready0;
    order, indegree := [], indegree0;
    GreedyStart(g);
    while ready != []
      invariant Greedy(g, order) && Closed(g, Elements(order)) && Counts(g, indegree, Elements(order))
      invariant Sorted(ready) && Elements(ready) == Ready(g, Elements(order))
      decreases |g.names - Elements(order)|
    {
      var rec := ready[0];
      FirstIsLeast(ready);
      LeastIn(rec, Ready(g, Elements(order)));
      GreedyGrows(g, order, rec);
      EmitReady(g, Elements(order), rec, dependents);
      indegree, ready := Release(g, Elements(order), rec, dependents[rec], indegree, ready[1..]);
      order := order + [rec];
    }
    NoElements();
  }

  /**
   * What the emission of a graph is: the greedy order of all names, or, exactly when the references run in a cycle, the
   * smallest of the names caught in one.
   */
  ghost predicate Answers(g: TypeGraph, r: Emission) {
    && (r.Unrecorded? <==> !WellFormed(g))
    && (WellFormed(g) ==> (r.Recursive? <==> Cyclic(g)))
    && (r.Order? ==> Greedy(g, r.names) && Elements(r.names) == g.names)
    && (r.Recursive? ==> Least(r.smallest, Caught(g)))
  }

  /** `emissionOrder`. */
  method EmissionOrder(types: seq<string>, refs: map<string, seq<string>>) returns (r: Emission)
    requires NoRepeats(types) && Covers(types, refs)
    ensures Answers(GraphOf(types, refs), r)
  {
    hide *;
    ghost var g := GraphOf(types, refs);
    GraphNames(types, refs);
    var recorded := AllRecorded(types, refs);
    if !recorded {
      UnrecordedAnswers(g);
      return Unrecorded;
    }
    var indegree, dependents := CountDependencies(types, refs);
    var ready := InitialReady(g, types, indegree);
    var order: seq<string>;
    order, indegree := EmitAll(g, ready, indegree, dependents);
    if |order| != |types| {
      NotAll(g, types, order);
      StuckIsCaught(g, order);
      var smallest := SmallestLeft(g, Elements(order), types, indegree);
      RecursiveAnswers(g, smallest);
      return Recursive(smallest);
    }
    AllEmitted(g, types, order);
    OrderedIsAcyclic(g, order);
    OrderAnswers(g, order);
    return Order(order);
  }

  lemma {:induction false} UnrecordedAnswers(g: TypeGraph)
    requires !WellFormed(g)
    ensures Answers(g, Unrecorded)
  {
  }

  lemma {:induction false} RecursiveAnswers(g: TypeGraph, smallest: string)
    requires WellFormed(g) && Cyclic(g) && Least(smallest, Caught(g))
    ensures Answers(g, Recursive(smallest))
  {
  }

  lemma {:induction false} OrderAnswers(g: TypeGraph, order: seq<string>)
    requires WellFormed(g) && !Cyclic(g) && Greedy(g, order) && Elements(order) == g.names
    ensures Answers(g, Order(order))
  {
  }

  lemma {:induction false} GraphNames(types: seq<string>, refs: map<string, seq<string>>)
    requires Covers(types, refs)
    ensures GraphOf(types, refs).names == Elements(types)
  {
  }

  lemma {:induction false} NoElements()
    ensures Elements([]) == {}
  {
  }

  lemma {:induction false} LeastIn(x: string, s: set<string>)
    requires Least(x, s)
    ensures x in s
  {
  }

  lemma {:induction false} GreedyStart(g: TypeGraph)
    requires WellFormed(g)
    ensures Elements([]) == {} && Greedy(g, []) && Closed(g, {})
  {
  }

  lemma {:induction false} EmitReady(g: TypeGraph, done: set<string>, rec: string, dependents: map<string, seq<string>>)
    requires WellFormed(g) && Closed(g, done) && rec in Ready(g, done) && Inverse(g, dependents, g.names)
    ensures rec in dependents && DependentsOf(g, dependents[rec], rec, g.names) && Closed(g, done + {rec})
    ensures |g.names - (done + {rec})| < |g.names - done|
  {
    assert rec in g.names - done;
    assert g.names - (done + {rec}) == (g.names - done) - {rec};
  }

  lemma {:induction false} CountElements(xs: seq<string>)
    requires NoRepeats(xs)
    ensures |Elements(xs)| == |xs|
    decreases |xs|
  {
    if xs != [] {
      var n := |xs| - 1;
      CountElements(xs[..n]);
      ElementsSnoc(xs, n);
      assert xs[..n + 1] == xs;
      FirstTime(xs, n);
    }
  }

  lemma {:induction false} GreedyNoRepeats(g: TypeGraph, order: seq<string>)
    requires WellFormed(g) && Greedy(g, order)
    ensures NoRepeats(order) && Elements(order) <= g.names
  {
    forall i, j | 0 <= i < j < |order|
      ensures order[i] != order[j]
    {
      GreedyFollows(g, order, j);
      assert order[..j][i] == order[i];
    }
    forall n | n in Elements(order)
      ensures n in g.names
    {
      var k :| 0 <= k < |order| && order[k] == n;
      GreedyFollows(g, order, k);
    }
  }

  lemma {:induction false} NotAll(g: TypeGraph, types: seq<string>, order: seq<string>)
    requires WellFormed(g) && Greedy(g, order) && NoRepeats(types) && g.names == Elements(types) && |order| != |types|
    ensures !(g.names <= Elements(order))
  {
    GreedyNoRepeats(g, order);
    CountElements(order);
    CountElements(types);
    assert g.names != Elements(order);
  }

  lemma {:induction false} AllEmitted(g: TypeGraph, types: seq<string>, order: seq<string>)
    requires WellFormed(g) && Greedy(g, order) && NoRepeats(types) && g.names == Elements(types) && |order| == |types|
    ensures Elements(order) == g.names
  {
    GreedyNoRepeats(g, order);
    CountElements(order);
    CountElements(types);
    SameSize(Elements(order), g.names);
  }

  lemma {:induction false} SameSize(a: set<string>, b: set<string>)
    requires a <= b && |a| == |b|
    ensures a == b
  {
    if x :| x in b && x !in a {
      assert a <= b - {x};
      Smaller(a, b - {x});
    }
  }

  lemma {:induction false} Smaller(a: set<string>, b: set<string>)
    requires a <= b
    ensures |a| <= |b|
    decreases a
  {
    if x :| x in a {
      Smaller(a - {x}, b - {x});
    }
  }

  /** The graph alone decides the emission, its order as well as its failure. */
  lemma {:induction false} AnswerIsUnique(g: TypeGraph, r: Emission, r': Emission)
    requires Answers(g, r) && Answers(g, r')
    ensures r == r'
  {
    hide Greedy, Elements, WellFormed, Cyclic, Caught, Least;
    if r.Recursive? {
      LeastUnique(r.smallest, r'.smallest, Caught(g));
    } else if r.Order? {
      OrderIsUnique(g, r.names, r'.names);
    }
  }

  /** Recording the types in another order, or their references in another order or number, changes nothing. */
  lemma {:induction false} OrderIgnoresRecording(types: seq<string>, refs: map<string, seq<string>>,
      types': seq<string>, refs': map<string, seq<string>>,
                                                 r: Emission, r': Emission)
    requires Covers(types, refs) && Covers(types', refs') && Elements(types) == Elements(types')
    requires forall n :: n in Elements(types) ==> Elements(refs[n]) == Elements(refs'[n])
    requires Answers(GraphOf(types, refs), r) && Answers(GraphOf(types', refs'), r')
    ensures r == r'
  {
    hide Answers, Elements;
    assert GraphOf(types, refs).deps == GraphOf(types', refs').deps;
    AnswerIsUnique(GraphOf(types, refs), r, r');
  }
}
