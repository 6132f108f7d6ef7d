/**
 * The occurrence graph of an interface: every type occurrence of every root gets a number, in source order, a whole
 * before its parts. For a valid interface the graph depicts the interface, so every root compiles.
 */
module InterfaceGraphs {
  import opened Leaves
  import opened Syntax
  import opened Validators
  import opened InterfaceTypes
  import opened Codec
  import opened CodecTable
  import CodecVm
  import opened CodecCompiler
  import opened CompiledInterfaces

  // ---------------------------------------------------------------------------
  // Numbering

  /** The occurrences in a type, the type itself first. */
  function Occurrences(t: TypeExpr): (r: seq<TypeExpr>)
    ensures r != [] && r[0] == t
    decreases t, 1
  {
    match t
    case ListOf(_, _, elem) => [t] + Occurrences(elem)
    case Record(_, _, _, fields, _) => [t] + MemberOccurrences(fields)
    case _ => [t]
  }

  function MemberOccurrences(fs: seq<Member>): seq<TypeExpr>
    decreases fs, 0
  {
    if fs == [] then [] else Occurrences(fs[0].typ) + MemberOccurrences(fs[1..])
  }

  /** Their nodes, when the type itself has number `at`. */
  function Nodes(t: TypeExpr, at: nat): (r: seq<Node>)
    decreases t, 1
  {
    match t
    case Primitive(_, name) => [NPrim(PrimOf(name.lit))]
    case Named(_, name) => [NNamed(name.lit)]
    case ListOf(_, _, elem) => [NList(at + 1)] + Nodes(elem, at + 1)
    case Record(_, _, _, fields, _) => [NRecord(Refs(fields, at + 1))] + MemberNodes(fields, at + 1)
  }

  function MemberNodes(fs: seq<Member>, at: nat): seq<Node>
    decreases fs, 0
  {
    if fs == [] then [] else Nodes(fs[0].typ, at) + MemberNodes(fs[1..], at + |Occurrences(fs[0].typ)|)
  }

  function Refs(fs: seq<Member>, at: nat): seq<FieldRef> {
    if fs == [] then [] else [FieldRef(fs[0].name.lit, at)] + Refs(fs[1..], at + |Occurrences(fs[0].typ)|)
  }

  function RootOccurrences(ts: seq<TypeExpr>): seq<TypeExpr> {
    if ts == [] then [] else Occurrences(ts[0]) + RootOccurrences(ts[1..])
  }

  function RootNodes(ts: seq<TypeExpr>, at: nat): seq<Node> {
    if ts == [] then [] else Nodes(ts[0], at) + RootNodes(ts[1..], at + |Occurrences(ts[0])|)
  }

  /** The occurrences of an interface, in source order. */
  function AllOccurrences(ds: seq<Decl>): seq<TypeExpr> {
    if ds == [] then [] else var n := |ds| - 1; AllOccurrences(ds[..n]) + RootOccurrences(RootsOf(ds[n]))
  }

  function AllNodes(ds: seq<Decl>): seq<Node> {
    if ds == [] then [] else var n := |ds| - 1; AllNodes(ds[..n]) + RootNodes(RootsOf(ds[n]), |AllOccurrences(ds[..n])|)
  }

  /** The number of the underlying occurrence of each type declaration. */
  function DeclRoots(ds: seq<Decl>): map<string, nat> {
    if ds == [] then map[]
    else
      var n := |ds| - 1;
      if ds[n].TypeDecl? then DeclRoots(ds[..n])[ds[n].name.lit := |AllOccurrences(ds[..n])|] else DeclRoots(ds[..n])
  }

  function GraphOf(ds: seq<Decl>): Graph {
    Graph(AllNodes(ds), DeclRoots(ds))
  }

  /** The number of root `k` of declaration `i`. */
  function RootAt(ds: seq<Decl>, i: nat, k: nat): nat
    requires i < |ds| && k < |RootsOf(ds[i])|
  {
    |AllOccurrences(ds[..i])| + |RootOccurrences(RootsOf(ds[i])[..k])|
  }

  // ---------------------------------------------------------------------------
  // One node for each occurrence

  lemma {:induction false} NodesCount(t: TypeExpr, at: nat)
    ensures |Nodes(t, at)| == |Occurrences(t)|
    decreases t, 1
  {
    match t
    case ListOf(_, _, elem) => NodesCount(elem, at + 1);
    case Record(_, _, _, fields, _) => MemberNodesCount(fields, at + 1);
    case _ =>
  }

  lemma {:induction false} MemberNodesCount(fs: seq<Member>, at: nat)
    ensures |MemberNodes(fs, at)| == |MemberOccurrences(fs)|
    decreases fs, 0
  {
    if fs != [] {
      NodesCount(fs[0].typ, at);
      MemberNodesCount(fs[1..], at + |Occurrences(fs[0].typ)|);
    }
  }

  lemma {:induction false} RootNodesCount(ts: seq<TypeExpr>, at: nat)
    ensures |RootNodes(ts, at)| == |RootOccurrences(ts)|
    decreases |ts|
  {
    if ts != [] {
      NodesCount(ts[0], at);
      RootNodesCount(ts[1..], at + |Occurrences(ts[0])|);
    }
  }

  // ---------------------------------------------------------------------------
  // Each node leads to the numbers of its parts

  predicate Placed<T(==)>(all: seq<T>, at: nat, part: seq<T>) {
    at + |part| <= |all| && all[at..at + |part|] == part
  }

  lemma {:induction false} PlacedSplit<T>(all: seq<T>, at: nat, a: seq<T>, b: seq<T>)
    requires Placed(all, at, a + b)
    ensures Placed(all, at, a) && Placed(all, at + |a|, b)
  {
    var whole := all[at..at + |a + b|];
    assert whole[..|a|] == a && whole[|a|..] == b;
    assert all[at..at + |a|] == whole[..|a|];
    assert all[at + |a|..at + |a| + |b|] == whole[|a|..];
  }

  predicate FieldsDrawn(os: seq<TypeExpr>, fs: seq<FieldRef>, ms: seq<Member>) {
    if fs == [] then ms == []
    else
      && ms != [] && fs[0].name == ms[0].name.lit && fs[0].value < |os| && os[fs[0].value] == ms[0].typ
      && FieldsDrawn(os, fs[1..], ms[1..])
  }

  predicate Drawn(os: seq<TypeExpr>, node: Node, t: TypeExpr) {
    match t
    case Primitive(_, name) => node == NPrim(PrimOf(name.lit))
    case Named(_, name) => node == NNamed(name.lit)
    case ListOf(_, _, elem) => node.NList? && node.elem < |os| && os[node.elem] == elem
    case Record(_, _, _, fields, _) => node.NRecord? && FieldsDrawn(os, node.fields, fields)
  }

  predicate DrawnBetween(os: seq<TypeExpr>, ns: seq<Node>, from: nat, to: nat)
    requires to <= |ns| == |os|
  {
    forall j :: from <= j < to ==> Drawn(os, ns[j], os[j])
  }

  lemma {:induction false} RefsDrawn(os: seq<TypeExpr>, fs: seq<Member>, at: nat)
    requires Placed(os, at, MemberOccurrences(fs))
    ensures FieldsDrawn(os, Refs(fs, at), fs)
    decreases |fs|
  {
    hide Occurrences, Placed;
    if fs != [] {
      PlacedSplit(os, at, Occurrences(fs[0].typ), MemberOccurrences(fs[1..]));
      FirstPlaced(os, at, Occurrences(fs[0].typ));
      FirstIsWhole(fs[0].typ);
      RefsDrawn(os, fs[1..], at + |Occurrences(fs[0].typ)|);
      assert Refs(fs, at)[1..] == Refs(fs[1..], at + |Occurrences(fs[0].typ)|);
    }
  }

  lemma {:induction false} FirstIsWhole(t: TypeExpr)
    ensures Occurrences(t) != [] && Occurrences(t)[0] == t
  {
  }

  lemma {:induction false} FirstPlaced<T>(all: seq<T>, at: nat, part: seq<T>)
    requires Placed(all, at, part) && part != []
    ensures at < |all| && all[at] == part[0]
  {
    assert all[at..at + |part|][0] == all[at];
  }

  lemma {:induction false} TypeDrawn(os: seq<TypeExpr>, ns: seq<Node>, t: TypeExpr, at: nat)
    requires |ns| == |os| && Placed(os, at, Occurrences(t)) && Placed(ns, at, Nodes(t, at))
    ensures DrawnBetween(os, ns, at, at + |Occurrences(t)|)
    decreases t, 1
  {
    hide Placed, FieldsDrawn, MemberOccurrences, MemberNodes, Refs;
    FirstPlaced(os, at, Occurrences(t));
    FirstPlaced(ns, at, Nodes(t, at));
    match t
    case ListOf(_, _, elem) =>
      PlacedSplit(os, at, [t], Occurrences(elem));
      PlacedSplit(ns, at, [NList(at + 1)], Nodes(elem, at + 1));
      TypeDrawn(os, ns, elem, at + 1);
      FirstPlaced(os, at + 1, Occurrences(elem));
    case Record(_, _, _, fields, _) =>
      PlacedSplit(os, at, [t], MemberOccurrences(fields));
      PlacedSplit(ns, at, [NRecord(Refs(fields, at + 1))], MemberNodes(fields, at + 1));
      RefsDrawn(os, fields, at + 1);
      MembersDrawn(os, ns, fields, at + 1);
    case _ =>
  }

  lemma {:induction false} BothDrawn(os: seq<TypeExpr>, ns: seq<Node>, from: nat, mid: nat, to: nat)
    requires from <= mid <= to <= |ns| == |os| && DrawnBetween(os, ns, from, mid) && DrawnBetween(os, ns, mid, to)
    ensures DrawnBetween(os, ns, from, to)
  {
    hide Drawn;
  }

  lemma {:induction false} NoneDrawn(os: seq<TypeExpr>, ns: seq<Node>, at: nat)
    requires at <= |ns| == |os|
    ensures DrawnBetween(os, ns, at, at)
  {
    hide Drawn;
  }

  lemma {:induction false} PlacedEnd<T>(all: seq<T>, at: nat, part: seq<T>)
    requires Placed(all, at, part)
    ensures at + |part| <= |all|
  {
  }

  lemma {:induction false} MembersDrawn(os: seq<TypeExpr>, ns: seq<Node>, fs: seq<Member>, at: nat)
    requires |ns| == |os| && Placed(os, at, MemberOccurrences(fs)) && Placed(ns, at, MemberNodes(fs, at))
    ensures at + |MemberOccurrences(fs)| <= |ns| && DrawnBetween(os, ns, at, at + |MemberOccurrences(fs)|)
    decreases fs, 0
  {
    hide Placed, Occurrences, Nodes, DrawnBetween;
    PlacedEnd(os, at, MemberOccurrences(fs));
    if fs == [] {
      NoneDrawn(os, ns, at);
    } else {
      var next := at + |Occurrences(fs[0].typ)|;
      MemberCons(fs, at);
      NodesCount(fs[0].typ, at);
      hide MemberOccurrences, MemberNodes;
      PlacedSplit(os, at, Occurrences(fs[0].typ), MemberOccurrences(fs[1..]));
      PlacedSplit(ns, at, Nodes(fs[0].typ, at), MemberNodes(fs[1..], next));
      TypeDrawn(os, ns, fs[0].typ, at);
      MembersDrawn(os, ns, fs[1..], next);
      BothDrawn(os, ns, at, next, next + |MemberOccurrences(fs[1..])|);
    }
  }

  lemma {:induction false} MemberCons(fs: seq<Member>, at: nat)
    requires fs != []
    ensures MemberOccurrences(fs) == Occurrences(fs[0].typ) + MemberOccurrences(fs[1..])
    ensures MemberNodes(fs, at) == Nodes(fs[0].typ, at) + MemberNodes(fs[1..], at + |Occurrences(fs[0].typ)|)
  {
  }

  lemma {:induction false} RootCons(ts: seq<TypeExpr>, at: nat)
    requires ts != []
    ensures RootOccurrences(ts) == Occurrences(ts[0]) + RootOccurrences(ts[1..])
    ensures RootNodes(ts, at) == Nodes(ts[0], at) + RootNodes(ts[1..], at + |Occurrences(ts[0])|)
  {
  }

  lemma {:induction false} RootsDrawn(os: seq<TypeExpr>, ns: seq<Node>, ts: seq<TypeExpr>, at: nat)
    requires |ns| == |os| && Placed(os, at, RootOccurrences(ts)) && Placed(ns, at, RootNodes(ts, at))
    ensures at + |RootOccurrences(ts)| <= |ns| && DrawnBetween(os, ns, at, at + |RootOccurrences(ts)|)
    decreases |ts|
  {
    hide Placed, Occurrences, Nodes, DrawnBetween;
    PlacedEnd(os, at, RootOccurrences(ts));
    if ts == [] {
      NoneDrawn(os, ns, at);
    } else {
      var next := at + |Occurrences(ts[0])|;
      RootCons(ts, at);
      NodesCount(ts[0], at);
      hide RootOccurrences, RootNodes;
      PlacedSplit(os, at, Occurrences(ts[0]), RootOccurrences(ts[1..]));
      PlacedSplit(ns, at, Nodes(ts[0], at), RootNodes(ts[1..], next));
      TypeDrawn(os, ns, ts[0], at);
      RootsDrawn(os, ns, ts[1..], next);
      BothDrawn(os, ns, at, next, next + |RootOccurrences(ts[1..])|);
    }
  }

  lemma {:induction false} FieldsDrawnMore(os: seq<TypeExpr>, more: seq<TypeExpr>, fs: seq<FieldRef>, ms: seq<Member>)
    requires FieldsDrawn(os, fs, ms)
    ensures FieldsDrawn(os + more, fs, ms)
    decreases |fs|
  {
    if fs != [] {
      FieldsDrawnMore(os, more, fs[1..], ms[1..]);
    }
  }

  lemma {:induction false} DrawnMore(os: seq<TypeExpr>, more: seq<TypeExpr>, node: Node, t: TypeExpr)
    requires Drawn(os, node, t)
    ensures Drawn(os + more, node, t)
  {
    hide FieldsDrawn;
    if t.Record? {
      FieldsDrawnMore(os, more, node.fields, t.fields);
    }
  }

  lemma {:induction false} DrawnStay(os: seq<TypeExpr>, ns: seq<Node>, moreOs: seq<TypeExpr>, moreNs: seq<Node>)
    requires |os| == |ns| && |moreOs| == |moreNs| && DrawnBetween(os, ns, 0, |ns|)
    ensures DrawnBetween(os + moreOs, ns + moreNs, 0, |ns|)
  {
    hide Drawn;
    forall j | 0 <= j < |ns|
      ensures Drawn(os + moreOs, (ns + moreNs)[j], (os + moreOs)[j])
    {
      DrawnMore(os, moreOs, ns[j], os[j]);
    }
  }

  lemma {:induction false} PlacedLast<T>(a: seq<T>, b: seq<T>)
    ensures Placed(a + b, |a|, b)
  {
  }

  lemma {:induction false} AllDrawn(ds: seq<Decl>)
    ensures |AllNodes(ds)| == |AllOccurrences(ds)|
    ensures DrawnBetween(AllOccurrences(ds), AllNodes(ds), 0, |AllNodes(ds)|)
    decreases |ds|
  {
    hide RootsOf, DrawnBetween, RootOccurrences, RootNodes, Placed;
    if ds == [] {
      NoneDrawn([], [], 0);
    } else {
      var n := |ds| - 1;
      AllDrawn(ds[..n]);
      var os, ns := AllOccurrences(ds[..n]), AllNodes(ds[..n]);
      var moreOs, moreNs := RootOccurrences(RootsOf(ds[n])), RootNodes(RootsOf(ds[n]), |os|);
      assert AllOccurrences(ds) == os + moreOs && AllNodes(ds) == ns + moreNs;
      hide AllOccurrences, AllNodes;
      RootNodesCount(RootsOf(ds[n]), |os|);
      DrawnStay(os, ns, moreOs, moreNs);
      PlacedLast(os, moreOs);
      PlacedLast(ns, moreNs);
      RootsDrawn(os + moreOs, ns + moreNs, RootsOf(ds[n]), |os|);
      BothDrawn(os + moreOs, ns + moreNs, 0, |os|, |os| + |moreOs|);
    }
  }

  // ---------------------------------------------------------------------------
  // The numbers of the roots

  lemma {:induction false} RootIn(ts: seq<TypeExpr>, k: nat)
    requires k < |ts|
    ensures |RootOccurrences(ts[..k])| < |RootOccurrences(ts)|
    ensures RootOccurrences(ts)[|RootOccurrences(ts[..k])|] == ts[k]
    decreases k
  {
    hide Occurrences;
    FirstIsWhole(ts[0]);
    if k == 0 {
      assert ts[..0] == [];
    } else {
      RootIn(ts[1..], k - 1);
      assert ts[..k][0] == ts[0] && ts[..k][1..] == ts[1..][..k - 1];
    }
  }

  /** Root `k` of declaration `i` is the occurrence with its number. */
  lemma {:induction false} RootIsThere(ds: seq<Decl>, i: nat, k: nat)
    requires i < |ds| && k < |RootsOf(ds[i])|
    ensures RootAt(ds, i, k) < |AllOccurrences(ds)| && AllOccurrences(ds)[RootAt(ds, i, k)] == RootsOf(ds[i])[k]
    decreases |ds|
  {
    hide RootsOf, RootOccurrences;
    var n := |ds| - 1;
    if i == n {
      RootIn(RootsOf(ds[i]), k);
    } else {
      RootIsThere(ds[..n], i, k);
      assert ds[..n][..i] == ds[..i];
    }
  }

  /** The declaration table of the graph leads to the declared types. */
  lemma {:induction false} DeclRootsMean(ds: seq<Decl>, name: string)
    ensures name in EnvOf(ds) <==> name in DeclRoots(ds)
    ensures name in DeclRoots(ds) ==>
            DeclRoots(ds)[name] < |AllOccurrences(ds)| && AllOccurrences(ds)[DeclRoots(ds)[name]] == EnvOf(ds)[name]
    decreases |ds|
  {
    if ds != [] {
      var n := |ds| - 1;
      DeclRootsMean(ds[..n], name);
      if ds[n].TypeDecl? {
        RootIn([ds[n].typ], 0);
        assert [ds[n].typ][..0] == [];
      }
    }
  }

  // ---------------------------------------------------------------------------
  // Every occurrence of a valid interface is valid

  lemma {:induction false} OccurrencesOk(types: set<string>, t: TypeExpr, o: TypeExpr)
    requires TypeOk(types, t) && o in Occurrences(t)
    ensures TypeOk(types, o)
    decreases t, 1
  {
    match t
    case ListOf(_, _, elem) =>
      if o != t {
        OccurrencesOk(types, elem, o);
      }
    case Record(_, _, _, fields, _) =>
      if o != t {
        MemberOccurrencesOk(types, fields, o);
      }
    case _ =>
  }

  lemma {:induction false} MemberOccurrencesOk(types: set<string>, fs: seq<Member>, o: TypeExpr)
    requires MembersOk(types, fs) && o in MemberOccurrences(fs)
    ensures TypeOk(types, o)
    decreases fs, 0
  {
    hide TypeOk, Occurrences;
    if o in Occurrences(fs[0].typ) {
      OccurrencesOk(types, fs[0].typ, o);
    } else {
      MemberOccurrencesOk(types, fs[1..], o);
    }
  }

  lemma {:induction false} OccurrenceOf(ts: seq<TypeExpr>, o: TypeExpr) returns (k: nat)
    requires o in RootOccurrences(ts)
    ensures k < |ts| && o in Occurrences(ts[k])
    decreases |ts|
  {
    hide Occurrences;
    if o in Occurrences(ts[0]) {
      k := 0;
    } else {
      k := OccurrenceOf(ts[1..], o);
      k := k + 1;
    }
  }

  /** Where an occurrence of an interface comes from. */
  lemma {:induction false} ComesFrom(ds: seq<Decl>, o: TypeExpr) returns (i: nat, k: nat)
    requires o in AllOccurrences(ds)
    ensures i < |ds| && k < |RootsOf(ds[i])| && o in Occurrences(RootsOf(ds[i])[k])
    decreases |ds|
  {
    hide RootsOf, RootOccurrences, Occurrences;
    var n := |ds| - 1;
    if o in AllOccurrences(ds[..n]) {
      i, k := ComesFrom(ds[..n], o);
    } else {
      i := n;
      k := OccurrenceOf(RootsOf(ds[n]), o);
    }
  }

  /** An occurrence of a valid interface is valid where it stands, so every name in it is declared. */
  lemma {:induction false} OccurrenceValid(key: (string, string) -> nat, ds: seq<Decl>, o: TypeExpr)
    requires ValidInterface(key, ds) && o in AllOccurrences(ds)
    ensures Known(WorldOf(ds), o) && (o.Record? ==> Distinct(o.fields))
  {
    var i, k := ComesFrom(ds, o);
    assert DeclOk(TypesBefore(ds, i), ds[i]) && DistinctNames(ds);
    hide ValidInterface, DeclOk, RootsOf, Occurrences, Known, AllOccurrences, DistinctNames, TypesBefore;
    RootOk(TypesBefore(ds, i), ds[i], k);
    OccurrencesOk(TypesBefore(ds, i), RootsOf(ds[i])[k], o);
    ValidTypeKnown(ds, i, o);
  }

  // ---------------------------------------------------------------------------
  // The graph depicts the interface

  /** Every number with its occurrence. */
  function Shown(ds: seq<Decl>): map<nat, TypeExpr> {
    map n: nat | n < |AllOccurrences(ds)| :: AllOccurrences(ds)[n]
  }

  lemma {:induction false} FieldsDrawnStand(ds: seq<Decl>, fs: seq<FieldRef>, ms: seq<Member>)
    requires FieldsDrawn(AllOccurrences(ds), fs, ms)
    ensures FieldsStand(Shown(ds), fs, ms)
    decreases |fs|
  {
    hide AllOccurrences;
    if fs != [] {
      FieldsDrawnStand(ds, fs[1..], ms[1..]);
    }
  }

  lemma {:induction false} DrawnStands(ds: seq<Decl>, node: Node, t: TypeExpr)
    requires Drawn(AllOccurrences(ds), node, t) && Known(WorldOf(ds), t)
    ensures NodeStands(GraphOf(ds), WorldOf(ds), Shown(ds), node, t)
  {
    hide AllOccurrences, FieldsDrawn, FieldsStand, EnvOf, RankOf, DeclRoots, AllNodes;
    match t
    case Named(_, name) => DeclRootsMean(ds, name.lit);
    case Record(_, _, _, fields, _) => FieldsDrawnStand(ds, node.fields, fields);
    case _ =>
  }

  /** The numbered occurrences of a valid interface depict it, all of it. */
  lemma {:induction false} GraphDepicts(key: (string, string) -> nat, ds: seq<Decl>)
    requires ValidInterface(key, ds)
    ensures Depicts(GraphOf(ds), WorldOf(ds), Shown(ds))
  {
    AllDrawn(ds);
    hide ValidInterface, Drawn, NodeStands, AllOccurrences, AllNodes, Known;
    forall n | n in Shown(ds)
      ensures n < |GraphOf(ds).nodes| && Known(WorldOf(ds), Shown(ds)[n])
      ensures NodeStands(GraphOf(ds), WorldOf(ds), Shown(ds), GraphOf(ds).nodes[n], Shown(ds)[n])
    {
      OccurrenceValid(key, ds, AllOccurrences(ds)[n]);
      DrawnStands(ds, AllNodes(ds)[n], AllOccurrences(ds)[n]);
    }
  }

  lemma {:induction false} FieldsShaped(os: seq<TypeExpr>, fs: seq<FieldRef>, ms: seq<Member>)
    requires FieldsDrawn(os, fs, ms) && Distinct(ms)
    ensures RefsOk(fs, |os|) && |fs| == |ms| && forall k :: 0 <= k < |fs| ==> fs[k].name == ms[k].name.lit
    decreases |fs|
  {
    if fs != [] {
      assert forall k :: 0 <= k < |ms[1..]| ==> ms[1..][k] == ms[k + 1];
      FieldsShaped(os, fs[1..], ms[1..]);
      assert forall k :: 1 <= k < |fs| ==> fs[k] == fs[1..][k - 1];
    }
  }

  lemma {:induction false} DrawnShaped(os: seq<TypeExpr>, node: Node, t: TypeExpr)
    requires Drawn(os, node, t) && (t.Record? ==> Distinct(t.fields))
    ensures NodeShaped(node, |os|)
  {
    hide FieldsDrawn, Distinct, RefsOk;
    if t.Record? {
      FieldsShaped(os, node.fields, t.fields);
    }
  }

  lemma {:induction false} GraphShaped(key: (string, string) -> nat, ds: seq<Decl>)
    requires ValidInterface(key, ds)
    ensures Shaped(GraphOf(ds))
  {
    AllDrawn(ds);
    hide ValidInterface, Drawn, AllOccurrences, AllNodes, Known, NodeShaped, DeclRoots, Distinct;
    var os, ns := AllOccurrences(ds), AllNodes(ds);
    forall n | 0 <= n < |ns|
      ensures NodeShaped(ns[n], |ns|)
    {
      OccurrenceValid(key, ds, os[n]);
      DrawnShaped(os, ns[n], os[n]);
    }
    forall name | name in DeclRoots(ds)
      ensures DeclRoots(ds)[name] < |ns|
    {
      DeclRootsMean(ds, name);
    }
  }

  // ---------------------------------------------------------------------------
  // End to end

  /** Every root of every valid interface compiles, and the program is one for the wire type the root stands for. */
  method CompileRoot(ghost key: (string, string) -> nat, ds: seq<Decl>, i: nat, k: nat)
    returns (r: Option<CodecVm.Program>)
    requires ValidInterface(key, ds) && i < |ds| && k < |RootsOf(ds[i])|
    ensures Ranked(WorldOf(ds)) && Known(WorldOf(ds), RootsOf(ds[i])[k])
    ensures r.Some? && CodecVm.WellBuilt(r.value)
    ensures Resolve(r.value.table, r.value.root) == TypeOf(WorldOf(ds), RootsOf(ds[i])[k])
  {
    hide Ranked, Known, TypeOf, CodecVm.WellBuilt, Resolve, Shaped, Depicts, GraphOf, AllOccurrences, RootsOf, RootAt;
    GraphDepicts(key, ds);
    GraphShaped(key, ds);
    RootIsThere(ds, i, k);
    r := CompileDepicted(key, ds, GraphOf(ds), Shown(ds), RootAt(ds, i, k));
  }
}
