/**
 * The types of a validated interface: the declaration table, why following names always ends, how deep a type is
 * once every name is followed, and which wire type it stands for.
 */
module InterfaceTypes {
  import opened Leaves
  import opened Syntax
  import opened Validators

  /** The declaration table, and a rank for every name in it. */
  datatype World = World(env: map<string, TypeExpr>, rank: map<string, nat>)

  /** Every name in the type is declared. */
  predicate Known(w: World, t: TypeExpr) {
    match t
    case Primitive(_, _) => true
    case Named(_, name) => name.lit in w.env && name.lit in w.rank
    case ListOf(_, _, elem) => Known(w, elem)
    case Record(_, _, _, fields, _) => MembersKnown(w, fields)
  }

  predicate MembersKnown(w: World, fs: seq<Member>) {
    fs == [] || (Known(w, fs[0].typ) && MembersKnown(w, fs[1..]))
  }

  function Max(a: nat, b: nat): nat {
    if a < b then b else a
  }

  /** One more than the highest rank of a name in the type. */
  function Level(w: World, t: TypeExpr): nat
    requires Known(w, t)
  {
    match t
    case Primitive(_, _) => 0
    case Named(_, name) => w.rank[name.lit] + 1
    case ListOf(_, _, elem) => Level(w, elem)
    case Record(_, _, _, fields, _) => MembersLevel(w, fields)
  }

  function MembersLevel(w: World, fs: seq<Member>): nat
    requires MembersKnown(w, fs)
  {
    if fs == [] then 0 else Max(Level(w, fs[0].typ), MembersLevel(w, fs[1..]))
  }

  /** Every declaration refers only to names of lower rank. */
  ghost predicate Ranked(w: World) {
    forall n :: n in w.env ==> n in w.rank && Known(w, w.env[n]) && Level(w, w.env[n]) <= w.rank[n]
  }

  /** The occurrences on the longest path through the type, names followed. */
  ghost function Height(w: World, t: TypeExpr): (h: nat)
    requires Ranked(w) && Known(w, t)
    ensures h >= 1
    decreases Level(w, t), t
  {
    match t
    case Primitive(_, _) => 1
    case Named(_, name) => 1 + Height(w, w.env[name.lit])
    case ListOf(_, _, elem) => 1 + Height(w, elem)
    case Record(_, _, _, fields, _) => 1 + MembersHeight(w, fields)
  }

  ghost function MembersHeight(w: World, fs: seq<Member>): nat
    requires Ranked(w) && MembersKnown(w, fs)
    decreases MembersLevel(w, fs), fs
  {
    if fs == [] then 0 else Max(Height(w, fs[0].typ), MembersHeight(w, fs[1..]))
  }

  // ---------------------------------------------------------------------------
  // The declaration table of an interface

  function EnvOf(ds: seq<Decl>): map<string, TypeExpr> {
    if ds == [] then map[]
    else
      var n := |ds| - 1;
      if ds[n].TypeDecl? then EnvOf(ds[..n])[ds[n].name.lit := ds[n].typ] else EnvOf(ds[..n])
  }

  function RankOf(ds: seq<Decl>): map<string, nat> {
    if ds == [] then map[]
    else
      var n := |ds| - 1;
      if ds[n].TypeDecl? then RankOf(ds[..n])[ds[n].name.lit := n] else RankOf(ds[..n])
  }

  function WorldOf(ds: seq<Decl>): World {
    World(EnvOf(ds), RankOf(ds))
  }

  predicate DistinctNames(ds: seq<Decl>) {
    forall i, j :: 0 <= i < j < |ds| ==> ds[i].name.lit != ds[j].name.lit
  }

  /** The table holds every type declaration under its name, ranked by its position, and nothing else. */
  lemma {:induction false} TableHolds(ds: seq<Decl>)
    requires DistinctNames(ds)
    ensures forall i :: 0 <= i < |ds| && ds[i].TypeDecl? ==>
              ds[i].name.lit in EnvOf(ds) && EnvOf(ds)[ds[i].name.lit] == ds[i].typ
              && ds[i].name.lit in RankOf(ds) && RankOf(ds)[ds[i].name.lit] == i
    ensures forall n :: n in EnvOf(ds) || n in RankOf(ds) ==>
            exists i :: 0 <= i < |ds| && ds[i].TypeDecl? && ds[i].name.lit == n
    decreases |ds|
  {
    if ds != [] {
      var n := |ds| - 1;
      var front := ds[..n];
      assert forall i :: 0 <= i < n ==> front[i] == ds[i];
      TableHolds(front);
      forall i | 0 <= i < |ds| && ds[i].TypeDecl?
        ensures ds[i].name.lit in EnvOf(ds) && EnvOf(ds)[ds[i].name.lit] == ds[i].typ
        ensures ds[i].name.lit in RankOf(ds) && RankOf(ds)[ds[i].name.lit] == i
      {
        if i < n {
          assert front[i] == ds[i] && ds[i].name.lit != ds[n].name.lit;
        }
      }
      forall m | m in EnvOf(ds) || m in RankOf(ds)
        ensures exists i :: 0 <= i < |ds| && ds[i].TypeDecl? && ds[i].name.lit == m
      {
        if m in EnvOf(front) || m in RankOf(front) {
          var i :| 0 <= i < |front| && front[i].TypeDecl? && front[i].name.lit == m;
          assert ds[i].TypeDecl? && ds[i].name.lit == m;
        } else {
          assert ds[n].TypeDecl? && ds[n].name.lit == m;
        }
      }
    }
  }

  /** A type valid among the names declared before `i` is known, and its names rank below `i`. */
  lemma {:induction false} ValidTypeKnown(ds: seq<Decl>, i: nat, t: TypeExpr)
    requires DistinctNames(ds) && i <= |ds| && TypeOk(TypesBefore(ds, i), t)
    ensures Known(WorldOf(ds), t) && Level(WorldOf(ds), t) <= i
    decreases t, 1
  {
    match t
    case Primitive(_, _) =>
    case Named(_, name) => DeclaredBefore(ds, i, name.lit);
    case ListOf(_, _, elem) => ValidTypeKnown(ds, i, elem);
    case Record(_, _, _, fields, _) => ValidMembersKnown(ds, i, fields);
  }

  lemma {:induction false} ValidMembersKnown(ds: seq<Decl>, i: nat, fs: seq<Member>)
    requires DistinctNames(ds) && i <= |ds| && MembersOk(TypesBefore(ds, i), fs)
    ensures MembersKnown(WorldOf(ds), fs) && MembersLevel(WorldOf(ds), fs) <= i
    decreases fs, 0
  {
    if fs != [] {
      ValidTypeKnown(ds, i, fs[0].typ);
      ValidMembersKnown(ds, i, fs[1..]);
    }
  }

  lemma {:induction false} DeclaredBefore(ds: seq<Decl>, i: nat, name: string)
    requires DistinctNames(ds) && i <= |ds| && name in TypesBefore(ds, i)
    ensures name in EnvOf(ds) && name in RankOf(ds) && RankOf(ds)[name] < i
  {
    var j :| 0 <= j < i && ds[j].TypeDecl? && ds[j].name.lit == name;
    TableHolds(ds);
  }

  /** Following the names of a valid interface always ends. */
  lemma {:induction false} ValidRanked(key: (string, string) -> nat, ds: seq<Decl>)
    requires ValidInterface(key, ds)
    ensures DistinctNames(ds) && Ranked(WorldOf(ds))
  {
    hide TypeOk, KeyOf, Known, Level;
    var w := WorldOf(ds);
    TableHolds(ds);
    forall n | n in w.env
      ensures n in w.rank && Known(w, w.env[n]) && Level(w, w.env[n]) <= w.rank[n]
    {
      var i :| 0 <= i < |ds| && ds[i].TypeDecl? && ds[i].name.lit == n;
      assert DeclOk(TypesBefore(ds, i), ds[i]);
      ValidTypeKnown(ds, i, ds[i].typ);
    }
  }

  // ---------------------------------------------------------------------------
  // Roots

  function MemberTypes(fs: seq<Member>): (r: seq<TypeExpr>)
    ensures |r| == |fs| && forall i :: 0 <= i < |fs| ==> r[i] == fs[i].typ
  {
    seq(|fs|, i requires 0 <= i < |fs| => fs[i].typ)
  }

  function OptionalTypes(t: Option<TypeExpr>): seq<TypeExpr> {
    if t.Some? then [t.value] else []
  }

  /** The root occurrences of a declaration, in source order. */
  function RootsOf(d: Decl): seq<TypeExpr> {
    match d
    case TypeDecl(_, _, _, typ, _) => [typ]
    case ExceptionDecl(_, _, _, payload, _) => OptionalTypes(payload)
    case ProcDecl(_, _, _, _, params, _, result, _) => MemberTypes(params) + OptionalTypes(result)
  }

  lemma {:induction false} MembersOkEach(types: set<string>, fs: seq<Member>, k: nat)
    requires MembersOk(types, fs) && k < |fs|
    ensures TypeOk(types, fs[k].typ)
    decreases |fs|
  {
    if k > 0 {
      MembersOkEach(types, fs[1..], k - 1);
    }
  }

  lemma {:induction false} RootOk(types: set<string>, d: Decl, k: nat)
    requires DeclOk(types, d) && k < |RootsOf(d)|
    ensures TypeOk(types, RootsOf(d)[k])
  {
    hide TypeOk;
    if d.ProcDecl? && k < |d.params| {
      MembersOkEach(types, d.params, k);
    }
  }

  /** Every root of a valid interface is known. */
  lemma {:induction false} RootsKnown(key: (string, string) -> nat, ds: seq<Decl>, i: nat, k: nat)
    requires ValidInterface(key, ds) && i < |ds| && k < |RootsOf(ds[i])|
    ensures Known(WorldOf(ds), RootsOf(ds[i])[k]) && Level(WorldOf(ds), RootsOf(ds[i])[k]) <= i
  {
    hide TypeOk, KeyOf, Known, Level, RootsOf, DeclOk;
    RootOk(TypesBefore(ds, i), ds[i], k);
    ValidTypeKnown(ds, i, RootsOf(ds[i])[k]);
  }
}
