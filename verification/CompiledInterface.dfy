/**
 * From a depicted interface to bytes: every occurrence that a graph depicts compiles, and the program that results
 * encodes and decodes the wire type that the occurrence stands for.
 */
module CompiledInterfaces {
  import opened LittleEndian
  import opened Leaves
  import opened Syntax
  import opened Validators
  import opened InterfaceTypes
  import opened Codec
  import opened CodecTable
  import CodecVm
  import opened CodecCompiler
  import opened CodecPrograms

  /** The primitive that a reserved primitive name denotes. */
  function PrimOf(name: string): (p: Prim)
    ensures IsPrim(p)
  {
    if name == "int8" then Int(1, true)
    else if name == "int16" then Int(2, true)
    else if name == "int32" then Int(4, true)
    else if name == "int64" then Int(8, true)
    else if name == "uint8" then Int(1, false)
    else if name == "uint16" then Int(2, false)
    else if name == "uint32" then Int(4, false)
    else if name == "uint64" then Int(8, false)
    else if name == "float32" then Float(4)
    else if name == "float64" then Float(8)
    else if name == "string" then String
    else Blob
  }

  /** The wire type of an occurrence: every name replaced by its declaration. */
  ghost function TypeOf(w: World, t: TypeExpr): Type
    requires Ranked(w) && Known(w, t)
    decreases Level(w, t), t
  {
    match t
    case Primitive(_, name) => TPrim(PrimOf(name.lit))
    case Named(_, name) => TypeOf(w, w.env[name.lit])
    case ListOf(_, _, elem) => TList(TypeOf(w, elem))
    case Record(_, _, _, fields, _) => TRecord(FieldsOf(w, fields))
  }

  ghost function FieldsOf(w: World, fs: seq<Member>): seq<Field>
    requires Ranked(w) && MembersKnown(w, fs)
    decreases MembersLevel(w, fs), fs
  {
    if fs == [] then [] else [Field(fs[0].name.lit, TypeOf(w, fs[0].typ))] + FieldsOf(w, fs[1..])
  }

  // ---------------------------------------------------------------------------
  // `zeroWidthOf` on the tree is the zero-width of the wire type

  ghost predicate ZeroWidthOf(w: World, t: TypeExpr)
    requires Ranked(w) && Known(w, t)
    decreases Level(w, t), t
  {
    match t
    case Primitive(_, _) => false
    case Named(_, name) => ZeroWidthOf(w, w.env[name.lit])
    case ListOf(_, _, _) => false
    case Record(_, _, _, fields, _) => MembersZeroWidth(w, fields)
  }

  ghost predicate MembersZeroWidth(w: World, fs: seq<Member>)
    requires Ranked(w) && MembersKnown(w, fs)
    decreases MembersLevel(w, fs), fs
  {
    fs == [] || (ZeroWidthOf(w, fs[0].typ) && MembersZeroWidth(w, fs[1..]))
  }

  lemma {:induction false} ZeroWidthMeans(w: World, t: TypeExpr)
    requires Ranked(w) && Known(w, t)
    ensures ZeroWidthOf(w, t) <==> ZeroWidth(TypeOf(w, t))
    decreases Level(w, t), t
  {
    match t
    case Named(_, name) => ZeroWidthMeans(w, w.env[name.lit]);
    case Record(_, _, _, fields, _) => MembersZeroMeans(w, fields);
    case _ =>
  }

  lemma {:induction false} MembersZeroMeans(w: World, fs: seq<Member>)
    requires Ranked(w) && MembersKnown(w, fs)
    ensures MembersZeroWidth(w, fs) <==> AllZeroWidth(FieldsOf(w, fs))
    decreases MembersLevel(w, fs), fs
  {
    if fs != [] {
      ZeroWidthMeans(w, fs[0].typ);
      MembersZeroMeans(w, fs[1..]);
      assert FieldsOf(w, fs)[1..] == FieldsOf(w, fs[1..]);
    }
  }

  // ---------------------------------------------------------------------------
  // The occurrence graph of an interface

  /** A reference from the graph to the occurrence it stands for. */
  predicate Stands(shown: map<nat, TypeExpr>, n: nat, t: TypeExpr) {
    n in shown && shown[n] == t
  }

  predicate FieldsStand(shown: map<nat, TypeExpr>, fs: seq<FieldRef>, ms: seq<Member>) {
    if fs == [] then ms == []
    else
      && ms != [] && fs[0].name == ms[0].name.lit && Stands(shown, fs[0].value, ms[0].typ)
      && FieldsStand(shown, fs[1..], ms[1..])
  }

  /** The node is the occurrence: same form, and its edges lead to the nodes of its parts. */
  predicate NodeStands(g: Graph, w: World, shown: map<nat, TypeExpr>, node: Node, t: TypeExpr) {
    match t
    case Primitive(_, name) => node == NPrim(PrimOf(name.lit))
    case Named(_, name) => node == NNamed(name.lit) && name.lit in g.decls && name.lit in w.env
        && Stands(shown, g.decls[name.lit], w.env[name.lit])
    case ListOf(_, _, elem) => node.NList? && Stands(shown, node.elem, elem)
    case Record(_, _, _, fields, _) => node.NRecord? && FieldsStand(shown, node.fields, fields)
  }

  /** The graph holds these occurrences of the interface and everything they refer to. */
  ghost predicate Depicts(g: Graph, w: World, shown: map<nat, TypeExpr>) {
    forall n :: n in shown ==> n < |g.nodes| && Known(w, shown[n]) && NodeStands(g, w, shown, g.nodes[n], shown[n])
  }

  ghost function Heights(w: World, shown: map<nat, TypeExpr>): map<nat, nat>
    requires Ranked(w) && forall n :: n in shown ==> Known(w, shown[n])
  {
    map n | n in shown :: Height(w, shown[n])
  }

  /** Every part is lower than the whole, so an occurrence graph of a valid interface can be ranked. */
  lemma {:induction false} DepictedRanks(g: Graph, w: World, shown: map<nat, TypeExpr>)
    requires Ranked(w) && Depicts(g, w, shown)
    ensures Ranks(g, Heights(w, shown))
  {
    var rank := Heights(w, shown);
    forall n | n in rank
      ensures n < |g.nodes| && PartsBelow(g, rank, n)
    {
      var t := shown[n];
      assert Known(w, t) && NodeStands(g, w, shown, g.nodes[n], t);
      if t.Record? {
        FieldsLower(w, shown, g.nodes[n].fields, t.fields, n);
      }
    }
  }

  lemma {:induction false} FieldsLower(w: World, shown: map<nat, TypeExpr>, fs: seq<FieldRef>, ms: seq<Member>, n: nat)
    requires Ranked(w) && (forall n :: n in shown ==> Known(w, shown[n])) && n in shown
    requires FieldsStand(shown, fs, ms) && MembersKnown(w, ms) && MembersHeight(w, ms) < Height(w, shown[n])
    ensures FieldsBelow(Heights(w, shown), fs, n)
    decreases |fs|
  {
    hide Ranked, Known, Height;
    if fs != [] {
      FieldsLower(w, shown, fs[1..], ms[1..], n);
      assert CodecCompiler.Below(Heights(w, shown), fs[0].value, n);
      assert forall k :: 1 <= k < |fs| ==> fs[k] == fs[1..][k - 1];
    }
  }

  /** The meaning of a node is the wire type of its occurrence. */
  lemma {:induction false} DepictedMeaning(g: Graph, w: World, shown: map<nat, TypeExpr>, n: nat)
    requires Ranked(w) && Depicts(g, w, shown) && n in shown && Ranks(g, Heights(w, shown))
    ensures Meaning(g, Heights(w, shown), n) == TypeOf(w, shown[n])
    decreases Height(w, shown[n]), 1, 0
  {
    var t := shown[n];
    assert Known(w, t) && NodeStands(g, w, shown, g.nodes[n], t);
    match t
    case Primitive(_, _) =>
    case Named(_, name) => DepictedMeaning(g, w, shown, g.decls[name.lit]);
    case ListOf(_, _, elem) => DepictedMeaning(g, w, shown, g.nodes[n].elem);
    case Record(_, _, _, fields, _) =>
      assert PartsBelow(g, Heights(w, shown), n);
      DepictedFields(g, w, shown, n, g.nodes[n].fields, fields);
  }

  lemma {:induction false} DepictedFields(g: Graph, w: World, shown: map<nat, TypeExpr>, n: nat, fs: seq<FieldRef>,
      ms: seq<Member>)
    requires Ranked(w) && Depicts(g, w, shown) && n in shown && Ranks(g, Heights(w, shown))
    requires FieldsStand(shown, fs, ms) && MembersKnown(w, ms) && MembersHeight(w, ms) < Height(w, shown[n])
    requires FieldsBelow(Heights(w, shown), fs, n)
    ensures MeaningFields(g, Heights(w, shown), n, fs) == FieldsOf(w, ms)
    decreases Height(w, shown[n]), 0, |fs|
  {
    if fs != [] {
      assert CodecCompiler.Below(Heights(w, shown), fs[0].value, n);
      assert forall k :: 0 <= k < |fs[1..]| ==> fs[1..][k] == fs[k + 1];
      assert Known(w, shown[fs[0].value]);
      DepictedMeaning(g, w, shown, fs[0].value);
      DepictedFields(g, w, shown, n, fs[1..], ms[1..]);
    }
  }

  // ---------------------------------------------------------------------------
  // End to end

  /** Compiling an occurrence that a graph depicts always succeeds, and the program is one for its wire type. */
  method CompileDepicted(ghost key: (string, string) -> nat, ghost ds: seq<Decl>, g: Graph,
      ghost shown: map<nat, TypeExpr>, root: nat)
    returns (r: Option<CodecVm.Program>)
    requires ValidInterface(key, ds) && Shaped(g) && Depicts(g, WorldOf(ds), shown) && root in shown
    ensures Ranked(WorldOf(ds)) && Known(WorldOf(ds), shown[root])
    ensures r.Some? && CodecVm.WellBuilt(r.value)
    ensures Resolve(r.value.table, r.value.root) == TypeOf(WorldOf(ds), shown[root])
  {
    hide Ranked, Known, Height, TypeOf, CodecVm.WellBuilt, Resolve, Shaped, Ranks, Meaning;
    ghost var w := WorldOf(ds);
    ValidRanked(key, ds);
    assert Known(w, shown[root]) && root < |g.nodes|;
    DepictedRanks(g, w, shown);
    DepictedMeaning(g, w, shown, root);
    ghost var rank := Heights(w, shown);
    assert root in rank && Resolves(g, root);
    r := CompileProgram(g, Some(root));
  }

  /** The bytes of the machine for a root are the recursive field-order encoding of its wire type, and read back. */
  lemma {:induction false} RootBytes(w: World, t: TypeExpr, p: CodecVm.Program, v: Value, rest: Bytes)
    requires Ranked(w) && Known(w, t) && CodecVm.WellBuilt(p) && Resolve(p.table, p.root) == TypeOf(w, t)
    requires Typed(TypeOf(w, t), v) && Fits(TypeOf(w, t), v)
    ensures EncI(p.table, p.root, v).Some? && EncI(p.table, p.root, v).value.bytes == Enc(TypeOf(w, t), v)
    ensures DecI(p.table, p.root, Enc(TypeOf(w, t), v) + rest).Some?
    ensures var d := DecI(p.table, p.root, Enc(TypeOf(w, t), v) + rest).value; d.value == v && d.rest == rest
    ensures ZeroWidthOf(w, t) <==> Enc(TypeOf(w, t), v) == []
  {
    hide Ranked, Known, EncI, DecI, Enc, Resolve, TypeOf, Typed, Fits, ZeroWidthOf, CodecVm.WellBuilt;
    MachineMatchesReference(TypeOf(w, t), p, v, rest);
    ZeroWidthMeans(w, t);
    BuiltOrdered(p);
    ResolvedWellFormed(p.table, p.root);
    WidthOfValue(TypeOf(w, t), v);
  }

  lemma {:induction false} BuiltOrdered(p: CodecVm.Program)
    requires CodecVm.WellBuilt(p)
    ensures Ordered(p.table) && p.root < |p.table|
  {
  }
}
