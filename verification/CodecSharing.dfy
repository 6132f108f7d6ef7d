/**
 * Registration of the anonymous types that get a shared codec: the first use wins, a later occurrence with the same key
 * is skipped together with everything nested in it. Every anonymous occurrence that an emitted codec meets still has an
 * entry of its own structure.
 */
module CodecSharing {
  import opened Leaves
  import opened Syntax
  import opened Scanners
  import opened Marks
  import opened Layouts
  import opened TypeKeys
  import opened CanonicalBodies
  import Lists

  // ---------------------------------------------------------------------------
  // The names in a parsed file are words of the right kind

  predicate OptionalNamedWell(t: Option<TypeExpr>) {
    t.Some? ==> NamedWell(t.value)
  }

  predicate DeclNamedWell(d: Decl) {
    match d
    case TypeDecl(_, _, _, typ, _) => NamedWell(typ)
    case ExceptionDecl(_, _, _, payload, _) => OptionalNamedWell(payload)
    case ProcDecl(_, _, _, _, params, _, result, _) => FieldsNamedWell(params) && OptionalNamedWell(result)
  }

  predicate DeclsNamedWell(ds: seq<Decl>) {
    forall i :: 0 <= i < |ds| ==> DeclNamedWell(ds[i])
  }

  lemma {:induction false} NameIsWord(tok: Token, doc: string)
    requires (Is(tok, Identifier) || Is(tok, PrimitiveWord)) && MarksOk([Mark(tok.lit, doc)])
    ensures IsWord(tok.lit)
  {
    assert MarkOk([Mark(tok.lit, doc)][0]);
    hide IsWord;
    assert |tok.lit| == 1 ==> tok.lit == [tok.lit[0]];
  }

  lemma {:induction false} TypeNamedWell(t: TypeExpr)
    requires LexedType(t) && MarksOk(TypeMarks(t))
    ensures NamedWell(t)
    decreases t, 1
  {
    hide MarksOk, IsWord, KindOf, LexedMembers, FieldsNamedWell, MemberMarks;
    match t
    case Primitive(doc, name) => NameIsWord(name, doc);
    case Named(doc, name) => NameIsWord(name, doc);
    case ListOf(doc, word, elem) =>
      MarksOkSplit([Mark(word.lit, doc)], TypeMarks(elem));
      TypeNamedWell(elem);
    case Record(doc, word, lbrace, fields, rbrace) =>
      MarksOkSplit([Mark(word.lit, doc), Bare(lbrace)] + MemberMarks(fields), [Bare(rbrace)]);
      MarksOkSplit([Mark(word.lit, doc), Bare(lbrace)], MemberMarks(fields));
      MembersNamedWell(fields);
  }

  lemma {:induction false} MembersNamedWell(fs: seq<Member>)
    requires LexedMembers(fs) && MarksOk(MemberMarks(fs))
    ensures FieldsNamedWell(fs)
    decreases fs, 0
  {
    hide MarksOk, IsWord, KindOf, LexedType, NamedWell, TypeMarks;
    if fs != [] {
      var name, typ, semi := [Mark(fs[0].name.lit, fs[0].doc)], TypeMarks(fs[0].typ), [Bare(fs[0].semi)];
      MarksOkSplit(name + typ + semi, MemberMarks(fs[1..]));
      MarksOkSplit(name + typ, semi);
      MarksOkSplit(name, typ);
      NameIsWord(fs[0].name, fs[0].doc);
      TypeNamedWell(fs[0].typ);
      MembersNamedWell(fs[1..]);
    }
  }

  lemma {:induction false} OptionNamedWell(t: Option<TypeExpr>)
    requires LexedOptional(t) && MarksOk(OptionalMarks(t))
    ensures OptionalNamedWell(t)
  {
    hide MarksOk, LexedType, NamedWell, TypeMarks;
    if t.Some? {
      TypeNamedWell(t.value);
    }
  }

  lemma {:induction false} LexedDeclNamedWell(d: Decl)
    requires LexedDecl(d) && MarksOk(DeclMarks(d))
    ensures DeclNamedWell(d)
  {
    hide MarksOk, KindOf, LexedType, LexedOptional, LexedMembers, NamedWell, OptionalNamedWell, FieldsNamedWell,
         TypeMarks, OptionalMarks, MemberMarks;
    match d
    case TypeDecl(doc, word, name, typ, semi) =>
      MarksOkSplit([Mark(word.lit, doc), Bare(name)] + TypeMarks(typ), [Bare(semi)]);
      MarksOkSplit([Mark(word.lit, doc), Bare(name)], TypeMarks(typ));
      TypeNamedWell(typ);
    case ExceptionDecl(doc, word, name, payload, semi) =>
      MarksOkSplit([Mark(word.lit, doc), Bare(name)] + OptionalMarks(payload), [Bare(semi)]);
      MarksOkSplit([Mark(word.lit, doc), Bare(name)], OptionalMarks(payload));
      OptionNamedWell(payload);
    case ProcDecl(doc, word, name, lbrace, params, rbrace, result, semi) =>
      var head := [Mark(word.lit, doc), Bare(name), Bare(lbrace)];
      MarksOkSplit(head + MemberMarks(params) + [Bare(rbrace)] + OptionalMarks(result), [Bare(semi)]);
      MarksOkSplit(head + MemberMarks(params) + [Bare(rbrace)], OptionalMarks(result));
      MarksOkSplit(head + MemberMarks(params), [Bare(rbrace)]);
      MarksOkSplit(head, MemberMarks(params));
      MembersNamedWell(params);
      OptionNamedWell(result);
  }

  lemma {:induction false} LexedDeclsNamedWell(ds: seq<Decl>)
    requires LexedDecls(ds) && MarksOk(DeclsMarks(ds))
    ensures DeclsNamedWell(ds)
    decreases |ds|
  {
    hide MarksOk, LexedDecl, DeclNamedWell, DeclMarks;
    if ds != [] {
      MarksOkSplit(DeclMarks(ds[0]), DeclsMarks(ds[1..]));
      LexedDeclNamedWell(ds[0]);
      LexedDeclsNamedWell(ds[1..]);
      assert forall i :: 1 <= i < |ds| ==> ds[i] == ds[1..][i - 1];
    }
  }

  /** Every type of a file that parses has names and primitives that are words of the right kind. */
  lemma {:induction false} ParsedNamedWell(src: string)
    requires ParseText(src).Some?
    ensures DeclsNamedWell(Attached(src, ParseText(src).value))
  {
    hide *;
    AttachedOk(src);
    LexedDeclsNamedWell(Attached(src, ParseText(src).value));
  }

  // ---------------------------------------------------------------------------
  // Occurrences

  /** `isAnonymousType`. */
  predicate Anonymous(t: TypeExpr) {
    t.ListOf? || t.Record?
  }

  /** `o` is `t` or an occurrence nested in it. */
  predicate Nested(o: TypeExpr, t: TypeExpr)
    decreases t, 1
  {
    o == t || Inside(o, t)
  }

  predicate Inside(o: TypeExpr, t: TypeExpr)
    decreases t, 0
  {
    match t
    case ListOf(_, _, elem) => Nested(o, elem)
    case Record(_, _, _, fields, _) => InMembers(o, fields)
    case _ => false
  }

  predicate InMembers(o: TypeExpr, fs: seq<Member>)
    decreases fs, 2
  {
    exists i :: 0 <= i < |fs| && Nested(o, fs[i].typ)
  }

  /** The occurrences of a declaration that need a codec of their own: a named type's underlying type is inlined. */
  predicate Needed(o: TypeExpr, d: Decl) {
    match d
    case TypeDecl(_, _, _, typ, _) => Inside(o, typ)
    case ExceptionDecl(_, _, _, payload, _) => payload.Some? && Nested(o, payload.value)
    case ProcDecl(_, _, _, _, params, _, result, _) => InMembers(o, params) || (result.Some? && Nested(o, result.value))
  }

  // ---------------------------------------------------------------------------
  // The keys of the anonymous occurrences

  function Keys(t: TypeExpr): set<string>
    decreases t, 1
  {
    if Anonymous(t) then {TypeKey(t)} + InnerKeys(t) else {}
  }

  function InnerKeys(t: TypeExpr): set<string>
    decreases t, 0
  {
    match t
    case ListOf(_, _, elem) => Keys(elem)
    case Record(_, _, _, fields, _) => MemberKeys(fields)
    case _ => {}
  }

  function MemberKeys(fs: seq<Member>): set<string>
    decreases fs, 2
  {
    if fs == [] then {} else Keys(fs[0].typ) + MemberKeys(fs[1..])
  }

  function OptionalKeys(t: Option<TypeExpr>): set<string> {
    if t.Some? then Keys(t.value) else {}
  }

  function DeclKeys(d: Decl): set<string> {
    match d
    case TypeDecl(_, _, _, typ, _) => InnerKeys(typ)
    case ExceptionDecl(_, _, _, payload, _) => OptionalKeys(payload)
    case ProcDecl(_, _, _, _, params, _, result, _) => MemberKeys(params) + OptionalKeys(result)
  }

  lemma {:induction false} NestedHasKey(o: TypeExpr, t: TypeExpr)
    requires Anonymous(o)
    ensures Nested(o, t) ==> TypeKey(o) in Keys(t)
    ensures Inside(o, t) ==> TypeKey(o) in InnerKeys(t)
    decreases t, 1
  {
    hide TypeKey;
    assert Nested(o, t) <==> o == t || Inside(o, t);
    match t
    case ListOf(_, _, elem) => NestedHasKey(o, elem);
    case Record(_, _, _, fields, _) => MemberHasKey(o, fields);
    case _ =>
  }

  lemma {:induction false} MemberHasKey(o: TypeExpr, fs: seq<Member>)
    requires Anonymous(o)
    ensures InMembers(o, fs) ==> TypeKey(o) in MemberKeys(fs)
    decreases fs, 0
  {
    hide Nested, Keys, Inside, TypeKey;
    if fs != [] {
      NestedHasKey(o, fs[0].typ);
      MemberHasKey(o, fs[1..]);
      if i :| 0 <= i < |fs| && Nested(o, fs[i].typ) {
        if i > 0 {
          assert fs[1..][i - 1] == fs[i];
        }
      }
    }
  }

  lemma {:induction false} NeededHasKey(o: TypeExpr, d: Decl)
    requires Anonymous(o) && Needed(o, d)
    ensures TypeKey(o) in DeclKeys(d)
  {
    hide Nested, Keys, Inside, InnerKeys, InMembers, MemberKeys, TypeKey;
    match d
    case TypeDecl(_, _, _, typ, _) => NestedHasKey(o, typ);
    case ExceptionDecl(_, _, _, payload, _) => NestedHasKey(o, payload.value);
    case ProcDecl(_, _, _, _, params, _, result, _) =>
      MemberHasKey(o, params);
      if result.Some? {
        NestedHasKey(o, result.value);
      }
  }

  lemma {:induction false} KeyOfNested(k: string, t: TypeExpr) returns (o: TypeExpr)
    requires k in InnerKeys(t) || k in Keys(t)
    ensures Anonymous(o) && TypeKey(o) == k && Nested(o, t) && (k in InnerKeys(t) ==> Inside(o, t))
    decreases t, 1
  {
    if k in InnerKeys(t) {
      match t
      case ListOf(_, _, elem) => o := KeyOfNested(k, elem);
      case Record(_, _, _, fields, _) => o := KeyOfMember(k, fields);
    } else {
      o := t;
    }
  }

  lemma {:induction false} KeyOfMember(k: string, fs: seq<Member>) returns (o: TypeExpr)
    requires k in MemberKeys(fs)
    ensures Anonymous(o) && TypeKey(o) == k && InMembers(o, fs)
    decreases fs, 0
  {
    hide Nested, Keys, Inside, TypeKey;
    if k in Keys(fs[0].typ) {
      o := KeyOfNested(k, fs[0].typ);
    } else {
      o := KeyOfMember(k, fs[1..]);
      var i :| 0 <= i < |fs[1..]| && Nested(o, fs[1..][i].typ);
      assert fs[i + 1] == fs[1..][i];
    }
  }

  lemma {:induction false} KeyOfNeeded(k: string, d: Decl) returns (o: TypeExpr)
    requires k in DeclKeys(d)
    ensures Anonymous(o) && TypeKey(o) == k && Needed(o, d)
  {
    hide Nested, Keys, Inside, InnerKeys, InMembers, MemberKeys, TypeKey;
    match d
    case TypeDecl(_, _, _, typ, _) => o := KeyOfNested(k, typ);
    case ExceptionDecl(_, _, _, payload, _) => o := KeyOfNested(k, payload.value);
    case ProcDecl(_, _, _, _, params, _, result, _) =>
      if k in MemberKeys(params) {
        o := KeyOfMember(k, params);
      } else {
        o := KeyOfNested(k, result.value);
      }
  }

  lemma {:induction false} MemberKeysSnoc(fs: seq<Member>, i: nat)
    requires i < |fs|
    ensures MemberKeys(fs[..i + 1]) == MemberKeys(fs[..i]) + Keys(fs[i].typ)
    decreases i
  {
    hide Keys;
    if i == 0 {
      assert fs[..1][1..] == [] && fs[..0] == [];
    } else {
      MemberKeysSnoc(fs[1..], i - 1);
      assert fs[..i + 1][1..] == fs[1..][..i] && fs[..i][1..] == fs[1..][..i - 1];
    }
  }

  // ---------------------------------------------------------------------------
  // Equal structure: equal keys, equal size

  function Size(t: TypeExpr): nat
    decreases t, 1
  {
    match t
    case ListOf(_, _, elem) => 1 + Size(elem)
    case Record(_, _, _, fields, _) => 1 + MemberSizes(fields)
    case _ => 0
  }

  function MemberSizes(fs: seq<Member>): nat
    decreases fs, 0
  {
    if fs == [] then 0 else Size(fs[0].typ) + MemberSizes(fs[1..])
  }

  lemma {:induction false} MemberSmaller(fs: seq<Member>, i: nat)
    requires i < |fs|
    ensures Size(fs[i].typ) <= MemberSizes(fs)
    decreases i
  {
    if i > 0 {
      MemberSmaller(fs[1..], i - 1);
    }
  }

  lemma {:induction false} SameMeasures(a: TypeExpr, b: TypeExpr)
    requires SameType(a, b)
    ensures Keys(a) == Keys(b) && Size(a) == Size(b)
    decreases a, 1
  {
    SameGivesKey(a, b);
    hide TypeKey;
    match a
    case ListOf(_, _, elem) => SameMeasures(elem, b.elem);
    case Record(_, _, _, fields, _) => SameMembers(fields, b.fields);
    case _ =>
  }

  lemma {:induction false} SameMembers(fs: seq<Member>, gs: seq<Member>)
    requires SameFields(fs, gs)
    ensures MemberKeys(fs) == MemberKeys(gs) && MemberSizes(fs) == MemberSizes(gs)
    decreases fs, 0
  {
    hide Keys, Size, SameType;
    if fs != [] {
      SameMeasures(fs[0].typ, gs[0].typ);
      SameMembers(fs[1..], gs[1..]);
    }
  }

  lemma {:induction false} MemberNamedWell(fs: seq<Member>, i: nat)
    requires i < |fs| && FieldsNamedWell(fs)
    ensures NamedWell(fs[i].typ)
    decreases i
  {
    hide NamedWell, IsWord;
    if i > 0 {
      MemberNamedWell(fs[1..], i - 1);
    }
  }

  // ---------------------------------------------------------------------------
  // The table of shared codecs

  type Table = map<string, TypeExpr>

  /** Every entry is an anonymous type under its own key. */
  predicate EntriesOk(anon: Table) {
    forall k :: k in anon ==> Anonymous(anon[k]) && NamedWell(anon[k]) && TypeKey(anon[k]) == k
  }

  /** Everything nested in the type has an entry. */
  predicate Complete(anon: Table, t: TypeExpr) {
    Keys(t) <= anon.Keys
  }

  /**
   * Entries up to this size are complete. While a type is being registered it is in the table and not complete, but
   * nothing nested in it is as large as the type itself.
   */
  predicate CompleteTo(anon: Table, size: nat) {
    forall k :: k in anon && Size(anon[k]) <= size ==> Complete(anon, anon[k])
  }

  /** The first use wins, and what is new is complete. */
  predicate Grows(a: Table, b: Table) {
    && (forall k :: k in a ==> k in b && b[k] == a[k])
    && (forall k :: k in b && k !in a ==> Complete(b, b[k]))
  }

  lemma {:induction false} GrowsOn(a: Table, b: Table, c: Table)
    requires Grows(a, b) && Grows(b, c)
    ensures Grows(a, c)
  {
    hide Keys;
  }

  lemma {:induction false} CompleteStays(a: Table, b: Table, size: nat)
    requires CompleteTo(a, size) && Grows(a, b)
    ensures CompleteTo(b, size)
  {
    hide Keys, Size;
  }

  lemma {:induction false} CompleteBelow(anon: Table, size: nat, less: nat)
    requires CompleteTo(anon, size) && less <= size
    ensures CompleteTo(anon, less)
  {
    hide Keys, Size;
  }

  /** The early return loses nothing: the entry has the structure of the type, and it is complete. */
  lemma {:induction false} KnownIsComplete(anon: Table, t: TypeExpr)
    requires EntriesOk(anon) && NamedWell(t) && TypeKey(t) in anon && CompleteTo(anon, Size(t))
    ensures Complete(anon, t)
  {
    var e := anon[TypeKey(t)];
    assert Anonymous(e) && NamedWell(e) && TypeKey(e) == TypeKey(t);
    hide Keys, NamedWell, Size, TypeKey;
    KeyIsStructure(e, t);
    SameMeasures(e, t);
  }

  /** Inserting a type leaves everything smaller complete. */
  lemma {:induction false} InsertKeeps(anon: Table, t: TypeExpr, size: nat)
    requires EntriesOk(anon) && NamedWell(t) && Anonymous(t) && TypeKey(t) !in anon && CompleteTo(anon, Size(t))
    requires size < Size(t)
    ensures EntriesOk(anon[TypeKey(t) := t]) && CompleteTo(anon[TypeKey(t) := t], size)
    ensures anon[TypeKey(t) := t].Keys == anon.Keys + {TypeKey(t)}
  {
    hide Keys, NamedWell, Size, TypeKey;
  }

  /** Once its parts are registered, so is the type. */
  lemma {:induction false} PartsComplete(a: Table, b: Table, t: TypeExpr)
    requires Anonymous(t) && TypeKey(t) !in a && Grows(a[TypeKey(t) := t], b)
    requires b.Keys == a.Keys + {TypeKey(t)} + InnerKeys(t)
    ensures Grows(a, b) && b.Keys == a.Keys + Keys(t)
  {
    hide InnerKeys, TypeKey;
    var k := TypeKey(t);
    assert a[k := t][k] == t && b[k] == t;
    assert Complete(b, t);
  }

  /** The order lists the keys of the table, each once. */
  ghost predicate Listed(order: seq<string>, anon: Table) {
    Lists.NoRepeats(order) && forall k :: k in order <==> k in anon
  }

  lemma {:induction false} ListedMore(order: seq<string>, anon: Table, k: string, t: TypeExpr)
    requires Listed(order, anon) && k !in anon
    ensures Listed(order + [k], anon[k := t])
  {
    assert (order + [k])[|order|] == k && forall i :: 0 <= i < |order| ==>
        (order + [k])[i] == order[i] && order[i] in order;
  }

  lemma {:induction false} MembersStart(anon: Table, fs: seq<Member>)
    ensures anon.Keys == anon.Keys + MemberKeys(fs[..0]) && Grows(anon, anon) && fs[..|fs|] == fs
  {
  }

  lemma {:induction false} LeafIsDone(anon: Table, t: TypeExpr)
    requires !Anonymous(t)
    ensures Grows(anon, anon) && anon.Keys == anon.Keys + Keys(t)
  {
  }

  lemma {:induction false} KnownIsDone(anon: Table, t: TypeExpr)
    requires EntriesOk(anon) && NamedWell(t) && TypeKey(t) in anon && CompleteTo(anon, Size(t))
    ensures Grows(anon, anon) && anon.Keys == anon.Keys + Keys(t)
  {
    KnownIsComplete(anon, t);
    hide Keys;
  }

  lemma {:induction false} ListParts(anon: Table, t: TypeExpr)
    requires t.ListOf? && EntriesOk(anon) && NamedWell(t) && TypeKey(t) !in anon && CompleteTo(anon, Size(t))
    ensures EntriesOk(anon[TypeKey(t) := t]) && NamedWell(t.elem) && CompleteTo(anon[TypeKey(t) := t], Size(t.elem))
  {
    InsertKeeps(anon, t, Size(t.elem));
  }

  lemma {:induction false} ListDone(a: Table, b: Table, t: TypeExpr)
    requires t.ListOf? && TypeKey(t) !in a && Grows(a[TypeKey(t) := t], b)
    requires b.Keys == a[TypeKey(t) := t].Keys + Keys(t.elem)
    ensures Grows(a, b) && b.Keys == a.Keys + Keys(t)
  {
    assert a[TypeKey(t) := t].Keys == a.Keys + {TypeKey(t)} && InnerKeys(t) == Keys(t.elem);
    PartsComplete(a, b, t);
  }

  lemma {:induction false} RecordParts(anon: Table, t: TypeExpr)
    requires t.Record? && EntriesOk(anon) && NamedWell(t) && TypeKey(t) !in anon && CompleteTo(anon, Size(t))
    ensures EntriesOk(anon[TypeKey(t) := t]) && FieldsNamedWell(t.fields)
    ensures CompleteTo(anon[TypeKey(t) := t], MemberSizes(t.fields))
  {
    InsertKeeps(anon, t, MemberSizes(t.fields));
  }

  lemma {:induction false} MemberReady(a: Table, b: Table, fs: seq<Member>, i: nat)
    requires i < |fs| && FieldsNamedWell(fs) && CompleteTo(a, MemberSizes(fs)) && Grows(a, b)
    ensures NamedWell(fs[i].typ) && CompleteTo(b, Size(fs[i].typ))
  {
    hide *;
    MemberNamedWell(fs, i);
    MemberSmaller(fs, i);
    CompleteStays(a, b, MemberSizes(fs));
    CompleteBelow(b, MemberSizes(fs), Size(fs[i].typ));
  }

  lemma {:induction false} RecordDone(a: Table, b: Table, t: TypeExpr)
    requires t.Record? && TypeKey(t) !in a && Grows(a[TypeKey(t) := t], b)
    requires b.Keys == a[TypeKey(t) := t].Keys + MemberKeys(t.fields)
    ensures Grows(a, b) && b.Keys == a.Keys + Keys(t)
  {
    assert a[TypeKey(t) := t].Keys == a.Keys + {TypeKey(t)} && InnerKeys(t) == MemberKeys(t.fields);
    PartsComplete(a, b, t);
  }

  predicate AllComplete(anon: Table) {
    forall k :: k in anon ==> Complete(anon, anon[k])
  }

  lemma {:induction false} AllCompleteTo(anon: Table, size: nat)
    requires AllComplete(anon)
    ensures CompleteTo(anon, size)
  {
    hide Complete;
  }

  lemma {:induction false} AllCompleteStays(a: Table, b: Table)
    requires AllComplete(a) && Grows(a, b)
    ensures AllComplete(b)
  {
    hide Keys;
  }

  lemma {:induction false} AllCompleteStart(anon: Table)
    requires anon == map[]
    ensures AllComplete(anon)
  {
  }

  lemma {:induction false} InsideReady(anon: Table, t: TypeExpr)
    requires NamedWell(t) && CompleteTo(anon, Size(t))
    ensures t.ListOf? ==> NamedWell(t.elem) && CompleteTo(anon, Size(t.elem))
    ensures t.Record? ==> FieldsNamedWell(t.fields) && CompleteTo(anon, MemberSizes(t.fields))
    ensures t.ListOf? || t.Record? || InnerKeys(t) == {}
  {
    hide Complete;
  }

  datatype Pass = Types | Exceptions | Procedures

  function PassOf(d: Decl): Pass {
    match d
    case TypeDecl(_, _, _, _, _) => Types
    case ExceptionDecl(_, _, _, _, _) => Exceptions
    case ProcDecl(_, _, _, _, _, _, _, _) => Procedures
  }

  function PassKeys(ds: seq<Decl>, pass: Pass): set<string> {
    set i, k | 0 <= i < |ds| && PassOf(ds[i]) == pass && k in DeclKeys(ds[i]) :: k
  }

  lemma {:induction false} PassStart(ds: seq<Decl>, pass: Pass)
    ensures PassKeys(ds[..0], pass) == {} && ds[..|ds|] == ds
  {
  }

  lemma {:induction false} PassStep(ds: seq<Decl>, pass: Pass, i: nat)
    requires i < |ds|
    ensures PassKeys(ds[..i + 1], pass) ==
            PassKeys(ds[..i], pass) + (if PassOf(ds[i]) == pass then DeclKeys(ds[i]) else {})
  {
    hide DeclKeys, PassOf;
    assert forall j :: 0 <= j < i ==> ds[..i + 1][j] == ds[..i][j];
    assert ds[..i + 1][i] == ds[i];
    var more := PassKeys(ds[..i], pass) + (if PassOf(ds[i]) == pass then DeclKeys(ds[i]) else {});
    forall k | k in more
      ensures k in PassKeys(ds[..i + 1], pass)
    {
      if k in PassKeys(ds[..i], pass) {
        var j :| 0 <= j < i && PassOf(ds[..i][j]) == pass && k in DeclKeys(ds[..i][j]);
        assert ds[..i + 1][j] == ds[..i][j];
      } else {
        assert k in DeclKeys(ds[..i + 1][i]);
      }
    }
  }

  lemma {:induction false} InPass(ds: seq<Decl>, i: nat)
    requires i < |ds|
    ensures DeclKeys(ds[i]) <= PassKeys(ds, PassOf(ds[i]))
  {
    hide DeclKeys;
  }

  lemma {:induction false} FromPass(ds: seq<Decl>, pass: Pass, k: string) returns (d: Decl)
    requires k in PassKeys(ds, pass)
    ensures d in ds && k in DeclKeys(d)
  {
    hide DeclKeys;
    var i :| 0 <= i < |ds| && PassOf(ds[i]) == pass && k in DeclKeys(ds[i]);
    d := ds[i];
  }

  // ---------------------------------------------------------------------------
  // What a complete table gives the emitted codecs

  /** The occurrence has an entry, and the entry has its structure. */
  predicate Shared(anon: Table, o: TypeExpr) {
    TypeKey(o) in anon && SameType(anon[TypeKey(o)], o)
  }

  /** Every anonymous occurrence nested in an entry is shared too: an emitted codec calls only emitted codecs. */
  ghost predicate Closed(anon: Table) {
    forall k, o :: k in anon && Nested(o, anon[k]) && Anonymous(o) ==> Shared(anon, o)
  }

  lemma {:induction false} KeyIsShared(anon: Table, o: TypeExpr)
    requires EntriesOk(anon) && NamedWell(o) && TypeKey(o) in anon
    ensures Shared(anon, o)
  {
    assert NamedWell(anon[TypeKey(o)]) && TypeKey(anon[TypeKey(o)]) == TypeKey(o);
    hide NamedWell, TypeKey, SameType;
    KeyIsStructure(anon[TypeKey(o)], o);
  }

  lemma {:induction false} NestedNamedWell(o: TypeExpr, t: TypeExpr)
    requires NamedWell(t)
    ensures Nested(o, t) || Inside(o, t) ==> NamedWell(o)
    decreases t, 1
  {
    hide IsWord, KindOf;
    assert Nested(o, t) <==> o == t || Inside(o, t);
    match t
    case ListOf(_, _, elem) => NestedNamedWell(o, elem);
    case Record(_, _, _, fields, _) => InMembersNamedWell(o, fields);
    case _ =>
  }

  lemma {:induction false} InMembersNamedWell(o: TypeExpr, fs: seq<Member>)
    requires FieldsNamedWell(fs)
    ensures InMembers(o, fs) ==> NamedWell(o)
    decreases fs, 0
  {
    if i :| 0 <= i < |fs| && Nested(o, fs[i].typ) {
      hide NamedWell, Nested, FieldsNamedWell;
      MemberNamedWell(fs, i);
      NestedNamedWell(o, fs[i].typ);
    }
  }

  lemma {:induction false} NeededNamedWell(o: TypeExpr, d: Decl)
    requires DeclNamedWell(d) && Needed(o, d)
    ensures NamedWell(o)
  {
    hide NamedWell, FieldsNamedWell, Nested, Inside, InMembers;
    match d
    case TypeDecl(_, _, _, typ, _) => NestedNamedWell(o, typ);
    case ExceptionDecl(_, _, _, payload, _) => NestedNamedWell(o, payload.value);
    case ProcDecl(_, _, _, _, params, _, result, _) =>
      InMembersNamedWell(o, params);
      if result.Some? {
        NestedNamedWell(o, result.value);
      }
  }

  lemma {:induction false} CompleteIsClosed(anon: Table)
    requires EntriesOk(anon) && AllComplete(anon)
    ensures Closed(anon)
  {
    hide NamedWell, TypeKey, Nested, Keys, Shared;
    forall k, o | k in anon && Nested(o, anon[k]) && Anonymous(o)
      ensures Shared(anon, o)
    {
      NestedHasKey(o, anon[k]);
      NestedNamedWell(o, anon[k]);
      assert Complete(anon, anon[k]);
      KeyIsShared(anon, o);
    }
  }

  // ---------------------------------------------------------------------------
  // Registering

  class CodecEmitter {
    var anon: Table
    var order: seq<string>

    ghost predicate Valid()
      reads this
    {
      EntriesOk(anon) && Listed(order, anon)
    }

    constructor ()
      ensures Valid() && anon == map[] && order == []
    {
      anon, order := map[], [];
    }

    /** `registerType`. */
    method RegisterType(t: TypeExpr)
      requires Valid() && NamedWell(t) && CompleteTo(anon, Size(t))
      modifies this
      ensures Valid() && Grows(old(anon), anon) && anon.Keys == old(anon).Keys + Keys(t) && old(order) <= order
      decreases t
    {
      hide Keys, InnerKeys, MemberKeys, NamedWell, FieldsNamedWell, TypeKey, Size, MemberSizes, Grows, CompleteTo,
           EntriesOk, Listed;
      if !Anonymous(t) {
        LeafIsDone(anon, t);
        return;
      }
      var key := TypeKey(t);
      if key in anon {
        KnownIsDone(anon, t);
        return;
      }
      ListedMore(order, anon, key, t);
      if t.ListOf? {
        ListParts(anon, t);
        anon, order := anon[key := t], order + [key];
        RegisterType(t.elem);
        ListDone(old(anon), anon, t);
      } else {
        RecordParts(anon, t);
        anon, order := anon[key := t], order + [key];
        RegisterMembers(t.fields);
        RecordDone(old(anon), anon, t);
      }
    }

    /** Every field of a record, or every parameter of a procedure. */
    method RegisterMembers(fs: seq<Member>)
      requires Valid() && FieldsNamedWell(fs) && CompleteTo(anon, MemberSizes(fs))
      modifies this
      ensures Valid() && Grows(old(anon), anon) && anon.Keys == old(anon).Keys + MemberKeys(fs) && old(order) <= order
      decreases fs
    {
      hide Keys, InnerKeys, MemberKeys, NamedWell, FieldsNamedWell, TypeKey, Size, MemberSizes, Grows, CompleteTo,
           EntriesOk, Listed;
      MembersStart(anon, fs);
      var i := 0;
      while i < |fs|
        invariant 0 <= i <= |fs| && Valid() && Grows(old(anon), anon) && old(order) <= order
        invariant anon.Keys == old(anon).Keys + MemberKeys(fs[..i])
      {
        ghost var before := anon;
        MemberReady(old(anon), anon, fs, i);
        RegisterType(fs[i].typ);
        GrowsOn(old(anon), before, anon);
        MemberKeysSnoc(fs, i);
        i := i + 1;
      }
    }

    /** `registerUnderlying`: the underlying type of a named type is inlined, only what is inside it is registered. */
    method RegisterUnderlying(t: TypeExpr)
      requires Valid() && NamedWell(t) && CompleteTo(anon, Size(t))
      modifies this
      ensures Valid() && Grows(old(anon), anon) && anon.Keys == old(anon).Keys + InnerKeys(t) && old(order) <= order
    {
      InsideReady(anon, t);
      hide Keys, MemberKeys, NamedWell, FieldsNamedWell, TypeKey, Size, MemberSizes, CompleteTo, EntriesOk, Listed,
           Complete;
      if t.ListOf? {
        RegisterType(t.elem);
      } else if t.Record? {
        RegisterMembers(t.fields);
      }
    }

    method RegisterOptional(t: Option<TypeExpr>)
      requires Valid() && OptionalNamedWell(t) && AllComplete(anon)
      modifies this
      ensures Valid() && Grows(old(anon), anon) && anon.Keys == old(anon).Keys + OptionalKeys(t) && old(order) <= order
    {
      hide Keys, NamedWell, TypeKey, CompleteTo, Size, EntriesOk, Listed, Complete;
      if t.Some? {
        AllCompleteTo(anon, Size(t.value));
        if Anonymous(t.value) {
          RegisterType(t.value);
        } else {
          LeafIsDone(anon, t.value);
        }
      }
    }

    /** What `register` does for one declaration of the kind it is at. */
    method RegisterDecl(d: Decl)
      requires Valid() && DeclNamedWell(d) && AllComplete(anon)
      modifies this
      ensures Valid() && Grows(old(anon), anon) && anon.Keys == old(anon).Keys + DeclKeys(d) && old(order) <= order
    {
      hide Keys, InnerKeys, MemberKeys, OptionalKeys, NamedWell, FieldsNamedWell, OptionalNamedWell, CompleteTo, Size,
           MemberSizes, EntriesOk,
           Listed, Grows, AllComplete;
      match d
      case TypeDecl(_, _, _, typ, _) =>
        AllCompleteTo(anon, Size(typ));
        RegisterUnderlying(typ);
      case ExceptionDecl(_, _, _, payload, _) =>
        RegisterOptional(payload);
      case ProcDecl(_, _, _, _, params, _, result, _) =>
        AllCompleteTo(anon, MemberSizes(params));
        RegisterMembers(params);
        ghost var before := anon;
        AllCompleteStays(old(anon), anon);
        RegisterOptional(result);
        GrowsOn(old(anon), before, anon);
    }

    /** One of the three loops of `register`. */
    method RegisterPass(ds: seq<Decl>, pass: Pass)
      requires Valid() && DeclsNamedWell(ds) && AllComplete(anon)
      modifies this
      ensures Valid() && AllComplete(anon) && anon.Keys == old(anon).Keys + PassKeys(ds, pass)
    {
      hide DeclKeys, DeclNamedWell, EntriesOk, Listed, Grows, AllComplete, PassKeys;
      PassStart(ds, pass);
      var i := 0;
      while i < |ds|
        invariant 0 <= i <= |ds| && Valid() && AllComplete(anon)
        invariant anon.Keys == old(anon).Keys + PassKeys(ds[..i], pass)
      {
        PassStep(ds, pass, i);
        if PassOf(ds[i]) == pass {
          ghost var before := anon;
          RegisterDecl(ds[i]);
          AllCompleteStays(before, anon);
        }
        i := i + 1;
      }
    }

    /**
     * `register`: named types, then exceptions, then procedures. Afterwards the entries are exactly the needed
     * anonymous occurrences up to structure: every one has an entry, the entry has its structure, and no other entry
     * exists.
     */
    method Register(ds: seq<Decl>)
      requires Valid() && anon == map[] && DeclsNamedWell(ds)
      modifies this
      ensures Valid() && Closed(anon)
      ensures forall d, o :: d in ds && Needed(o, d) && Anonymous(o) ==> Shared(anon, o)
      ensures forall k :: k in anon ==> exists d, o :: d in ds && Needed(o, d) && Anonymous(o) && TypeKey(o) == k
    {
      hide EntriesOk, Listed, DeclNamedWell, AllComplete, PassKeys, DeclKeys, Needed, Nested, Closed, Shared;
      AllCompleteStart(anon);
      RegisterPass(ds, Types);
      RegisterPass(ds, Exceptions);
      RegisterPass(ds, Procedures);
      CompleteIsClosed(anon);
      forall d, o | d in ds && Needed(o, d) && Anonymous(o)
        ensures Shared(anon, o)
      {
        var i :| 0 <= i < |ds| && ds[i] == d;
        NeededHasKey(o, d);
        InPass(ds, i);
        NeededNamedWell(o, d);
        KeyIsShared(anon, o);
      }
      forall k | k in anon
        ensures exists d, o :: d in ds && Needed(o, d) && Anonymous(o) && TypeKey(o) == k
      {
        var pass := if k in PassKeys(ds, Types) then Types else if k in PassKeys(ds, Exceptions) then Exceptions
            else Procedures;
        var d := FromPass(ds, pass, k);
        var o := KeyOfNeeded(k, d);
      }
    }
  }
}
