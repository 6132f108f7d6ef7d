/**
 * The validator of the interface language: scopes, earlier type references and keys. What it accepts is stated
 * without its maps, and its explicit work stack is proved against that.
 */
module Validators {
  import opened Leaves
  import opened Syntax
  import opened Marks

  // ---------------------------------------------------------------------------
  // What a valid interface is

  /** Every name refers to one of the given types, and every record has distinct field names. */
  predicate TypeOk(types: set<string>, t: TypeExpr) {
    match t
    case Primitive(_, _) => true
    case Named(_, name) => name.lit in types
    case ListOf(_, _, elem) => TypeOk(types, elem)
    case Record(_, _, _, fields, _) => Distinct(fields) && MembersOk(types, fields)
  }

  predicate MembersOk(types: set<string>, fs: seq<Member>) {
    fs == [] || (TypeOk(types, fs[0].typ) && MembersOk(types, fs[1..]))
  }

  predicate Distinct(fs: seq<Member>) {
    forall i, j :: 0 <= i < j < |fs| ==> fs[i].name.lit != fs[j].name.lit
  }

  predicate OptionalOk(types: set<string>, t: Option<TypeExpr>) {
    t.Some? ==> TypeOk(types, t.value)
  }

  predicate DeclOk(types: set<string>, d: Decl) {
    match d
    case TypeDecl(_, _, _, typ, _) => TypeOk(types, typ)
    case ExceptionDecl(_, _, _, payload, _) => OptionalOk(types, payload)
    case ProcDecl(_, _, _, _, params, _, result, _) =>
        Distinct(params) && MembersOk(types, params) && OptionalOk(types, result)
  }

  /** The type names declared before position `n`. */
  function TypesBefore(ds: seq<Decl>, n: nat): set<string>
    requires n <= |ds|
  {
    set i | 0 <= i < n && ds[i].TypeDecl? :: ds[i].name.lit
  }

  /** Procedure and exception keys, by an arbitrary key function. */
  function KeyOf(key: (string, string) -> nat, d: Decl): nat {
    key(if d.ProcDecl? then "procedure" else "exception", d.name.lit)
  }

  ghost predicate ValidInterface(key: (string, string) -> nat, ds: seq<Decl>) {
    && (forall i, j :: 0 <= i < j < |ds| ==> ds[i].name.lit != ds[j].name.lit)
    && (forall i :: 0 <= i < |ds| ==> DeclOk(TypesBefore(ds, i), ds[i]))
    && (forall i :: 0 <= i < |ds| && !ds[i].TypeDecl? ==> KeyOf(key, ds[i]) != 0)
    && (forall i, j :: 0 <= i < j < |ds| && !ds[i].TypeDecl? && !ds[j].TypeDecl? ==>
       KeyOf(key, ds[i]) != KeyOf(key, ds[j]))
  }

  // ---------------------------------------------------------------------------
  // The work stack

  datatype Work =
    | Visit(t: TypeExpr)
    | Fields(rest: seq<Member>, seen: set<string>)

  predicate Unseen(fs: seq<Member>, seen: set<string>) {
    forall i :: 0 <= i < |fs| ==> fs[i].name.lit !in seen
  }

  predicate WorkOk(types: set<string>, w: Work) {
    match w
    case Visit(t) => TypeOk(types, t)
    case Fields(rest, seen) => Unseen(rest, seen) && Distinct(rest) && MembersOk(types, rest)
  }

  predicate StackOk(types: set<string>, stack: seq<Work>) {
    forall i :: 0 <= i < |stack| ==> WorkOk(types, stack[i])
  }

  function WorkSize(w: Work): nat {
    match w
    case Visit(t) => |TypeTokens(t)|
    case Fields(rest, _) => |MemberTokens(rest)| + 1
  }

  function StackSize(stack: seq<Work>): nat {
    if stack == [] then 0 else WorkSize(stack[|stack| - 1]) + StackSize(stack[..|stack| - 1])
  }

  lemma {:induction false} StackPush(types: set<string>, base: seq<Work>, w: Work)
    ensures StackOk(types, base + [w]) <==> StackOk(types, base) && WorkOk(types, w)
    ensures StackSize(base + [w]) == WorkSize(w) + StackSize(base)
  {
    hide WorkOk, WorkSize;
    var s := base + [w];
    assert s[|base|] == w && s[..|base|] == base;
    assert forall i :: 0 <= i < |base| ==> s[i] == base[i];
  }

  lemma {:induction false} FieldsStep(types: set<string>, fs: seq<Member>, seen: set<string>)
    requires fs != []
    ensures WorkOk(types, Fields(fs, seen)) <==>
            fs[0].name.lit !in seen && WorkOk(types, Fields(fs[1..], seen + {fs[0].name.lit}))
                && TypeOk(types, fs[0].typ)
    ensures WorkSize(Fields(fs, seen)) > WorkSize(Fields(fs[1..], seen + {fs[0].name.lit})) + WorkSize(Visit(fs[0].typ))
  {
    hide TypeOk, TypeTokens;
    var rest := fs[1..];
    assert forall i :: 0 <= i < |rest| ==> rest[i] == fs[i + 1];
    assert forall i :: 1 <= i < |fs| ==> fs[i] == rest[i - 1];
  }

  /** `typeSpec`. */
  method CheckType(types: set<string>, t: TypeExpr) returns (ok: bool)
    ensures ok <==> TypeOk(types, t)
  {
    hide WorkOk, WorkSize, StackOk, StackSize;
    var stack := [Visit(t)];
    StartWork(types, t);
    while stack != []
      invariant StackOk(types, stack) <==> TypeOk(types, t)
      decreases StackSize(stack)
    {
      var top, base := stack[|stack| - 1], stack[..|stack| - 1];
      assert stack == base + [top];
      StackPush(types, base, top);
      match top {
        case Visit(Named(_, name)) =>
          VisitStep(types, top.t);
          if name.lit !in types {
            return false;
          }
          stack := base;
        case Visit(ListOf(_, _, elem)) =>
          VisitStep(types, top.t);
          StackPush(types, base, Visit(elem));
          stack := base + [Visit(elem)];
        case Visit(Record(_, _, _, fields, _)) =>
          VisitStep(types, top.t);
          StackPush(types, base, Fields(fields, {}));
          stack := base + [Fields(fields, {})];
        case Visit(Primitive(_, _)) =>
          VisitStep(types, top.t);
          stack := base;
        case Fields(rest, seen) =>
          if rest == [] {
            NoFields(types, seen);
            stack := base;
          } else {
            FieldsStep(types, rest, seen);
            VisitWork(types, rest[0].typ);
            var name := rest[0].name.lit;
            if name in seen {
              return false;
            }
            var next := Fields(rest[1..], seen + {name});
            StackPush(types, base, next);
            StackPush(types, base + [next], Visit(rest[0].typ));
            stack := base + [next] + [Visit(rest[0].typ)];
          }
      }
    }
    EmptyWork(types);
    return true;
  }

  lemma {:induction false} StartWork(types: set<string>, t: TypeExpr)
    ensures StackOk(types, [Visit(t)]) <==> TypeOk(types, t)
  {
    StackPush(types, [], Visit(t));
    assert [] + [Visit(t)] == [Visit(t)];
  }

  lemma {:induction false} EmptyWork(types: set<string>)
    ensures StackOk(types, [])
  {
  }

  lemma {:induction false} NoFields(types: set<string>, seen: set<string>)
    ensures WorkOk(types, Fields([], seen)) && WorkSize(Fields([], seen)) == 1
  {
  }

  lemma {:induction false} VisitWork(types: set<string>, t: TypeExpr)
    ensures WorkOk(types, Visit(t)) <==> TypeOk(types, t)
  {
  }

  lemma {:induction false} VisitStep(types: set<string>, t: TypeExpr)
    ensures WorkSize(Visit(t)) > 0
    ensures t.Primitive? ==> WorkOk(types, Visit(t))
    ensures t.Named? ==> (WorkOk(types, Visit(t)) <==> t.name.lit in types)
    ensures t.ListOf? ==> (WorkOk(types, Visit(t)) <==> WorkOk(types, Visit(t.elem)))
                          && WorkSize(Visit(t.elem)) < WorkSize(Visit(t))
    ensures t.Record? ==> (WorkOk(types, Visit(t)) <==> WorkOk(types, Fields(t.fields, {})))
                          && WorkSize(Fields(t.fields, {})) < WorkSize(Visit(t))
  {
  }

  // ---------------------------------------------------------------------------
  // Declarations

  class Validator {
    const key: (string, string) -> nat
    var global: set<string>
    var types: set<string>
    var keys: set<nat>

    constructor (key: (string, string) -> nat)
      ensures this.key == key && global == {} && types == {} && keys == {}
    {
      this.key, global, types, keys := key, {}, {}, {};
    }

    method CheckMembers(fs: seq<Member>) returns (ok: bool)
      ensures ok <==> Distinct(fs) && MembersOk(types, fs)
    {
      hide TypeOk;
      var seen: set<string>, i := {}, 0;
      assert fs[0..] == fs;
      while i < |fs|
        invariant 0 <= i <= |fs|
        invariant (Distinct(fs) && MembersOk(types, fs)) <==> WorkOk(types, Fields(fs[i..], seen))
      {
        FieldsStep(types, fs[i..], seen);
        assert fs[i..][1..] == fs[i + 1..];
        if fs[i].name.lit in seen {
          return false;
        }
        seen := seen + {fs[i].name.lit};
        var good := CheckType(types, fs[i].typ);
        if !good {
          return false;
        }
        i := i + 1;
      }
      NoFields(types, seen);
      return true;
    }

    /** One declaration: its global name, its types, then its key. */
    method Check(d: Decl) returns (ok: bool)
      modifies this
      ensures ok <==> && d.name.lit !in old(global) && DeclOk(old(types), d)
                      && (!d.TypeDecl? ==> KeyOf(key, d) != 0 && KeyOf(key, d) !in old(keys))
      ensures ok ==> global == old(global) + {d.name.lit}
      ensures ok ==> types == old(types) + (if d.TypeDecl? then {d.name.lit} else {})
      ensures ok ==> keys == old(keys) + (if d.TypeDecl? then {} else {KeyOf(key, d)})
    {
      hide TypeOk, MembersOk, Distinct;
      if d.name.lit in global {
        return false;
      }
      global := global + {d.name.lit};
      match d {
        case TypeDecl(_, _, name, typ, _) =>
          ok := CheckType(types, typ);
          if ok {
            types := types + {name.lit};
          }
          return;
        case ExceptionDecl(_, _, _, payload, _) =>
          if payload.Some? {
            ok := CheckType(types, payload.value);
            if !ok {
              return;
            }
          }
        case ProcDecl(_, _, _, _, params, _, result, _) =>
          ok := CheckMembers(params);
          if !ok {
            return;
          }
          if result.Some? {
            ok := CheckType(types, result.value);
            if !ok {
              return;
            }
          }
      }
      var k := KeyOf(key, d);
      if k == 0 || k in keys {
        return false;
      }
      keys := keys + {k};
      return true;
    }
  }

  function NamesBefore(ds: seq<Decl>, n: nat): set<string>
    requires n <= |ds|
  {
    set i | 0 <= i < n :: ds[i].name.lit
  }

  function KeysBefore(key: (string, string) -> nat, ds: seq<Decl>, n: nat): set<nat>
    requires n <= |ds|
  {
    set i | 0 <= i < n && !ds[i].TypeDecl? :: KeyOf(key, ds[i])
  }

  /** The part of validity that concerns the declaration at `i`. */
  ghost predicate ValidAt(key: (string, string) -> nat, ds: seq<Decl>, i: nat)
    requires i < |ds|
  {
    && ds[i].name.lit !in NamesBefore(ds, i) && DeclOk(TypesBefore(ds, i), ds[i])
    && (!ds[i].TypeDecl? ==> KeyOf(key, ds[i]) != 0 && KeyOf(key, ds[i]) !in KeysBefore(key, ds, i))
  }

  lemma {:induction false} ValidEach(key: (string, string) -> nat, ds: seq<Decl>)
    ensures ValidInterface(key, ds) <==> forall i :: 0 <= i < |ds| ==> ValidAt(key, ds, i)
  {
    hide DeclOk, KeyOf;
    if forall i :: 0 <= i < |ds| ==> ValidAt(key, ds, i) {
      forall i, j | 0 <= i < j < |ds|
        ensures ds[i].name.lit != ds[j].name.lit
        ensures !ds[i].TypeDecl? && !ds[j].TypeDecl? ==> KeyOf(key, ds[i]) != KeyOf(key, ds[j])
      {
        assert ValidAt(key, ds, j);
        assert ds[i].name.lit in NamesBefore(ds, j);
        assert !ds[i].TypeDecl? ==> KeyOf(key, ds[i]) in KeysBefore(key, ds, j);
      }
      forall i | 0 <= i < |ds|
        ensures DeclOk(TypesBefore(ds, i), ds[i]) && (!ds[i].TypeDecl? ==> KeyOf(key, ds[i]) != 0)
      {
        assert ValidAt(key, ds, i);
      }
    }
    if ValidInterface(key, ds) {
      forall i | 0 <= i < |ds|
        ensures ValidAt(key, ds, i)
      {
      }
    }
  }

  lemma {:induction false} ScopesGrow(key: (string, string) -> nat, ds: seq<Decl>, i: nat)
    requires i < |ds|
    ensures NamesBefore(ds, i + 1) == NamesBefore(ds, i) + {ds[i].name.lit}
    ensures TypesBefore(ds, i + 1) == TypesBefore(ds, i) + (if ds[i].TypeDecl? then {ds[i].name.lit} else {})
    ensures KeysBefore(key, ds, i + 1) == KeysBefore(key, ds, i) + (if ds[i].TypeDecl? then {} else {KeyOf(key, ds[i])})
  {
    hide KeyOf;
  }

  /** `Validate`: the interface is accepted exactly when it is valid. */
  method Validate(key: (string, string) -> nat, ds: seq<Decl>) returns (ok: bool)
    ensures ok <==> ValidInterface(key, ds)
  {
    hide DeclOk, KeyOf, ValidInterface, NamesBefore, TypesBefore, KeysBefore;
    var v := new Validator(key);
    ValidEach(key, ds);
    ScopesStart(key, ds);
    var i := 0;
    while i < |ds|
      invariant 0 <= i <= |ds| && v.key == key
      invariant v.global == NamesBefore(ds, i) && v.types == TypesBefore(ds, i) && v.keys == KeysBefore(key, ds, i)
      invariant forall j :: 0 <= j < i ==> ValidAt(key, ds, j)
    {
      ScopesGrow(key, ds, i);
      var good := v.Check(ds[i]);
      assert good <==> ValidAt(key, ds, i);
      if !good {
        return false;
      }
      i := i + 1;
    }
    return true;
  }

  lemma {:induction false} ScopesStart(key: (string, string) -> nat, ds: seq<Decl>)
    ensures NamesBefore(ds, 0) == {} && TypesBefore(ds, 0) == {} && KeysBefore(key, ds, 0) == {}
  {
  }

  // ---------------------------------------------------------------------------
  // Validity ignores spans and documents

  lemma {:induction false} TypeOkPlain(types: set<string>, t: TypeExpr)
    ensures TypeOk(types, PlainType(t)) <==> TypeOk(types, t)
    decreases t, 1
  {
    match t
    case ListOf(_, _, elem) => TypeOkPlain(types, elem);
    case Record(_, _, _, fields, _) => MembersOkPlain(types, fields);
    case _ =>
  }

  lemma {:induction false} MembersOkPlain(types: set<string>, fs: seq<Member>)
    ensures MembersOk(types, PlainMembers(fs)) <==> MembersOk(types, fs)
    ensures Distinct(PlainMembers(fs)) <==> Distinct(fs)
    decreases fs, 0
  {
    PlainNames(fs);
    if fs != [] {
      TypeOkPlain(types, fs[0].typ);
      MembersOkPlain(types, fs[1..]);
      assert PlainMembers(fs)[1..] == PlainMembers(fs[1..]);
    }
  }

  lemma {:induction false} PlainNames(fs: seq<Member>)
    ensures forall i :: 0 <= i < |fs| ==> PlainMembers(fs)[i].name.lit == fs[i].name.lit
    decreases |fs|
  {
    if fs != [] {
      PlainNames(fs[1..]);
      assert PlainMembers(fs)[1..] == PlainMembers(fs[1..]);
      forall i | 0 <= i < |fs|
        ensures PlainMembers(fs)[i].name.lit == fs[i].name.lit
      {
        assert i > 0 ==> PlainMembers(fs)[i] == PlainMembers(fs[1..])[i - 1] && fs[i] == fs[1..][i - 1];
      }
    }
  }

  lemma {:induction false} DeclOkPlain(types: set<string>, d: Decl)
    ensures DeclOk(types, PlainDecl(d)) <==> DeclOk(types, d)
  {
    hide TypeOk, MembersOk, Distinct, PlainType, PlainMembers;
    match d
    case TypeDecl(_, _, _, typ, _) => TypeOkPlain(types, typ);
    case ExceptionDecl(_, _, _, payload, _) => if payload.Some? { TypeOkPlain(types, payload.value); }
    case ProcDecl(_, _, _, _, params, _, result, _) =>
      MembersOkPlain(types, params);
      if result.Some? { TypeOkPlain(types, result.value); }
  }

  lemma {:induction false} PlainAt(ds: seq<Decl>, i: nat)
    requires i < |ds|
    ensures PlainDecls(ds)[i] == PlainDecl(ds[i])
    decreases |ds|
  {
    hide PlainDecl;
    if i > 0 {
      PlainAt(ds[1..], i - 1);
    }
  }

  lemma {:induction false} ValidPlain(key: (string, string) -> nat, ds: seq<Decl>)
    ensures ValidInterface(key, PlainDecls(ds)) <==> ValidInterface(key, ds)
  {
    var ps := PlainDecls(ds);
    forall i | 0 <= i < |ds|
      ensures ps[i].name.lit == ds[i].name.lit && ps[i].TypeDecl? == ds[i].TypeDecl?
      ensures KeyOf(key, ps[i]) == KeyOf(key, ds[i])
      ensures forall types :: DeclOk(types, ps[i]) <==> DeclOk(types, ds[i])
      ensures TypesBefore(ps, i) == TypesBefore(ds, i)
    {
      PlainAt(ds, i);
      forall types
        ensures DeclOk(types, ps[i]) <==> DeclOk(types, ds[i])
      {
        DeclOkPlain(types, ds[i]);
      }
      hide DeclOk, PlainDecls;
      forall j | 0 <= j < i
        ensures ps[j].name.lit == ds[j].name.lit && ps[j].TypeDecl? == ds[j].TypeDecl?
      {
        PlainAt(ds, j);
      }
    }
    hide DeclOk, KeyOf, PlainDecls, TypesBefore;
  }
}
