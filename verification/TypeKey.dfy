/** The codec sharing key: its text identifies the structure of a type occurrence exactly. */
module TypeKeys {
  import opened Lists
  import opened Syntax
  import opened Scanners
  import opened Layouts

  /** `typeKeyOf`. */
  function TypeKey(t: TypeExpr): string {
    match t
    case Primitive(_, name) => name.lit
    case Named(_, name) => name.lit
    case ListOf(_, _, elem) => "list " + TypeKey(elem)
    case Record(_, _, _, fields, _) => "record{" + FieldKeys(fields) + "}"
  }

  /** Fields separated by semicolons. */
  function FieldKeys(fs: seq<Member>): string {
    if fs == [] then ""
    else fs[0].name.lit + " " + TypeKey(fs[0].typ) + (if |fs| == 1 then "" else ";" + FieldKeys(fs[1..]))
  }

  /** `sameType`: equal structure, whatever the documents and positions. */
  predicate SameType(a: TypeExpr, b: TypeExpr) {
    match a
    case Primitive(_, name) => b.Primitive? && name.lit == b.name.lit
    case Named(_, name) => b.Named? && name.lit == b.name.lit
    case ListOf(_, _, elem) => b.ListOf? && SameType(elem, b.elem)
    case Record(_, _, _, fields, _) => b.Record? && SameFields(fields, b.fields)
  }

  predicate SameFields(fs: seq<Member>, gs: seq<Member>) {
    if fs == [] then gs == []
    else gs != [] && fs[0].name.lit == gs[0].name.lit && SameType(fs[0].typ, gs[0].typ) && SameFields(fs[1..], gs[1..])
  }

  /** Names and primitives are words of the right kind. */
  predicate NamedWell(t: TypeExpr) {
    match t
    case Primitive(_, name) => IsWord(name.lit) && Is(name, PrimitiveWord)
    case Named(_, name) => IsWord(name.lit) && Is(name, Identifier)
    case ListOf(_, _, elem) => NamedWell(elem)
    case Record(_, _, _, fields, _) => FieldsNamedWell(fields)
  }

  predicate FieldsNamedWell(fs: seq<Member>) {
    fs == [] || (IsWord(fs[0].name.lit) && NamedWell(fs[0].typ) && FieldsNamedWell(fs[1..]))
  }

  // ---------------------------------------------------------------------------
  // Equal structure gives equal text

  lemma {:induction false} SameGivesKey(a: TypeExpr, b: TypeExpr)
    requires SameType(a, b)
    ensures TypeKey(a) == TypeKey(b)
    decreases a, 1
  {
    match a
    case ListOf(_, _, elem) => SameGivesKey(elem, b.elem);
    case Record(_, _, _, fields, _) => SameGivesFieldKeys(fields, b.fields);
    case _ =>
  }

  lemma {:induction false} SameGivesFieldKeys(fs: seq<Member>, gs: seq<Member>)
    requires SameFields(fs, gs)
    ensures FieldKeys(fs) == FieldKeys(gs)
    decreases fs, 0
  {
    if fs != [] {
      SameGivesKey(fs[0].typ, gs[0].typ);
      SameGivesFieldKeys(fs[1..], gs[1..]);
      if |fs| == 1 {
        assert fs[1..] == [];
      } else {
        assert gs[1..] != [];
      }
    }
  }

  // ---------------------------------------------------------------------------
  // Equal text gives equal structure: the first word and the byte after it decide the form

  /** What may follow a complete key: nothing, or the separator or the end of an enclosing record. */
  predicate Stops(rest: string) {
    rest == "" || rest[0] == ';' || rest[0] == '}'
  }

  /** The text starts with this word, and the word ends there. */
  predicate Begins(s: string, w: string) {
    |w| <= |s| && s[..|w|] == w && IsWord(w) && (|w| < |s| ==> !IsIdentPart(s[|w|]))
  }

  lemma {:induction false} OneWord(s: string, a: string, b: string)
    requires Begins(s, a) && Begins(s, b)
    ensures a == b
  {
    hide IsIdentPart, IsIdentStart;
    assert forall i :: 0 <= i < |a| ==> s[i] == a[i];
    assert forall i :: 0 <= i < |b| ==> s[i] == b[i];
    assert |a| == |b|;
    assert a == s[..|a|] && b == s[..|b|];
  }

  lemma {:induction false} WordBegins(w: string, rest: string)
    requires IsWord(w) && (rest == "" || !IsIdentPart(rest[0]))
    ensures Begins(w + rest, w) && (w + rest)[|w|..] == rest
  {
    hide IsIdentPart, IsIdentStart, IsWord;
    assert rest != "" ==> (w + rest)[|w|] == rest[0];
  }

  /** The first word of a key. */
  function Head(t: TypeExpr): string {
    match t
    case Primitive(_, name) => name.lit
    case Named(_, name) => name.lit
    case ListOf(_, _, _) => "list"
    case Record(_, _, _, _, _) => "record"
  }

  /** What follows it. */
  function Rest(t: TypeExpr): string {
    match t
    case ListOf(_, _, elem) => " " + TypeKey(elem)
    case Record(_, _, _, fields, _) => "{" + FieldKeys(fields) + "}"
    case _ => ""
  }

  lemma {:induction false} KeyShape(t: TypeExpr)
    ensures TypeKey(t) == Head(t) + Rest(t)
    ensures Rest(t) != "" ==> Rest(t)[0] == ' ' || Rest(t)[0] == '{'
  {
    assert "list " == "list" + " " && "record{" == "record" + "{";
    match t
    case ListOf(_, _, elem) => assert "list " + TypeKey(elem) == "list" + (" " + TypeKey(elem));
    case Record(_, _, _, fields, _) =>
      assert "record{" + FieldKeys(fields) + "}" == "record" + ("{" + FieldKeys(fields) + "}");
    case _ => assert Head(t) + "" == Head(t);
  }

  lemma {:induction false} KeyBegins(t: TypeExpr, x: string)
    requires NamedWell(t) && Stops(x)
    ensures Begins(TypeKey(t) + x, Head(t)) && (TypeKey(t) + x)[|Head(t)|..] == Rest(t) + x
  {
    hide *;
    HeadIsWord(t);
    KeyShape(t);
    AfterHead(Rest(t), x);
    assert Head(t) + Rest(t) + x == Head(t) + (Rest(t) + x);
    WordBegins(Head(t), Rest(t) + x);
  }

  lemma {:induction false} AfterHead(rest: string, x: string)
    requires (rest != "" ==> rest[0] == ' ' || rest[0] == '{') && Stops(x)
    ensures rest + x == "" || !IsIdentPart((rest + x)[0])
  {
  }

  lemma {:induction false} HeadIsWord(t: TypeExpr)
    requires NamedWell(t)
    ensures IsWord(Head(t))
  {
    hide KindOf;
  }

  lemma {:induction false} HeadDecides(a: TypeExpr, b: TypeExpr)
    requires NamedWell(a) && NamedWell(b) && Head(a) == Head(b)
    ensures a.Primitive? == b.Primitive? && a.Named? == b.Named? && a.ListOf? == b.ListOf? && a.Record? == b.Record?
  {
    assert KindOf("list") == ListWord && KindOf("record") == RecordWord;
    assert "list" != "record";
    hide KindOf, IsWord;
  }

  lemma {:induction false} KeyDetermines(a: TypeExpr, b: TypeExpr, x: string, y: string)
    requires NamedWell(a) && NamedWell(b) && Stops(x) && Stops(y) && TypeKey(a) + x == TypeKey(b) + y
    ensures SameType(a, b) && x == y
    decreases a, 1
  {
    hide KindOf, Begins, IsWord, Head, TypeKey, FieldKeys, FieldsNamedWell, SameFields, Stops;
    SameHead(a, b, x, y);
    match a
    case ListOf(_, _, elem) =>
      ListRest(elem, x);
      ListRest(b.elem, y);
      Unspace(TypeKey(elem) + x, TypeKey(b.elem) + y);
      KeyDetermines(elem, b.elem, x, y);
    case Record(_, _, _, fields, _) =>
      RecordRest(fields, x);
      RecordRest(b.fields, y);
      FieldsDetermine(fields, b.fields, x, y);
    case _ =>
      HeadOfLeaf(a);
      HeadOfLeaf(b);
      assert "" + x == x && "" + y == y;
  }

  lemma {:induction false} SameHead(a: TypeExpr, b: TypeExpr, x: string, y: string)
    requires NamedWell(a) && NamedWell(b) && Stops(x) && Stops(y) && TypeKey(a) + x == TypeKey(b) + y
    ensures Head(a) == Head(b) && Rest(a) + x == Rest(b) + y
    ensures a.Primitive? == b.Primitive? && a.Named? == b.Named? && a.ListOf? == b.ListOf? && a.Record? == b.Record?
  {
    hide *;
    KeyBegins(a, x);
    KeyBegins(b, y);
    OneWord(TypeKey(a) + x, Head(a), Head(b));
    HeadDecides(a, b);
  }

  lemma {:induction false} ListRest(elem: TypeExpr, x: string)
    ensures " " + TypeKey(elem) + x == " " + (TypeKey(elem) + x)
  {
  }

  lemma {:induction false} RecordRest(fs: seq<Member>, x: string)
    ensures ("{" + FieldKeys(fs) + "}" + x)[1..] == FieldKeys(fs) + ("}" + x)
  {
    hide FieldKeys;
  }

  lemma {:induction false} HeadOfLeaf(t: TypeExpr)
    requires t.Primitive? || t.Named?
    ensures Head(t) == t.name.lit
  {
  }

  lemma {:induction false} KeyRegroups(name: string, key: string, more: string, rest: string)
    ensures name + " " + key + more + rest == name + (" " + (key + (more + rest)))
  {
  }

  lemma {:induction false} FieldStarts(fs: seq<Member>, x: string)
    requires fs != [] && FieldsNamedWell(fs)
    ensures var after := if |fs| == 1 then "}" + x else ";" + (FieldKeys(fs[1..]) + ("}" + x));
            var s := FieldKeys(fs) + ("}" + x);
            Begins(s, fs[0].name.lit) && s[|fs[0].name.lit|..] == " " + (TypeKey(fs[0].typ) + after) && Stops(after)
  {
    var name, key := fs[0].name.lit, TypeKey(fs[0].typ);
    var more := if |fs| == 1 then "" else ";" + FieldKeys(fs[1..]);
    var after := if |fs| == 1 then "}" + x else ";" + (FieldKeys(fs[1..]) + ("}" + x));
    assert FieldKeys(fs) == name + " " + key + more;
    hide TypeKey, FieldKeys, IsWord, NamedWell;
    Regroup(";", if |fs| == 1 then "" else FieldKeys(fs[1..]), "}" + x);
    assert more + ("}" + x) == after;
    KeyRegroups(name, key, more, "}" + x);
    WordBegins(name, " " + (key + after));
  }

  lemma {:induction false} FieldsDetermine(fs: seq<Member>, gs: seq<Member>, x: string, y: string)
    requires FieldsNamedWell(fs) && FieldsNamedWell(gs) && FieldKeys(fs) + ("}" + x) == FieldKeys(gs) + ("}" + y)
    ensures SameFields(fs, gs) && x == y
    decreases fs, 0
  {
    hide Begins, IsWord, NamedWell, SameType, TypeKey;
    if fs == [] || gs == [] {
      FieldsOrNone(fs, x);
      FieldsOrNone(gs, y);
      assert ("}" + x)[1..] == x && ("}" + y)[1..] == y;
    } else {
      FieldStarts(fs, x);
      FieldStarts(gs, y);
      hide FieldKeys;
      OneWord(FieldKeys(fs) + ("}" + x), fs[0].name.lit, gs[0].name.lit);
      var u := if |fs| == 1 then "}" + x else ";" + (FieldKeys(fs[1..]) + ("}" + x));
      var v := if |gs| == 1 then "}" + y else ";" + (FieldKeys(gs[1..]) + ("}" + y));
      Unspace(TypeKey(fs[0].typ) + u, TypeKey(gs[0].typ) + v);
      KeyDetermines(fs[0].typ, gs[0].typ, u, v);
      assert u[0] == v[0];
      assert (|fs| == 1) == (|gs| == 1);
      assert u[1..] == v[1..];
      if |fs| == 1 {
        assert fs[1..] == [] && gs[1..] == [];
        assert ("}" + x)[1..] == x && ("}" + y)[1..] == y;
      } else {
        assert (";" + (FieldKeys(fs[1..]) + ("}" + x)))[1..] == FieldKeys(fs[1..]) + ("}" + x);
        assert (";" + (FieldKeys(gs[1..]) + ("}" + y)))[1..] == FieldKeys(gs[1..]) + ("}" + y);
        FieldsDetermine(fs[1..], gs[1..], x, y);
      }
    }
  }

  lemma {:induction false} Unspace(a: string, b: string)
    requires " " + a == " " + b
    ensures a == b
  {
    assert (" " + a)[1..] == a && (" " + b)[1..] == b;
  }

  /** No fields, or a text that does not start with the closing brace. */
  lemma {:induction false} FieldsOrNone(fs: seq<Member>, x: string)
    requires FieldsNamedWell(fs)
    ensures var s := FieldKeys(fs) + ("}" + x); s[0] == '}' <==> fs == []
    ensures fs == [] ==> FieldKeys(fs) + ("}" + x) == "}" + x
  {
    if fs != [] {
      FieldStarts(fs, x);
      hide FieldKeys, TypeKey;
      var s := FieldKeys(fs) + ("}" + x);
      assert s[..|fs[0].name.lit|][0] == s[0];
    }
  }

  /** The key text of two occurrences is equal exactly when their structure is. */
  lemma {:induction false} KeyIsStructure(a: TypeExpr, b: TypeExpr)
    requires NamedWell(a) && NamedWell(b)
    ensures TypeKey(a) == TypeKey(b) <==> SameType(a, b)
  {
    hide NamedWell, TypeKey, SameType;
    if TypeKey(a) == TypeKey(b) {
      assert TypeKey(a) + "" == TypeKey(b) + "";
      KeyDetermines(a, b, "", "");
    }
    if SameType(a, b) {
      SameGivesKey(a, b);
    }
  }
}
