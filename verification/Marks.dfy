/**
 * A syntax tree seen as the sequence of its tokens, each with the document that belongs directly before it. Parsing
 * tokens with those texts and attaching those documents gives the tree back, up to spans.
 */
module Marks {
  import opened Leaves
  import opened Syntax

  datatype Mark = Mark(lit: string, doc: string)

  function Bare(tok: Token): Mark {
    Mark(tok.lit, "")
  }

  function TypeMarks(t: TypeExpr): (r: seq<Mark>)
    ensures r != []
  {
    match t
    case Primitive(doc, name) => [Mark(name.lit, doc)]
    case Named(doc, name) => [Mark(name.lit, doc)]
    case ListOf(doc, word, elem) => [Mark(word.lit, doc)] + TypeMarks(elem)
    case Record(doc, word, lbrace, fields, rbrace) =>
        [Mark(word.lit, doc), Bare(lbrace)] + MemberMarks(fields) + [Bare(rbrace)]
  }

  function MemberMarks(fs: seq<Member>): seq<Mark> {
    if fs == [] then []
    else [Mark(fs[0].name.lit, fs[0].doc)] + TypeMarks(fs[0].typ) + [Bare(fs[0].semi)] + MemberMarks(fs[1..])
  }

  function OptionalMarks(t: Option<TypeExpr>): seq<Mark> {
    if t.Some? then TypeMarks(t.value) else []
  }

  function DeclMarks(d: Decl): (r: seq<Mark>)
    ensures r != []
  {
    match d
    case TypeDecl(doc, word, name, typ, semi) => [Mark(word.lit, doc), Bare(name)] + TypeMarks(typ) + [Bare(semi)]
    case ExceptionDecl(doc, word, name, payload, semi) =>
      [Mark(word.lit, doc), Bare(name)] + OptionalMarks(payload) + [Bare(semi)]
    case ProcDecl(doc, word, name, lbrace, params, rbrace, result, semi) =>
      [Mark(word.lit, doc), Bare(name), Bare(lbrace)] + MemberMarks(params) + [Bare(rbrace)] + OptionalMarks(result)
          + [Bare(semi)]
  }

  function DeclsMarks(ds: seq<Decl>): seq<Mark> {
    if ds == [] then [] else DeclMarks(ds[0]) + DeclsMarks(ds[1..])
  }

  // ---------------------------------------------------------------------------
  // Filling the documentation slots: every slot is named by the offset of its anchor token

  function AttachType(docAt: nat -> string, t: TypeExpr): TypeExpr {
    match t
    case Primitive(_, name) => Primitive(docAt(name.start), name)
    case Named(_, name) => Named(docAt(name.start), name)
    case ListOf(_, word, elem) => ListOf(docAt(word.start), word, AttachType(docAt, elem))
    case Record(_, word, lbrace, fields, rbrace) =>
      Record(docAt(word.start), word, lbrace, AttachMembers(docAt, fields), rbrace)
  }

  function AttachMembers(docAt: nat -> string, fs: seq<Member>): (r: seq<Member>)
    ensures |r| == |fs|
  {
    if fs == [] then []
    else
      [Member(docAt(fs[0].name.start), fs[0].name, AttachType(docAt, fs[0].typ), fs[0].semi)]
      + AttachMembers(docAt, fs[1..])
  }

  function AttachOptional(docAt: nat -> string, t: Option<TypeExpr>): Option<TypeExpr> {
    if t.Some? then Some(AttachType(docAt, t.value)) else None
  }

  function AttachDecl(docAt: nat -> string, d: Decl): Decl {
    match d
    case TypeDecl(_, word, name, typ, semi) => TypeDecl(docAt(word.start), word, name, AttachType(docAt, typ), semi)
    case ExceptionDecl(_, word, name, payload, semi) =>
      ExceptionDecl(docAt(word.start), word, name, AttachOptional(docAt, payload), semi)
    case ProcDecl(_, word, name, lbrace, params, rbrace, result, semi) =>
      ProcDecl(docAt(word.start), word, name, lbrace, AttachMembers(docAt, params), rbrace,
          AttachOptional(docAt, result), semi)
  }

  function AttachDecls(docAt: nat -> string, ds: seq<Decl>): (r: seq<Decl>)
    ensures |r| == |ds|
  {
    if ds == [] then [] else [AttachDecl(docAt, ds[0])] + AttachDecls(docAt, ds[1..])
  }

  // ---------------------------------------------------------------------------
  // Trees up to spans

  function Loose(tok: Token): Token {
    Token(tok.lit, 0, 0)
  }

  function PlainType(t: TypeExpr): TypeExpr {
    match t
    case Primitive(doc, name) => Primitive(doc, Loose(name))
    case Named(doc, name) => Named(doc, Loose(name))
    case ListOf(doc, word, elem) => ListOf(doc, Loose(word), PlainType(elem))
    case Record(doc, word, lbrace, fields, rbrace) =>
      Record(doc, Loose(word), Loose(lbrace), PlainMembers(fields), Loose(rbrace))
  }

  function PlainMembers(fs: seq<Member>): (r: seq<Member>)
    ensures |r| == |fs|
  {
    if fs == [] then []
    else [Member(fs[0].doc, Loose(fs[0].name), PlainType(fs[0].typ), Loose(fs[0].semi))] + PlainMembers(fs[1..])
  }

  function PlainOptional(t: Option<TypeExpr>): Option<TypeExpr> {
    if t.Some? then Some(PlainType(t.value)) else None
  }

  function PlainDecl(d: Decl): Decl {
    match d
    case TypeDecl(doc, word, name, typ, semi) => TypeDecl(doc, Loose(word), Loose(name), PlainType(typ), Loose(semi))
    case ExceptionDecl(doc, word, name, payload, semi) =>
      ExceptionDecl(doc, Loose(word), Loose(name), PlainOptional(payload), Loose(semi))
    case ProcDecl(doc, word, name, lbrace, params, rbrace, result, semi) =>
      ProcDecl(doc, Loose(word), Loose(name), Loose(lbrace), PlainMembers(params), Loose(rbrace), PlainOptional(result),
          Loose(semi))
  }

  function PlainDecls(ds: seq<Decl>): (r: seq<Decl>)
    ensures |r| == |ds|
  {
    if ds == [] then [] else [PlainDecl(ds[0])] + PlainDecls(ds[1..])
  }

  // ---------------------------------------------------------------------------
  // Parsing and attaching by the marks

  /** The tokens from `i` on have the texts of the marks, and the documents before them are those of the marks. */
  ghost predicate Matches(ts: seq<Token>, docAt: nat -> string, i: nat, ms: seq<Mark>) {
    && i + |ms| <= |ts|
    && forall k :: 0 <= k < |ms| ==> ts[i + k].lit == ms[k].lit && docAt(ts[i + k].start) == ms[k].doc
  }

  lemma {:induction false} MatchesSplit(ts: seq<Token>, docAt: nat -> string, i: nat, a: seq<Mark>, b: seq<Mark>)
    requires Matches(ts, docAt, i, a + b)
    ensures Matches(ts, docAt, i, a) && Matches(ts, docAt, i + |a|, b)
  {
    assert forall k :: 0 <= k < |a| ==> (a + b)[k] == a[k];
    forall k | 0 <= k < |b|
      ensures ts[i + |a| + k].lit == b[k].lit && docAt(ts[i + |a| + k].start) == b[k].doc
    {
      assert (a + b)[|a| + k] == b[k];
    }
  }

  lemma {:induction false} MatchesOne(ts: seq<Token>, docAt: nat -> string, i: nat, m: Mark)
    requires Matches(ts, docAt, i, [m])
    ensures i < |ts| && ts[i].lit == m.lit && docAt(ts[i].start) == m.doc && At(ts, i) == KindOf(m.lit)
  {
    hide KindOf;
    assert ts[i + 0].lit == [m][0].lit;
  }

  lemma {:induction false} TypeComesBack(ts: seq<Token>, docAt: nat -> string, i: nat, t: TypeExpr)
    requires LexedType(t) && Matches(ts, docAt, i, TypeMarks(t))
    ensures var r := ParseType(ts, i);
            r.Ok? && r.next == i + |TypeMarks(t)| && PlainType(AttachType(docAt, r.value)) == PlainType(t)
    decreases t, 1
  {
    hide KindOf, Matches, LexedMembers;
    match t
    case Primitive(doc, name) => MatchesOne(ts, docAt, i, Mark(name.lit, doc));
    case Named(doc, name) => MatchesOne(ts, docAt, i, Mark(name.lit, doc));
    case ListOf(doc, word, elem) =>
      MatchesSplit(ts, docAt, i, [Mark(word.lit, doc)], TypeMarks(elem));
      MatchesOne(ts, docAt, i, Mark(word.lit, doc));
      TypeComesBack(ts, docAt, i + 1, elem);
    case Record(doc, word, lbrace, fields, rbrace) => RecordComesBack(ts, docAt, i, t);
  }

  lemma {:induction false} RecordComesBack(ts: seq<Token>, docAt: nat -> string, i: nat, t: TypeExpr)
    requires t.Record? && LexedType(t) && Matches(ts, docAt, i, TypeMarks(t))
    ensures var r := ParseType(ts, i);
            r.Ok? && r.next == i + |TypeMarks(t)| && PlainType(AttachType(docAt, r.value)) == PlainType(t)
    decreases t, 0
  {
    hide KindOf, Matches, LexedMembers, ParseMembers, MemberMarks, AttachMembers, PlainMembers;
    var head, open := Mark(t.word.lit, t.doc), Bare(t.lbrace);
    var tail := MemberMarks(t.fields) + [Bare(t.rbrace)];
    assert TypeMarks(t) == [head] + ([open] + tail);
    MatchesSplit(ts, docAt, i, [head], [open] + tail);
    MatchesSplit(ts, docAt, i + 1, [open], tail);
    MatchesOne(ts, docAt, i, head);
    MatchesOne(ts, docAt, i + 1, open);
    MembersComeBack(ts, docAt, i + 2, t.fields, t.rbrace, FieldOrRBrace);
    var b := ParseMembers(ts, i + 2, FieldOrRBrace);
    assert [] + b.value.members == b.value.members;
  }

  lemma {:induction false} MarksRegroup(fs: seq<Member>, after: seq<Mark>)
    requires fs != []
    ensures MemberMarks(fs) + after ==
            [Mark(fs[0].name.lit, fs[0].doc)]
            + (TypeMarks(fs[0].typ) + ([Bare(fs[0].semi)] + (MemberMarks(fs[1..]) + after)))
  {
    hide TypeMarks;
    assert MemberMarks(fs) ==
        [Mark(fs[0].name.lit, fs[0].doc)] + TypeMarks(fs[0].typ) + [Bare(fs[0].semi)] + MemberMarks(fs[1..]);
  }

  /** The marks of a list of members: the first member's, then the rest, then the closing brace. */
  lemma {:induction false} FirstMarks(ts: seq<Token>, docAt: nat -> string, i: nat, fs: seq<Member>, rbrace: Token)
    requires fs != [] && Matches(ts, docAt, i, MemberMarks(fs) + [Bare(rbrace)])
    ensures i < |ts| && At(ts, i) == KindOf(fs[0].name.lit)
    ensures ts[i].lit == fs[0].name.lit && docAt(ts[i].start) == fs[0].doc
    ensures Matches(ts, docAt, i + 1, TypeMarks(fs[0].typ))
    ensures var s := i + 1 + |TypeMarks(fs[0].typ)|;
            && s < |ts| && At(ts, s) == KindOf(fs[0].semi.lit) && ts[s].lit == fs[0].semi.lit
            && Matches(ts, docAt, s + 1, MemberMarks(fs[1..]) + [Bare(rbrace)])
            && i + |MemberMarks(fs)| == s + 1 + |MemberMarks(fs[1..])|
  {
    var name, typ, semi := Mark(fs[0].name.lit, fs[0].doc), TypeMarks(fs[0].typ), Bare(fs[0].semi);
    var rest := MemberMarks(fs[1..]) + [Bare(rbrace)];
    assert |MemberMarks(fs)| == |typ| + 2 + |MemberMarks(fs[1..])|;
    MarksRegroup(fs, [Bare(rbrace)]);
    hide Matches, KindOf, TypeMarks, MemberMarks;
    MatchesSplit(ts, docAt, i, [name], typ + ([semi] + rest));
    MatchesSplit(ts, docAt, i + 1, typ, [semi] + rest);
    MatchesSplit(ts, docAt, i + 1 + |typ|, [semi], rest);
    MatchesOne(ts, docAt, i, name);
    MatchesOne(ts, docAt, i + 1 + |typ|, semi);
  }

  lemma {:induction false} NoMembersComeBack(ts: seq<Token>, docAt: nat -> string, i: nat, rbrace: Token, what: Want)
    requires Is(rbrace, RBrace) && Matches(ts, docAt, i, MemberMarks([]) + [Bare(rbrace)])
    ensures i < |ts| && ts[i].lit == rbrace.lit && ParseMembers(ts, i, what) == Ok(Block([], ts[i]), i + 1)
    ensures MemberMarks([]) == [] && AttachMembers(docAt, []) == [] && PlainMembers([]) == []
  {
    assert MemberMarks([]) + [Bare(rbrace)] == [Bare(rbrace)];
    hide Matches, ParseMembers;
    MatchesOne(ts, docAt, i, Bare(rbrace));
    MembersAt(ts, i, what);
  }

  lemma {:induction false} FirstLexed(fs: seq<Member>)
    requires LexedMembers(fs) && fs != []
    ensures KindOf(fs[0].name.lit) == Identifier && KindOf(fs[0].semi.lit) == Semicolon
    ensures LexedType(fs[0].typ) && LexedMembers(fs[1..])
  {
    hide KindOf, LexedType;
  }

  lemma {:induction false} MembersComeBack(ts: seq<Token>, docAt: nat -> string, i: nat, fs: seq<Member>, rbrace: Token,
      what: Want)
    requires LexedMembers(fs) && Is(rbrace, RBrace) && Matches(ts, docAt, i, MemberMarks(fs) + [Bare(rbrace)])
    ensures var r := ParseMembers(ts, i, what);
            && r.Ok? && r.next == i + |MemberMarks(fs)| + 1
            && PlainMembers(AttachMembers(docAt, r.value.members)) == PlainMembers(fs)
               && r.value.rbrace.lit == rbrace.lit
    decreases fs, 1
  {
    hide KindOf, Matches, ParseMembers, ParseType, TypeMarks, MemberMarks, AttachType, AttachMembers, PlainType,
         PlainMembers, LexedType, LexedMembers;
    if fs == [] {
      NoMembersComeBack(ts, docAt, i, rbrace, what);
    } else {
      FirstMarks(ts, docAt, i, fs, rbrace);
      FirstLexed(fs);
      MembersAt(ts, i, what);
      TypeComesBack(ts, docAt, i + 1, fs[0].typ);
      var t := ParseType(ts, i + 1);
      MembersComeBack(ts, docAt, t.next + 1, fs[1..], rbrace, what);
      var b := ParseMembers(ts, t.next + 1, what);
      MembersPlain(docAt, Member("", ts[i], t.value, ts[t.next]), b.value.members, fs);
    }
  }

  lemma {:induction false} MatchesBound(ts: seq<Token>, docAt: nat -> string, i: nat, ms: seq<Mark>)
    requires Matches(ts, docAt, i, ms)
    ensures i + |ms| <= |ts|
  {
  }

  lemma {:induction false} MembersPlain(docAt: nat -> string, m: Member, ms: seq<Member>, fs: seq<Member>)
    requires fs != [] && docAt(m.name.start) == fs[0].doc && m.name.lit == fs[0].name.lit
    requires m.semi.lit == fs[0].semi.lit
    requires PlainType(AttachType(docAt, m.typ)) == PlainType(fs[0].typ)
    requires PlainMembers(AttachMembers(docAt, ms)) == PlainMembers(fs[1..])
    ensures PlainMembers(AttachMembers(docAt, [m] + ms)) == PlainMembers(fs)
  {
    hide AttachType, PlainType;
    assert ([m] + ms)[1..] == ms;
    var a := AttachMembers(docAt, [m] + ms);
    assert a[1..] == AttachMembers(docAt, ms);
  }

  lemma {:induction false} OptionalComesBack(ts: seq<Token>, docAt: nat -> string, i: nat, t: Option<TypeExpr>,
      semi: Token)
    requires LexedOptional(t) && Is(semi, Semicolon) && Matches(ts, docAt, i, OptionalMarks(t) + [Bare(semi)])
    ensures i <= |ts|
    ensures var r := ParseOptional(ts, i);
            && r.Ok? && r.next == i + |OptionalMarks(t)| && r.next < |ts| && ts[r.next].lit == semi.lit
            && At(ts, r.next) == Semicolon
            && PlainOptional(AttachOptional(docAt, r.value)) == PlainOptional(t)
  {
    hide KindOf, Matches, ParseType, TypeMarks, AttachType, PlainType, LexedType;
    MatchesSplit(ts, docAt, i, OptionalMarks(t), [Bare(semi)]);
    MatchesOne(ts, docAt, i + |OptionalMarks(t)|, Bare(semi));
    if t.Some? {
      TypeComesBack(ts, docAt, i, t.value);
      TypeStart(ts, i);
    }
  }

  lemma {:induction false} TypeStart(ts: seq<Token>, i: nat)
    requires i <= |ts| && ParseType(ts, i).Ok?
    ensures At(ts, i) != Semicolon
  {
    hide KindOf;
  }

  lemma {:induction false} DeclComesBack(ts: seq<Token>, docAt: nat -> string, i: nat, d: Decl)
    requires LexedDecl(d) && Matches(ts, docAt, i, DeclMarks(d))
    ensures i <= |ts|
    ensures var r := ParseDecl(ts, i);
            r.Ok? && r.next == i + |DeclMarks(d)| && PlainDecl(AttachDecl(docAt, r.value)) == PlainDecl(d)
  {
    hide KindOf, Matches, ParseType, ParseOptional, ParseMembers, TypeMarks, OptionalMarks, MemberMarks, AttachType,
         AttachOptional, AttachMembers, PlainType, PlainOptional, PlainMembers, LexedType, LexedOptional, LexedMembers;
    var word, name := [Mark(d.word.lit, d.doc)], [Bare(d.name)];
    MatchesBound(ts, docAt, i, DeclMarks(d));
    match d
    case TypeDecl(_, _, _, typ, semi) =>
      var tail := TypeMarks(typ) + [Bare(semi)];
      assert DeclMarks(d) == word + (name + tail);
      HeadMatches(ts, docAt, i, word[0], name[0], tail);
      MatchesSplit(ts, docAt, i + 2, TypeMarks(typ), [Bare(semi)]);
      TypeComesBack(ts, docAt, i + 2, typ);
      MatchesOne(ts, docAt, i + 2 + |TypeMarks(typ)|, Bare(semi));
    case ExceptionDecl(_, _, _, payload, semi) =>
      var tail := OptionalMarks(payload) + [Bare(semi)];
      assert DeclMarks(d) == word + (name + tail);
      HeadMatches(ts, docAt, i, word[0], name[0], tail);
      OptionalComesBack(ts, docAt, i + 2, payload, semi);
    case ProcDecl(_, _, _, lbrace, params, rbrace, result, semi) =>
      var last := OptionalMarks(result) + [Bare(semi)];
      var block := MemberMarks(params) + [Bare(rbrace)];
      assert DeclMarks(d) == word + (name + ([Bare(lbrace)] + (block + last)));
      HeadMatches(ts, docAt, i, word[0], name[0], [Bare(lbrace)] + (block + last));
      MatchesSplit(ts, docAt, i + 2, [Bare(lbrace)], block + last);
      MatchesOne(ts, docAt, i + 2, Bare(lbrace));
      MatchesSplit(ts, docAt, i + 3, block, last);
      MembersComeBack(ts, docAt, i + 3, params, rbrace, ParameterOrRBrace);
      OptionalComesBack(ts, docAt, i + 3 + |block|, result, semi);
  }

  lemma {:induction false} HeadMatches(ts: seq<Token>, docAt: nat -> string, i: nat, word: Mark, name: Mark,
      tail: seq<Mark>)
    requires Matches(ts, docAt, i, [word] + ([name] + tail))
    ensures i + 1 < |ts| && ts[i].lit == word.lit && docAt(ts[i].start) == word.doc && ts[i + 1].lit == name.lit
    ensures At(ts, i) == KindOf(word.lit) && At(ts, i + 1) == KindOf(name.lit)
    ensures Matches(ts, docAt, i + 2, tail)
  {
    hide KindOf, Matches;
    MatchesSplit(ts, docAt, i, [word], [name] + tail);
    MatchesOne(ts, docAt, i, word);
    MatchesSplit(ts, docAt, i + 1, [name], tail);
    MatchesOne(ts, docAt, i + 1, name);
  }

  /**
   * Parsing any token sequence with the texts of a tree, and attaching the documents found before its tokens, gives
   * that tree with those documents, up to spans.
   */
  lemma {:induction false} DeclsComeBack(ts: seq<Token>, docAt: nat -> string, i: nat, ds: seq<Decl>)
    requires LexedDecls(ds) && Matches(ts, docAt, i, DeclsMarks(ds)) && i + |DeclsMarks(ds)| == |ts|
    ensures var r := ParseDecls(ts, i); r.Ok? && PlainDecls(AttachDecls(docAt, r.value)) == PlainDecls(ds)
    decreases |ds|
  {
    hide Matches, ParseDecl, DeclMarks, LexedDecl, AttachDecl, PlainDecl;
    if ds != [] {
      MatchesSplit(ts, docAt, i, DeclMarks(ds[0]), DeclsMarks(ds[1..]));
      DeclComesBack(ts, docAt, i, ds[0]);
      var d := ParseDecl(ts, i);
      DeclsComeBack(ts, docAt, d.next, ds[1..]);
      var r := ParseDecls(ts, i);
      assert r.value[1..] == ParseDecls(ts, d.next).value;
      assert AttachDecls(docAt, r.value)[1..] == AttachDecls(docAt, r.value[1..]);
    }
  }
}
