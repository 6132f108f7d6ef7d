/**
 * The front end end to end: parse, attach, validate, format. Formatting any parsed file gives a body that parses,
 * carries the same documents on the same nodes and formats to itself.
 */
module CanonicalBodies {
  import opened Leaves
  import opened Syntax
  import opened Scanners
  import opened Marks
  import opened DocTexts
  import opened Documents
  import opened Formatters
  import opened Layouts
  import opened Rescans
  import opened Attachments
  import opened Validators

  // ---------------------------------------------------------------------------
  // Node ends and type prefixes

  function TypeEnd(t: TypeExpr): nat {
    match t
    case Primitive(_, name) => name.end
    case Named(_, name) => name.end
    case ListOf(_, _, elem) => TypeEnd(elem)
    case Record(_, _, _, _, rbrace) => rbrace.end
  }

  function TypeEnds(t: TypeExpr): seq<nat> {
    [TypeEnd(t)] +
    match t
    case ListOf(_, _, elem) => TypeEnds(elem)
    case Record(_, _, _, fields, _) => MemberEnds(fields)
    case _ => []
  }

  function MemberEnds(fs: seq<Member>): seq<nat> {
    if fs == [] then [] else [fs[0].semi.end] + TypeEnds(fs[0].typ) + MemberEnds(fs[1..])
  }

  function OptionalEnds(t: Option<TypeExpr>): seq<nat> {
    if t.Some? then TypeEnds(t.value) else []
  }

  function DeclEnds(d: Decl): seq<nat> {
    [d.semi.end] +
    match d
    case TypeDecl(_, _, _, typ, _) => TypeEnds(typ)
    case ExceptionDecl(_, _, _, payload, _) => OptionalEnds(payload)
    case ProcDecl(_, _, _, _, params, _, result, _) => MemberEnds(params) + OptionalEnds(result)
  }

  function DeclsEnds(ds: seq<Decl>): seq<nat> {
    if ds == [] then [] else DeclEnds(ds[0]) + DeclsEnds(ds[1..])
  }

  function TypePrefixes(t: TypeExpr): seq<nat> {
    match t
    case ListOf(_, word, elem) => [word.end] + TypePrefixes(elem)
    case Record(_, _, _, fields, _) => MemberPrefixes(fields)
    case _ => []
  }

  function MemberPrefixes(fs: seq<Member>): seq<nat> {
    if fs == [] then [] else [fs[0].name.end] + TypePrefixes(fs[0].typ) + MemberPrefixes(fs[1..])
  }

  function OptionalPrefixes(t: Option<TypeExpr>): seq<nat> {
    if t.Some? then TypePrefixes(t.value) else []
  }

  function DeclPrefixes(d: Decl): seq<nat> {
    match d
    case TypeDecl(_, _, name, typ, _) => [name.end] + TypePrefixes(typ)
    case ExceptionDecl(_, _, name, payload, _) => [name.end] + OptionalPrefixes(payload)
    case ProcDecl(_, _, _, _, params, rbrace, result, _) =>
        [rbrace.end] + MemberPrefixes(params) + OptionalPrefixes(result)
  }

  function DeclsPrefixes(ds: seq<Decl>): seq<nat> {
    if ds == [] then [] else DeclPrefixes(ds[0]) + DeclsPrefixes(ds[1..])
  }

  // ---------------------------------------------------------------------------
  // The phases

  /** `Parse`. */
  function ParseText(src: string): Option<seq<Decl>> {
    var s := Scan(src, 0);
    var r := ParseDecls(s.tokens, 0);
    if s.clean && r.Ok? then Some(r.value) else None
  }

  function FactsOf(src: string, ds: seq<Decl>): Facts {
    var s := Scan(src, 0);
    Facts(src, TokenEnds(s.tokens), DeclsEnds(ds), DeclsPrefixes(ds), s.comments)
  }

  ghost function DocsOf(f: Facts): nat -> string {
    (start: nat) => DocAt(f, start)
  }

  /** `AttachDocs`. */
  ghost function Attached(src: string, ds: seq<Decl>): seq<Decl> {
    AttachDecls(DocsOf(FactsOf(src, ds)), ds)
  }

  /** The canonical body of a source that parses. */
  ghost function Body(src: string): string
    requires ParseText(src).Some?
  {
    Format(Attached(src, ParseText(src).value))
  }

  /** `canonicalInterfaceBody`. */
  ghost predicate CanonicalInterfaceBody(key: (string, string) -> nat, body: string) {
    && ParseText(body).Some?
    && ValidInterface(key, Attached(body, ParseText(body).value))
    && Body(body) == body
  }

  // ---------------------------------------------------------------------------
  // What scanning and attaching give

  predicate ScanOk(r: Scanned) {
    && LitsOk(r.tokens)
    && (forall i :: 0 <= i < |r.comments| ==> Clean(r.comments[i].text))
  }

  lemma {:induction false} ScannedOk(s: string, base: nat)
    ensures ScanOk(Scan(s, base))
    decreases |s|
  {
    hide Scan, LitOk, Clean, NextLex;
    ScanAt(s, base);
    match NextLex(s)
    case Word(a, b) =>
      WordOk(s);
      ScannedOk(s[b..], base + b);
    case Note(a, b) =>
      NoteOk(s);
      ScannedOk(s[b..], base + b);
    case _ =>
  }

  lemma {:induction false} WordOk(s: string)
    requires NextLex(s).Word?
    ensures LitOk(s[NextLex(s).start..NextLex(s).end])
  {
    hide SpaceCount, IdentCount, IsSpace, NoteAt, IsPunctuation;
    var x := NextLex(s);
    var lit := s[x.start..x.end];
    if !IsPunctuation(s[x.start]) {
      var n := IdentCount(s[x.start..]);
      assert forall i :: 0 <= i < n ==> lit[i] == s[x.start..][i];
      assert s[x.start..][0] == s[x.start];
    }
  }

  lemma {:induction false} NoteOk(s: string)
    requires NextLex(s).Note?
    ensures Clean(s[NextLex(s).start + 2..NextLex(s).end - 2])
  {
    hide SpaceCount, IdentCount, IsSpace, ValidText, FindClose;
    var x := NextLex(s);
    var text := s[x.start + 2..x.end - 2];
    assert FindClose(s, x.start + 2) == Some(x.end - 2);
    forall i | 0 <= i < |text|
      ensures !CloseAt(text, i)
    {
      assert !CloseAt(s, x.start + 2 + i);
    }
  }

  predicate LitsOk(ts: seq<Token>) {
    forall i :: 0 <= i < |ts| ==> LitOk(ts[i].lit)
  }

  lemma {:induction false} LitsOkSplit(a: seq<Token>, b: seq<Token>)
    requires LitsOk(a + b)
    ensures LitsOk(a) && LitsOk(b)
  {
    hide LitOk;
    assert forall i :: 0 <= i < |a| ==> (a + b)[i] == a[i];
    forall i | 0 <= i < |b|
      ensures LitOk(b[i].lit)
    {
      assert (a + b)[|a| + i] == b[i];
    }
  }

  ghost predicate DocsOk(docAt: nat -> string) {
    forall x :: docAt(x) == "" || DocOk(docAt(x))
  }

  lemma {:induction false} OneOk(docAt: nat -> string, tok: Token)
    requires DocsOk(docAt) && LitsOk([tok])
    ensures MarksOk([Mark(tok.lit, docAt(tok.start))]) && MarksOk([Bare(tok)])
  {
    hide LitOk, DocOk;
    assert LitOk([tok][0].lit);
  }

  lemma {:induction false} AttachTypeOk(docAt: nat -> string, t: TypeExpr)
    requires DocsOk(docAt) && LexedType(t) && LitsOk(TypeTokens(t))
    ensures LexedType(AttachType(docAt, t)) && MarksOk(TypeMarks(AttachType(docAt, t)))
    decreases t, 1
  {
    hide KindOf, DocsOk, LitsOk, MarksOk, LexedMembers, AttachMembers, MemberMarks, MemberTokens;
    match t
    case Primitive(_, name) => OneOk(docAt, name);
    case Named(_, name) => OneOk(docAt, name);
    case ListOf(_, word, elem) =>
      LitsOkSplit([word], TypeTokens(elem));
      OneOk(docAt, word);
      AttachTypeOk(docAt, elem);
      MarksOkSplit([Mark(word.lit, docAt(word.start))], TypeMarks(AttachType(docAt, elem)));
    case Record(_, word, lbrace, fields, rbrace) =>
      assert TypeTokens(t) == [word] + ([lbrace] + MemberTokens(fields) + [rbrace]);
      LitsOkSplit([word], [lbrace] + MemberTokens(fields) + [rbrace]);
      OneOk(docAt, word);
      AttachBlockOk(docAt, lbrace, fields, rbrace);
      var ms := AttachMembers(docAt, fields);
      MarksOkSplit([Mark(word.lit, docAt(word.start))], BlockMarks(lbrace, ms, rbrace));
      assert TypeMarks(AttachType(docAt, t)) == [Mark(word.lit, docAt(word.start))] + BlockMarks(lbrace, ms, rbrace);
  }

  lemma {:induction false} AttachBlockOk(docAt: nat -> string, lbrace: Token, fs: seq<Member>, rbrace: Token)
    requires DocsOk(docAt) && LexedMembers(fs) && LitsOk([lbrace] + MemberTokens(fs) + [rbrace])
    ensures LexedMembers(AttachMembers(docAt, fs)) && MarksOk(BlockMarks(lbrace, AttachMembers(docAt, fs), rbrace))
    decreases fs, 3
  {
    hide KindOf, DocsOk, LitsOk, MarksOk, LexedMembers, AttachMembers, MemberMarks, MemberTokens;
    LitsOkSplit([lbrace] + MemberTokens(fs), [rbrace]);
    LitsOkSplit([lbrace], MemberTokens(fs));
    OneOk(docAt, lbrace);
    OneOk(docAt, rbrace);
    AttachMembersOk(docAt, fs);
    MarksOkSplit([Bare(lbrace)], MemberMarks(AttachMembers(docAt, fs)));
    MarksOkSplit([Bare(lbrace)] + MemberMarks(AttachMembers(docAt, fs)), [Bare(rbrace)]);
  }

  lemma {:induction false} AttachMembersOk(docAt: nat -> string, fs: seq<Member>)
    requires DocsOk(docAt) && LexedMembers(fs) && LitsOk(MemberTokens(fs))
    ensures LexedMembers(AttachMembers(docAt, fs)) && MarksOk(MemberMarks(AttachMembers(docAt, fs)))
    decreases fs, 2
  {
    hide KindOf, DocsOk, LitsOk, LexedType, AttachType, TypeMarks, TypeTokens, MarkOk;
    if fs != [] {
      hide MarksOk;
      var name, typ, semi, rest := [fs[0].name], TypeTokens(fs[0].typ), [fs[0].semi], MemberTokens(fs[1..]);
      LitsOkSplit(name + typ + semi, rest);
      LitsOkSplit(name + typ, semi);
      LitsOkSplit(name, typ);
      OneOk(docAt, fs[0].name);
      OneOk(docAt, fs[0].semi);
      AttachTypeOk(docAt, fs[0].typ);
      AttachMembersOk(docAt, fs[1..]);
      AttachMembersStep(docAt, fs);
      var a, b, c := [Mark(fs[0].name.lit, docAt(fs[0].name.start))], TypeMarks(AttachType(docAt, fs[0].typ)),
          [Bare(fs[0].semi)];
      var d := MemberMarks(AttachMembers(docAt, fs[1..]));
      MarksOkSplit(a, b);
      MarksOkSplit(a + b, c);
      MarksOkSplit(a + b + c, d);
    }
  }

  lemma {:induction false} AttachMembersStep(docAt: nat -> string, fs: seq<Member>)
    requires fs != []
    ensures var ms := AttachMembers(docAt, fs); var rest := AttachMembers(docAt, fs[1..]);
            && MemberMarks(ms) == [Mark(fs[0].name.lit, docAt(fs[0].name.start))]
                                  + TypeMarks(AttachType(docAt, fs[0].typ))
                                  + [Bare(fs[0].semi)] + MemberMarks(rest)
            && (LexedMembers(ms) <==> Is(fs[0].name, Identifier) && LexedType(AttachType(docAt, fs[0].typ))
                                      && Is(fs[0].semi, Semicolon) && LexedMembers(rest))
  {
    hide KindOf, LexedType, AttachType, TypeMarks;
    assert AttachMembers(docAt, fs)[1..] == AttachMembers(docAt, fs[1..]);
  }

  lemma {:induction false} AttachOptionalOk(docAt: nat -> string, t: Option<TypeExpr>)
    requires DocsOk(docAt) && LexedOptional(t) && LitsOk(OptionalTokens(t))
    ensures LexedOptional(AttachOptional(docAt, t)) && MarksOk(OptionalMarks(AttachOptional(docAt, t)))
  {
    hide DocsOk, LitsOk, LexedType, AttachType, TypeMarks, TypeTokens, MarkOk;
    if t.Some? {
      AttachTypeOk(docAt, t.value);
    }
  }

  /** What a declaration has between its name and its semicolon. */
  function TailTokens(d: Decl): seq<Token> {
    match d
    case TypeDecl(_, _, _, typ, _) => TypeTokens(typ)
    case ExceptionDecl(_, _, _, payload, _) => OptionalTokens(payload)
    case ProcDecl(_, _, _, lbrace, params, rbrace, result, _) =>
      ([lbrace] + MemberTokens(params) + [rbrace]) + OptionalTokens(result)
  }

  lemma {:induction false} DeclTokensShape(d: Decl)
    ensures DeclTokens(d) == [d.word] + ([d.name] + (TailTokens(d) + [d.semi]))
  {
    hide TypeTokens, OptionalTokens, MemberTokens;
  }

  lemma {:induction false} AttachTailOk(docAt: nat -> string, d: Decl)
    requires DocsOk(docAt) && LexedDecl(d) && LitsOk(TailTokens(d))
    ensures LexedDecl(AttachDecl(docAt, d)) && MarksOk(TailMarks(AttachDecl(docAt, d)))
  {
    hide KindOf, DocsOk, LitsOk, MarksOk, LexedType, LexedOptional, LexedMembers, AttachType, AttachOptional,
         AttachMembers,
         TypeMarks, OptionalMarks, TypeTokens, OptionalTokens, MemberTokens, BlockMarks;
    match d
    case TypeDecl(_, _, _, typ, _) => AttachTypeOk(docAt, typ);
    case ExceptionDecl(_, _, _, payload, _) => AttachOptionalOk(docAt, payload);
    case ProcDecl(_, _, _, lbrace, params, rbrace, result, _) =>
      LitsOkSplit([lbrace] + MemberTokens(params) + [rbrace], OptionalTokens(result));
      AttachBlockOk(docAt, lbrace, params, rbrace);
      AttachOptionalOk(docAt, result);
      MarksOkSplit(BlockMarks(lbrace, AttachMembers(docAt, params), rbrace),
          OptionalMarks(AttachOptional(docAt, result)));
  }

  lemma {:induction false} AttachDeclOk(docAt: nat -> string, d: Decl)
    requires DocsOk(docAt) && LexedDecl(d) && LitsOk(DeclTokens(d))
    ensures LexedDecl(AttachDecl(docAt, d)) && MarksOk(DeclMarks(AttachDecl(docAt, d)))
  {
    var a := AttachDecl(docAt, d);
    assert a.word == d.word && a.doc == docAt(d.word.start) && a.name == d.name && a.semi == d.semi;
    hide KindOf, DocsOk, LitsOk, MarksOk, LexedDecl, AttachDecl, TailMarks, TailTokens, DeclMarks, DeclTokens;
    DeclTokensShape(d);
    LitsOkSplit([d.word], [d.name] + (TailTokens(d) + [d.semi]));
    LitsOkSplit([d.name], TailTokens(d) + [d.semi]);
    LitsOkSplit(TailTokens(d), [d.semi]);
    OneOk(docAt, d.word);
    OneOk(docAt, d.name);
    OneOk(docAt, d.semi);
    AttachTailOk(docAt, d);
    DeclMarksShape(a);
    MarksOkSplit(TailMarks(a), [Bare(d.semi)]);
    MarksOkSplit([Bare(d.name)], TailMarks(a) + [Bare(d.semi)]);
    MarksOkSplit([Mark(d.word.lit, docAt(d.word.start))], [Bare(d.name)] + (TailMarks(a) + [Bare(d.semi)]));
  }

  lemma {:induction false} AttachDeclsOk(docAt: nat -> string, ds: seq<Decl>)
    requires DocsOk(docAt) && LexedDecls(ds) && LitsOk(DeclsTokens(ds))
    ensures LexedDecls(AttachDecls(docAt, ds)) && MarksOk(DeclsMarks(AttachDecls(docAt, ds)))
    decreases |ds|
  {
    hide DocsOk, LitsOk, LexedDecl, AttachDecl, DeclMarks, DeclTokens, MarkOk;
    if ds != [] {
      LitsOkSplit(DeclTokens(ds[0]), DeclsTokens(ds[1..]));
      AttachDeclOk(docAt, ds[0]);
      AttachDeclsOk(docAt, ds[1..]);
      assert AttachDecls(docAt, ds)[1..] == AttachDecls(docAt, ds[1..]);
      hide MarksOk;
      MarksOkSplit(DeclMarks(AttachDecl(docAt, ds[0])), DeclsMarks(AttachDecls(docAt, ds[1..])));
    }
  }

  /** Attaching to a parsed file keeps its tokens and fills its slots with documents in normal form. */
  lemma {:induction false} AttachedOk(src: string)
    requires ParseText(src).Some?
    ensures var ds := Attached(src, ParseText(src).value); LexedDecls(ds) && MarksOk(DeclsMarks(ds))
  {
    hide Scan, ParseDecls, DocAt, LitOk, Clean, DocOk, DeclsEnds, DeclsPrefixes, LexedDecls, AttachDecls, DeclsMarks,
         MarksOk,
         DeclsTokens;
    var s := Scan(src, 0);
    var ds := ParseText(src).value;
    ScannedOk(src, 0);
    ParsedDecls(s.tokens, 0);
    assert s.tokens[0..] == s.tokens;
    var f := FactsOf(src, ds);
    forall x
      ensures DocsOf(f)(x) == "" || DocOk(DocsOf(f)(x))
    {
      SubsetClean(f, x);
    }
    AttachDeclsOk(DocsOf(f), ds);
  }

  // ---------------------------------------------------------------------------
  // Nodes end where tokens end

  predicate Ends(xs: seq<nat>, ts: seq<Token>) {
    forall e :: e in xs ==> exists k :: 0 <= k < |ts| && ts[k].end == e
  }

  lemma {:induction false} EndsBoth(a: seq<nat>, b: seq<nat>, ts: seq<Token>)
    requires Ends(a, ts) && Ends(b, ts)
    ensures Ends(a + b, ts)
  {
  }

  lemma {:induction false} EndsPart(xs: seq<nat>, a: seq<Token>, ts: seq<Token>, c: seq<Token>)
    requires Ends(xs, ts)
    ensures Ends(xs, a + ts + c)
  {
    forall e | e in xs
      ensures exists k :: 0 <= k < |a + ts + c| && (a + ts + c)[k].end == e
    {
      var k :| 0 <= k < |ts| && ts[k].end == e;
      assert (a + ts + c)[|a| + k].end == e;
    }
  }

  lemma {:induction false} EndsOne(a: seq<Token>, tok: Token, c: seq<Token>)
    ensures Ends([tok.end], a + [tok] + c)
  {
    assert (a + [tok] + c)[|a|].end == tok.end;
  }

  lemma {:induction false} TypeEndsAtToken(t: TypeExpr)
    ensures Ends(TypeEnds(t), TypeTokens(t))
    ensures exists k :: 0 <= k < |TypeTokens(t)| && TypeTokens(t)[k].end == TypeEnd(t)
    decreases t, 1
  {
    match t
    case Primitive(_, name) => assert TypeTokens(t)[0].end == TypeEnd(t);
    case Named(_, name) => assert TypeTokens(t)[0].end == TypeEnd(t);
    case ListOf(_, word, elem) =>
      TypeEndsAtToken(elem);
      hide Ends;
      EndsPart(TypeEnds(elem), [word], TypeTokens(elem), []);
      assert [word] + TypeTokens(elem) + [] == TypeTokens(t);
      var k :| 0 <= k < |TypeTokens(elem)| && TypeTokens(elem)[k].end == TypeEnd(elem);
      assert TypeTokens(t)[k + 1].end == TypeEnd(t);
      EndsAt(TypeTokens(t), k + 1);
      EndsBoth([TypeEnd(t)], TypeEnds(elem), TypeTokens(t));
    case Record(_, word, lbrace, fields, rbrace) =>
      MemberEndsAtToken(fields);
      hide Ends;
      EndsPart(MemberEnds(fields), [word, lbrace], MemberTokens(fields), [rbrace]);
      var n := |TypeTokens(t)| - 1;
      assert TypeTokens(t)[n].end == TypeEnd(t);
      EndsAt(TypeTokens(t), n);
      EndsBoth([TypeEnd(t)], MemberEnds(fields), TypeTokens(t));
  }

  lemma {:induction false} EndsAt(ts: seq<Token>, k: nat)
    requires k < |ts|
    ensures Ends([ts[k].end], ts)
  {
  }

  lemma {:induction false} MemberEndsAtToken(fs: seq<Member>)
    ensures Ends(MemberEnds(fs), MemberTokens(fs))
    decreases fs, 2
  {
    if fs != [] {
      TypeEndsAtToken(fs[0].typ);
      MemberEndsAtToken(fs[1..]);
      hide Ends, TypeEnds, TypeTokens;
      var name, typ, semi, rest := [fs[0].name], TypeTokens(fs[0].typ), fs[0].semi, MemberTokens(fs[1..]);
      var all := MemberTokens(fs);
      assert all == name + typ + ([semi] + rest) && all == (name + typ) + [semi] + rest;
      assert all == (name + typ + [semi]) + rest + [];
      EndsPart(TypeEnds(fs[0].typ), name, typ, [semi] + rest);
      EndsOne(name + typ, semi, rest);
      EndsPart(MemberEnds(fs[1..]), name + typ + [semi], rest, []);
      EndsBoth([semi.end], TypeEnds(fs[0].typ), all);
      EndsBoth([semi.end] + TypeEnds(fs[0].typ), MemberEnds(fs[1..]), all);
    }
  }

  lemma {:induction false} OptionalEndsAtToken(t: Option<TypeExpr>)
    ensures Ends(OptionalEnds(t), OptionalTokens(t))
  {
    if t.Some? {
      TypeEndsAtToken(t.value);
    }
  }

  /** The ends of the nodes inside a declaration. */
  function TailEnds(d: Decl): seq<nat> {
    match d
    case TypeDecl(_, _, _, typ, _) => TypeEnds(typ)
    case ExceptionDecl(_, _, _, payload, _) => OptionalEnds(payload)
    case ProcDecl(_, _, _, _, params, _, result, _) => MemberEnds(params) + OptionalEnds(result)
  }

  lemma {:induction false} TailEndsAtToken(d: Decl)
    ensures Ends(TailEnds(d), TailTokens(d))
  {
    hide Ends, TypeEnds, MemberEnds, OptionalEnds, TypeTokens, MemberTokens, OptionalTokens;
    match d
    case TypeDecl(_, _, _, typ, _) => TypeEndsAtToken(typ);
    case ExceptionDecl(_, _, _, payload, _) => OptionalEndsAtToken(payload);
    case ProcDecl(_, _, _, lbrace, params, rbrace, result, _) =>
      MemberEndsAtToken(params);
      OptionalEndsAtToken(result);
      var ms, os := MemberTokens(params), OptionalTokens(result);
      var all := TailTokens(d);
      assert all == [lbrace] + ms + ([rbrace] + os) && all == ([lbrace] + ms + [rbrace]) + os + [];
      EndsPart(MemberEnds(params), [lbrace], ms, [rbrace] + os);
      EndsPart(OptionalEnds(result), [lbrace] + ms + [rbrace], os, []);
      EndsBoth(MemberEnds(params), OptionalEnds(result), all);
  }

  /** The end of the last token, and ends within the middle, are ends within the whole. */
  lemma {:induction false} EndsAround(word: Token, name: Token, tail: seq<Token>, semi: Token, ends: seq<nat>)
    requires Ends(ends, tail)
    ensures Ends([semi.end] + ends, [word] + ([name] + (tail + [semi])))
  {
    var all := [word, name] + tail + [semi];
    assert all == [word] + ([name] + (tail + [semi])) && all == ([word, name] + tail) + [semi] + [];
    hide Ends;
    EndsPart(ends, [word, name], tail, [semi]);
    EndsOne([word, name] + tail, semi, []);
    EndsBoth([semi.end], ends, all);
  }

  lemma {:induction false} DeclEndsShape(d: Decl)
    ensures DeclEnds(d) == [d.semi.end] + TailEnds(d)
  {
    hide TypeEnds, OptionalEnds, MemberEnds;
  }

  lemma {:induction false} DeclEndsAtToken(d: Decl)
    ensures Ends(DeclEnds(d), DeclTokens(d))
  {
    hide *;
    TailEndsAtToken(d);
    DeclTokensShape(d);
    DeclEndsShape(d);
    EndsAround(d.word, d.name, TailTokens(d), d.semi, TailEnds(d));
  }

  lemma {:induction false} DeclsEndAtToken(ds: seq<Decl>)
    ensures Ends(DeclsEnds(ds), DeclsTokens(ds))
    decreases |ds|
  {
    hide DeclEnds, DeclTokens;
    if ds != [] {
      DeclEndsAtToken(ds[0]);
      DeclsEndAtToken(ds[1..]);
      hide Ends;
      var a, b := DeclTokens(ds[0]), DeclsTokens(ds[1..]);
      assert a + b == [] + a + b && a + b == a + b + [];
      EndsPart(DeclEnds(ds[0]), [], a, b);
      EndsPart(DeclsEnds(ds[1..]), a, b, []);
      EndsBoth(DeclEnds(ds[0]), DeclsEnds(ds[1..]), a + b);
    }
  }

  // ---------------------------------------------------------------------------
  // Printing and parsing

  lemma {:induction false} TokenAt(ps: seq<Piece>, k: nat)
    requires k < |ps| && forall i :: 0 <= i < |ps| ==> ps[i].lit != ""
    ensures k < |Placed(ps, 0).tokens| == |ps|
    ensures Placed(ps, 0).tokens[k].lit == ps[k].lit
    ensures Placed(ps, 0).tokens[k].start == |Render(ps[..k])| + |Before(ps[k])|
  {
    hide Placed, Render, Before, PieceText, PlacedOne, Joined;
    var o := |Render(ps[..k])|;
    Around(ps, k);
    PlacedWithin(ps, 0);
    PlacedWithin(ps[..k], 0);
    OnePlaced(ps[k], o);
    JoinedThree(Placed(ps[..k], 0), PlacedOne(ps[k], o), Placed(ps[k + 1..], o + |PieceText(ps[k])|));
  }

  ghost predicate MatchesAt(ts: seq<Token>, docAt: nat -> string, ms: seq<Mark>, k: nat) {
    k < |ts| && k < |ms| && ts[k].lit == ms[k].lit && docAt(ts[k].start) == ms[k].doc
  }

  lemma {:induction false} MatchesEach(ts: seq<Token>, docAt: nat -> string, ms: seq<Mark>)
    requires |ms| <= |ts| && forall k :: 0 <= k < |ms| ==> MatchesAt(ts, docAt, ms, k)
    ensures Matches(ts, docAt, 0, ms)
  {
    forall k | 0 <= k < |ms|
      ensures ts[0 + k].lit == ms[k].lit && docAt(ts[0 + k].start) == ms[k].doc
    {
      assert MatchesAt(ts, docAt, ms, k);
    }
  }

  lemma {:induction false} MarksCount(ps: seq<Piece>)
    ensures |MarksOf(ps)| == |ps|
  {
  }

  lemma {:induction false} MarkAt(f: Facts, ps: seq<Piece>, k: nat)
    requires k < |ps| && k < |Placed(ps, 0).tokens| && Placed(ps, 0).tokens[k].lit == ps[k].lit
    requires DocAt(f, Placed(ps, 0).tokens[k].start) == ps[k].doc
    ensures MatchesAt(Placed(ps, 0).tokens, DocsOf(f), MarksOf(ps), k)
  {
    hide Placed, DocAt;
  }

  /** The facts of a canonical text match the marks it was printed from. */
  lemma {:induction false} CanonicalMatches(f: Facts, ps: seq<Piece>)
    requires Canonical(f, ps)
    ensures Matches(Placed(ps, 0).tokens, DocsOf(f), 0, MarksOf(ps)) && |Placed(ps, 0).tokens| == |ps|
  {
    hide *;
    CanonicalFacts(f, ps);
    PlacedWithin(ps, 0);
    forall k | 0 <= k < |ps|
      ensures MatchesAt(Placed(ps, 0).tokens, DocsOf(f), MarksOf(ps), k)
    {
      TokenAt(ps, k);
      DocAtPiece(f, ps, k);
      MarkAt(f, ps, k);
    }
    MatchesEach(Placed(ps, 0).tokens, DocsOf(f), MarksOf(ps));
    MarksCount(ps);
  }

  lemma {:induction false} ParsedEnds(ts: seq<Token>, e: nat)
    requires ParseDecls(ts, 0).Ok? && e in DeclsEnds(ParseDecls(ts, 0).value)
    ensures e in TokenEnds(ts)
  {
    hide ParseDecls, DeclsEnds, DeclsTokens, LexedDecls;
    ParsedDecls(ts, 0);
    assert ts[0..] == ts;
    DeclsEndAtToken(ParseDecls(ts, 0).value);
    var k :| 0 <= k < |ts| && ts[k].end == e;
    assert TokenEnds(ts)[k] == e;
  }

  lemma {:induction false} EmptyText()
    ensures ParseText("") == Some([]) && forall ds :: ds == [] ==> Attached("", ds) == []
  {
    hide DocAt;
    assert Scan("", 0) == Scanned([], [], true);
  }

  /**
   * Printing any tree whose identifiers are identifiers and whose documents are in normal form, and parsing and
   * attaching the text, gives that tree with those documents, up to spans.
   */
  lemma {:induction false} PrintedComesBack(ds: seq<Decl>)
    requires LexedDecls(ds) && MarksOk(DeclsMarks(ds))
    ensures var body := Format(ds);
            ParseText(body).Some? && PlainDecls(Attached(body, ParseText(body).value)) == PlainDecls(ds)
  {
    if ds == [] {
      EmptyText();
    } else {
      hide LexedDecls, DeclsMarks, MarksOk, MarksOf, LayoutOk, Render, Placed, Format, DeclsPieces, Canonical, Matches,
           PlainDecls,
           AttachDecls, ParseDecls, Scan, DocsOf, DeclsEnds, DeclsPrefixes;
      var ps := DeclsPieces(ds, "");
      LayOutFile(ds);
      FormatText(ds, "");
      var body := Format(ds);
      assert "" + body == body;
      ScanLayout(ps, 0);
      var ts := Placed(ps, 0).tokens;
      PlacedClean(ps, 0);
      BareFacts(body, ps);
      var bare := Facts(body, TokenEnds(ts), [], [], Placed(ps, 0).comments);
      CanonicalMatches(bare, ps);
      DeclsComeBack(ts, DocsOf(bare), 0, ds);
      var back := ParseDecls(ts, 0).value;
      ParsedFacts(body, ps);
      CanonicalMatches(FactsOf(body, back), ps);
      DeclsComeBack(ts, DocsOf(FactsOf(body, back)), 0, ds);
    }
  }

  lemma {:induction false} PlacedClean(ps: seq<Piece>, base: nat)
    ensures Placed(ps, base).clean
    decreases |ps|
  {
    hide PieceText, PlacedOne;
    if ps != [] {
      PlacedClean(ps[1..], base + |PieceText(ps[0])|);
    }
  }

  lemma {:induction false} BareFacts(body: string, ps: seq<Piece>)
    requires LayoutOk(ps) && body == Render(ps) + "\n"
    ensures Canonical(Facts(body, TokenEnds(Placed(ps, 0).tokens), [], [], Placed(ps, 0).comments), ps)
  {
    hide LayoutOk, Render, Placed, TokenEnds;
  }

  lemma {:induction false} ParsedFacts(body: string, ps: seq<Piece>)
    requires LayoutOk(ps) && body == Render(ps) + "\n" && Scan(body, 0) == Placed(ps, 0)
    requires ParseDecls(Placed(ps, 0).tokens, 0).Ok?
    ensures Canonical(FactsOf(body, ParseDecls(Placed(ps, 0).tokens, 0).value), ps)
  {
    hide LayoutOk, Render, Placed, TokenEnds, Scan, ParseDecls, DeclsEnds, DeclsPrefixes;
    var ts := Placed(ps, 0).tokens;
    forall e | e in DeclsEnds(ParseDecls(ts, 0).value)
      ensures e in TokenEnds(ts)
    {
      ParsedEnds(ts, e);
    }
  }

  /**
   * The canonical body of every source that parses: it parses, attaches the same documents to the same nodes, is
   * valid exactly when the source is, and formats to itself.
   */
  lemma {:induction false} BodyIsFixpoint(key: (string, string) -> nat, src: string)
    requires ParseText(src).Some?
    ensures var first := Attached(src, ParseText(src).value); var body := Body(src);
            && ParseText(body).Some?
            && var second := Attached(body, ParseText(body).value);
               && PlainDecls(second) == PlainDecls(first)
               && (ValidInterface(key, second) <==> ValidInterface(key, first))
               && Body(body) == body
  {
    hide LexedDecls, DeclsMarks, MarksOk, Format, PlainDecls, Attached, ParseText, ValidInterface;
    var first := Attached(src, ParseText(src).value);
    var body := Body(src);
    AttachedOk(src);
    PrintedComesBack(first);
    var second := Attached(body, ParseText(body).value);
    FormatPlain(first);
    FormatPlain(second);
    ValidPlain(key, first);
    ValidPlain(key, second);
  }

  /** A text is a canonical body exactly when it is what formatting some valid source gives. */
  lemma {:induction false} CanonicalExactly(key: (string, string) -> nat, body: string)
    ensures CanonicalInterfaceBody(key, body) <==>
            exists src :: ParseText(src).Some? && ValidInterface(key, Attached(src, ParseText(src).value))
                && Body(src) == body
  {
    hide ParseText, Attached, Body, ValidInterface;
    forall src | ParseText(src).Some? && ValidInterface(key, Attached(src, ParseText(src).value)) && Body(src) == body
      ensures CanonicalInterfaceBody(key, body)
    {
      BodyIsFixpoint(key, src);
    }
  }
}
