/**
 * The canonical printer. The recursive printer below is the meaning; the item stack of the program writes the same
 * text; and the text is a sequence of pieces, one per token, each with the white space and the document before it.
 */
module Formatters {
  import opened Lists
  import opened Leaves
  import opened Syntax
  import opened Marks
  import opened WrittenDocs

  const STEP := "    "

  /** A type occurrence after its prefix. */
  function FormatType(t: TypeExpr, indent: string): string
    decreases t, 1
  {
    Prefix(t.doc, indent) + FormatBody(t, indent)
  }

  /** One space, or the document on lines of its own and the indentation. */
  function Prefix(doc: string, indent: string): string {
    if doc == "" then " " else "\n" + DocText(indent, doc) + indent
  }

  function FormatBody(t: TypeExpr, indent: string): string
    decreases t, 0
  {
    match t
    case Primitive(_, name) => name.lit
    case Named(_, name) => name.lit
    case ListOf(_, _, elem) => "list" + FormatType(elem, indent)
    case Record(_, _, _, fields, _) => "record {" + FormatBlock(fields, indent)
  }

  /** Members one per line and the closing brace, or just the brace. */
  function FormatBlock(fs: seq<Member>, indent: string): string
    decreases fs, 3
  {
    if fs == [] then "}" else "\n" + FormatMembers(fs, indent + STEP) + indent + "}"
  }

  function FormatMembers(fs: seq<Member>, indent: string): string
    decreases fs, 2
  {
    if fs == [] then "" else FormatMember(fs[0], indent) + FormatMembers(fs[1..], indent)
  }

  function FormatMember(f: Member, indent: string): string
    decreases f, 2
  {
    DocText(indent, f.doc) + indent + f.name.lit + FormatType(f.typ, indent) + ";\n"
  }

  function FormatOptional(t: Option<TypeExpr>): string {
    if t.Some? then FormatType(t.value, "") else ""
  }

  function FormatDecl(d: Decl): string {
    DocText("", d.doc) +
    match d
    case TypeDecl(_, _, name, typ, _) => "type " + name.lit + FormatType(typ, "") + ";\n"
    case ExceptionDecl(_, _, name, payload, _) => "exception " + name.lit + FormatOptional(payload) + ";\n"
    case ProcDecl(_, _, name, _, params, _, result, _) =>
      "procedure " + name.lit + " {" + FormatBlock(params, "") + FormatOptional(result) + ";\n"
  }

  /** Declarations, with one blank line between them. */
  function Format(ds: seq<Decl>): string {
    if ds == [] then "" else if |ds| == 1 then FormatDecl(ds[0]) else FormatDecl(ds[0]) + "\n" + Format(ds[1..])
  }

  // ---------------------------------------------------------------------------
  // Printing ignores spans

  lemma {:induction false} FormatTypePlain(t: TypeExpr, indent: string)
    ensures FormatType(t, indent) == FormatType(PlainType(t), indent)
    decreases t, 1
  {
    match t
    case ListOf(_, _, elem) => FormatTypePlain(elem, indent);
    case Record(_, _, _, fields, _) =>
      FormatMembersPlain(fields, indent + STEP);
      assert FormatBlock(fields, indent) == FormatBlock(PlainMembers(fields), indent);
    case _ =>
  }

  lemma {:induction false} FormatMembersPlain(fs: seq<Member>, indent: string)
    ensures FormatMembers(fs, indent) == FormatMembers(PlainMembers(fs), indent)
    decreases fs, 0
  {
    if fs != [] {
      FormatTypePlain(fs[0].typ, indent);
      FormatMembersPlain(fs[1..], indent);
      assert PlainMembers(fs)[1..] == PlainMembers(fs[1..]);
    }
  }

  lemma {:induction false} FormatDeclPlain(d: Decl)
    ensures FormatDecl(d) == FormatDecl(PlainDecl(d))
  {
    match d
    case TypeDecl(_, _, _, typ, _) => FormatTypePlain(typ, "");
    case ExceptionDecl(_, _, _, payload, _) => OptionalPlain(payload);
    case ProcDecl(_, _, _, _, params, _, result, _) => FormatMembersPlain(params, "" + STEP); OptionalPlain(result);
  }

  lemma {:induction false} OptionalPlain(t: Option<TypeExpr>)
    ensures FormatOptional(t) == FormatOptional(PlainOptional(t))
  {
    if t.Some? {
      FormatTypePlain(t.value, "");
    }
  }

  lemma {:induction false} FormatPlain(ds: seq<Decl>)
    ensures Format(ds) == Format(PlainDecls(ds))
    decreases |ds|
  {
    if ds != [] {
      FormatDeclPlain(ds[0]);
      FormatPlain(ds[1..]);
      assert PlainDecls(ds)[1..] == PlainDecls(ds[1..]);
    }
  }

  // ---------------------------------------------------------------------------
  // Pieces

  datatype Piece = Piece(lead: string, indent: string, doc: string, lit: string)

  function PieceText(p: Piece): string {
    p.lead + (if p.doc == "" then "" else DocText(p.indent, p.doc) + p.indent) + p.lit
  }

  function Render(ps: seq<Piece>): string {
    if ps == [] then "" else PieceText(ps[0]) + Render(ps[1..])
  }

  function Close(lead: string, tok: Token): Piece {
    Piece(lead, "", "", tok.lit)
  }

  function TypePiece(doc: string, tok: Token, indent: string): Piece {
    Piece(if doc == "" then " " else "\n", indent, doc, tok.lit)
  }

  function MemberPiece(f: Member, indent: string): Piece {
    Piece(if f.doc == "" then "\n" + indent else "\n", indent, f.doc, f.name.lit)
  }

  function TypePieces(t: TypeExpr, indent: string): seq<Piece> {
    match t
    case Primitive(doc, name) => [TypePiece(doc, name, indent)]
    case Named(doc, name) => [TypePiece(doc, name, indent)]
    case ListOf(doc, word, elem) => [TypePiece(doc, word, indent)] + TypePieces(elem, indent)
    case Record(doc, word, lbrace, fields, rbrace) =>
      [TypePiece(doc, word, indent), Close(" ", lbrace)] + MemberPieces(fields, indent + STEP)
      + [Close(BlockLead(fields, indent), rbrace)]
  }

  function BlockLead(fs: seq<Member>, indent: string): string {
    if fs == [] then "" else "\n" + indent
  }

  function MemberPieces(fs: seq<Member>, indent: string): seq<Piece> {
    if fs == [] then []
    else
      [MemberPiece(fs[0], indent)] + TypePieces(fs[0].typ, indent) + [Close("", fs[0].semi)]
      + MemberPieces(fs[1..], indent)
  }

  function OptionalPieces(t: Option<TypeExpr>): seq<Piece> {
    if t.Some? then TypePieces(t.value, "") else []
  }

  function DeclPieces(d: Decl, lead: string): seq<Piece> {
    var head := [Piece(lead, "", d.doc, d.word.lit), Close(" ", d.name)];
    match d
    case TypeDecl(_, _, _, typ, semi) => head + TypePieces(typ, "") + [Close("", semi)]
    case ExceptionDecl(_, _, _, payload, semi) => head + OptionalPieces(payload) + [Close("", semi)]
    case ProcDecl(_, _, _, lbrace, params, rbrace, result, semi) =>
      head + [Close(" ", lbrace)] + MemberPieces(params, "" + STEP) + [Close(BlockLead(params, ""), rbrace)]
      + OptionalPieces(result) + [Close("", semi)]
  }

  function DeclsPieces(ds: seq<Decl>, lead: string): seq<Piece> {
    if ds == [] then [] else DeclPieces(ds[0], lead) + DeclsPieces(ds[1..], "\n\n")
  }

  lemma {:induction false} RenderAppend(a: seq<Piece>, b: seq<Piece>)
    ensures Render(a + b) == Render(a) + Render(b)
    decreases |a|
  {
    hide PieceText;
    if a == [] {
      assert a + b == b;
    } else {
      RenderAppend(a[1..], b);
      assert (a + b)[1..] == a[1..] + b;
      assert PieceText(a[0]) + (Render(a[1..]) + Render(b)) == (PieceText(a[0]) + Render(a[1..])) + Render(b);
    }
  }

  lemma {:induction false} RenderOne(p: Piece)
    ensures Render([p]) == PieceText(p)
  {
    assert Render([p][1..]) == "";
    assert PieceText(p) + "" == PieceText(p);
  }

  lemma {:induction false} Spellings(tok: Token)
    ensures Is(tok, ListWord) ==> tok.lit == "list"
    ensures Is(tok, RecordWord) ==> tok.lit == "record"
    ensures Is(tok, LBrace) ==> tok.lit == "{"
    ensures Is(tok, RBrace) ==> tok.lit == "}"
    ensures Is(tok, Semicolon) ==> tok.lit == ";"
    ensures Is(tok, TypeWord) ==> tok.lit == "type"
    ensures Is(tok, ExceptionWord) ==> tok.lit == "exception"
    ensures Is(tok, ProcedureWord) ==> tok.lit == "procedure"
  {
  }

  lemma {:induction false} HeadText(doc: string, tok: Token, indent: string)
    ensures Render([TypePiece(doc, tok, indent)]) == Prefix(doc, indent) + tok.lit
  {
    hide DocText;
    RenderOne(TypePiece(doc, tok, indent));
    if doc == "" {
      assert " " + "" + tok.lit == " " + tok.lit;
    } else {
      assert "\n" + (DocText(indent, doc) + indent) + tok.lit == "\n" + DocText(indent, doc) + indent + tok.lit;
    }
  }

  lemma {:induction false} CloseText(lead: string, tok: Token)
    ensures Render([Close(lead, tok)]) == lead + tok.lit
  {
    RenderOne(Close(lead, tok));
    assert lead + "" == lead;
  }

  lemma {:induction false} MemberHeadText(f: Member, indent: string)
    ensures "\n" + (DocText(indent, f.doc) + indent + f.name.lit) == PieceText(MemberPiece(f, indent))
  {
    hide DocText;
    if f.doc == "" {
      assert DocText(indent, "") == "" by { NoDoc(indent); }
      assert "\n" + ("" + indent + f.name.lit) == "\n" + indent + "" + f.name.lit;
    } else {
      assert "\n" + (DocText(indent, f.doc) + indent + f.name.lit) ==
          "\n" + (DocText(indent, f.doc) + indent) + f.name.lit;
    }
  }

  lemma {:induction false} NoDoc(indent: string)
    ensures DocText(indent, "") == ""
  {
  }

  lemma {:induction false} TypeText(t: TypeExpr, indent: string)
    requires LexedType(t)
    ensures FormatType(t, indent) == Render(TypePieces(t, indent))
    decreases t, 1
  {
    hide KindOf, Prefix, Render, LexedMembers, FormatBlock;
    match t
    case Primitive(doc, name) => HeadText(doc, name, indent);
    case Named(doc, name) => HeadText(doc, name, indent);
    case ListOf(doc, word, elem) =>
      TypeText(elem, indent);
      ListText(t, indent);
    case Record(_, _, _, fields, _) =>
      MembersText(fields, indent + STEP);
      RecordText(t, indent);
  }

  lemma {:induction false} ListText(t: TypeExpr, indent: string)
    requires t.ListOf? && Is(t.word, ListWord) && FormatType(t.elem, indent) == Render(TypePieces(t.elem, indent))
    ensures FormatType(t, indent) == Render(TypePieces(t, indent))
  {
    var first, rest := [TypePiece(t.doc, t.word, indent)], TypePieces(t.elem, indent);
    var head, typ := Prefix(t.doc, indent), FormatType(t.elem, indent);
    assert FormatType(t, indent) == head + ("list" + typ);
    assert TypePieces(t, indent) == first + rest;
    hide *;
    Regroup(head, "list", typ);
    Spellings(t.word);
    HeadText(t.doc, t.word, indent);
    RenderAppend(first, rest);
  }

  lemma {:induction false} RecordOpens()
    ensures "record {" == "record" + " {"
  {
  }

  lemma {:induction false} RecordText(t: TypeExpr, indent: string)
    requires t.Record? && Is(t.word, RecordWord) && Is(t.lbrace, LBrace) && Is(t.rbrace, RBrace)
    requires "\n" + FormatMembers(t.fields, indent + STEP) == Render(MemberPieces(t.fields, indent + STEP)) + "\n"
    ensures FormatType(t, indent) == Render(TypePieces(t, indent))
  {
    hide *;
    var first := [TypePiece(t.doc, t.word, indent)];
    var block := BlockPieces(t.lbrace, t.fields, t.rbrace, indent);
    var head, body := Prefix(t.doc, indent), FormatBlock(t.fields, indent);
    RecordShape(t, indent);
    RecordOpens();
    Regroup("record", " {", body);
    Regroup(head, "record", " {" + body);
    Spellings(t.word);
    HeadText(t.doc, t.word, indent);
    BlockText(t.lbrace, t.fields, t.rbrace, indent);
    RenderAppend(first, block);
  }

  lemma {:induction false} RecordShape(t: TypeExpr, indent: string)
    requires t.Record?
    ensures FormatType(t, indent) == Prefix(t.doc, indent) + ("record {" + FormatBlock(t.fields, indent))
    ensures TypePieces(t, indent) ==
            [TypePiece(t.doc, t.word, indent)] + BlockPieces(t.lbrace, t.fields, t.rbrace, indent)
  {
    hide Prefix, FormatBlock, TypePiece, Close, MemberPieces, BlockLead;
  }

  function BlockPieces(lbrace: Token, fs: seq<Member>, rbrace: Token, indent: string): seq<Piece> {
    [Close(" ", lbrace)] + MemberPieces(fs, indent + STEP) + [Close(BlockLead(fs, indent), rbrace)]
  }

  lemma {:induction false} BlockText(lbrace: Token, fs: seq<Member>, rbrace: Token, indent: string)
    requires Is(lbrace, LBrace) && Is(rbrace, RBrace)
    requires "\n" + FormatMembers(fs, indent + STEP) == Render(MemberPieces(fs, indent + STEP)) + "\n"
    ensures " {" + FormatBlock(fs, indent) == Render(BlockPieces(lbrace, fs, rbrace, indent))
  {
    var open, ms, close := [Close(" ", lbrace)], MemberPieces(fs, indent + STEP),
        [Close(BlockLead(fs, indent), rbrace)];
    BlockInner(fs, indent, Render(ms));
    assert BlockPieces(lbrace, fs, rbrace, indent) == open + (ms + close);
    hide *;
    Spellings(lbrace);
    Spellings(rbrace);
    CloseText(" ", lbrace);
    CloseText(BlockLead(fs, indent), rbrace);
    RenderAppend(open, ms + close);
    RenderAppend(ms, close);
    assert " " + "{" == " {";
  }

  lemma {:induction false} BlockInner(fs: seq<Member>, indent: string, rendered: string)
    requires "\n" + FormatMembers(fs, indent + STEP) == rendered + "\n"
    ensures FormatBlock(fs, indent) == rendered + (BlockLead(fs, indent) + "}")
  {
    if fs == [] {
      assert |"\n" + FormatMembers(fs, indent + STEP)| == 1;
      assert rendered == "";
      assert "" + "}" == "}";
    } else {
      var ms := FormatMembers(fs, indent + STEP);
      hide FormatMembers;
      assert FormatBlock(fs, indent) == "\n" + ms + indent + "}";
      assert "\n" + ms + indent + "}" == rendered + "\n" + indent + "}";
      assert rendered + "\n" + indent + "}" == rendered + ("\n" + indent + "}");
    }
  }

  lemma {:induction false} MembersText(fs: seq<Member>, indent: string)
    requires LexedMembers(fs)
    ensures "\n" + FormatMembers(fs, indent) == Render(MemberPieces(fs, indent)) + "\n"
    decreases fs, 2
  {
    if fs == [] {
      assert "\n" + "" == "" + "\n";
    } else {
      TypeText(fs[0].typ, indent);
      MembersText(fs[1..], indent);
      MembersTextStep(fs, indent);
    }
  }

  lemma {:induction false} MembersFirst(fs: seq<Member>, indent: string)
    requires fs != []
    ensures MemberPieces(fs, indent) ==
            [MemberPiece(fs[0], indent)] +
            (TypePieces(fs[0].typ, indent) + ([Close("", fs[0].semi)] + MemberPieces(fs[1..], indent)))
    ensures FormatMembers(fs, indent) ==
            DocText(indent, fs[0].doc) + indent + fs[0].name.lit + FormatType(fs[0].typ, indent) + ";\n"
            + FormatMembers(fs[1..], indent)
  {
    hide MemberPiece, TypePieces, Close, FormatType, DocText;
  }

  lemma {:induction false} SemicolonText(semi: Token)
    requires Is(semi, Semicolon)
    ensures Render([Close("", semi)]) == ";"
  {
    Spellings(semi);
    CloseText("", semi);
    hide KindOf, Render, Close;
    assert "" + ";" == ";";
  }

  lemma {:induction false} MembersTextStep(fs: seq<Member>, indent: string)
    requires fs != [] && Is(fs[0].semi, Semicolon)
    requires FormatType(fs[0].typ, indent) == Render(TypePieces(fs[0].typ, indent))
    requires "\n" + FormatMembers(fs[1..], indent) == Render(MemberPieces(fs[1..], indent)) + "\n"
    ensures "\n" + FormatMembers(fs, indent) == Render(MemberPieces(fs, indent)) + "\n"
  {
    hide *;
    var head, typ, semi := [MemberPiece(fs[0], indent)], TypePieces(fs[0].typ, indent), [Close("", fs[0].semi)];
    var rest := MemberPieces(fs[1..], indent);
    var start := DocText(indent, fs[0].doc) + indent + fs[0].name.lit;
    var t, after := FormatType(fs[0].typ, indent), FormatMembers(fs[1..], indent);
    MembersFirst(fs, indent);
    MemberHeadText(fs[0], indent);
    RenderOne(head[0]);
    SemicolonText(fs[0].semi);
    RenderAppend(head, typ + (semi + rest));
    RenderAppend(typ, semi + rest);
    RenderAppend(semi, rest);
    MemberJoins(start, t, after, Render(head), Render(rest));
  }

  lemma {:induction false} MemberJoins(head: string, typ: string, rest: string, first: string, after: string)
    requires "\n" + head == first && "\n" + rest == after + "\n"
    ensures "\n" + (head + typ + ";\n" + rest) == first + (typ + (";" + after)) + "\n"
  {
    assert ";\n" == ";" + "\n";
    assert "\n" + (head + typ + ";\n" + rest) == ("\n" + head) + typ + ";" + ("\n" + rest);
    assert first + (typ + (";" + after)) + "\n" == first + typ + ";" + (after + "\n");
  }

  // ---------------------------------------------------------------------------
  // Declarations

  lemma {:induction false} OptionalText(t: Option<TypeExpr>)
    requires LexedOptional(t)
    ensures FormatOptional(t) == Render(OptionalPieces(t))
  {
    hide FormatType, TypePieces, LexedType;
    if t.Some? {
      TypeText(t.value, "");
    }
  }

  /** What a declaration has after its name and before its semicolon. */
  function Tail(d: Decl): string {
    match d
    case TypeDecl(_, _, _, typ, _) => FormatType(typ, "")
    case ExceptionDecl(_, _, _, payload, _) => FormatOptional(payload)
    case ProcDecl(_, _, _, _, params, _, result, _) => " {" + FormatBlock(params, "") + FormatOptional(result)
  }

  function TailPieces(d: Decl): seq<Piece> {
    match d
    case TypeDecl(_, _, _, typ, _) => TypePieces(typ, "")
    case ExceptionDecl(_, _, _, payload, _) => OptionalPieces(payload)
    case ProcDecl(_, _, _, lbrace, params, rbrace, result, _) =>
        BlockPieces(lbrace, params, rbrace, "") + OptionalPieces(result)
  }

  lemma {:induction false} TailText(d: Decl)
    requires LexedDecl(d)
    ensures Tail(d) == Render(TailPieces(d))
  {
    hide KindOf, FormatType, TypePieces, FormatOptional, OptionalPieces, FormatBlock, BlockPieces, LexedType,
         LexedOptional,
         LexedMembers, Render;
    match d
    case TypeDecl(_, _, _, typ, _) => TypeText(typ, "");
    case ExceptionDecl(_, _, _, payload, _) => OptionalText(payload);
    case ProcDecl(_, _, _, lbrace, params, rbrace, result, _) =>
      MembersText(params, "" + STEP);
      BlockText(lbrace, params, rbrace, "");
      OptionalText(result);
      RenderAppend(BlockPieces(lbrace, params, rbrace, ""), OptionalPieces(result));
  }

  function Keyword(d: Decl): string {
    match d
    case TypeDecl(_, _, _, _, _) => "type"
    case ExceptionDecl(_, _, _, _, _) => "exception"
    case ProcDecl(_, _, _, _, _, _, _, _) => "procedure"
  }

  lemma {:induction false} KeywordTexts()
    ensures "type" + " " == "type " && "exception" + " " == "exception " && "procedure" + " " == "procedure "
  {
  }

  lemma {:induction false} KeywordOf(d: Decl)
    requires LexedDecl(d)
    ensures d.word.lit == Keyword(d)
  {
    DeclWords(d);
    Spellings(d.word);
    hide KindOf, LexedDecl;
  }

  lemma {:induction false} ProcRegroups(a: string, b: string, c: string, d: string, e: string)
    ensures a + b + c + d + e == a + (b + c + d) + e
  {
  }

  lemma {:induction false} DeclShape(d: Decl)
    requires LexedDecl(d)
    ensures FormatDecl(d) == DocText("", d.doc) + (d.word.lit + " " + d.name.lit + Tail(d) + ";\n")
  {
    KeywordOf(d);
    KeywordTexts();
    hide KindOf, FormatType, FormatOptional, FormatBlock, LexedDecl, DocText;
    if d.ProcDecl? {
      ProcRegroups("procedure " + d.name.lit, " {", FormatBlock(d.params, ""), FormatOptional(d.result), ";\n");
    }
  }

  lemma {:induction false} DeclPiecesShape(d: Decl, lead: string)
    ensures DeclPieces(d, lead) ==
            [Piece(lead, "", d.doc, d.word.lit)] + ([Close(" ", d.name)] + (TailPieces(d) + [Close("", d.semi)]))
  {
    hide TypePieces, OptionalPieces, MemberPieces, BlockLead, Close;
  }

  lemma {:induction false} DeclWords(d: Decl)
    requires LexedDecl(d)
    ensures d.TypeDecl? ==> Is(d.word, TypeWord)
    ensures d.ExceptionDecl? ==> Is(d.word, ExceptionWord)
    ensures d.ProcDecl? ==> Is(d.word, ProcedureWord)
    ensures Is(d.semi, Semicolon)
  {
    hide KindOf, LexedType, LexedOptional, LexedMembers;
  }

  lemma {:induction false} DeclText(d: Decl, lead: string)
    requires LexedDecl(d)
    ensures lead + FormatDecl(d) == Render(DeclPieces(d, lead)) + "\n"
  {
    DeclShape(d);
    DeclPiecesShape(d, lead);
    TailText(d);
    DeclWords(d);
    var first, name, tail, semi := [Piece(lead, "", d.doc, d.word.lit)], [Close(" ", d.name)], TailPieces(d),
        [Close("", d.semi)];
    DeclHeadText(lead, d.doc, d.word.lit);
    hide *;
    Spellings(d.semi);
    CloseText(" ", d.name);
    CloseText("", d.semi);
    RenderAppend(first, name + (tail + semi));
    RenderAppend(name, tail + semi);
    RenderAppend(tail, semi);
    DeclJoins(lead, DocText("", d.doc), d.word.lit, d.name.lit, Tail(d));
  }

  lemma {:induction false} DeclHeadText(lead: string, doc: string, word: string)
    ensures Render([Piece(lead, "", doc, word)]) == lead + DocText("", doc) + word
  {
    RenderOne(Piece(lead, "", doc, word));
    NoDoc("");
    hide DocText;
    assert DocText("", doc) + "" == DocText("", doc);
  }

  lemma {:induction false} DeclJoins(lead: string, doc: string, word: string, name: string, tail: string)
    ensures lead + (doc + (word + " " + name + tail + ";\n")) ==
            (lead + doc + word) + ((" " + name) + (tail + ("" + ";"))) + "\n"
  {
    assert ";\n" == ";" + "\n";
    assert "" + ";" == ";";
  }

  /** The canonical text is its pieces and a final line feed. */
  lemma {:induction false} FormatText(ds: seq<Decl>, lead: string)
    requires LexedDecls(ds) && ds != []
    ensures lead + Format(ds) == Render(DeclsPieces(ds, lead)) + "\n"
    decreases |ds|
  {
    DeclText(ds[0], lead);
    hide DeclPieces, FormatDecl, LexedDecl, Render;
    if |ds| == 1 {
      assert DeclsPieces(ds[1..], "\n\n") == [];
      assert DeclPieces(ds[0], lead) + [] == DeclPieces(ds[0], lead);
    } else {
      FormatText(ds[1..], "\n\n");
      var a, b := DeclPieces(ds[0], lead), DeclsPieces(ds[1..], "\n\n");
      RenderAppend(a, b);
      assert DeclsPieces(ds, lead) == a + b;
      assert Format(ds) == FormatDecl(ds[0]) + "\n" + Format(ds[1..]);
      hide Format, DeclsPieces;
      FilesJoin(lead, FormatDecl(ds[0]), Format(ds[1..]), Render(a), Render(b));
    }
  }

  lemma {:induction false} FilesJoin(lead: string, d: string, rest: string, a: string, b: string)
    requires lead + d == a + "\n" && "\n\n" + rest == b + "\n"
    ensures lead + (d + "\n" + rest) == a + b + "\n"
  {
    assert "\n\n" == "\n" + "\n";
    assert lead + (d + "\n" + rest) == (lead + d) + ("\n" + rest);
    assert (a + "\n") + ("\n" + rest) == a + ("\n\n" + rest);
  }
}
