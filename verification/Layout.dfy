/**
 * The layout of canonical text: scanning it finds exactly the tokens of the tree, and one comment directly before
 * every documented token.
 */
module Layouts {
  import opened Leaves
  import opened Syntax
  import opened Scanners
  import opened Marks
  import opened DocTexts
  import opened Documents
  import opened WrittenDocs
  import opened Formatters

  predicate IsWord(lit: string) {
    lit != "" && IsIdentStart(lit[0]) && forall i :: 0 <= i < |lit| ==> IsIdentPart(lit[i])
  }

  /** A text that scans as one token. */
  predicate LitOk(lit: string) {
    (|lit| == 1 && IsPunctuation(lit[0])) || IsWord(lit)
  }

  predicate MarkOk(m: Mark) {
    LitOk(m.lit) && (m.doc == "" || DocOk(m.doc))
  }

  /** Every token has a token's text and every document is in normal form. */
  predicate MarksOk(ms: seq<Mark>) {
    forall i :: 0 <= i < |ms| ==> MarkOk(ms[i])
  }

  predicate AllSpace(s: string) {
    forall i :: 0 <= i < |s| ==> IsSpace(s[i])
  }

  predicate PieceOk(p: Piece) {
    AllSpace(p.lead) && AllBlank(p.indent) && (p.doc == "" || DocOk(p.doc)) && LitOk(p.lit)
  }

  /** Separated from what is before it: words by space, documents by a line of their own. */
  predicate Apart(p: Piece) {
    && (p.lead == "" ==> !IsWord(p.lit) && p.doc == "")
    && (p.doc != "" ==> p.lead != "" && p.lead[|p.lead| - 1] == '\n')
  }

  predicate AllOk(ps: seq<Piece>) {
    forall i :: 0 <= i < |ps| ==> PieceOk(ps[i]) && Apart(ps[i])
  }

  predicate LayoutOk(ps: seq<Piece>) {
    && (forall i :: 0 <= i < |ps| ==> PieceOk(ps[i]))
    && (forall i :: 1 <= i < |ps| ==> Apart(ps[i]))
  }

  function MarkOf(p: Piece): Mark {
    Mark(p.lit, p.doc)
  }

  function MarksOf(ps: seq<Piece>): (r: seq<Mark>)
    ensures |r| == |ps| && forall i :: 0 <= i < |ps| ==> r[i] == MarkOf(ps[i])
  {
    seq(|ps|, i requires 0 <= i < |ps| => MarkOf(ps[i]))
  }

  /** The pieces lay out these marks. */
  predicate LaysOut(ps: seq<Piece>, ms: seq<Mark>) {
    MarksOf(ps) == ms && AllOk(ps)
  }

  lemma {:induction false} LayOutBoth(a: seq<Piece>, b: seq<Piece>, x: seq<Mark>, y: seq<Mark>)
    requires LaysOut(a, x) && LaysOut(b, y)
    ensures LaysOut(a + b, x + y)
  {
    hide PieceOk, Apart;
    assert MarksOf(a + b) == MarksOf(a) + MarksOf(b);
  }

  lemma {:induction false} LayOutOne(p: Piece)
    requires PieceOk(p) && Apart(p)
    ensures LaysOut([p], [MarkOf(p)])
  {
    hide PieceOk, Apart;
    assert MarksOf([p]) == [MarkOf(p)];
  }

  lemma {:induction false} MarksOkSplit(a: seq<Mark>, b: seq<Mark>)
    ensures MarksOk(a + b) <==> MarksOk(a) && MarksOk(b)
  {
    hide MarkOk;
    var s := a + b;
    assert forall i :: 0 <= i < |a| ==> s[i] == a[i];
    assert forall i :: 0 <= i < |b| ==> s[|a| + i] == b[i];
    if MarksOk(a) && MarksOk(b) {
      forall i | 0 <= i < |s|
        ensures MarkOk(s[i])
      {
        assert s[i] == if i < |a| then a[i] else b[i - |a|];
      }
    }
  }

  lemma {:induction false} MarksOkOne(m: Mark)
    requires MarksOk([m])
    ensures MarkOk(m)
  {
    assert MarkOk([m][0]);
  }

  lemma {:induction false} LayOutHead(doc: string, tok: Token, indent: string)
    requires MarkOk(Mark(tok.lit, doc)) && AllBlank(indent)
    ensures LaysOut([TypePiece(doc, tok, indent)], [Mark(tok.lit, doc)])
  {
    hide DocOk, LitOk, IsWord;
    var p := TypePiece(doc, tok, indent);
    assert p.lead == " " || p.lead == "\n";
    assert PieceOk(p) && Apart(p);
    LayOutOne(p);
  }

  lemma {:induction false} BlankIsSpace(s: string)
    requires AllBlank(s)
    ensures AllSpace("\n" + s)
  {
    forall i | 0 <= i < |"\n" + s|
      ensures IsSpace(("\n" + s)[i])
    {
      if i > 0 {
        assert ("\n" + s)[i] == s[i - 1];
      }
    }
  }

  lemma {:induction false} LayOutMember(f: Member, indent: string)
    requires MarkOk(Mark(f.name.lit, f.doc)) && AllBlank(indent)
    ensures LaysOut([MemberPiece(f, indent)], [Mark(f.name.lit, f.doc)])
  {
    BlankIsSpace(indent);
    hide DocOk, LitOk, IsWord;
    var p := MemberPiece(f, indent);
    assert f.doc != "" ==> p.lead == "\n";
    assert PieceOk(p) && Apart(p);
    LayOutOne(p);
  }

  lemma {:induction false} Punctuation(tok: Token)
    requires Is(tok, LBrace) || Is(tok, RBrace) || Is(tok, Semicolon)
    ensures LitOk(tok.lit) && !IsWord(tok.lit)
  {
    Spellings(tok);
  }

  lemma {:induction false} LayOutClose(lead: string, tok: Token)
    requires AllSpace(lead) && (Is(tok, LBrace) || Is(tok, RBrace) || Is(tok, Semicolon))
    ensures LaysOut([Close(lead, tok)], [Bare(tok)])
  {
    Punctuation(tok);
    hide DocOk, LitOk, IsWord, AllSpace;
    var p := Close(lead, tok);
    assert PieceOk(p) && Apart(p);
    LayOutOne(p);
  }

  lemma {:induction false} LayOutName(tok: Token)
    requires MarkOk(Bare(tok))
    ensures LaysOut([Close(" ", tok)], [Bare(tok)])
  {
    hide DocOk, LitOk, IsWord;
    var p := Close(" ", tok);
    assert PieceOk(p) && Apart(p);
    LayOutOne(p);
  }

  lemma {:induction false} LayOutType(t: TypeExpr, indent: string)
    requires LexedType(t) && MarksOk(TypeMarks(t)) && AllBlank(indent)
    ensures LaysOut(TypePieces(t, indent), TypeMarks(t))
    decreases t, 1
  {
    hide KindOf, MarkOk, MarksOk, LaysOut, AllBlank, TypePiece, BlockPieces, LexedMembers;
    match t
    case Primitive(doc, name) =>
      MarksOkOne(Mark(name.lit, doc));
      LayOutHead(doc, name, indent);
    case Named(doc, name) =>
      MarksOkOne(Mark(name.lit, doc));
      LayOutHead(doc, name, indent);
    case ListOf(doc, word, elem) =>
      MarksOkSplit([Mark(word.lit, doc)], TypeMarks(elem));
      MarksOkOne(Mark(word.lit, doc));
      LayOutHead(doc, word, indent);
      LayOutType(elem, indent);
      LayOutBoth([TypePiece(doc, word, indent)], TypePieces(elem, indent), [Mark(word.lit, doc)], TypeMarks(elem));
    case Record(doc, word, lbrace, fields, rbrace) =>
      var head, block := [Mark(word.lit, doc)], BlockMarks(lbrace, fields, rbrace);
      assert TypeMarks(t) == head + block;
      MarksOkSplit(head, block);
      MarksOkOne(head[0]);
      LayOutHead(doc, word, indent);
      LayOutBlock(lbrace, fields, rbrace, indent);
      RecordShape(t, indent);
      LayOutBoth([TypePiece(doc, word, indent)], BlockPieces(lbrace, fields, rbrace, indent), head, block);
  }

  function BlockMarks(lbrace: Token, fs: seq<Member>, rbrace: Token): seq<Mark> {
    [Bare(lbrace)] + MemberMarks(fs) + [Bare(rbrace)]
  }

  lemma {:induction false} LayOutBlock(lbrace: Token, fs: seq<Member>, rbrace: Token, indent: string)
    requires Is(lbrace, LBrace) && Is(rbrace, RBrace) && LexedMembers(fs) && AllBlank(indent)
    requires MarksOk(BlockMarks(lbrace, fs, rbrace))
    ensures LaysOut(BlockPieces(lbrace, fs, rbrace, indent), BlockMarks(lbrace, fs, rbrace))
    decreases fs, 3
  {
    var open, ms, close := [Bare(lbrace)], MemberMarks(fs), [Bare(rbrace)];
    var lead := BlockLead(fs, indent);
    BlankIsSpace(indent);
    assert AllSpace(lead) && AllSpace(" ");
    assert AllBlank(indent + STEP);
    hide KindOf, MarkOk, MarksOk, LaysOut, AllBlank, AllSpace, Close, MemberPieces, MemberMarks, LexedMembers,
         BlockLead;
    MarksOkSplit(open + ms, close);
    MarksOkSplit(open, ms);
    LayOutClose(" ", lbrace);
    LayOutClose(lead, rbrace);
    LayOutMembers(fs, indent + STEP);
    LayOutBoth([Close(" ", lbrace)], MemberPieces(fs, indent + STEP), open, ms);
    LayOutBoth([Close(" ", lbrace)] + MemberPieces(fs, indent + STEP), [Close(lead, rbrace)], open + ms, close);
  }

  lemma {:induction false} LayOutMembers(fs: seq<Member>, indent: string)
    requires LexedMembers(fs) && AllBlank(indent) && MarksOk(MemberMarks(fs))
    ensures LaysOut(MemberPieces(fs, indent), MemberMarks(fs))
    decreases fs, 2
  {
    assert AllSpace("");
    hide KindOf, MarkOk, MarksOk, AllBlank, AllSpace, Close, MemberPiece, TypePieces, TypeMarks, LexedType;
    if fs == [] {
      assert MarksOf([]) == [];
    } else {
      hide LaysOut;
      var name, typ, semi, rest := [Mark(fs[0].name.lit, fs[0].doc)], TypeMarks(fs[0].typ), [Bare(fs[0].semi)],
          MemberMarks(fs[1..]);
      var p, q, r, s := [MemberPiece(fs[0], indent)], TypePieces(fs[0].typ, indent), [Close("", fs[0].semi)],
        MemberPieces(fs[1..], indent);
      MarksOkSplit(name + typ + semi, rest);
      MarksOkSplit(name + typ, semi);
      MarksOkSplit(name, typ);
      MarksOkOne(name[0]);
      LayOutMember(fs[0], indent);
      LayOutType(fs[0].typ, indent);
      LayOutClose("", fs[0].semi);
      LayOutMembers(fs[1..], indent);
      LayOutBoth(p, q, name, typ);
      LayOutBoth(p + q, r, name + typ, semi);
      LayOutBoth(p + q + r, s, name + typ + semi, rest);
    }
  }

  lemma {:induction false} LayOutOptional(t: Option<TypeExpr>)
    requires LexedOptional(t) && MarksOk(OptionalMarks(t))
    ensures LaysOut(OptionalPieces(t), OptionalMarks(t))
  {
    assert AllBlank("");
    hide TypePieces, TypeMarks, LexedType, MarkOk, AllBlank;
    if t.Some? {
      LayOutType(t.value, "");
    } else {
      assert MarksOf([]) == [];
    }
  }

  function TailMarks(d: Decl): seq<Mark> {
    match d
    case TypeDecl(_, _, _, typ, _) => TypeMarks(typ)
    case ExceptionDecl(_, _, _, payload, _) => OptionalMarks(payload)
    case ProcDecl(_, _, _, lbrace, params, rbrace, result, _) =>
        BlockMarks(lbrace, params, rbrace) + OptionalMarks(result)
  }

  lemma {:induction false} LayOutTail(d: Decl)
    requires LexedDecl(d) && MarksOk(TailMarks(d))
    ensures LaysOut(TailPieces(d), TailMarks(d))
  {
    assert AllBlank("");
    hide KindOf, TypePieces, TypeMarks, OptionalPieces, OptionalMarks, BlockPieces, BlockMarks, LaysOut, MarkOk,
         MarksOk,
         LexedType, LexedOptional, LexedMembers, AllBlank;
    match d
    case TypeDecl(_, _, _, typ, _) => LayOutType(typ, "");
    case ExceptionDecl(_, _, _, payload, _) => LayOutOptional(payload);
    case ProcDecl(_, _, _, lbrace, params, rbrace, result, _) =>
      MarksOkSplit(BlockMarks(lbrace, params, rbrace), OptionalMarks(result));
      LayOutBlock(lbrace, params, rbrace, "");
      LayOutOptional(result);
      LayOutBoth(BlockPieces(lbrace, params, rbrace, ""), OptionalPieces(result), BlockMarks(lbrace, params, rbrace),
          OptionalMarks(result));
  }

  lemma {:induction false} DeclMarksShape(d: Decl)
    ensures DeclMarks(d) == [Mark(d.word.lit, d.doc)] + ([Bare(d.name)] + (TailMarks(d) + [Bare(d.semi)]))
  {
    hide TypeMarks, OptionalMarks, MemberMarks;
  }

  /** Everything of a declaration after its first token. */
  lemma {:induction false} LayOutDecl(d: Decl)
    requires LexedDecl(d) && MarksOk(DeclMarks(d))
    ensures MarkOk(Mark(d.word.lit, d.doc))
    ensures LaysOut([Close(" ", d.name)] + (TailPieces(d) + [Close("", d.semi)]),
            [Bare(d.name)] + (TailMarks(d) + [Bare(d.semi)]))
  {
    DeclMarksShape(d);
    DeclWords(d);
    assert AllSpace("");
    hide KindOf, MarkOk, MarksOk, LaysOut, Close, TailPieces, TailMarks, LexedDecl, AllSpace, DeclMarks;
    MarksOkSplit([Mark(d.word.lit, d.doc)], [Bare(d.name)] + (TailMarks(d) + [Bare(d.semi)]));
    MarksOkSplit([Bare(d.name)], TailMarks(d) + [Bare(d.semi)]);
    MarksOkSplit(TailMarks(d), [Bare(d.semi)]);
    MarksOkOne(Mark(d.word.lit, d.doc));
    MarksOkOne(Bare(d.name));
    LayOutName(d.name);
    LayOutTail(d);
    LayOutClose("", d.semi);
    LayOutBoth(TailPieces(d), [Close("", d.semi)], TailMarks(d), [Bare(d.semi)]);
    LayOutBoth([Close(" ", d.name)], TailPieces(d) + [Close("", d.semi)], [Bare(d.name)],
        TailMarks(d) + [Bare(d.semi)]);
  }

  lemma {:induction false} LayOutRest(ds: seq<Decl>)
    requires LexedDecls(ds) && MarksOk(DeclsMarks(ds))
    ensures LaysOut(DeclsPieces(ds, "\n\n"), DeclsMarks(ds))
    decreases |ds|
  {
    hide KindOf, MarkOk, MarksOk, LexedDecl, DeclMarks, DeclPieces, TailPieces, TailMarks, Close;
    if ds == [] {
      assert MarksOf([]) == [];
    } else {
      var d := ds[0];
      MarksOkSplit(DeclMarks(d), DeclsMarks(ds[1..]));
      LayOutDecl(d);
      LayOutRest(ds[1..]);
      DeclPiecesShape(d, "\n\n");
      DeclMarksShape(d);
      var p := Piece("\n\n", "", d.doc, d.word.lit);
      FirstPieceApart(p);
      LayOutOne(p);
      var tail, marks := [Close(" ", d.name)] + (TailPieces(d) + [Close("", d.semi)]),
          [Bare(d.name)] + (TailMarks(d) + [Bare(d.semi)]);
      hide LaysOut;
      LayOutBoth([p], tail, [MarkOf(p)], marks);
      LayOutBoth(DeclPieces(d, "\n\n"), DeclsPieces(ds[1..], "\n\n"), DeclMarks(d), DeclsMarks(ds[1..]));
    }
  }

  lemma {:induction false} FirstPieceApart(p: Piece)
    requires MarkOk(MarkOf(p)) && p.indent == "" && p.lead == "\n\n"
    ensures PieceOk(p) && Apart(p)
  {
    hide DocOk, LitOk, IsWord;
  }

  function AfterFirst(d: Decl): seq<Piece> {
    [Close(" ", d.name)] + (TailPieces(d) + [Close("", d.semi)])
  }

  function MarksAfterFirst(d: Decl): seq<Mark> {
    [Bare(d.name)] + (TailMarks(d) + [Bare(d.semi)])
  }

  lemma {:induction false} Associate<T>(a: seq<T>, b: seq<T>, c: seq<T>)
    ensures (a + b) + c == a + (b + c)
  {
  }

  lemma {:induction false} FileShape(ds: seq<Decl>)
    requires ds != []
    ensures DeclsPieces(ds, "") ==
            [Piece("", "", ds[0].doc, ds[0].word.lit)] + (AfterFirst(ds[0]) + DeclsPieces(ds[1..], "\n\n"))
    ensures DeclsMarks(ds) == [Mark(ds[0].word.lit, ds[0].doc)] + (MarksAfterFirst(ds[0]) + DeclsMarks(ds[1..]))
  {
    DeclPiecesShape(ds[0], "");
    DeclMarksShape(ds[0]);
    ShapeNames(ds[0]);
    FileSplit(ds);
    hide *;
    Associate([Piece("", "", ds[0].doc, ds[0].word.lit)], AfterFirst(ds[0]), DeclsPieces(ds[1..], "\n\n"));
    Associate([Mark(ds[0].word.lit, ds[0].doc)], MarksAfterFirst(ds[0]), DeclsMarks(ds[1..]));
  }

  lemma {:induction false} FileSplit(ds: seq<Decl>)
    requires ds != []
    ensures DeclsPieces(ds, "") == DeclPieces(ds[0], "") + DeclsPieces(ds[1..], "\n\n")
    ensures DeclsMarks(ds) == DeclMarks(ds[0]) + DeclsMarks(ds[1..])
  {
    hide DeclPieces, DeclMarks;
  }

  lemma {:induction false} ShapeNames(d: Decl)
    ensures AfterFirst(d) == [Close(" ", d.name)] + (TailPieces(d) + [Close("", d.semi)])
    ensures MarksAfterFirst(d) == [Bare(d.name)] + (TailMarks(d) + [Bare(d.semi)])
  {
  }

  /** The canonical text of a tree is a layout of its marks. */
  lemma {:induction false} LayOutFile(ds: seq<Decl>)
    requires LexedDecls(ds) && MarksOk(DeclsMarks(ds)) && ds != []
    ensures var ps := DeclsPieces(ds, ""); MarksOf(ps) == DeclsMarks(ds) && LayoutOk(ps) && ps != []
  {
    var d := ds[0];
    FileShape(ds);
    ShapeNames(d);
    hide KindOf, MarkOk, MarksOk, LexedDecl, DeclMarks, DeclPieces, TailPieces, TailMarks, Close, DeclsPieces,
         AfterFirst,
         MarksAfterFirst, LaysOut, LayoutOk, MarksOf;
    assert DeclsMarks(ds) == DeclMarks(d) + DeclsMarks(ds[1..]);
    hide DeclsMarks;
    MarksOkSplit(DeclMarks(d), DeclsMarks(ds[1..]));
    LayOutDecl(d);
    LayOutRest(ds[1..]);
    var rest := DeclsPieces(ds[1..], "\n\n");
    LayOutBoth(AfterFirst(d), rest, MarksAfterFirst(d), DeclsMarks(ds[1..]));
    var p := Piece("", "", d.doc, d.word.lit);
    assert MarkOf(p) == Mark(d.word.lit, d.doc);
    FirstPieceOk(p);
    hide PieceOk, Apart;
    FirstThenRest(p, AfterFirst(d) + rest, MarksAfterFirst(d) + DeclsMarks(ds[1..]));
  }

  lemma {:induction false} FirstPieceOk(p: Piece)
    requires MarkOk(MarkOf(p)) && p.indent == "" && p.lead == ""
    ensures PieceOk(p)
  {
    hide DocOk, LitOk, IsWord;
  }

  lemma {:induction false} FirstThenRest(p: Piece, rest: seq<Piece>, ms: seq<Mark>)
    requires PieceOk(p) && LaysOut(rest, ms)
    ensures MarksOf([p] + rest) == [MarkOf(p)] + ms && LayoutOk([p] + rest)
  {
    hide PieceOk, Apart;
    assert MarksOf([p] + rest) == [MarkOf(p)] + MarksOf(rest);
  }
}
