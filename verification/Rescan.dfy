/** Scanning laid-out text: one token per piece, and one comment before every documented token. */
module Rescans {
  import opened Leaves
  import opened Syntax
  import opened Scanners
  import opened DocTexts
  import opened Documents
  import opened WrittenDocs
  import opened Formatters
  import opened Layouts

  /** The text of a piece before its token. */
  function Before(p: Piece): string {
    p.lead + (if p.doc == "" then "" else DocText(p.indent, p.doc) + p.indent)
  }

  function NoteStart(p: Piece, base: nat): nat {
    base + |p.lead| + |p.indent|
  }

  function PieceComment(p: Piece, base: nat): Comment {
    Comment(Body(p.indent, p.doc), NoteStart(p, base), NoteStart(p, base) + 4 + |Body(p.indent, p.doc)|)
  }

  function PieceToken(p: Piece, base: nat): Token {
    Token(p.lit, base + |Before(p)|, base + |PieceText(p)|)
  }

  /** Where the tokens and the comments of the pieces stand. */
  function Placed(ps: seq<Piece>, base: nat): Scanned {
    if ps == [] then Scanned([], [], true)
    else Joined(PlacedOne(ps[0], base), Placed(ps[1..], base + |PieceText(ps[0])|))
  }

  function PlacedOne(p: Piece, base: nat): Scanned {
    Scanned([PieceToken(p, base)], if p.doc == "" then [] else [PieceComment(p, base)], true)
  }

  lemma {:induction false} SpacesThen(ws: string, s: string)
    requires AllSpace(ws) && s != "" && !IsSpace(s[0])
    ensures SpaceCount(ws + s) == |ws|
  {
    hide IsSpace, SpaceCount;
    var n := SpaceCount(ws + s);
    assert (ws + s)[|ws|] == s[0];
    assert forall i :: 0 <= i < |ws| ==> (ws + s)[i] == ws[i];
  }

  lemma {:induction false} WordThen(lit: string, rest: string)
    requires IsWord(lit) && (rest == "" || !IsIdentPart(rest[0]))
    ensures IdentCount(lit + rest) == |lit|
  {
    hide IsIdentPart, IsIdentStart, IdentCount;
    assert rest != "" ==> (lit + rest)[|lit|] == rest[0];
    assert forall i :: 0 <= i < |lit| ==> (lit + rest)[i] == lit[i];
  }

  lemma {:induction false} LitStart(lit: string)
    requires LitOk(lit)
    ensures lit != "" && !IsSpace(lit[0]) && lit[0] != '/'
    ensures IsPunctuation(lit[0]) ==> |lit| == 1
    ensures !IsPunctuation(lit[0]) ==> IsIdentStart(lit[0]) && IsWord(lit)
  {
  }

  lemma {:induction false} NextIsWord(ws: string, lit: string, rest: string)
    requires AllSpace(ws) && LitOk(lit) && (IsWord(lit) && rest != "" ==> !IsIdentPart(rest[0]))
    ensures NextLex(ws + lit + rest) == Word(|ws|, |ws| + |lit|)
  {
    LitStart(lit);
    hide IsSpace, IsIdentStart, IsIdentPart, SpaceCount, IdentCount, IsPunctuation, IsWord, LitOk, AllSpace;
    var s := ws + lit + rest;
    assert s == ws + (lit + rest) && (lit + rest)[0] == lit[0];
    SpacesThen(ws, lit + rest);
    assert s[|ws|] == lit[0];
    if !IsPunctuation(lit[0]) {
      assert s[|ws|..] == lit + rest;
      WordThen(lit, rest);
    }
  }

  lemma {:induction false} CloseIsNext(pre: string, body: string, rest: string)
    requires NoClose(body)
    ensures var s := pre + "/*" + body + "*/" + rest; FindClose(s, |pre| + 2) == Some(|pre| + 2 + |body|)
  {
    hide FindClose;
    var s := pre + "/*" + body + "*/" + rest;
    var at := |pre| + 2;
    assert forall i :: 0 <= i < |body| ==> s[at + i] == body[i];
    assert s[at + |body|] == '*' && s[at + |body| + 1] == '/';
    assert CloseAt(s, at + |body|);
    forall j | at <= j < at + |body|
      ensures !CloseAt(s, j)
    {
      assert !CloseAt(body, j - at);
    }
  }

  lemma {:induction false} NoteText(ws: string, body: string, rest: string)
    ensures var s := ws + "/*" + body + "*/" + rest;
            && s == ws + ("/*" + body + "*/" + rest) && |s| >= |ws| + 4 + |body|
            && s[|ws|] == '/' && s[|ws| + 1] == '*'
            && s[|ws| + 2..|ws| + 2 + |body|] == body && s[|ws| + 4 + |body|..] == rest
  {
  }

  lemma {:induction false} NextIsNote(ws: string, body: string, rest: string)
    requires AllSpace(ws) && Clean(body)
    ensures var s := ws + "/*" + body + "*/" + rest;
            && NextLex(s) == Note(|ws|, |ws| + 4 + |body|)
            && s[|ws| + 2..|ws| + 2 + |body|] == body && s[|ws| + 4 + |body|..] == rest
  {
    var s := ws + "/*" + body + "*/" + rest;
    NoteText(ws, body, rest);
    CloseIsNext(ws, body, rest);
    SpacesThen(ws, "/*" + body + "*/" + rest);
    hide IsSpace, IsIdentStart, SpaceCount, FindClose, ValidText, NoClose;
  }

  /** What follows a piece never continues its word. */
  lemma {:induction false} RestStarts(ps: seq<Piece>)
    requires AllOk(ps)
    ensures var rest := Render(ps) + "\n"; rest != "" && !IsIdentPart(rest[0])
  {
    if ps != [] {
      var p := ps[0];
      var text := PieceText(p);
      assert (Render(ps) + "\n") == text + (Render(ps[1..]) + "\n");
      if p.lead != "" {
        assert text[0] == p.lead[0];
        assert IsSpace(p.lead[0]);
      } else {
        LitStart(p.lit);
        assert text == p.lit;
      }
    }
  }

  lemma {:induction false} ScanPlain(p: Piece, rest: string, base: nat)
    requires PieceOk(p) && p.doc == "" && rest != "" && !IsIdentPart(rest[0])
    ensures Scan(PieceText(p) + rest, base) == Joined(PlacedOne(p, base), Scan(rest, base + |PieceText(p)|))
  {
    hide IsSpace, IsIdentPart, DocOk, LitOk, IsWord, Scan, Joined, NextLex, DocText;
    var s := PieceText(p) + rest;
    assert s == p.lead + p.lit + rest;
    NextIsWord(p.lead, p.lit, rest);
    ScanAt(s, base);
    assert s[|p.lead|..|p.lead| + |p.lit|] == p.lit && s[|p.lead| + |p.lit|..] == rest;
  }

  lemma {:induction false} ScanWord(ws: string, lit: string, rest: string, base: nat)
    requires AllSpace(ws) && LitOk(lit) && rest != "" && !IsIdentPart(rest[0])
    ensures var end := base + |ws| + |lit|;
            Scan(ws + lit + rest, base) == Joined(Scanned([Token(lit, base + |ws|, end)], [], true), Scan(rest, end))
  {
    hide IsIdentPart, LitOk, IsWord, Scan, Joined, NextLex, AllSpace;
    NextIsWord(ws, lit, rest);
    var s := ws + lit + rest;
    ScanAt(s, base);
    assert s[|ws|..|ws| + |lit|] == lit && s[|ws| + |lit|..] == rest;
  }

  lemma {:induction false} ScanNote(ws: string, body: string, rest: string, base: nat)
    requires AllSpace(ws) && Clean(body)
    ensures var end := base + |ws| + 4 + |body|;
            Scan(ws + "/*" + body + "*/" + rest, base) ==
                Joined(Scanned([], [Comment(body, base + |ws|, end)], true), Scan(rest, end))
  {
    hide Scan, Joined, NextLex, Clean, AllSpace;
    NextIsNote(ws, body, rest);
    ScanAt(ws + "/*" + body + "*/" + rest, base);
  }

  lemma {:induction false} DocumentedText(p: Piece, rest: string)
    requires p.doc != ""
    ensures PieceText(p) + rest ==
            (p.lead + p.indent) + "/*" + Body(p.indent, p.doc) + "*/" + (("\n" + p.indent) + p.lit + rest)
  {
    hide Body;
  }

  lemma {:induction false} DocumentedParts(p: Piece)
    requires PieceOk(p) && p.doc != ""
    ensures Clean(Body(p.indent, p.doc)) && AllSpace(p.lead + p.indent) && AllSpace("\n" + p.indent) && LitOk(p.lit)
  {
    hide *;
    PieceFacts(p);
    BodyClean(p.indent, p.doc);
    BlankIsSpace(p.indent);
    SpaceBoth(p.lead, p.indent);
  }

  lemma {:induction false} PieceFacts(p: Piece)
    requires PieceOk(p)
    ensures AllSpace(p.lead) && AllBlank(p.indent) && (p.doc == "" || DocOk(p.doc)) && LitOk(p.lit)
  {
  }

  lemma {:induction false} ScanDocumented(p: Piece, rest: string, base: nat)
    requires PieceOk(p) && p.doc != "" && rest != "" && !IsIdentPart(rest[0])
    ensures Scan(PieceText(p) + rest, base) == Joined(PlacedOne(p, base), Scan(rest, base + |PieceText(p)|))
  {
    hide *;
    var body := Body(p.indent, p.doc);
    var ws, after := p.lead + p.indent, "\n" + p.indent;
    DocumentedParts(p);
    DocumentedText(p, rest);
    BothPlaced(p, base);
    ScanNote(ws, body, after + p.lit + rest, base);
    var at, mid := base + |ws|, base + |ws| + 4 + |body|;
    var end := mid + |after| + |p.lit|;
    ScanWord(after, p.lit, rest, mid);
    JoinedAssociates(Scanned([], [Comment(body, at, mid)], true), Scanned([Token(p.lit, mid + |after|, end)], [], true),
        Scan(rest, end));
  }

  lemma {:induction false} SpaceBoth(a: string, b: string)
    requires AllSpace(a) && AllBlank(b)
    ensures AllSpace(a + b)
  {
  }

  lemma {:induction false} BothPlaced(p: Piece, base: nat)
    requires p.doc != ""
    ensures var at := base + |p.lead + p.indent|;
            var mid := at + 4 + |Body(p.indent, p.doc)|;
            var after := |"\n" + p.indent|;
            && Joined(Scanned([], [Comment(Body(p.indent, p.doc), at, mid)], true),
                      Scanned([Token(p.lit, mid + after, mid + after + |p.lit|)], [], true)) == PlacedOne(p, base)
            && base + |PieceText(p)| == mid + after + |p.lit|
  {
    hide Body;
  }

  /** Scanning a layout finds its tokens and comments where they were placed. */
  lemma {:induction false} ScanLayout(ps: seq<Piece>, base: nat)
    requires LayoutOk(ps)
    ensures Scan(Render(ps) + "\n", base) == Placed(ps, base)
    decreases |ps|
  {
    hide PieceText, PieceOk, Apart, Scan, Joined, PlacedOne;
    if ps == [] {
      ScanEnd(base);
      assert "" + "\n" == "\n";
    } else {
      var rest := Render(ps[1..]) + "\n";
      assert AllOk(ps[1..]);
      RestStarts(ps[1..]);
      ScanLayout(ps[1..], base + |PieceText(ps[0])|);
      assert Render(ps) + "\n" == PieceText(ps[0]) + rest;
      if ps[0].doc == "" {
        ScanPlain(ps[0], rest, base);
      } else {
        ScanDocumented(ps[0], rest, base);
      }
    }
  }

  lemma {:induction false} ScanEnd(base: nat)
    ensures Scan("\n", base) == Scanned([], [], true)
  {
    assert "\n"[1..] == "";
    assert SpaceCount("\n") == 1;
  }
}
