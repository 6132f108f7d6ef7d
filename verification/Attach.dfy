/**
 * Attaching documentation: which comments before an anchor token belong to it. In canonical text the document of
 * every token is exactly the one that was printed there.
 */
module Attachments {
  import opened Leaves
  import opened Syntax
  import opened Scanners
  import opened Marks
  import opened DocTexts
  import opened Documents
  import opened WrittenDocs
  import opened Formatters
  import opened Layouts
  import opened Rescans

  // ---------------------------------------------------------------------------
  // Searching offsets

  /** The first index whose element exceeds `x`, or the length. */
  function FirstAbove(xs: seq<nat>, x: nat): (r: nat)
    ensures r <= |xs| && (r < |xs| ==> xs[r] > x) && forall i :: 0 <= i < r ==> xs[i] <= x
  {
    if xs == [] || xs[0] > x then 0 else 1 + FirstAbove(xs[1..], x)
  }

  lemma {:induction false} FirstAboveSplit(a: seq<nat>, b: seq<nat>, x: nat)
    requires (forall i :: 0 <= i < |a| ==> a[i] <= x) && (b != [] ==> b[0] > x)
    ensures FirstAbove(a + b, x) == |a|
  {
    hide FirstAbove;
    var r := FirstAbove(a + b, x);
    assert forall i :: 0 <= i < |a| ==> (a + b)[i] == a[i];
    assert b != [] ==> (a + b)[|a|] == b[0];
  }

  function TokenEnds(ts: seq<Token>): (r: seq<nat>)
    ensures |r| == |ts| && forall i :: 0 <= i < |ts| ==> r[i] == ts[i].end
  {
    seq(|ts|, i requires 0 <= i < |ts| => ts[i].end)
  }

  function CommentEnds(cs: seq<Comment>): (r: seq<nat>)
    ensures |r| == |cs| && forall i :: 0 <= i < |cs| ==> r[i] == cs[i].end
  {
    seq(|cs|, i requires 0 <= i < |cs| => cs[i].end)
  }

  function CommentTexts(cs: seq<Comment>): (r: seq<string>)
    ensures |r| == |cs| && forall i :: 0 <= i < |cs| ==> r[i] == cs[i].text
  {
    seq(|cs|, i requires 0 <= i < |cs| => cs[i].text)
  }

  // ---------------------------------------------------------------------------
  // Lines

  function Slice(src: string, a: nat, b: nat): string {
    if a <= b <= |src| then src[a..b] else ""
  }

  /** The line between two LFs; the CR of a CRLF terminator is not part of it. */
  function LineBetween(s: string, p: nat, q: nat): string
    requires p < q < |s| && s[p] == '\n'
  {
    s[p + 1..if s[q - 1] == '\r' then q - 1 else q]
  }

  /** A complete line of spaces and tabs only. */
  predicate BlankLine(s: string, p: nat, q: nat) {
    p < q < |s| && s[p] == '\n' && s[q] == '\n' && AllBlank(LineBetween(s, p, q))
  }

  ghost predicate HasBlankLine(s: string) {
    exists p: nat, q: nat :: BlankLine(s, p, q)
  }

  /** No line terminator from `a` up to `b`. */
  predicate SameLine(src: string, a: nat, b: nat) {
    Free(Slice(src, a, b), '\n')
  }

  // ---------------------------------------------------------------------------
  // Attachment

  /** What attachment knows of a file: token ends ascending, node ends and type-prefix ends, comments in order. */
  datatype Facts = Facts(src: string, tokenEnds: seq<nat>, nodeEnds: seq<nat>, prefixes: seq<nat>,
      comments: seq<Comment>)

  /** A node was completed before the comment on its line. */
  ghost predicate Trailing(f: Facts, c: Comment) {
    exists e :: e in f.nodeEnds && 0 < e <= c.start && SameLine(f.src, e - 1, c.start)
  }

  /** Where the last run of comments without a blank line between them starts. */
  ghost function SegmentStart(src: string, group: seq<Comment>, n: nat): (r: nat)
    requires n < |group|
    ensures r <= n
  {
    if n > 0 && !HasBlankLine(Slice(src, group[n - 1].end, group[n].start)) then SegmentStart(src, group, n - 1) else n
  }

  ghost function SkipTrailing(f: Facts, group: seq<Comment>, k: nat): (r: nat)
    requires k <= |group|
    ensures k <= r <= |group|
    decreases |group| - k
  {
    if k < |group| && Trailing(f, group[k]) then SkipTrailing(f, group, k + 1) else k
  }

  /** The document of the anchor at `start` from the comments between it and the token that ends at `prevEnd`. */
  ghost function GroupAt(f: Facts, group: seq<Comment>, prevEnd: nat, start: nat): string {
    if group == [] || HasBlankLine(Slice(f.src, group[|group| - 1].end, start)) then ""
    else
      var segment := SegmentStart(f.src, group, |group| - 1);
      var k := if prevEnd in f.prefixes then segment else SkipTrailing(f, group, segment);
      GroupDoc(CommentTexts(group[k..]))
  }

  /** The end of the last token at or before an offset. */
  function PrevEnd(ends: seq<nat>, start: nat): nat {
    var i := FirstAbove(ends, start);
    if i > 0 then ends[i - 1] else 0
  }

  /** The comments that end after `lo` and at or before `hi`. */
  function Between(cs: seq<Comment>, lo: nat, hi: nat): seq<Comment> {
    var a, b := FirstAbove(CommentEnds(cs), lo), FirstAbove(CommentEnds(cs), hi);
    if a <= b then cs[a..b] else []
  }

  ghost function DocAt(f: Facts, start: nat): string {
    var prevEnd := PrevEnd(f.tokenEnds, start);
    GroupAt(f, Between(f.comments, prevEnd, start), prevEnd, start)
  }

  // ---------------------------------------------------------------------------
  // Whatever is attached is in normal form

  lemma {:induction false} SubsetClean(f: Facts, start: nat)
    requires forall i :: 0 <= i < |f.comments| ==> Clean(f.comments[i].text)
    ensures DocAt(f, start) == "" || DocOk(DocAt(f, start))
  {
    hide Clean, DocOk, HasBlankLine, GroupDoc, SegmentStart, SkipTrailing;
    var group := Between(f.comments, PrevEnd(f.tokenEnds, start), start);
    forall i | 0 <= i < |group|
      ensures Clean(group[i].text)
    {
    }
    forall k: nat | k <= |group|
      ensures GroupDoc(CommentTexts(group[k..])) == "" || DocOk(GroupDoc(CommentTexts(group[k..])))
    {
      GroupDocOk(CommentTexts(group[k..]));
    }
  }

  // ---------------------------------------------------------------------------
  // The layout, seen from one of its pieces

  lemma {:induction false} PlacedSplit(a: seq<Piece>, b: seq<Piece>, base: nat)
    ensures Placed(a + b, base) == Joined(Placed(a, base), Placed(b, base + |Render(a)|))
    decreases |a|
  {
    hide PieceText, PlacedOne, Joined;
    if a == [] {
      assert a + b == b;
      JoinedFirst(Placed(b, base));
    } else {
      assert (a + b)[1..] == a[1..] + b;
      var next := base + |PieceText(a[0])|;
      PlacedSplit(a[1..], b, next);
      JoinedAssociates(PlacedOne(a[0], base), Placed(a[1..], next), Placed(b, base + |Render(a)|));
    }
  }

  lemma {:induction false} JoinedFirst(s: Scanned)
    ensures Joined(Scanned([], [], true), s) == s
  {
    assert [] + s.tokens == s.tokens && [] + s.comments == s.comments;
  }

  predicate Within(s: Scanned, lo: nat, hi: nat) {
    && (forall i :: 0 <= i < |s.tokens| ==> lo < s.tokens[i].end <= hi)
    && (forall i :: 0 <= i < |s.comments| ==> lo < s.comments[i].end <= hi)
  }

  lemma {:induction false} PlacedFirst(ps: seq<Piece>, base: nat)
    requires ps != []
    ensures Placed(ps, base) == Joined(PlacedOne(ps[0], base), Placed(ps[1..], base + |PieceText(ps[0])|))
    ensures |Render(ps)| == |PieceText(ps[0])| + |Render(ps[1..])|
  {
    hide PieceText, PlacedOne, Joined;
  }

  lemma {:induction false} NoText(ps: seq<Piece>)
    requires ps == []
    ensures Render(ps) == ""
  {
  }

  lemma {:induction false} WithinBoth(a: Scanned, b: Scanned, lo: nat, mid: nat, hi: nat)
    requires Within(a, lo, mid) && Within(b, mid, hi) && lo <= mid <= hi
    ensures Within(Joined(a, b), lo, hi)
  {
  }

  lemma {:induction false} NothingPlaced(base: nat)
    ensures Render([]) == "" && Within(Placed([], base), base, base) && Placed([], base).tokens == []
  {
  }

  lemma {:induction false} OneWithin(p: Piece, base: nat)
    requires p.lit != ""
    ensures var one, end := PlacedOne(p, base), base + |PieceText(p)|;
            Within(one, base, end) && |one.tokens| == 1 && one.tokens[0].end == end
  {
    PieceLength(p);
    CommentSpan(p, base);
    hide PieceText, Before, Body, PieceComment;
  }

  lemma {:induction false} JoinedLast(a: Scanned, b: Scanned)
    requires |a.tokens| == 1
    ensures var ts := Joined(a, b).tokens;
            |ts| == 1 + |b.tokens| && ts[|ts| - 1] == if b.tokens == [] then a.tokens[0] else b.tokens[|b.tokens| - 1]
  {
  }

  lemma {:induction false} PlacedWithin(ps: seq<Piece>, base: nat)
    requires forall i :: 0 <= i < |ps| ==> ps[i].lit != ""
    ensures Within(Placed(ps, base), base, base + |Render(ps)|)
    ensures |Placed(ps, base).tokens| == |ps|
    ensures ps != [] ==> Placed(ps, base).tokens[|ps| - 1].end == base + |Render(ps)|
    decreases |ps|
  {
    hide *;
    if ps == [] {
      NothingPlaced(base);
    } else {
      var next := base + |PieceText(ps[0])|;
      PlacedFirst(ps, base);
      OneWithin(ps[0], base);
      PlacedWithin(ps[1..], next);
      var one, rest := PlacedOne(ps[0], base), Placed(ps[1..], next);
      WithinBoth(one, rest, base, next, next + |Render(ps[1..])|);
      JoinedLast(one, rest);
      if |ps| == 1 {
        NoText(ps[1..]);
      }
    }
  }

  lemma {:induction false} PieceLength(p: Piece)
    ensures |PieceText(p)| == |Before(p)| + |p.lit|
    ensures p.doc == "" ==> |Before(p)| == |p.lead|
    ensures p.doc != "" ==> |Before(p)| == |p.lead| + |p.indent| + 4 + |Body(p.indent, p.doc)| + 1 + |p.indent|
  {
    hide Body;
  }

  /** The layout around the piece at `k`. */
  lemma {:induction false} Around(ps: seq<Piece>, k: nat)
    requires k < |ps|
    ensures var o := |Render(ps[..k])|; var o' := o + |PieceText(ps[k])|;
            && Placed(ps, 0) == Joined(Placed(ps[..k], 0), Joined(PlacedOne(ps[k], o), Placed(ps[k + 1..], o')))
            && Render(ps) == Render(ps[..k]) + (PieceText(ps[k]) + Render(ps[k + 1..]))
  {
    hide PieceText, PlacedOne, Joined;
    var a, b := ps[..k], ps[k..];
    assert ps == a + b && b[0] == ps[k] && b[1..] == ps[k + 1..];
    PlacedSplit(a, b, 0);
    RenderAppend(a, b);
  }

  /** The facts of a canonical text. */
  ghost predicate Canonical(f: Facts, ps: seq<Piece>) {
    && LayoutOk(ps) && f.src == Render(ps) + "\n"
    && f.tokenEnds == TokenEnds(Placed(ps, 0).tokens) && f.comments == Placed(ps, 0).comments
    && forall e :: e in f.nodeEnds ==> e in f.tokenEnds
  }

  lemma {:induction false} LitsNonempty(ps: seq<Piece>)
    requires forall i :: 0 <= i < |ps| ==> PieceOk(ps[i])
    ensures forall i :: 0 <= i < |ps| ==> ps[i].lit != ""
  {
    hide PieceOk;
    forall i | 0 <= i < |ps|
      ensures ps[i].lit != ""
    {
      PieceFacts(ps[i]);
      LitStart(ps[i].lit);
    }
  }

  lemma {:induction false} CanonicalFacts(f: Facts, ps: seq<Piece>)
    requires Canonical(f, ps)
    ensures LayoutOk(ps) && f.src == Render(ps) + "\n"
    ensures f.tokenEnds == TokenEnds(Placed(ps, 0).tokens) && f.comments == Placed(ps, 0).comments
    ensures forall i :: 0 <= i < |ps| ==> ps[i].lit != ""
  {
    hide PieceOk, Apart, Placed, Render;
    LitsNonempty(ps);
  }

  /** The token and the comment of one piece, and where they end. */
  lemma {:induction false} OnePlaced(p: Piece, o: nat)
    requires p.lit != ""
    ensures var one := PlacedOne(p, o); var start, end := o + |Before(p)|, o + |PieceText(p)|;
            && o <= start < end && one.tokens == [Token(p.lit, start, end)]
            && one.comments == (if p.doc == "" then [] else [PieceComment(p, o)])
            && forall i :: 0 <= i < |one.comments| ==> o < one.comments[i].end <= start
  {
    PieceLength(p);
    hide Body, Before, PieceText;
  }

  lemma {:induction false} JoinedThree(a: Scanned, b: Scanned, c: Scanned)
    ensures var all := Joined(a, Joined(b, c));
            all.tokens == a.tokens + (b.tokens + c.tokens) && all.comments == a.comments + (b.comments + c.comments)
  {
  }

  lemma {:induction false} RenderNone()
    ensures Render([]) == ""
  {
  }

  /** Before the token of a piece ends the piece before it, and only the comment of the piece lies between. */
  lemma {:induction false} TriviaAt(f: Facts, ps: seq<Piece>, k: nat)
    requires Canonical(f, ps) && k < |ps|
    ensures var o := |Render(ps[..k])|; var start := o + |Before(ps[k])|;
            && PrevEnd(f.tokenEnds, start) == o
            && Between(f.comments, o, start) == PlacedOne(ps[k], o).comments
            && (forall e :: e in f.tokenEnds && e <= start ==> e <= o && k > 0)
  {
    hide Render, Placed, PieceText, Before, PlacedOne, LayoutOk, PieceComment, PieceToken, Canonical, Body, DocText,
         PrevEnd,
         Between, Joined, TokenEnds;
    var a, p, c := ps[..k], ps[k], ps[k + 1..];
    var o := |Render(a)|;
    var start, o' := o + |Before(p)|, o + |PieceText(p)|;
    CanonicalFacts(f, ps);
    Around(ps, k);
    OnePlaced(p, o);
    PlacedWithin(a, 0);
    PlacedWithin(c, o');
    RenderNone();
    var pa, p1, pc := Placed(a, 0), PlacedOne(p, o), Placed(c, o');
    JoinedThree(pa, p1, pc);
    PrevEndAt(pa.tokens, p1.tokens[0], pc.tokens, o, start);
    BetweenAt(pa.comments, p1.comments, pc.comments, o, start, o');
  }

  lemma {:induction false} PrevEndAt(a: seq<Token>, t: Token, c: seq<Token>, o: nat, start: nat)
    requires (forall i :: 0 <= i < |a| ==> a[i].end <= o) && o <= start < t.end
    requires (forall i :: 0 <= i < |c| ==> t.end < c[i].end)
    requires if a == [] then o == 0 else a[|a| - 1].end == o
    ensures var ends := TokenEnds(a + ([t] + c));
            PrevEnd(ends, start) == o && forall e :: e in ends && e <= start ==> e <= o && a != []
  {
    hide FirstAbove;
    var ends := TokenEnds(a + ([t] + c));
    assert ends == TokenEnds(a) + ([t.end] + TokenEnds(c));
    FirstAboveSplit(TokenEnds(a), [t.end] + TokenEnds(c), start);
    assert forall i :: |a| < i < |ends| ==> ends[i] == c[i - |a| - 1].end;
  }

  lemma {:induction false} EndsOfThree(a: seq<Comment>, b: seq<Comment>, c: seq<Comment>)
    ensures CommentEnds(a + (b + c)) == CommentEnds(a) + (CommentEnds(b) + CommentEnds(c))
    ensures CommentEnds(a + (b + c)) == (CommentEnds(a) + CommentEnds(b)) + CommentEnds(c)
  {
  }

  lemma {:induction false} BetweenAt(a: seq<Comment>, b: seq<Comment>, c: seq<Comment>, lo: nat, hi: nat, after: nat)
    requires lo <= hi < after && forall i :: 0 <= i < |a| ==> a[i].end <= lo
    requires forall i :: 0 <= i < |b| ==> lo < b[i].end <= hi
    requires forall i :: 0 <= i < |c| ==> after < c[i].end
    ensures Between(a + (b + c), lo, hi) == b
  {
    var all := a + (b + c);
    var ea, eb, ec := CommentEnds(a), CommentEnds(b), CommentEnds(c);
    EndsOfThree(a, b, c);
    hide FirstAbove, CommentEnds;
    FirstAboveSplit(ea, eb + ec, lo);
    FirstAboveSplit(ea + eb, ec, hi);
    assert all[|a|..|a| + |b|] == b;
  }

  // ---------------------------------------------------------------------------
  // The comment of a piece

  lemma {:induction false} NoBlankLine(indent: string)
    requires AllBlank(indent)
    ensures !HasBlankLine("\n" + indent)
  {
    var s := "\n" + indent;
    forall p: nat, q: nat
      ensures !BlankLine(s, p, q)
    {
      if p < q < |s| {
        assert s[q] == indent[q - 1];
      }
    }
  }

  lemma {:induction false} DocumentedAround(ps: seq<Piece>, k: nat)
    requires k < |ps| && ps[k].doc != ""
    ensures var p := ps[k];
            Render(ps) + "\n" ==
            (Render(ps[..k]) + ((p.lead + p.indent) + "/*" + Body(p.indent, p.doc) + "*/")) + ("\n" + p.indent)
            + (p.lit + (Render(ps[k + 1..]) + "\n"))
  {
    hide Render, Body, PieceText;
    var a, p, rest := Render(ps[..k]), ps[k], Render(ps[k + 1..]) + "\n";
    Around(ps, k);
    DocumentedText(p, rest);
    var note := (p.lead + p.indent) + "/*" + Body(p.indent, p.doc) + "*/";
    Regrouped(a, note, "\n" + p.indent, p.lit, rest);
    assert Render(ps) + "\n" == a + (PieceText(p) + rest);
  }

  lemma {:induction false} Regrouped(a: string, b: string, c: string, d: string, e: string)
    ensures a + (b + (c + d + e)) == (a + b) + c + (d + e)
  {
  }

  lemma {:induction false} CommentSpan(p: Piece, base: nat)
    ensures PieceComment(p, base).start == base + |p.lead| + |p.indent|
    ensures PieceComment(p, base).end == base + |p.lead| + |p.indent| + 4 + |Body(p.indent, p.doc)|
  {
    hide Body;
  }

  lemma {:induction false} NoteLength(lead: string, indent: string, body: string)
    ensures |(lead + indent) + "/*" + body + "*/"| == |lead| + |indent| + 4 + |body|
  {
  }

  lemma {:induction false} TextAround(ps: seq<Piece>, k: nat)
    requires k < |ps| && ps[k].doc != ""
    ensures var src := Render(ps) + "\n"; var o := |Render(ps[..k])|; var c := PieceComment(ps[k], o);
            Slice(src, c.end, o + |Before(ps[k])|) == "\n" + ps[k].indent && c.start <= |src|
  {
    hide *;
    var a, p, rest := Render(ps[..k]), ps[k], Render(ps[k + 1..]) + "\n";
    var note := (p.lead + p.indent) + "/*" + Body(p.indent, p.doc) + "*/";
    DocumentedAround(ps, k);
    PieceLength(p);
    CommentSpan(p, |a|);
    NoteLength(p.lead, p.indent, Body(p.indent, p.doc));
    SliceMiddle(a + note, "\n" + p.indent, p.lit + rest);
  }

  /** The last byte before the indentation of a piece. */
  lemma {:induction false} LeadAround(ps: seq<Piece>, k: nat)
    requires k < |ps| && ps[k].lead != ""
    ensures var src := Render(ps) + "\n"; var at := |Render(ps[..k])| + |ps[k].lead| - 1;
            at < |src| && src[at] == ps[k].lead[|ps[k].lead| - 1]
  {
    hide Render, PieceText;
    Around(ps, k);
    var a, p, rest := Render(ps[..k]), ps[k], Render(ps[k + 1..]);
    PieceLead(p);
    var x := PieceText(p) + rest;
    assert x[|p.lead| - 1] == PieceText(p)[|p.lead| - 1];
    assert PieceText(p)[..|p.lead|][|p.lead| - 1] == PieceText(p)[|p.lead| - 1];
    assert (a + x)[|a| + |p.lead| - 1] == x[|p.lead| - 1];
  }

  lemma {:induction false} PieceLead(p: Piece)
    ensures |p.lead| <= |PieceText(p)| && PieceText(p)[..|p.lead|] == p.lead
  {
    hide DocText;
  }

  lemma {:induction false} SliceMiddle(a: string, b: string, c: string)
    ensures Slice(a + b + c, |a|, |a| + |b|) == b
  {
  }

  lemma {:induction false} LaidApart(ps: seq<Piece>, k: nat)
    requires LayoutOk(ps) && 0 < k < |ps| && ps[k].doc != ""
    ensures ps[k].lead != "" && ps[k].lead[|ps[k].lead| - 1] == '\n'
  {
    hide PieceOk, IsWord;
    assert Apart(ps[k]);
  }

  lemma {:induction false} LineBreaks(src: string, a: nat, at: nat, b: nat)
    requires a <= at < b <= |src| && src[at] == '\n'
    ensures !SameLine(src, a, b)
  {
    assert Slice(src, a, b)[at - a] == src[at];
  }

  lemma {:induction false} PieceCommentStart(p: Piece, o: nat)
    requires p.doc != ""
    ensures PieceComment(p, o).start == o + |p.lead| + |p.indent| <= o + |Before(p)|
  {
    PieceLength(p);
    hide Body, Before;
  }

  lemma {:induction false} NodesEndWithTokens(f: Facts, ps: seq<Piece>)
    requires Canonical(f, ps)
    ensures forall e :: e in f.nodeEnds ==> e in f.tokenEnds
    ensures LayoutOk(ps) && f.src == Render(ps) + "\n"
  {
    hide LayoutOk, Render, Placed, TokenEnds;
  }

  lemma {:induction false} NotTrailing(f: Facts, ps: seq<Piece>, k: nat)
    requires Canonical(f, ps) && k < |ps| && ps[k].doc != ""
    ensures !Trailing(f, PieceComment(ps[k], |Render(ps[..k])|))
  {
    hide Render, Placed, PieceText, Before, Body, LayoutOk, Canonical, DocText, SameLine, PieceComment, PrevEnd,
         Between;
    var o, p := |Render(ps[..k])|, ps[k];
    var c := PieceComment(p, o);
    NodesEndWithTokens(f, ps);
    TriviaAt(f, ps, k);
    TextAround(ps, k);
    PieceCommentStart(p, o);
    if k > 0 {
      LaidApart(ps, k);
      LeadAround(ps, k);
    }
    forall e | e in f.nodeEnds && 0 < e <= c.start
      ensures !SameLine(f.src, e - 1, c.start)
    {
      LineBreaks(f.src, e - 1, o + |p.lead| - 1, c.start);
    }
  }

  lemma {:induction false} OneBody(text: string)
    requires Normalize(text) != ""
    ensures GroupDoc([text]) == Normalize(text)
  {
    hide Normalize;
    assert Bodies([text][1..]) == [];
    assert Bodies([text]) == [Normalize(text)];
  }

  lemma {:induction false} SingleGroup(f: Facts, c: Comment, prevEnd: nat, start: nat)
    requires !HasBlankLine(Slice(f.src, c.end, start)) && !Trailing(f, c)
    ensures GroupAt(f, [c], prevEnd, start) == GroupDoc([c.text])
  {
    hide HasBlankLine, Trailing, GroupDoc;
    assert [c][0..] == [c];
    assert CommentTexts([c]) == [c.text];
  }

  /** In canonical text the document found before a token is the one printed there. */
  lemma {:induction false} DocAtPiece(f: Facts, ps: seq<Piece>, k: nat)
    requires Canonical(f, ps) && k < |ps|
    ensures DocAt(f, |Render(ps[..k])| + |Before(ps[k])|) == ps[k].doc
  {
    hide *;
    var o, p := |Render(ps[..k])|, ps[k];
    var start := o + |Before(p)|;
    TriviaAt(f, ps, k);
    DocAtGroup(f, start);
    CanonicalPiece(f, ps, k);
    OnePlaced(p, o);
    if p.doc == "" {
      NoGroup(f, o, start);
    } else {
      var c := PieceComment(p, o);
      TextAround(ps, k);
      NotTrailing(f, ps, k);
      NoBlankLine(p.indent);
      ReadsBack(p.indent, p.doc);
      PieceCommentText(p, o);
      SingleGroup(f, c, o, start);
      OneBody(c.text);
    }
  }

  lemma {:induction false} NoGroup(f: Facts, prevEnd: nat, start: nat)
    ensures GroupAt(f, [], prevEnd, start) == ""
  {
  }

  lemma {:induction false} CanonicalPiece(f: Facts, ps: seq<Piece>, k: nat)
    requires Canonical(f, ps) && k < |ps|
    ensures AllBlank(ps[k].indent) && (ps[k].doc == "" || DocOk(ps[k].doc)) && f.src == Render(ps) + "\n"
    ensures ps[k].lit != ""
  {
    hide PieceOk, Render;
    PieceFacts(ps[k]);
    LitStart(ps[k].lit);
  }

  lemma {:induction false} PieceCommentText(p: Piece, o: nat)
    ensures PieceComment(p, o).text == Body(p.indent, p.doc)
  {
  }

  lemma {:induction false} DocAtGroup(f: Facts, start: nat)
    ensures var prevEnd := PrevEnd(f.tokenEnds, start);
            DocAt(f, start) == GroupAt(f, Between(f.comments, prevEnd, start), prevEnd, start)
  {
  }
}
