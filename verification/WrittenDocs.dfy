/** Writing a document as a comment, and why the comment reads back as the same document. */
module WrittenDocs {
  import opened Leaves
  import opened Scanners
  import opened DocTexts
  import opened Documents

  /** The lines of a block comment: nonempty lines padded, empty lines bare. */
  function PaddedText(pad: string, ls: seq<string>): string {
    if ls == [] then "" else (if ls[0] == "" then "\n" else pad + ls[0] + "\n") + PaddedText(pad, ls[1..])
  }

  /** What stands between the comment delimiters. */
  function Body(indent: string, doc: string): string {
    if Free(doc, '\n') then " " + doc + " " else "\n" + PaddedText(indent + "    ", Split(doc)) + indent
  }

  /** A document before its node: nothing, or one comment on lines of its own. */
  function DocText(indent: string, doc: string): string {
    if doc == "" then "" else indent + "/*" + Body(indent, doc) + "*/" + "\n"
  }

  function PadLine(pad: string, l: string): string {
    if l == "" then "" else pad + l
  }

  lemma {:induction false} PaddedFirst(pad: string, ls: seq<string>)
    requires ls != []
    ensures PaddedText(pad, ls) == PadLine(pad, ls[0]) + "\n" + PaddedText(pad, ls[1..])
  {
    assert "" + "\n" == "\n";
  }

  lemma {:induction false} PadFirst(pad: string, ls: seq<string>)
    requires ls != []
    ensures Pad(pad, ls) == [PadLine(pad, ls[0])] + Pad(pad, ls[1..])
  {
  }

  lemma {:induction false} PaddedStep(pad: string, ls: seq<string>, last: string)
    requires ls != []
    ensures PaddedText(pad, ls) + last == PadLine(pad, ls[0]) + "\n" + (PaddedText(pad, ls[1..]) + last)
    ensures Pad(pad, ls) == [PadLine(pad, ls[0])] + Pad(pad, ls[1..])
  {
    PaddedFirst(pad, ls);
    PadFirst(pad, ls);
    hide PaddedText, Pad, PadLine;
    var line, rest := PadLine(pad, ls[0]), PaddedText(pad, ls[1..]);
    assert line + "\n" + rest + last == line + "\n" + (rest + last);
  }

  lemma {:induction false} SplitPadded(pad: string, ls: seq<string>, last: string)
    requires AllBlank(pad) && AllBlank(last) && forall i :: 0 <= i < |ls| ==> Free(ls[i], '\n')
    ensures Split(PaddedText(pad, ls) + last) == Pad(pad, ls) + [last]
    decreases |ls|
  {
    hide Split;
    if ls == [] {
      assert "" + last == last;
      SplitOne(last);
    } else {
      PaddedStep(pad, ls, last);
      SplitPadded(pad, ls[1..], last);
      hide PaddedText;
      var line := PadLine(pad, ls[0]);
      assert Free(line, '\n');
      SplitFirst(line, PaddedText(pad, ls[1..]) + last);
      assert [line] + (Pad(pad, ls[1..]) + [last]) == ([line] + Pad(pad, ls[1..])) + [last];
    }
  }

  lemma {:induction false} PaddedFree(pad: string, ls: seq<string>)
    requires AllBlank(pad) && forall i :: 0 <= i < |ls| ==> Free(ls[i], '\r')
    ensures Free(PaddedText(pad, ls), '\r')
    decreases |ls|
  {
    if ls != [] {
      PaddedFree(pad, ls[1..]);
    }
  }

  lemma {:induction false} NoCarriageReturns(s: string)
    requires Free(s, '\r')
    ensures CrToLf(CrLfToLf(s)) == s
  {
    CrLfFree(s, "");
    assert s + "" == s;
    CrLfNone();
    assert CrToLf(s) == s;
  }

  lemma {:induction false} TrimPadded(pad: string, l: string)
    requires l != "" && !IsBlank(l[|l| - 1])
    ensures TrimRight(pad + l) == pad + l
  {
  }

  lemma {:induction false} TrimBlank(s: string)
    requires AllBlank(s)
    ensures TrimRight(s) == ""
  {
    if s != "" {
      TrimBlank(s[..|s| - 1]);
    }
  }

  /** Trimming a padded body and dropping its empty ends leaves the padded lines. */
  lemma {:induction false} CorePadded(pad: string, ls: seq<string>, last: string)
    requires LinesOk(ls) && AllBlank(last)
    ensures Core(TrimLines([""] + Pad(pad, ls) + [last])) == Pad(pad, ls)
  {
    hide Indentation, TrimRight, DropFront, DropBack;
    var ps := Pad(pad, ls);
    var raw := [""] + ps + [last];
    var ts := TrimLines(raw);
    forall i | 0 <= i < |ps|
      ensures TrimRight(ps[i]) == ps[i]
    {
      assert LineOk(ls[i]);
      if ls[i] == "" {
        TrimBlank("");
      } else {
        TrimPadded(pad, ls[i]);
      }
    }
    TrimBlank("");
    TrimBlank(last);
    assert ts == [""] + ps + [""];
    DropEnds(ps);
  }

  lemma {:induction false} DropEnds(ps: seq<string>)
    requires ps != [] && ps[0] != "" && ps[|ps| - 1] != ""
    ensures Core([""] + ps + [""]) == ps
  {
    var ts := [""] + ps + [""];
    assert ts[1..] == ps + [""];
    assert (ps + [""])[0] == ps[0];
    assert DropFront(ts) == ps + [""];
    assert (ps + [""])[..|ps|] == ps;
    assert DropBack(ps + [""]) == DropBack(ps);
  }

  lemma {:induction false} DedentPadded(pad: string, ls: seq<string>)
    requires LinesOk(ls) && AllBlank(pad)
    ensures forall i :: 0 <= i < |ls| && Pad(pad, ls)[i] != "" ==> |Indentation(Pad(pad, ls))| <= |Pad(pad, ls)[i]|
    ensures Dedent(|Indentation(Pad(pad, ls))|, Pad(pad, ls)) == ls
  {
    hide Indentation, LineOk;
    IndentationPad(pad, ls);
    assert pad + Indentation(ls) == pad;
    DedentPad(pad, ls);
  }

  lemma {:induction false} SplitBlock(indent: string, ls: seq<string>)
    requires AllLinesOk(ls) && AllBlank(indent)
    ensures var pad := indent + "    "; var text := "\n" + PaddedText(pad, ls) + indent;
            AllBlank(pad) && Free(text, '\r') && Split(text) == [""] + Pad(pad, ls) + [indent]
  {
    hide LineOk, Split, PaddedText;
    var pad := indent + "    ";
    DocLinesFree(ls);
    PaddedFree(pad, ls);
    SplitPadded(pad, ls, indent);
    var tail := PaddedText(pad, ls) + indent;
    assert "\n" + PaddedText(pad, ls) + indent == "" + "\n" + tail;
    SplitFirst("", tail);
    assert [""] + (Pad(pad, ls) + [indent]) == [""] + Pad(pad, ls) + [indent];
  }

  lemma {:induction false} BlockReadsBack(indent: string, doc: string)
    requires DocOk(doc) && AllBlank(indent) && !Free(doc, '\n')
    ensures NormalLines(Body(indent, doc)) == Split(doc)
  {
    hide LineOk, Split, Indentation, Core, Dedent, TrimLines, PaddedText, CrLfToLf, CrToLf;
    var ls := Split(doc);
    var pad := indent + "    ";
    SplitBlock(indent, ls);
    NoCarriageReturns(Body(indent, doc));
    CorePadded(pad, ls, indent);
    assert Middle(Body(indent, doc)) == Pad(pad, ls);
    DedentPadded(pad, ls);
  }

  lemma {:induction false} DocLinesFree(ls: seq<string>)
    requires AllLinesOk(ls)
    ensures forall i :: 0 <= i < |ls| ==> Free(ls[i], '\n') && Free(ls[i], '\r')
  {
    forall i | 0 <= i < |ls|
      ensures Free(ls[i], '\n') && Free(ls[i], '\r')
    {
      assert LineOk(ls[i]);
    }
  }

  lemma {:induction false} LineReadsBack(indent: string, doc: string)
    requires DocOk(doc) && Free(doc, '\n')
    ensures NormalLines(Body(indent, doc)) == Split(doc)
  {
    hide Split, TrimRight, Indentation, Core;
    SplitOne(doc);
    DocLinesFree([doc]);
    assert LineOk(Split(doc)[0]);
    var text := " " + doc + " ";
    NoCarriageReturns(text);
    SplitOne(text);
    var padded := " " + doc;
    TrimOne(padded);
    assert padded + " " == text;
    assert TrimLines([text]) == [padded];
    CoreOne(padded);
    assert Pad(" ", [doc]) == [padded];
    DedentPadded(" ", [doc]);
  }

  lemma {:induction false} TrimOne(l: string)
    requires l != "" && !IsBlank(l[|l| - 1])
    ensures TrimRight(l + " ") == l
  {
    assert (l + " ")[..|l|] == l;
  }

  lemma {:induction false} CoreOne(l: string)
    requires l != ""
    ensures Core([l]) == [l]
  {
  }

  /** A written document normalises to itself, whatever the indentation it is written at. */
  lemma {:induction false} ReadsBack(indent: string, doc: string)
    requires DocOk(doc) && AllBlank(indent)
    ensures Normalize(Body(indent, doc)) == doc
  {
    hide NormalLines, Split, Body, LinesOk;
    if Free(doc, '\n') {
      LineReadsBack(indent, doc);
    } else {
      BlockReadsBack(indent, doc);
    }
    JoinSplit(doc);
  }

  // ---------------------------------------------------------------------------
  // The written comment is a comment

  lemma {:induction false} CleanPad(pad: string, s: string)
    requires AllBlank(pad) && Clean(s)
    ensures Clean(pad + s)
    decreases |pad|
  {
    hide Clean;
    if pad == "" {
      assert pad + s == s;
    } else {
      CleanPad(pad[1..], s);
      CleanAround("", pad[0], pad[1..] + s);
      CleanEmpty();
      assert pad + s == "" + [pad[0]] + (pad[1..] + s);
    }
  }

  lemma {:induction false} CleanPadded(pad: string, ls: seq<string>, last: string)
    requires AllBlank(pad) && AllLinesOk(ls) && Clean(last)
    ensures Clean(PaddedText(pad, ls) + last)
    decreases |ls|
  {
    hide Clean;
    if ls == [] {
      assert "" + last == last;
    } else {
      assert LineOk(ls[0]);
      CleanPadded(pad, ls[1..], last);
      PaddedStep(pad, ls, last);
      hide PaddedText;
      CleanPad(pad, ls[0]);
      CleanEmpty();
      CleanAround(PadLine(pad, ls[0]), '\n', PaddedText(pad, ls[1..]) + last);
    }
  }

  lemma {:induction false} BodyClean(indent: string, doc: string)
    requires DocOk(doc) && AllBlank(indent)
    ensures Clean(Body(indent, doc))
  {
    hide Clean, Split, Indentation, PaddedText;
    CleanEmpty();
    if Free(doc, '\n') {
      SplitOne(doc);
      assert LineOk(Split(doc)[0]);
      CleanAround(doc, ' ', "");
      CleanAround("", ' ', doc + [' '] + "");
      assert Body(indent, doc) == "" + [' '] + (doc + [' '] + "");
    } else {
      CleanPad(indent, "");
      assert indent + "" == indent;
      CleanPadded(indent + "    ", Split(doc), indent);
      CleanAround("", '\n', PaddedText(indent + "    ", Split(doc)) + indent);
      assert Body(indent, doc) == "" + ['\n'] + (PaddedText(indent + "    ", Split(doc)) + indent);
    }
  }
}
