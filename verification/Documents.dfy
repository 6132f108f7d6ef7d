/**
 * Documents: normalising a comment body, joining a comment group, and writing a document back as a comment. A written
 * document normalises to itself.
 */
module Documents {
  import opened Leaves
  import opened Scanners
  import opened DocTexts

  // ---------------------------------------------------------------------------
  // Normalisation

  predicate IsBlank(c: char) {
    c == ' ' || c == '\t'
  }

  predicate AllBlank(s: string) {
    forall i :: 0 <= i < |s| ==> IsBlank(s[i])
  }

  /** Every CRLF becomes LF. */
  function CrLfToLf(s: string): string {
    if |s| >= 2 && s[0] == '\r' && s[1] == '\n' then "\n" + CrLfToLf(s[2..])
    else if s != "" then [s[0]] + CrLfToLf(s[1..])
    else ""
  }

  /** Every remaining CR becomes LF. */
  function CrToLf(s: string): (r: string)
    ensures |r| == |s| && forall i :: 0 <= i < |s| ==> r[i] == if s[i] == '\r' then '\n' else s[i]
  {
    seq(|s|, i requires 0 <= i < |s| => if s[i] == '\r' then '\n' else s[i])
  }

  /** The text without its trailing spaces and tabs. */
  function TrimRight(s: string): (r: string)
    ensures |r| <= |s| && r == s[..|r|] && AllBlank(s[|r|..])
    ensures r != "" ==> !IsBlank(r[|r| - 1])
  {
    if s != "" && IsBlank(s[|s| - 1]) then TrimRight(s[..|s| - 1]) else s
  }

  function TrimLines(ls: seq<string>): (r: seq<string>)
    ensures |r| == |ls| && forall i :: 0 <= i < |ls| ==> r[i] == TrimRight(ls[i])
  {
    seq(|ls|, i requires 0 <= i < |ls| => TrimRight(ls[i]))
  }

  function DropFront(ls: seq<string>): (r: seq<string>)
    ensures r != [] ==> r[0] != ""
    ensures |r| <= |ls| && r == ls[|ls| - |r|..]
  {
    if ls != [] && ls[0] == "" then DropFront(ls[1..]) else ls
  }

  function DropBack(ls: seq<string>): (r: seq<string>)
    ensures r != [] ==> r[|r| - 1] != ""
    ensures |r| <= |ls| && r == ls[..|r|]
  {
    if ls != [] && ls[|ls| - 1] == "" then DropBack(ls[..|ls| - 1]) else ls
  }

  /** The longest prefix of spaces and tabs. */
  function LeadingBlank(s: string): (r: string)
    ensures |r| <= |s| && r == s[..|r|] && AllBlank(r)
    ensures |r| < |s| ==> !IsBlank(s[|r|])
  {
    if s != "" && IsBlank(s[0]) then [s[0]] + LeadingBlank(s[1..]) else ""
  }

  function Common(a: string, b: string): (r: string)
    ensures |r| <= |a| && |r| <= |b| && r == a[..|r|] && r == b[..|r|]
  {
    if a != "" && b != "" && a[0] == b[0] then [a[0]] + Common(a[1..], b[1..]) else ""
  }

  /** What of `prefix` every nonblank line shares. */
  function Shared(prefix: string, ls: seq<string>): (r: string)
    ensures |r| <= |prefix| && r == prefix[..|r|]
    decreases |ls|
  {
    if ls == [] then prefix
    else if ls[0] == "" then Shared(prefix, ls[1..])
    else Shared(Common(prefix, LeadingBlank(ls[0])), ls[1..])
  }

  /** The indentation shared by all nonblank lines, the first of which comes first. */
  function Indentation(ls: seq<string>): string
    requires ls != []
  {
    Shared(LeadingBlank(ls[0]), ls[1..])
  }

  function Dedent(n: nat, ls: seq<string>): seq<string>
    requires forall i :: 0 <= i < |ls| && ls[i] != "" ==> n <= |ls[i]|
  {
    seq(|ls|, i requires 0 <= i < |ls| => if ls[i] == "" then "" else ls[i][n..])
  }

  /** The lines without the empty ones at either end. */
  function Core(ls: seq<string>): (r: seq<string>)
    ensures r != [] ==> r[0] != "" && r[|r| - 1] != ""
  {
    var front := DropFront(ls);
    var r := DropBack(front);
    assert r != [] ==> r[0] == front[0];
    r
  }

  lemma {:induction false} CoreLines(ls: seq<string>)
    requires AllLinesOk(ls)
    ensures AllLinesOk(Core(ls))
  {
    hide LineOk;
    var front := DropFront(ls);
    var r := DropBack(front);
    forall i | 0 <= i < |r|
      ensures LineOk(r[i])
    {
      assert r[i] == front[i] && front[i] == ls[|ls| - |front| + i];
    }
  }

  /** The trimmed lines of a comment body from the first nonblank one to the last. */
  function Middle(text: string): (r: seq<string>)
    ensures r != [] ==> r[0] != "" && r[|r| - 1] != ""
  {
    Core(TrimLines(Split(CrToLf(CrLfToLf(text)))))
  }

  lemma {:induction false} SharedIsPrefix(prefix: string, ls: seq<string>, i: nat)
    requires i < |ls| && ls[i] != ""
    ensures var r := Shared(prefix, ls); |r| <= |ls[i]| && r == ls[i][..|r|] && |r| <= |LeadingBlank(ls[i])|
    decreases |ls|
  {
    if i > 0 {
      SharedIsPrefix(if ls[0] == "" then prefix else Common(prefix, LeadingBlank(ls[0])), ls[1..], i - 1);
    } else {
      var c := Common(prefix, LeadingBlank(ls[0]));
      assert Shared(c, ls[1..]) == c[..|Shared(c, ls[1..])|];
    }
  }

  lemma {:induction false} IndentationIsPrefix(ls: seq<string>, i: nat)
    requires ls != [] && i < |ls| && ls[0] != "" && ls[i] != ""
    ensures var r := Indentation(ls); |r| <= |ls[i]| && r == ls[i][..|r|] && |r| <= |LeadingBlank(ls[i])| && AllBlank(r)
  {
    var r := Indentation(ls);
    assert r == LeadingBlank(ls[0])[..|r|];
    assert forall k :: 0 <= k < |r| ==> r[k] == LeadingBlank(ls[0])[k];
    if i > 0 {
      SharedIsPrefix(LeadingBlank(ls[0]), ls[1..], i - 1);
      assert ls[1..][i - 1] == ls[i];
    }
  }

  lemma {:induction false} CanDedent(ls: seq<string>)
    requires ls != [] && ls[0] != ""
    ensures forall i :: 0 <= i < |ls| && ls[i] != "" ==> |Indentation(ls)| <= |ls[i]|
  {
    hide Indentation;
    forall i | 0 <= i < |ls| && ls[i] != ""
      ensures |Indentation(ls)| <= |ls[i]|
    {
      IndentationIsPrefix(ls, i);
    }
  }

  /** `normalizeDoc`, as lines. */
  function NormalLines(text: string): seq<string> {
    var ls := Middle(text);
    if ls == [] then []
    else
      CanDedent(ls);
      Dedent(|Indentation(ls)|, ls)
  }

  function Normalize(text: string): string {
    Join(NormalLines(text), "\n")
  }

  // ---------------------------------------------------------------------------
  // Documents

  predicate LineOk(l: string) {
    Free(l, '\n') && Free(l, '\r') && (l != "" ==> !IsBlank(l[|l| - 1])) && Clean(l)
  }

  predicate AllLinesOk(ls: seq<string>) {
    forall i :: 0 <= i < |ls| ==> LineOk(ls[i])
  }

  predicate LinesOk(ls: seq<string>) {
    && ls != [] && ls[0] != "" && ls[|ls| - 1] != ""
    && AllLinesOk(ls) && Indentation(ls) == ""
  }

  /** A nonempty document in normal form. */
  predicate DocOk(doc: string) {
    doc != "" && LinesOk(Split(doc))
  }

  // ---------------------------------------------------------------------------
  // Padding: the indentation of a comment body is exactly what normalisation removes

  function Pad(pad: string, ls: seq<string>): (r: seq<string>)
    ensures |r| == |ls| && forall i :: 0 <= i < |ls| ==> r[i] == if ls[i] == "" then "" else pad + ls[i]
  {
    seq(|ls|, i requires 0 <= i < |ls| => if ls[i] == "" then "" else pad + ls[i])
  }

  lemma {:induction false} LeadingCons(c: char, l: string)
    requires IsBlank(c)
    ensures LeadingBlank([c] + l) == [c] + LeadingBlank(l)
  {
    assert ([c] + l)[1..] == l;
  }

  lemma {:induction false} LeadingPad(pad: string, l: string)
    requires AllBlank(pad)
    ensures LeadingBlank(pad + l) == pad + LeadingBlank(l)
    decreases |pad|
  {
    hide LeadingBlank;
    if pad == "" {
      assert pad + l == l && pad + LeadingBlank(l) == LeadingBlank(l);
    } else {
      var rest := pad[1..];
      LeadingPad(rest, l);
      LeadingCons(pad[0], rest + l);
      assert pad + l == [pad[0]] + (rest + l);
      assert pad + LeadingBlank(l) == [pad[0]] + (rest + LeadingBlank(l));
    }
  }

  lemma {:induction false} CommonCons(c: char, a: string, b: string)
    ensures Common([c] + a, [c] + b) == [c] + Common(a, b)
  {
    assert ([c] + a)[1..] == a && ([c] + b)[1..] == b;
  }

  lemma {:induction false} CommonPad(pad: string, a: string, b: string)
    ensures Common(pad + a, pad + b) == pad + Common(a, b)
    decreases |pad|
  {
    hide Common;
    if pad == "" {
      assert pad + a == a && pad + b == b && pad + Common(a, b) == Common(a, b);
    } else {
      var rest := pad[1..];
      CommonPad(rest, a, b);
      CommonCons(pad[0], rest + a, rest + b);
      assert pad + a == [pad[0]] + (rest + a) && pad + b == [pad[0]] + (rest + b);
      assert pad + Common(a, b) == [pad[0]] + (rest + Common(a, b));
    }
  }

  lemma {:induction false} SharedPad(pad: string, q: string, ls: seq<string>)
    requires AllBlank(pad)
    ensures Shared(pad + q, Pad(pad, ls)) == pad + Shared(q, ls)
    decreases |ls|
  {
    hide LeadingBlank, Common, AllBlank;
    if ls != [] {
      var ps := Pad(pad, ls);
      assert ps[1..] == Pad(pad, ls[1..]);
      if ls[0] == "" {
        SharedPad(pad, q, ls[1..]);
      } else {
        LeadingPad(pad, ls[0]);
        CommonPad(pad, q, LeadingBlank(ls[0]));
        SharedPad(pad, Common(q, LeadingBlank(ls[0])), ls[1..]);
        assert ps[0] == pad + ls[0];
      }
    }
  }

  lemma {:induction false} IndentationPad(pad: string, ls: seq<string>)
    requires AllBlank(pad) && ls != [] && ls[0] != ""
    ensures Indentation(Pad(pad, ls)) == pad + Indentation(ls)
  {
    hide LeadingBlank, AllBlank;
    LeadingPad(pad, ls[0]);
    SharedPad(pad, LeadingBlank(ls[0]), ls[1..]);
    assert Pad(pad, ls)[1..] == Pad(pad, ls[1..]);
  }

  lemma {:induction false} DedentPad(pad: string, ls: seq<string>)
    requires forall i :: 0 <= i < |ls| && Pad(pad, ls)[i] != "" ==> |pad| <= |Pad(pad, ls)[i]|
    ensures Dedent(|pad|, Pad(pad, ls)) == ls
  {
    forall i | 0 <= i < |ls|
      ensures Dedent(|pad|, Pad(pad, ls))[i] == ls[i]
    {
      if ls[i] != "" {
        assert (pad + ls[i])[|pad|..] == ls[i];
      }
    }
  }

  lemma {:induction false} DedentedEach(ls: seq<string>, i: nat)
    requires ls != [] && ls[0] != "" && AllLinesOk(ls) && i < |ls|
    requires forall i :: 0 <= i < |ls| && ls[i] != "" ==> |Indentation(ls)| <= |ls[i]|
    ensures var p := Indentation(ls); var ds := Dedent(|p|, ls);
            |ds| == |ls| && LineOk(ds[i]) && (if ls[i] == "" then ds[i] == "" else ds[i] != "" && p + ds[i] == ls[i])
  {
    assert LineOk(ls[i]);
    if ls[i] != "" {
      IndentationIsPrefix(ls, i);
      DedentedLine(ls[i], |Indentation(ls)|);
    }
    hide Indentation, LineOk, LeadingBlank, AllBlank;
  }

  lemma {:induction false} PaddedBack(p: string, ds: seq<string>, ls: seq<string>)
    requires |ds| == |ls|
    requires forall i :: 0 <= i < |ls| ==> if ls[i] == "" then ds[i] == "" else ds[i] != "" && p + ds[i] == ls[i]
    ensures Pad(p, ds) == ls
  {
  }

  lemma {:induction false} LinesMake(ds: seq<string>)
    requires ds != [] && ds[0] != "" && ds[|ds| - 1] != "" && Indentation(ds) == ""
    requires forall i :: 0 <= i < |ds| ==> LineOk(ds[i])
    ensures LinesOk(ds)
  {
    hide LineOk, Indentation;
  }

  /** Removing the indentation leaves none. */
  lemma {:induction false} DedentedOk(ls: seq<string>)
    requires ls != [] && ls[0] != "" && ls[|ls| - 1] != "" && AllLinesOk(ls)
    requires forall i :: 0 <= i < |ls| && ls[i] != "" ==> |Indentation(ls)| <= |ls[i]|
    ensures LinesOk(Dedent(|Indentation(ls)|, ls))
  {
    hide *;
    var p := Indentation(ls);
    var ds := Dedent(|p|, ls);
    IndentationIsPrefix(ls, 0);
    forall i | 0 <= i < |ls|
      ensures |ds| == |ls| && LineOk(ds[i]) && (if ls[i] == "" then ds[i] == "" else ds[i] != "" && p + ds[i] == ls[i])
    {
      DedentedEach(ls, i);
    }
    assert |ds| == |ls|;
    PaddedBack(p, ds, ls);
    IndentationPad(p, ds);
    assert |p + Indentation(ds)| == |p|;
    LinesMake(ds);
  }

  lemma {:induction false} LeadingIsBlank(l: string)
    ensures |LeadingBlank(l)| <= |l| && forall i :: 0 <= i < |LeadingBlank(l)| ==> IsBlank(l[i])
  {
    var b := LeadingBlank(l);
    assert forall i :: 0 <= i < |b| ==> b[i] == l[i];
  }

  lemma {:induction false} DedentedLine(l: string, n: nat)
    requires LineOk(l) && l != "" && n <= |LeadingBlank(l)|
    ensures n < |l| && LineOk(l[n..])
  {
    LeadingIsBlank(l);
    assert n < |l|;
    CleanSuffix(l, n);
    hide Clean, LeadingBlank, IsBlank;
    assert forall i :: 0 <= i < |l[n..]| ==> l[n..][i] == l[n + i];
  }

  lemma {:induction false} CleanSuffix(s: string, n: nat)
    requires Clean(s) && n <= |s| && forall i :: 0 <= i < n ==> IsBlank(s[i])
    ensures Clean(s[n..])
    decreases n
  {
    hide Clean;
    if n > 0 {
      assert s == "" + [s[0]] + s[1..];
      CleanAround("", s[0], s[1..]);
      assert forall i :: 0 <= i < n - 1 ==> s[1..][i] == s[i + 1];
      CleanSuffix(s[1..], n - 1);
      assert s[1..][n - 1..] == s[n..];
    } else {
      assert s[0..] == s;
    }
  }

  // ---------------------------------------------------------------------------
  // Every comment group gives the empty document or one in normal form

  lemma {:induction false} CrLfFree(a: string, x: string)
    requires Free(a, '\r')
    ensures CrLfToLf(a + x) == a + CrLfToLf(x)
    decreases |a|
  {
    if a == "" {
      assert a + x == x;
    } else {
      var rest := a[1..];
      assert forall i :: 0 <= i < |rest| ==> rest[i] == a[i + 1];
      CrLfFree(rest, x);
      assert (a + x)[1..] == rest + x && (a + x)[0] == a[0];
      assert a + CrLfToLf(x) == [a[0]] + (rest + CrLfToLf(x));
    }
  }

  lemma {:induction false} CrLfClean(s: string)
    requires Clean(s)
    ensures Clean(CrLfToLf(s))
    decreases |s|
  {
    hide Clean, CrLfToLf, IndexOf;
    if Free(s, '\r') {
      CrLfFree(s, "");
      CrLfNone();
      assert s + "" == s;
    } else {
      var k := IndexOf(s, '\r', 0).value;
      var a, b := s[..k], s[k + 1..];
      assert s == a + ['\r'] + b && Free(a, '\r');
      CleanAround(a, '\r', b);
      CrLfAround(a, b);
      if b != "" && b[0] == '\n' {
        CleanTail(b);
        CrLfClean(b[1..]);
        CleanAround(a, '\n', CrLfToLf(b[1..]));
      } else {
        CrLfClean(b);
        CleanAround(a, '\r', CrLfToLf(b));
      }
    }
  }

  lemma {:induction false} CleanTail(b: string)
    requires Clean(b) && b != "" && b[0] == '\n'
    ensures Clean(b[1..])
  {
    hide Clean;
    assert b == "" + ['\n'] + b[1..];
    CleanAround("", '\n', b[1..]);
  }

  lemma {:induction false} CrLfAround(a: string, b: string)
    requires Free(a, '\r')
    ensures CrLfToLf(a + ['\r'] + b) ==
            if b != "" && b[0] == '\n' then a + ['\n'] + CrLfToLf(b[1..]) else a + ['\r'] + CrLfToLf(b)
  {
    hide CrLfToLf;
    CrLfFree(a, ['\r'] + b);
    CrLfHead(b);
    assert a + ['\r'] + b == a + (['\r'] + b);
    assert b != "" ==> a + ("\n" + CrLfToLf(b[1..])) == a + ['\n'] + CrLfToLf(b[1..]);
    assert a + (['\r'] + CrLfToLf(b)) == a + ['\r'] + CrLfToLf(b);
  }

  lemma {:induction false} CrLfNone()
    ensures CrLfToLf("") == ""
  {
  }

  lemma {:induction false} CrLfHead(b: string)
    ensures CrLfToLf(['\r'] + b) == if b != "" && b[0] == '\n' then "\n" + CrLfToLf(b[1..]) else ['\r'] + CrLfToLf(b)
  {
    var s := ['\r'] + b;
    assert s[1..] == b;
    assert b != "" ==> s[2..] == b[1..] && s[1] == b[0];
  }

  lemma {:induction false} CrClean(s: string)
    requires Clean(s)
    ensures Clean(CrToLf(s)) && Free(CrToLf(s), '\r')
    decreases |s|
  {
    hide Clean, IndexOf;
    if Free(s, '\r') {
      assert CrToLf(s) == s;
    } else {
      var k := IndexOf(s, '\r', 0).value;
      var a, b := s[..k], s[k + 1..];
      assert s == a + ['\r'] + b && Free(a, '\r');
      CleanAround(a, '\r', b);
      CrClean(b);
      CleanAround(a, '\n', CrToLf(b));
      CrToLfAround(a, b);
    }
  }

  lemma {:induction false} CrToLfAround(a: string, b: string)
    requires Free(a, '\r')
    ensures CrToLf(a + ['\r'] + b) == a + ['\n'] + CrToLf(b)
  {
  }

  lemma {:induction false} SplitClean(s: string, i: nat)
    requires Clean(s) && Free(s, '\r') && i < |Split(s)|
    ensures var l := Split(s)[i]; Clean(l) && Free(l, '\r') && Free(l, '\n')
    decreases |s|
  {
    hide Clean, Split;
    if Free(s, '\n') {
      SplitOne(s);
    } else {
      var a, b := FirstLine(s);
      SplitFirst(a, b);
      CleanAround(a, '\n', b);
      assert forall k :: 0 <= k < |a| ==> a[k] == s[k];
      assert forall k :: 0 <= k < |b| ==> b[k] == s[|a| + 1 + k];
      if i > 0 {
        SplitClean(b, i - 1);
      }
    }
  }

  lemma {:induction false} TrimClean(s: string)
    requires Clean(s) && Free(s, '\r') && Free(s, '\n')
    ensures LineOk(TrimRight(s))
    decreases |s|
  {
    if s != "" && IsBlank(s[|s| - 1]) {
      var n := |s| - 1;
      assert s == s[..n] + [s[n]] + "";
      CleanAround(s[..n], s[n], "");
      TrimClean(s[..n]);
    }
  }

  lemma {:induction false} MiddleOk(text: string)
    requires Clean(text)
    ensures AllLinesOk(Middle(text))
  {
    hide Clean, LineOk, Split, TrimRight, CrLfToLf, Core;
    CrLfClean(text);
    CrClean(CrLfToLf(text));
    var s := CrToLf(CrLfToLf(text));
    var ls := TrimLines(Split(s));
    forall i | 0 <= i < |ls|
      ensures LineOk(ls[i])
    {
      SplitClean(s, i);
      TrimClean(Split(s)[i]);
    }
    CoreLines(ls);
  }

  lemma {:induction false} NormalLinesOk(text: string)
    requires Clean(text)
    ensures NormalLines(text) == [] || LinesOk(NormalLines(text))
  {
    hide Clean, LineOk, Middle, Indentation;
    MiddleOk(text);
    var ls := Middle(text);
    if ls != [] {
      CanDedent(ls);
      DedentedOk(ls);
    }
  }

  lemma {:induction false} JoinedLines(ls: seq<string>)
    requires LinesOk(ls)
    ensures DocOk(Join(ls, "\n")) && Split(Join(ls, "\n")) == ls
  {
    hide Indentation, Split;
    assert forall i :: 0 <= i < |ls| ==> LineOk(ls[i]) && Free(ls[i], '\n');
    SplitJoin(ls);
    assert |Join(ls, "\n")| >= |ls[0]|;
  }

  lemma {:induction false} NormalizeOk(text: string)
    requires Clean(text)
    ensures Normalize(text) == "" || DocOk(Normalize(text))
  {
    hide Clean, NormalLines, LinesOk;
    NormalLinesOk(text);
    if NormalLines(text) != [] {
      JoinedLines(NormalLines(text));
    }
  }

  /** The nonempty documents of a comment group. */
  function Bodies(texts: seq<string>): seq<string> {
    if texts == [] then []
    else (if Normalize(texts[0]) != "" then [Normalize(texts[0])] else []) + Bodies(texts[1..])
  }

  /** `groupDoc`. */
  function GroupDoc(texts: seq<string>): string {
    Join(Bodies(texts), "\n\n")
  }

  lemma {:induction false} SharedSplits(prefix: string, a: seq<string>, b: seq<string>)
    ensures Shared(prefix, a + b) == Shared(Shared(prefix, a), b)
    decreases |a|
  {
    hide Common, LeadingBlank;
    if a == [] {
      assert a + b == b;
    } else {
      assert (a + b)[1..] == a[1..] + b;
      SharedSplits(if a[0] == "" then prefix else Common(prefix, LeadingBlank(a[0])), a[1..], b);
    }
  }

  lemma {:induction false} JoinLinesOk(a: seq<string>, b: seq<string>)
    requires LinesOk(a) && LinesOk(b)
    ensures LinesOk(a + [""] + b)
  {
    hide LineOk, LeadingBlank, Shared;
    var ls := a + [""] + b;
    assert LineOk("") by {
      CleanEmpty();
      EmptyLineOk();
    }
    assert forall i :: 0 <= i < |ls| ==> ls[i] == (if i < |a| then a[i] else if i == |a| then "" else b[i - |a| - 1]);
    assert ls[1..] == a[1..] + ([""] + b);
    SharedSplits(LeadingBlank(a[0]), a[1..], [""] + b);
  }

  lemma {:induction false} EmptyLineOk()
    requires Clean("")
    ensures LineOk("")
  {
  }

  lemma {:induction false} JoinDocsOk(docs: seq<string>)
    requires docs != [] && forall i :: 0 <= i < |docs| ==> DocOk(docs[i])
    ensures DocOk(Join(docs, "\n\n"))
    decreases |docs|
  {
    hide LinesOk, Split;
    if |docs| > 1 {
      var rest := Join(docs[1..], "\n\n");
      JoinDocsOk(docs[1..]);
      assert Join(docs, "\n\n") == docs[0] + "\n" + ("\n" + rest);
      SplitAround(docs[0], "\n" + rest);
      assert "\n" + rest == "" + "\n" + rest;
      SplitFirst("", rest);
      assert Split(Join(docs, "\n\n")) == Split(docs[0]) + [""] + Split(rest);
      JoinLinesOk(Split(docs[0]), Split(rest));
    }
  }

  lemma {:induction false} BodiesOk(texts: seq<string>)
    requires forall i :: 0 <= i < |texts| ==> Clean(texts[i])
    ensures forall i :: 0 <= i < |Bodies(texts)| ==> DocOk(Bodies(texts)[i])
    decreases |texts|
  {
    hide Clean, Normalize, DocOk;
    if texts != [] {
      NormalizeOk(texts[0]);
      BodiesOk(texts[1..]);
    }
  }

  /** What attachment can put into a slot. */
  lemma {:induction false} GroupDocOk(texts: seq<string>)
    requires forall i :: 0 <= i < |texts| ==> Clean(texts[i])
    ensures GroupDoc(texts) == "" || DocOk(GroupDoc(texts))
  {
    hide Clean, DocOk, Bodies;
    BodiesOk(texts);
    if Bodies(texts) != [] {
      JoinDocsOk(Bodies(texts));
    }
  }
}
