/**
 * The scanner of the interface language. Source text is a sequence of bytes, each written as the character with its
 * value; a comment body must be valid UTF-8.
 */
module Scanners {
  import opened LittleEndian
  import opened Leaves
  import opened Syntax

  /** One block comment: the text between the delimiters and the span of the whole. */
  datatype Comment = Comment(text: string, start: nat, end: nat)

  predicate IsSpace(c: char) {
    c == ' ' || c == '\t' || c == '\r' || c == '\n' || c == '\U{000C}' || c == '\U{000B}'
  }

  predicate IsIdentStart(c: char) {
    c == '_' || 'a' <= c <= 'z' || 'A' <= c <= 'Z'
  }

  predicate IsIdentPart(c: char) {
    IsIdentStart(c) || '0' <= c <= '9'
  }

  function Octets(s: string): Bytes {
    seq(|s|, i requires 0 <= i < |s| => (s[i] as int % 256) as Byte)
  }

  predicate ValidText(s: string) {
    (forall i :: 0 <= i < |s| ==> s[i] as int < 256) && ValidUtf8(Octets(s))
  }

  // ---------------------------------------------------------------------------
  // One token

  function SpaceCount(s: string): (n: nat)
    ensures n <= |s|
    ensures forall i :: 0 <= i < n ==> IsSpace(s[i])
    ensures n < |s| ==> !IsSpace(s[n])
  {
    if s != "" && IsSpace(s[0]) then 1 + SpaceCount(s[1..]) else 0
  }

  function IdentCount(s: string): (n: nat)
    ensures n <= |s|
    ensures forall i :: 0 <= i < n ==> IsIdentPart(s[i])
    ensures n < |s| ==> !IsIdentPart(s[n])
  {
    if s != "" && IsIdentPart(s[0]) then 1 + IdentCount(s[1..]) else 0
  }

  predicate CloseAt(s: string, i: nat) {
    i + 1 < |s| && s[i] == '*' && s[i + 1] == '/'
  }

  function FindClose(s: string, i: nat): (r: Option<nat>)
    requires i <= |s|
    ensures r.Some? ==> i <= r.value && CloseAt(s, r.value) && forall j :: i <= j < r.value ==> !CloseAt(s, j)
    ensures r.None? ==> forall j :: i <= j < |s| ==> !CloseAt(s, j)
    decreases |s| - i
  {
    if i == |s| then None else if CloseAt(s, i) then Some(i) else FindClose(s, i + 1)
  }

  /** What the scanner finds next, with offsets from where it stands. */
  datatype Lex = End | Word(start: nat, end: nat) | Note(start: nat, end: nat) | Bad

  predicate IsPunctuation(c: char) {
    c == '{' || c == '}' || c == ';'
  }

  function NextLex(s: string): (x: Lex)
    ensures x.Word? ==> x.start < x.end <= |s|
    ensures x.Note? ==> x.start + 4 <= x.end <= |s|
  {
    LexAt(s, SpaceCount(s))
  }

  /** The token or comment that starts at `w`. */
  function LexAt(s: string, w: nat): (x: Lex)
    requires w <= |s|
    ensures x.Word? ==> x.start < x.end <= |s|
    ensures x.Note? ==> x.start + 4 <= x.end <= |s|
  {
    if w == |s| then End
    else if IsPunctuation(s[w]) then Word(w, w + 1)
    else if s[w] == '/' then
      if w + 1 < |s| && s[w + 1] == '*' then NoteAt(s, w) else Bad
    else if IsIdentStart(s[w]) then Word(w, w + IdentCount(s[w..]))
    else Bad
  }

  function NoteAt(s: string, w: nat): (x: Lex)
    requires w + 1 < |s|
    ensures x.Note? ==> x.start + 4 <= x.end <= |s|
    ensures !x.Word?
  {
    var close := FindClose(s, w + 2);
    if close.Some? && ValidText(s[w + 2..close.value]) then Note(w, close.value + 2) else Bad
  }

  // ---------------------------------------------------------------------------
  // The whole text

  /** The tokens and the comments in source order; `clean` if the scan reached the end of the text. */
  datatype Scanned = Scanned(tokens: seq<Token>, comments: seq<Comment>, clean: bool)

  function Scan(s: string, base: nat): Scanned
    decreases |s|
  {
    match NextLex(s)
    case End => Scanned([], [], true)
    case Bad => Scanned([], [], false)
    case Word(a, b) =>
      var rest := Scan(s[b..], base + b);
      rest.(tokens := [Token(s[a..b], base + a, base + b)] + rest.tokens)
    case Note(a, b) =>
      var rest := Scan(s[b..], base + b);
      rest.(comments := [Comment(s[a + 2..b - 2], base + a, base + b)] + rest.comments)
  }

  // ---------------------------------------------------------------------------
  // The scanner object

  /** Whether the comment closes at an offset is what the two bytes there say. */
  lemma {:induction false} CloseHere(src: string, from: nat, off: nat)
    requires from <= off < |src|
    ensures var s := src[from..];
            FindClose(s, off - from) ==
            if src[off] == '*' && off + 1 < |src| && src[off + 1] == '/' then Some(off - from)
            else FindClose(s, off + 1 - from)
  {
    var s := src[from..];
    assert s[off - from] == src[off];
    assert off + 1 < |src| ==> s[off + 1 - from] == src[off + 1];
  }

  /** The scan for the closing delimiter, from the comment's body on. */
  method FindEnd(src: string, body: nat, ghost from: nat) returns (r: Option<nat>)
    requires from <= body <= |src|
    ensures r.Some? ==> body <= r.value && r.value + 1 < |src|
    ensures r.Some? ==> FindClose(src[from..], body - from) == Some(r.value - from)
    ensures r.None? ==> FindClose(src[from..], body - from) == FindClose(src[from..], |src| - from)
  {
    hide *;
    var off := body;
    while off < |src|
      invariant body <= off <= |src|
      invariant FindClose(src[from..], body - from) == FindClose(src[from..], off - from)
    {
      CloseHere(src, from, off);
      if src[off] == '*' && off + 1 < |src| && src[off + 1] == '/' {
        return Some(off);
      }
      off := off + 1;
    }
    return None;
  }

  lemma {:induction false} NoteEnds(src: string, from: nat, start: nat, off: nat)
    requires from <= start && start + 2 <= off && off + 1 < |src|
    requires FindClose(src[from..], start + 2 - from) == Some(off - from)
    ensures Shift(NoteAt(src[from..], start - from), from) ==
            if ValidText(src[start + 2..off]) then Note(start, off + 2) else Bad
  {
    hide FindClose, ValidText;
    assert src[from..][start + 2 - from..off - from] == src[start + 2..off];
  }

  lemma {:induction false} NoteNeverEnds(src: string, from: nat, start: nat)
    requires from <= start && start + 2 <= |src|
    requires FindClose(src[from..], start + 2 - from) == FindClose(src[from..], |src| - from)
    ensures NoteAt(src[from..], start - from) == Bad
  {
  }

  class Scanner {
    const src: string
    var off: nat
    var failed: bool

    ghost predicate Valid()
      reads this
    {
      off <= |src|
    }

    constructor (src: string)
      ensures Valid() && this.src == src && off == 0 && !failed
    {
      this.src, off, failed := src, 0, false;
    }

    /** The next token or comment; after the first error every call fails. */
    method Next() returns (x: Lex)
      requires Valid()
      modifies this
      ensures Valid() && off >= old(off)
      ensures old(failed) ==> x == Bad && failed && off == old(off)
      ensures !old(failed) ==> x == Shift(NextLex(src[old(off)..]), old(off)) && failed == x.Bad?
      ensures !old(failed) && (x.Word? || x.Note?) ==> off == x.end && off > old(off)
    {
      if failed {
        return Bad;
      }
      hide LexAt, SpaceCount;
      ghost var from := off;
      SkipSpaces();
      x := Lexeme(from);
    }

    /** The switch on the first byte after white space. */
    method Lexeme(ghost from: nat) returns (x: Lex)
      requires Valid() && from <= off && !failed
      modifies this
      ensures Valid() && off >= old(off)
      ensures x == Shift(LexAt(src[from..], old(off) - from), from) && failed == x.Bad?
      ensures x.Word? || x.Note? ==> off == x.end && off > old(off)
    {
      ghost var s := src[from..];
      hide IsIdentStart, NoteAt, IdentCount, IsPunctuation;
      assert forall k :: 0 <= k < |s| ==> s[k] == src[from + k];
      if off == |src| {
        return End;
      }
      var start := off;
      if IsPunctuation(src[off]) {
        off := off + 1;
        return Word(start, off);
      } else if src[off] == '/' {
        if off + 1 < |src| && src[off + 1] == '*' {
          x := ScanComment(from);
          return;
        }
        failed := true;
        return Bad;
      } else if IsIdentStart(src[off]) {
        assert s[off - from..] == src[off..];
        ScanIdent();
        return Word(start, off);
      }
      failed := true;
      return Bad;
    }

    method SkipSpaces()
      requires Valid()
      modifies this`off
      ensures Valid() && off == old(off) + SpaceCount(src[old(off)..])
    {
      ghost var from := off;
      while off < |src| && IsSpace(src[off])
        invariant from <= off <= |src| && SpaceCount(src[from..]) == off - from + SpaceCount(src[off..])
      {
        assert src[off..][1..] == src[off + 1..];
        off := off + 1;
      }
    }

    method ScanIdent()
      requires Valid()
      modifies this`off
      ensures Valid() && off == old(off) + IdentCount(src[old(off)..])
      ensures old(off) < |src| && IsIdentStart(src[old(off)]) ==> off > old(off)
    {
      ghost var from := off;
      while off < |src| && IsIdentPart(src[off])
        invariant from <= off <= |src| && IdentCount(src[from..]) == off - from + IdentCount(src[off..])
      {
        assert src[off..][1..] == src[off + 1..];
        off := off + 1;
      }
    }

    method ScanComment(ghost from: nat) returns (x: Lex)
      requires Valid() && from <= off && off + 1 < |src| && !failed
      modifies this
      ensures Valid() && off >= old(off)
      ensures x == Shift(NoteAt(src[from..], old(off) - from), from) && failed == x.Bad?
      ensures x.Note? ==> off == x.end && off > old(off)
    {
      var start := off;
      off := off + 2;
      var body := off;
      var end := FindEnd(src, body, from);
      if end.Some? {
        NoteEnds(src, from, start, end.value);
        off := end.value;
        if !ValidText(src[body..off]) {
          failed := true;
          return Bad;
        }
        off := off + 2;
        return Note(start, off);
      }
      off := |src|;
      NoteNeverEnds(src, from, start);
      failed := true;
      return Bad;
    }
  }

  function Shift(x: Lex, n: nat): Lex {
    match x
    case Word(a, b) => Word(a + n, b + n)
    case Note(a, b) => Note(a + n, b + n)
    case _ => x
  }

  function Joined(done: Scanned, rest: Scanned): Scanned {
    Scanned(done.tokens + rest.tokens, done.comments + rest.comments, rest.clean)
  }

  /** Recording one token or comment of the text. */
  function Record(done: Scanned, src: string, x: Lex): Scanned
    requires (x.Word? ==> x.start <= x.end <= |src|) && (x.Note? ==> x.start + 4 <= x.end <= |src|)
  {
    match x
    case End => done
    case Bad => done.(clean := false)
    case Word(a, b) => done.(tokens := done.tokens + [Token(src[a..b], a, b)])
    case Note(a, b) => done.(comments := done.comments + [Comment(src[a + 2..b - 2], a, b)])
  }

  /** What one step of the scan adds. */
  lemma {:induction false} ScanAt(s: string, base: nat)
    ensures Scan(s, base) ==
            match NextLex(s)
            case End => Scanned([], [], true)
            case Bad => Scanned([], [], false)
            case Word(a, b) => Joined(Scanned([Token(s[a..b], base + a, base + b)], [], true), Scan(s[b..], base + b))
            case Note(a, b) => Joined(Scanned([], [Comment(s[a + 2..b - 2], base + a, base + b)], true),
                Scan(s[b..], base + b))
  {
    hide NextLex;
    match NextLex(s)
    case Word(a, b) => assert [] + Scan(s[b..], base + b).comments == Scan(s[b..], base + b).comments;
    case Note(a, b) => assert [] + Scan(s[b..], base + b).tokens == Scan(s[b..], base + b).tokens;
    case _ =>
  }

  lemma {:induction false} JoinedAssociates(a: Scanned, b: Scanned, c: Scanned)
    ensures Joined(Joined(a, b), c) == Joined(a, Joined(b, c))
  {
    assert a.tokens + b.tokens + c.tokens == a.tokens + (b.tokens + c.tokens);
    assert a.comments + b.comments + c.comments == a.comments + (b.comments + c.comments);
  }

  lemma {:induction false} JoinedNothing(a: Scanned, clean: bool)
    ensures Joined(a, Scanned([], [], clean)) == a.(clean := clean)
  {
    assert a.tokens + [] == a.tokens && a.comments + [] == a.comments;
  }

  lemma {:induction false} SliceOfSlice(src: string, from: nat, a: nat, b: nat)
    requires from <= |src| && a <= b <= |src| - from
    ensures src[from..][a..b] == src[from + a..from + b] && src[from..][b..] == src[from + b..]
  {
  }

  lemma {:induction false} NothingRecorded(done: Scanned, src: string, x: Lex)
    requires x.End? || x.Bad?
    ensures Record(done, src, x) == done.(clean := x.End? && done.clean)
  {
  }

  lemma {:induction false} ScanStep(src: string, from: nat, done: Scanned)
    requires from <= |src| && done.clean
    ensures var x := Shift(NextLex(src[from..]), from);
            var all := Joined(done, Scan(src[from..], from));
            if x.End? || x.Bad? then all == Record(done, src, x)
            else all == Joined(Record(done, src, x), Scan(src[x.end..], x.end))
  {
    hide NextLex, Scan, Joined, Record;
    var s := src[from..];
    ScanAt(s, from);
    match NextLex(s)
    case Word(a, b) =>
      SliceOfSlice(src, from, a, b);
      StepJoins(src, Word(from + a, from + b), done);
    case Note(a, b) =>
      SliceOfSlice(src, from, a + 2, b - 2);
      SliceOfSlice(src, from, b, b);
      StepJoins(src, Note(from + a, from + b), done);
    case _ =>
      JoinedNothing(done, NextLex(s).End?);
      NothingRecorded(done, src, NextLex(s));
  }

  lemma {:induction false} StepJoins(src: string, x: Lex, done: Scanned)
    requires (x.Word? && x.start <= x.end <= |src|) || (x.Note? && x.start + 4 <= x.end <= |src|)
    requires done.clean
    ensures var one := Record(Scanned([], [], true), src, x); var rest := Scan(src[x.end..], x.end);
            Joined(done, Joined(one, rest)) == Joined(Record(done, src, x), rest)
    ensures var one := Record(Scanned([], [], true), src, x);
            one == if x.Word? then Scanned([Token(src[x.start..x.end], x.start, x.end)], [], true)
                   else Scanned([], [Comment(src[x.start + 2..x.end - 2], x.start, x.end)], true)
  {
    hide Scan;
    var one := Record(Scanned([], [], true), src, x);
    JoinedAssociates(done, one, Scan(src[x.end..], x.end));
    assert Joined(done, one) == Record(done, src, x);
  }

  /** Reading to the end: the token loop that both the parser and the attacher run. */
  method ScanFile(src: string) returns (r: Scanned)
    ensures r == Scan(src, 0)
  {
    hide NextLex, Scan;
    var scanner := new Scanner(src);
    r := Scanned([], [], true);
    ghost var goal := Scan(src, 0);
    assert src[0..] == src;
    assert Joined(r, goal) == goal;
    hide Joined;
    while true
      invariant fresh(scanner) && scanner.Valid() && scanner.src == src && !scanner.failed && r.clean
      invariant goal == Joined(r, Scan(src[scanner.off..], scanner.off))
      decreases |src| - scanner.off
    {
      ScanStep(src, scanner.off, r);
      var x := scanner.Next();
      r := Record(r, src, x);
      if x.End? || x.Bad? {
        return;
      }
    }
  }
}
