/**
 * The attachment pass as the program runs it: loops over bytes, lines and comments, searches in sorted offsets, and
 * a walk of the tree with an explicit stack.
 */
module AttachLoops {
  import opened Leaves
  import opened Syntax
  import opened Scanners
  import opened DocTexts
  import opened Documents
  import opened Attachments
  import opened CanonicalBodies

  // ---------------------------------------------------------------------------
  // Normalising a comment body

  lemma {:induction false} LeadingNone(ls: seq<string>)
    ensures Shared("", ls) == ""
  {
  }

  lemma {:induction false} SharedStep(prefix: string, ls: seq<string>, i: nat)
    requires i < |ls|
    ensures Shared(prefix, ls[i..]) ==
            if ls[i] == "" then Shared(prefix, ls[i + 1..])
                else Shared(Common(prefix, LeadingBlank(ls[i])), ls[i + 1..])
  {
    hide Common, LeadingBlank;
    assert ls[i..][1..] == ls[i + 1..];
  }

  /** The prefix loop: it stops early once nothing is shared. */
  method SharedIndentation(ls: seq<string>) returns (prefix: string)
    requires ls != []
    ensures prefix == Indentation(ls)
  {
    hide Shared, Common, LeadingBlank;
    prefix := LeadingBlank(ls[0]);
    var i := 1;
    while i < |ls|
      invariant 1 <= i <= |ls| && Shared(prefix, ls[i..]) == Indentation(ls)
    {
      SharedStep(prefix, ls, i);
      if ls[i] != "" {
        var p := LeadingBlank(ls[i]);
        prefix := CommonPrefix(prefix, p);
        if prefix == "" {
          LeadingNone(ls[i + 1..]);
          return;
        }
      }
      i := i + 1;
    }
    SharedNothing(prefix, ls[i..]);
  }

  lemma {:induction false} SharedNothing(prefix: string, ls: seq<string>)
    requires ls == []
    ensures Shared(prefix, ls) == prefix
  {
  }

  method CommonPrefix(a: string, b: string) returns (r: string)
    ensures r == Common(a, b)
  {
    var n := 0;
    assert a[0..] == a && b[0..] == b;
    while n < |a| && n < |b| && a[n] == b[n]
      invariant n <= |a| && n <= |b| && Common(a, b) == a[..n] + Common(a[n..], b[n..])
    {
      assert a[n..][1..] == a[n + 1..] && b[n..][1..] == b[n + 1..];
      assert a[..n] + ([a[n]] + Common(a[n + 1..], b[n + 1..])) == a[..n + 1] + Common(a[n + 1..], b[n + 1..]);
      n := n + 1;
    }
    r := a[..n];
  }

  method TrimEach(raw: seq<string>) returns (lines: seq<string>)
    ensures lines == TrimLines(raw)
  {
    hide TrimRight;
    lines := raw;
    var i := 0;
    while i < |lines|
      invariant 0 <= i <= |lines| == |raw|
      invariant forall k :: 0 <= k < i ==> lines[k] == TrimRight(raw[k])
      invariant forall k :: i <= k < |raw| ==> lines[k] == raw[k]
    {
      lines := lines[i := TrimRight(lines[i])];
      i := i + 1;
    }
  }

  method DropEmptyEnds(raw: seq<string>) returns (lines: seq<string>)
    ensures lines == Core(raw)
  {
    lines := raw;
    while |lines| > 0 && lines[0] == ""
      invariant DropFront(lines) == DropFront(raw)
    {
      lines := lines[1..];
    }
    ghost var front := lines;
    assert front == DropFront(raw);
    while |lines| > 0 && lines[|lines| - 1] == ""
      invariant DropBack(lines) == DropBack(front)
    {
      lines := lines[..|lines| - 1];
    }
  }

  method DedentEach(raw: seq<string>, n: nat) returns (lines: seq<string>)
    requires forall i :: 0 <= i < |raw| && raw[i] != "" ==> n <= |raw[i]|
    ensures lines == Dedent(n, raw)
  {
    lines := raw;
    if n == 0 {
      assert forall i :: 0 <= i < |raw| && raw[i] != "" ==> raw[i][0..] == raw[i];
      return;
    }
    var i := 0;
    while i < |lines|
      invariant 0 <= i <= |lines| == |raw|
      invariant forall k :: 0 <= k < i ==> lines[k] == if raw[k] == "" then "" else raw[k][n..]
      invariant forall k :: i <= k < |raw| ==> lines[k] == raw[k]
    {
      if lines[i] != "" {
        lines := lines[i := lines[i][n..]];
      }
      i := i + 1;
    }
  }

  /** `normalizeDoc`. */
  method NormalizeDoc(text: string) returns (doc: string)
    ensures doc == Normalize(text)
  {
    hide Split, CrLfToLf, CrToLf, TrimLines, Core, Indentation, Join, Dedent;
    var lines := TrimEach(Split(CrToLf(CrLfToLf(text))));
    lines := DropEmptyEnds(lines);
    assert lines == Middle(text);
    if |lines| == 0 {
      JoinNone();
      return "";
    }
    var prefix := SharedIndentation(lines);
    CanDedent(lines);
    lines := DedentEach(lines, |prefix|);
    return Join(lines, "\n");
  }

  lemma {:induction false} JoinNone()
    ensures Join([], "\n") == ""
  {
  }

  // ---------------------------------------------------------------------------
  // Searching

  predicate Ascending(xs: seq<nat>) {
    forall i, j :: 0 <= i < j < |xs| ==> xs[i] <= xs[j]
  }

  /** Binary search in ascending offsets. */
  method Search(xs: seq<nat>, x: nat) returns (r: nat)
    requires Ascending(xs)
    ensures r == FirstAbove(xs, x)
  {
    hide FirstAbove;
    ghost var goal := FirstAbove(xs, x);
    var lo, hi := 0, |xs|;
    while lo < hi
      invariant 0 <= lo <= hi <= |xs|
      invariant (forall i :: 0 <= i < lo ==> xs[i] <= x) && (forall i :: hi <= i < |xs| ==> xs[i] > x)
    {
      var mid := (lo + hi) / 2;
      if xs[mid] > x {
        hi := mid;
      } else {
        lo := mid + 1;
      }
    }
    assert (goal < |xs| ==> xs[goal] > x) && (lo < |xs| ==> xs[lo] > x);
    r := lo;
  }

  /** `hasBlankLine` on the bytes between two offsets. */
  method FindBlankLine(s: string) returns (found: bool)
    ensures found <==> HasBlankLine(s)
  {
    var prev := -1;
    var i := 0;
    while i < |s|
      invariant 0 <= i <= |s| && -1 <= prev <= i
      invariant prev >= 0 ==> prev > 0 && s[prev - 1] == '\n'
      invariant forall k :: (if prev < 0 then 0 else prev) <= k < i ==> s[k] != '\n'
      invariant forall p: nat, q: nat :: q < i ==> !BlankLine(s, p, q)
    {
      if s[i] == '\n' {
        var end := if i > 0 && s[i - 1] == '\r' then i - 1 else i;
        NewlineAt(s, i, prev);
        if prev >= 0 && AllBlank(s[prev..end]) {
          assert BlankLine(s, prev - 1, i);
          return true;
        }
        prev := i + 1;
      }
      i := i + 1;
    }
    return false;
  }

  lemma {:induction false} NewlineAt(s: string, i: nat, prev: int)
    requires i < |s| && s[i] == '\n' && -1 <= prev <= i && (prev >= 0 ==> prev > 0 && s[prev - 1] == '\n')
    requires forall k :: (if prev < 0 then 0 else prev) <= k < i ==> s[k] != '\n'
    ensures prev >= 0 ==> prev <= if i > 0 && s[i - 1] == '\r' then i - 1 else i
    ensures forall p: nat :: BlankLine(s, p, i) ==> prev > 0 && AllBlank(s[prev..if s[i - 1] == '\r' then i - 1 else i])
  {
    forall p: nat | BlankLine(s, p, i)
      ensures prev > 0 && AllBlank(s[prev..if s[i - 1] == '\r' then i - 1 else i])
    {
      assert prev > 0 && p < prev;
      var line := LineBetween(s, p, i);
      assert forall k :: p + 1 <= k < p + 1 + |line| ==> s[k] == line[k - p - 1] && IsBlank(s[k]);
    }
  }

  // ---------------------------------------------------------------------------
  // Lines and trailing comments

  /** Zero and every offset after a line feed, ascending. */
  ghost predicate AreLineStarts(src: string, lines: seq<nat>) {
    Ascending(lines) && forall x :: x in lines <==> x == 0 || (0 < x <= |src| && src[x - 1] == '\n')
  }

  /** The line starts of a file. */
  method LineStarts(src: string) returns (lines: seq<nat>)
    ensures AreLineStarts(src, lines)
  {
    lines := [0];
    var i := 0;
    while i < |src|
      invariant 0 <= i <= |src| && Ascending(lines) && lines != [] && lines[0] == 0
      invariant forall k :: 0 <= k < |lines| ==> lines[k] <= i
      invariant forall x :: x in lines <==> x == 0 || (0 < x <= i && src[x - 1] == '\n')
    {
      if src[i] == '\n' {
        lines := lines + [i + 1];
      }
      i := i + 1;
    }
  }

  /** Two offsets have the same line number exactly when no terminator lies between them. */
  lemma {:induction false} LineNumbers(src: string, lines: seq<nat>, a: nat, b: nat)
    requires AreLineStarts(src, lines) && a <= b <= |src|
    ensures FirstAbove(lines, a) == FirstAbove(lines, b) <==> SameLine(src, a, b)
  {
    hide FirstAbove;
    var i, j := FirstAbove(lines, a), FirstAbove(lines, b);
    var s := Slice(src, a, b);
    assert forall k :: a <= k < b ==> src[k] == s[k - a];
    if i == j {
      NoneBetween(lines, a, b);
      forall k | 0 <= k < |s|
        ensures s[k] != '\n'
      {
        assert src[a + k] == s[k];
        assert a + k + 1 in lines <==> src[a + k + 1 - 1] == '\n';
      }
    } else {
      FirstAboveGrows(lines, a, b);
      var x := lines[i];
      assert x in lines && a < x <= b;
      assert s[x - 1 - a] == src[x - 1];
    }
  }

  lemma {:induction false} AllAbove(xs: seq<nat>, x: nat)
    requires Ascending(xs)
    ensures forall i :: FirstAbove(xs, x) <= i < |xs| ==> xs[i] > x
  {
    hide FirstAbove;
    var r := FirstAbove(xs, x);
    assert r < |xs| ==> xs[r] > x;
  }

  lemma {:induction false} NoneBetween(xs: seq<nat>, a: nat, b: nat)
    requires Ascending(xs) && FirstAbove(xs, a) == FirstAbove(xs, b)
    ensures forall x :: x in xs ==> x <= a || x > b
  {
    hide FirstAbove;
    AllAbove(xs, b);
    assert forall i :: 0 <= i < FirstAbove(xs, a) ==> xs[i] <= a;
  }

  lemma {:induction false} FirstAboveGrows(xs: seq<nat>, a: nat, b: nat)
    requires a <= b
    ensures FirstAbove(xs, a) <= FirstAbove(xs, b)
    ensures FirstAbove(xs, a) < FirstAbove(xs, b) ==> a < xs[FirstAbove(xs, a)] <= b
  {
    hide FirstAbove;
    var i, j := FirstAbove(xs, a), FirstAbove(xs, b);
    assert i < |xs| ==> xs[i] > a;
    assert j < |xs| ==> xs[j] > b;
  }

  /** `isTrailing`: the completed node closest to the comment decides. */
  method IsTrailing(f: Facts, lines: seq<nat>, c: Comment) returns (r: bool)
    requires AreLineStarts(f.src, lines) && Ascending(f.nodeEnds) && c.start <= |f.src|
    requires forall e :: e in f.nodeEnds ==> e > 0
    ensures r <==> Trailing(f, c)
  {
    hide FirstAbove, SameLine;
    var i := Search(f.nodeEnds, c.start);
    if i == 0 {
      assert forall e :: e in f.nodeEnds ==> e > c.start by { NoneBelow(f.nodeEnds, c.start); }
      return false;
    }
    var e := f.nodeEnds[i - 1];
    assert e in f.nodeEnds && e <= c.start;
    var m := Search(lines, e - 1);
    var n := Search(lines, c.start);
    LineNumbers(f.src, lines, e - 1, c.start);
    r := m == n;
    ClosestDecides(f, c, i);
  }

  lemma {:induction false} NoneBelow(xs: seq<nat>, x: nat)
    requires Ascending(xs) && FirstAbove(xs, x) == 0
    ensures forall e :: e in xs ==> e > x
  {
    hide FirstAbove;
    assert xs != [] ==> xs[0] > x;
  }

  /** What lies between a line's offset and a later one is on the line too. */
  lemma {:induction false} CloserOnLine(src: string, a: nat, b: nat, c: nat)
    requires a <= b <= c <= |src| && SameLine(src, a, c)
    ensures SameLine(src, b, c)
  {
    var s, s' := Slice(src, a, c), Slice(src, b, c);
    assert forall j :: 0 <= j < |s'| ==> s'[j] == s[j + b - a];
  }

  /** Of the offsets up to `x`, the last before the first above it is the greatest. */
  lemma {:induction false} ClosestBelow(xs: seq<nat>, x: nat, e: nat)
    requires Ascending(xs) && e in xs && FirstAbove(xs, x) > 0
    ensures var i := FirstAbove(xs, x); xs[i - 1] in xs && xs[i - 1] <= x && (e <= x ==> e <= xs[i - 1])
  {
    hide FirstAbove;
    AllAbove(xs, x);
    var k :| 0 <= k < |xs| && xs[k] == e;
  }

  lemma {:induction false} TrailingBy(f: Facts, c: Comment, e: nat)
    requires e in f.nodeEnds && 0 < e <= c.start && SameLine(f.src, e - 1, c.start)
    ensures Trailing(f, c)
  {
    hide SameLine;
  }

  lemma {:induction false} TrailingEnd(f: Facts, c: Comment) returns (e: nat)
    requires Trailing(f, c)
    ensures e in f.nodeEnds && 0 < e <= c.start && SameLine(f.src, e - 1, c.start)
  {
    hide SameLine;
    e :| e in f.nodeEnds && 0 < e <= c.start && SameLine(f.src, e - 1, c.start);
  }

  lemma {:induction false} ClosestDecides(f: Facts, c: Comment, i: nat)
    requires Ascending(f.nodeEnds) && i == FirstAbove(f.nodeEnds, c.start) && i > 0 && c.start <= |f.src|
    requires forall e :: e in f.nodeEnds ==> e > 0
    ensures f.nodeEnds[i - 1] > 0
    ensures SameLine(f.src, f.nodeEnds[i - 1] - 1, c.start) <==> Trailing(f, c)
  {
    hide *;
    var closest := f.nodeEnds[i - 1];
    AboveBound(f.nodeEnds, c.start);
    assert closest in f.nodeEnds;
    ClosestBelow(f.nodeEnds, c.start, closest);
    if SameLine(f.src, closest - 1, c.start) {
      TrailingBy(f, c, closest);
    }
    if Trailing(f, c) {
      var e := TrailingEnd(f, c);
      ClosestBelow(f.nodeEnds, c.start, e);
      CloserOnLine(f.src, e - 1, closest - 1, c.start);
    }
  }

  // ---------------------------------------------------------------------------
  // One anchor

  lemma {:induction false} AboveBound(xs: seq<nat>, x: nat)
    ensures FirstAbove(xs, x) <= |xs|
  {
  }

  lemma {:induction false} CommentCount(cs: seq<Comment>)
    ensures |CommentEnds(cs)| == |cs|
  {
  }

  /** The document of an anchor is that of the comments between the previous token and it. */
  lemma {:induction false} DocFromGroup(f: Facts, start: nat)
    ensures FirstAbove(f.tokenEnds, start) <= |f.tokenEnds|
    ensures var i := FirstAbove(f.tokenEnds, start);
            var prevEnd := if i > 0 then f.tokenEnds[i - 1] else 0;
            var lo, hi := FirstAbove(CommentEnds(f.comments), prevEnd), FirstAbove(CommentEnds(f.comments), start);
            && lo <= |f.comments| && hi <= |f.comments|
            && DocAt(f, start) == GroupAt(f, if lo < hi then f.comments[lo..hi] else [], prevEnd, start)
  {
    hide FirstAbove, GroupAt;
    var i := FirstAbove(f.tokenEnds, start);
    var prevEnd := if i > 0 then f.tokenEnds[i - 1] else 0;
    var lo, hi := FirstAbove(CommentEnds(f.comments), prevEnd), FirstAbove(CommentEnds(f.comments), start);
    assert lo == hi ==> f.comments[lo..hi] == [];
  }

  /** The attachment loop body: the document of the anchor at `start`. */
  method FindDoc(f: Facts, lines: seq<nat>, start: nat) returns (doc: string)
    requires AreLineStarts(f.src, lines) && Ascending(f.tokenEnds) && Ascending(f.nodeEnds)
    requires Ascending(CommentEnds(f.comments))
    requires forall e :: e in f.nodeEnds ==> e > 0
    requires forall i :: 0 <= i < |f.comments| ==> f.comments[i].start <= |f.src|
    ensures doc == DocAt(f, start)
  {
    hide *;
    var i := Search(f.tokenEnds, start);
    AboveBound(f.tokenEnds, start);
    var prevEnd := if i > 0 then f.tokenEnds[i - 1] else 0;
    var lo := Search(CommentEnds(f.comments), prevEnd);
    var hi := Search(CommentEnds(f.comments), start);
    AboveBound(CommentEnds(f.comments), prevEnd);
    AboveBound(CommentEnds(f.comments), start);
    CommentCount(f.comments);
    var group := if lo < hi then f.comments[lo..hi] else [];
    DocFromGroup(f, start);
    assert forall i :: 0 <= i < |group| ==> group[i] in f.comments;
    doc := FindGroupDoc(f, lines, group, prevEnd, start);
  }

  method FindGroupDoc(f: Facts, lines: seq<nat>, group: seq<Comment>, prevEnd: nat, start: nat) returns (doc: string)
    requires AreLineStarts(f.src, lines) && Ascending(f.nodeEnds)
    requires forall e :: e in f.nodeEnds ==> e > 0
    requires forall i :: 0 <= i < |group| ==> group[i].start <= |f.src|
    ensures doc == GroupAt(f, group, prevEnd, start)
  {
    hide HasBlankLine, Trailing, GroupDoc, SegmentStart, SkipTrailing, AreLineStarts, Slice, CommentTexts;
    if |group| == 0 {
      return "";
    }
    var seg := FindSegment(f.src, group);
    var blank := FindBlankLine(Slice(f.src, group[|group| - 1].end, start));
    if blank {
      return "";
    }
    var k := seg;
    if prevEnd !in f.prefixes {
      k := SkipTrailingLoop(f, lines, group, seg);
    }
    doc := JoinGroup(group[k..]);
  }

  lemma {:induction false} SegmentStep(src: string, group: seq<Comment>, n: nat)
    requires n < |group|
    ensures SegmentStart(src, group, n) ==
            if n > 0 && !HasBlankLine(Slice(src, group[n - 1].end, group[n].start)) then SegmentStart(src, group, n - 1)
            else n
  {
    hide HasBlankLine, Slice;
  }

  method FindSegment(src: string, group: seq<Comment>) returns (seg: nat)
    requires group != []
    ensures seg == SegmentStart(src, group, |group| - 1)
  {
    hide *;
    seg := |group| - 1;
    while seg > 0
      invariant seg < |group| && SegmentStart(src, group, seg) == SegmentStart(src, group, |group| - 1)
    {
      SegmentStep(src, group, seg);
      var blank := FindBlankLine(Slice(src, group[seg - 1].end, group[seg].start));
      if blank {
        return;
      }
      seg := seg - 1;
    }
    SegmentStep(src, group, seg);
  }

  method SkipTrailingLoop(f: Facts, lines: seq<nat>, group: seq<Comment>, seg: nat) returns (k: nat)
    requires AreLineStarts(f.src, lines) && Ascending(f.nodeEnds) && seg <= |group|
    requires forall e :: e in f.nodeEnds ==> e > 0
    requires forall i :: 0 <= i < |group| ==> group[i].start <= |f.src|
    ensures k == SkipTrailing(f, group, seg)
  {
    hide Trailing;
    k := seg;
    while k < |group|
      invariant seg <= k <= |group| && SkipTrailing(f, group, k) == SkipTrailing(f, group, seg)
    {
      var trailing := IsTrailing(f, lines, group[k]);
      if !trailing {
        return;
      }
      k := k + 1;
    }
  }

  lemma {:induction false} BodiesStep(texts: seq<string>, i: nat, done: seq<string>)
    requires i < |texts|
    ensures done + Bodies(texts[i..]) ==
            (if Normalize(texts[i]) != "" then done + [Normalize(texts[i])] else done) + Bodies(texts[i + 1..])
  {
    hide Normalize;
    assert texts[i..][1..] == texts[i + 1..];
    var d, rest := Normalize(texts[i]), Bodies(texts[i + 1..]);
    assert Bodies(texts[i..]) == (if d != "" then [d] else []) + rest;
    hide Bodies;
    assert d != "" ==> done + ([d] + rest) == done + [d] + rest;
    assert [] + rest == rest;
  }

  lemma {:induction false} BodiesEnds(texts: seq<string>, done: seq<string>)
    ensures Bodies(texts) == [] + Bodies(texts[0..]) && done + Bodies(texts[|texts|..]) == done
  {
    assert texts[0..] == texts && texts[|texts|..] == [];
  }

  lemma {:induction false} TextAt(group: seq<Comment>, i: nat)
    requires i < |group|
    ensures i < |CommentTexts(group)| && CommentTexts(group)[i] == group[i].text
  {
  }

  lemma {:induction false} GroupIs(texts: seq<string>)
    ensures GroupDoc(texts) == Join(Bodies(texts), "\n\n")
  {
  }

  /** `groupDoc`. */
  method JoinGroup(group: seq<Comment>) returns (doc: string)
    ensures doc == GroupDoc(CommentTexts(group))
  {
    hide *;
    var bodies: seq<string>, i := [], 0;
    ghost var texts := CommentTexts(group);
    BodiesEnds(texts, []);
    while i < |group|
      invariant 0 <= i <= |group| && |texts| == |group| && Bodies(texts) == bodies + Bodies(texts[i..])
    {
      BodiesStep(texts, i, bodies);
      TextAt(group, i);
      var d := NormalizeDoc(group[i].text);
      if d != "" {
        bodies := bodies + [d];
      }
      i := i + 1;
    }
    BodiesEnds(texts, bodies);
    doc := Join(bodies, "\n\n");
    GroupIs(texts);
  }
}
