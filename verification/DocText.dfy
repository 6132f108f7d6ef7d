/**
 * Documentation text: how a comment body is normalised to a document, how a document is written as a comment, and
 * why reading a written document gives the same document.
 */
module DocTexts {
  import opened LittleEndian
  import opened Leaves
  import opened Scanners

  // ---------------------------------------------------------------------------
  // Text that may stand inside a comment

  predicate NoClose(s: string) {
    forall i :: 0 <= i < |s| ==> !CloseAt(s, i)
  }

  /** Valid UTF-8 that does not close a comment. */
  predicate Clean(s: string) {
    NoClose(s) && ValidText(s)
  }

  lemma {:induction false} SequenceInFront(x: Bytes, c: Byte, y: Bytes)
    requires c <= 0x7F && x != []
    ensures SequenceLength(x + [c] + y) == SequenceLength(x)
  {
    var z := x + [c] + y;
    assert forall k :: 0 <= k < |x| ==> z[k] == x[k];
    assert z[|x|] == c;
  }

  /** A byte below 0x80 is a character of its own, so validity splits there. */
  lemma {:induction false} ValidAround(x: Bytes, c: Byte, y: Bytes)
    requires c <= 0x7F
    ensures ValidUtf8(x + [c] + y) <==> ValidUtf8(x) && ValidUtf8(y)
    decreases |x|
  {
    var z := x + [c] + y;
    if x == [] {
      assert z[1..] == y;
    } else {
      SequenceInFront(x, c, y);
      var n := SequenceLength(x);
      assert z[n..] == x[n..] + [c] + y;
      if n > 0 {
        ValidAround(x[n..], c, y);
      }
    }
  }

  lemma {:induction false} OctetsAround(a: string, c: char, b: string)
    requires c as int <= 0x7F
    ensures Octets(a + [c] + b) == Octets(a) + [c as int as Byte] + Octets(b)
  {
    var s := a + [c] + b;
    assert forall i :: 0 <= i < |a| ==> s[i] == a[i];
    assert s[|a|] == c;
    assert forall i :: 0 <= i < |b| ==> s[|a| + 1 + i] == b[i];
  }

  lemma {:induction false} BytesAround(a: string, c: char, b: string)
    requires c as int <= 0x7F
    ensures (forall i :: 0 <= i < |a + [c] + b| ==> (a + [c] + b)[i] as int < 256) <==>
            (forall i :: 0 <= i < |a| ==> a[i] as int < 256) && (forall i :: 0 <= i < |b| ==> b[i] as int < 256)
  {
    var s := a + [c] + b;
    assert forall i :: 0 <= i < |a| ==> s[i] == a[i];
    assert s[|a|] == c;
    assert forall i :: 0 <= i < |b| ==> s[|a| + 1 + i] == b[i];
  }

  lemma {:induction false} CleanAround(a: string, c: char, b: string)
    requires c as int <= 0x7F && c != '*' && c != '/'
    ensures Clean(a + [c] + b) <==> Clean(a) && Clean(b)
  {
    OctetsAround(a, c, b);
    BytesAround(a, c, b);
    hide Octets, NoClose, ValidUtf8;
    ValidAround(Octets(a), c as int as Byte, Octets(b));
    CloseAround(a, c, b);
  }

  lemma {:induction false} CloseAround(a: string, c: char, b: string)
    requires c != '*' && c != '/'
    ensures NoClose(a + [c] + b) <==> NoClose(a) && NoClose(b)
  {
    var s := a + [c] + b;
    forall i | 0 <= i < |a|
      ensures CloseAt(a, i) <==> CloseAt(s, i)
    {
    }
    forall i | 0 <= i < |b|
      ensures CloseAt(b, i) <==> CloseAt(s, |a| + 1 + i)
    {
    }
    if NoClose(a) && NoClose(b) {
      forall i | 0 <= i < |s|
        ensures !CloseAt(s, i)
      {
        if i > |a| {
          assert !CloseAt(b, i - |a| - 1);
        }
      }
    }
  }

  lemma {:induction false} CleanEmpty()
    ensures Clean("")
  {
    assert Octets("") == [];
  }

  // ---------------------------------------------------------------------------
  // Lines

  predicate Free(s: string, c: char) {
    forall i :: 0 <= i < |s| ==> s[i] != c
  }

  /** Where the character first occurs, from `i` on. */
  function IndexOf(s: string, c: char, i: nat): (r: Option<nat>)
    requires i <= |s|
    ensures r.Some? ==> i <= r.value < |s| && s[r.value] == c && forall j :: i <= j < r.value ==> s[j] != c
    ensures r.None? ==> forall j :: i <= j < |s| ==> s[j] != c
    decreases |s| - i
  {
    if i == |s| then None else if s[i] == c then Some(i) else IndexOf(s, c, i + 1)
  }

  /** The text cut at every LF. */
  function Split(s: string): (r: seq<string>)
    ensures |r| >= 1
    decreases |s|
  {
    var k := IndexOf(s, '\n', 0);
    if k.None? then [s] else [s[..k.value]] + Split(s[k.value + 1..])
  }

  function Join(ls: seq<string>, sep: string): string {
    if |ls| == 0 then "" else if |ls| == 1 then ls[0] else ls[0] + sep + Join(ls[1..], sep)
  }

  lemma {:induction false} SplitOne(s: string)
    requires Free(s, '\n')
    ensures Split(s) == [s]
  {
    hide IndexOf;
  }

  lemma {:induction false} SplitFirst(a: string, b: string)
    requires Free(a, '\n')
    ensures Split(a + "\n" + b) == [a] + Split(b)
  {
    hide IndexOf;
    var s := a + "\n" + b;
    assert s[|a|] == '\n' && forall i :: 0 <= i < |a| ==> s[i] == a[i];
    assert IndexOf(s, '\n', 0) == Some(|a|);
    assert s[..|a|] == a && s[|a| + 1..] == b;
  }

  /** Text with an LF is a line, the LF and the rest. */
  lemma {:induction false} FirstLine(s: string) returns (a: string, b: string)
    requires !Free(s, '\n')
    ensures s == a + "\n" + b && Free(a, '\n')
  {
    hide IndexOf;
    var k := IndexOf(s, '\n', 0);
    a, b := s[..k.value], s[k.value + 1..];
  }

  lemma {:induction false} SplitAround(a: string, b: string)
    ensures Split(a + "\n" + b) == Split(a) + Split(b)
    decreases |a|
  {
    hide Split;
    if Free(a, '\n') {
      SplitOne(a);
      SplitFirst(a, b);
    } else {
      var x, y := FirstLine(a);
      assert a + "\n" + b == x + "\n" + (y + "\n" + b);
      SplitFirst(x, y + "\n" + b);
      SplitFirst(x, y);
      SplitAround(y, b);
    }
  }

  lemma {:induction false} SplitJoin(ls: seq<string>)
    requires |ls| > 0 && forall i :: 0 <= i < |ls| ==> Free(ls[i], '\n')
    ensures Split(Join(ls, "\n")) == ls
    decreases |ls|
  {
    hide Split;
    if |ls| == 1 {
      SplitOne(ls[0]);
    } else {
      SplitJoin(ls[1..]);
      SplitFirst(ls[0], Join(ls[1..], "\n"));
    }
  }

  lemma {:induction false} JoinSplit(s: string)
    ensures Join(Split(s), "\n") == s
    decreases |s|
  {
    hide Split;
    if Free(s, '\n') {
      SplitOne(s);
    } else {
      var a, b := FirstLine(s);
      SplitFirst(a, b);
      JoinSplit(b);
      assert ([a] + Split(b))[1..] == Split(b);
    }
  }
}
