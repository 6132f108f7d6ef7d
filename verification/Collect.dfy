/**
 * Collecting anchors, node ends and type prefixes with an explicit stack of open records, and the attachment pass
 * that uses them.
 */
module Collectors {
  import opened Leaves
  import opened Syntax
  import opened Scanners
  import opened Marks
  import opened DocTexts
  import opened Attachments
  import opened CanonicalBodies
  import opened AttachLoops
  import opened Parsers

  // ---------------------------------------------------------------------------
  // What the walk gathers, in source order

  datatype Gathered = Gathered(anchors: seq<nat>, ends: seq<nat>, prefixes: seq<nat>)

  const NOTHING := Gathered([], [], [])

  function Both(a: Gathered, b: Gathered): Gathered {
    Gathered(a.anchors + b.anchors, a.ends + b.ends, a.prefixes + b.prefixes)
  }

  function TypeStart(t: TypeExpr): nat {
    match t
    case Primitive(_, name) => name.start
    case Named(_, name) => name.start
    case ListOf(_, word, _) => word.start
    case Record(_, word, _, _, _) => word.start
  }

  function OfType(t: TypeExpr): Gathered {
    match t
    case ListOf(_, word, elem) => Both(Gathered([TypeStart(t)], [TypeEnd(t)], [word.end]), OfType(elem))
    case Record(_, _, _, fields, _) => Both(Gathered([TypeStart(t)], [TypeEnd(t)], []), OfMembers(fields))
    case _ => Gathered([TypeStart(t)], [TypeEnd(t)], [])
  }

  function OfMembers(fs: seq<Member>): Gathered {
    if fs == [] then NOTHING else Both(Both(OfName(fs[0]), OfType(fs[0].typ)), OfMembers(fs[1..]))
  }

  function OfName(f: Member): Gathered {
    Gathered([f.name.start], [f.semi.end], [f.name.end])
  }

  function OfOptional(t: Option<TypeExpr>): Gathered {
    if t.Some? then OfType(t.value) else NOTHING
  }

  function OfDecl(d: Decl): Gathered {
    match d
    case TypeDecl(_, word, name, typ, semi) => Both(Gathered([word.start], [semi.end], [name.end]), OfType(typ))
    case ExceptionDecl(_, word, name, payload, semi) =>
        Both(Gathered([word.start], [semi.end], [name.end]), OfOptional(payload))
    case ProcDecl(_, word, _, _, params, rbrace, result, semi) =>
      Both(Gathered([word.start], [semi.end], [rbrace.end]), Both(OfMembers(params), OfOptional(result)))
  }

  function OfDecls(ds: seq<Decl>): Gathered {
    if ds == [] then NOTHING else Both(OfDecl(ds[0]), OfDecls(ds[1..]))
  }

  lemma {:induction false} BothAssociates(a: Gathered, b: Gathered, c: Gathered)
    ensures Both(Both(a, b), c) == Both(a, Both(b, c))
  {
    assert a.anchors + b.anchors + c.anchors == a.anchors + (b.anchors + c.anchors);
    assert a.ends + b.ends + c.ends == a.ends + (b.ends + c.ends);
    assert a.prefixes + b.prefixes + c.prefixes == a.prefixes + (b.prefixes + c.prefixes);
  }

  lemma {:induction false} BothNothing(a: Gathered)
    ensures Both(a, NOTHING) == a && Both(NOTHING, a) == a
  {
  }

  lemma {:induction false} TypeGathers(t: TypeExpr)
    ensures OfType(t).ends == TypeEnds(t) && OfType(t).prefixes == TypePrefixes(t)
    decreases t, 1
  {
    match t
    case ListOf(_, _, elem) => TypeGathers(elem);
    case Record(_, _, _, fields, _) => MembersGather(fields);
    case _ =>
  }

  lemma {:induction false} MembersGather(fs: seq<Member>)
    ensures OfMembers(fs).ends == MemberEnds(fs) && OfMembers(fs).prefixes == MemberPrefixes(fs)
    decreases fs, 0
  {
    if fs != [] {
      TypeGathers(fs[0].typ);
      MembersGather(fs[1..]);
    }
  }

  lemma {:induction false} DeclGathers(d: Decl)
    ensures OfDecl(d).ends == DeclEnds(d) && OfDecl(d).prefixes == DeclPrefixes(d)
  {
    hide OfType, OfMembers, TypeEnds, MemberEnds, TypePrefixes, MemberPrefixes;
    match d
    case TypeDecl(_, _, _, typ, _) => TypeGathers(typ);
    case ExceptionDecl(_, _, _, payload, _) =>
      if payload.Some? {
        TypeGathers(payload.value);
      }
    case ProcDecl(_, _, _, _, params, _, result, _) =>
      MembersGather(params);
      if result.Some? {
        TypeGathers(result.value);
      }
  }

  lemma {:induction false} DeclsGather(ds: seq<Decl>)
    ensures OfDecls(ds).ends == DeclsEnds(ds) && OfDecls(ds).prefixes == DeclsPrefixes(ds)
    decreases |ds|
  {
    hide OfDecl, DeclEnds, DeclPrefixes;
    if ds != [] {
      DeclGathers(ds[0]);
      DeclsGather(ds[1..]);
    }
  }

  // ---------------------------------------------------------------------------
  // The walk

  function OfStack(stack: seq<seq<Member>>): Gathered {
    if stack == [] then NOTHING else Both(OfMembers(stack[|stack| - 1]), OfStack(stack[..|stack| - 1]))
  }

  function StackSize(stack: seq<seq<Member>>): nat {
    if stack == [] then 0 else |MemberTokens(stack[|stack| - 1])| + 1 + StackSize(stack[..|stack| - 1])
  }

  lemma {:induction false} PushRecord(base: seq<seq<Member>>, fs: seq<Member>)
    ensures OfStack(base + [fs]) == Both(OfMembers(fs), OfStack(base))
    ensures StackSize(base + [fs]) == |MemberTokens(fs)| + 1 + StackSize(base)
  {
    hide OfMembers, MemberTokens;
    assert (base + [fs])[..|base|] == base;
  }

  function Repeat(x: nat, n: nat): seq<nat> {
    seq(n, _ => x)
  }

  /** `walkListChain`: a run of lists shares the end of its element. */
  method WalkListChain(t: TypeExpr) returns (g: Gathered, elem: TypeExpr)
    requires t.ListOf?
    ensures !elem.ListOf? && |TypeTokens(elem)| < |TypeTokens(t)|
    ensures OfType(t) == Both(g, OfType(elem))
  {
    var anchors: seq<nat>, prefixes: seq<nat>, count := [], [], 0;
    elem := t;
    ghost var end := TypeEnd(t);
    while elem.ListOf?
      invariant TypeEnd(elem) == end && |anchors| == |prefixes| == count
      invariant OfType(t) == Both(Gathered(anchors, Repeat(end, count), prefixes), OfType(elem))
      invariant elem != t ==> |TypeTokens(elem)| < |TypeTokens(t)|
      decreases elem
    {
      ChainStep(anchors, prefixes, count, elem);
      anchors, prefixes, count := anchors + [elem.word.start], prefixes + [elem.word.end], count + 1;
      elem := elem.elem;
    }
    g := Gathered(anchors, Repeat(TypeEnd(elem), count), prefixes);
  }

  lemma {:induction false} ChainStep(anchors: seq<nat>, prefixes: seq<nat>, count: nat, t: TypeExpr)
    requires t.ListOf?
    ensures Both(Gathered(anchors, Repeat(TypeEnd(t), count), prefixes), OfType(t)) ==
            Both(Gathered(anchors + [t.word.start], Repeat(TypeEnd(t), count + 1), prefixes + [t.word.end]),
                OfType(t.elem))
  {
    var rest := OfType(t.elem);
    assert OfType(t) == Both(Gathered([t.word.start], [TypeEnd(t)], [t.word.end]), rest);
    hide OfType;
    BothAssociates(Gathered(anchors, Repeat(TypeEnd(t), count), prefixes),
        Gathered([t.word.start], [TypeEnd(t)], [t.word.end]), rest);
    assert Repeat(TypeEnd(t), count + 1) == Repeat(TypeEnd(t), count) + [TypeEnd(t)];
  }

  /** `walkType`: the stack holds the fields still to come of every open record. */
  method WalkType(root: TypeExpr) returns (g: Gathered)
    ensures g == OfType(root)
  {
    hide OfType, OfMembers, OfStack, StackSize, TypeTokens, MemberTokens, Both;
    g := NOTHING;
    var stack: seq<seq<Member>>, t := [], root;
    WalkStart(root);
    while true
      invariant Both(g, Both(OfType(t), OfStack(stack))) == OfType(root)
      decreases |TypeTokens(t)| + StackSize(stack)
    {
      if t.ListOf? {
        var chain, elem := WalkListChain(t);
        BothAssociates(chain, OfType(elem), OfStack(stack));
        BothAssociates(g, chain, Both(OfType(elem), OfStack(stack)));
        g, t := Both(g, chain), elem;
      } else {
        OwnStep(g, t, stack);
        g := Both(g, Gathered([TypeStart(t)], [TypeEnd(t)], []));
        var done: bool;
        if t.Record? {
          stack := stack + [t.fields];
        }
        g, stack, t, done := NextField(g, stack, t);
        if done {
          return;
        }
      }
    }
  }

  lemma {:induction false} WalkStart(root: TypeExpr)
    ensures Both(NOTHING, Both(OfType(root), OfStack([]))) == OfType(root)
  {
    BothNothing(OfType(root));
  }

  lemma {:induction false} OwnStep(g: Gathered, t: TypeExpr, stack: seq<seq<Member>>)
    requires !t.ListOf?
    ensures var own := Gathered([TypeStart(t)], [TypeEnd(t)], []);
            Both(g, Both(OfType(t), OfStack(stack))) ==
                Both(Both(g, own), OfStack(if t.Record? then stack + [t.fields] else stack))
    ensures StackSize(if t.Record? then stack + [t.fields] else stack) < |TypeTokens(t)| + StackSize(stack)
  {
    var own := Gathered([TypeStart(t)], [TypeEnd(t)], []);
    if t.Record? {
      PushRecord(stack, t.fields);
      assert OfType(t) == Both(own, OfMembers(t.fields));
      assert |TypeTokens(t)| == |MemberTokens(t.fields)| + 3;
      hide OfType, OfMembers, OfStack, TypeTokens, MemberTokens, Both, StackSize;
      BothAssociates(own, OfMembers(t.fields), OfStack(stack));
      BothAssociates(g, own, Both(OfMembers(t.fields), OfStack(stack)));
    } else {
      assert OfType(t) == own;
      hide OfType, OfStack, Both, StackSize;
      BothAssociates(g, own, OfStack(stack));
    }
  }

  /** The next pending field of the innermost open record, closing records that have none. */
  method NextField(g0: Gathered, stack0: seq<seq<Member>>, t0: TypeExpr)
    returns (g: Gathered, stack: seq<seq<Member>>, t: TypeExpr, done: bool)
    ensures done ==> Both(g0, OfStack(stack0)) == g
    ensures !done ==> Both(g, Both(OfType(t), OfStack(stack))) == Both(g0, OfStack(stack0))
    ensures !done ==> |TypeTokens(t)| + StackSize(stack) < StackSize(stack0)
  {
    hide OfType, OfMembers, OfStack, StackSize, TypeTokens, MemberTokens, Both;
    g, stack, t := g0, stack0, t0;
    while stack != []
      invariant g == g0 && OfStack(stack) == OfStack(stack0) && StackSize(stack) <= StackSize(stack0)
      decreases |stack|
    {
      var top, base := stack[|stack| - 1], stack[..|stack| - 1];
      assert stack == base + [top];
      PushRecord(base, top);
      if top == [] {
        NoFields(base);
        stack := base;
      } else {
        PushRecord(base, top[1..]);
        FieldStep(g, top, base);
        g, stack, t := Both(g, OfName(top[0])), base + [top[1..]], top[0].typ;
        return g, stack, t, false;
      }
    }
    StackEmpty(g);
    done := true;
  }

  lemma {:induction false} NoFields(base: seq<seq<Member>>)
    ensures Both(OfMembers([]), OfStack(base)) == OfStack(base)
  {
    hide OfStack;
    BothNothing(OfStack(base));
  }

  lemma {:induction false} StackEmpty(g: Gathered)
    ensures Both(g, OfStack([])) == g
  {
    BothNothing(g);
  }

  lemma {:induction false} FieldStep(g: Gathered, fs: seq<Member>, base: seq<seq<Member>>)
    requires fs != []
    ensures Both(g, Both(OfMembers(fs), OfStack(base))) ==
            Both(Both(g, OfName(fs[0])), Both(OfType(fs[0].typ), Both(OfMembers(fs[1..]), OfStack(base))))
    ensures |MemberTokens(fs)| == |TypeTokens(fs[0].typ)| + 2 + |MemberTokens(fs[1..])|
  {
    var name, typ, rest, below := OfName(fs[0]), OfType(fs[0].typ), OfMembers(fs[1..]), OfStack(base);
    assert OfMembers(fs) == Both(Both(name, typ), rest);
    hide OfType, OfMembers, OfStack, Both, TypeTokens;
    BothAssociates(Both(name, typ), rest, below);
    BothAssociates(name, typ, Both(rest, below));
    BothAssociates(g, name, Both(typ, Both(rest, below)));
  }

  method WalkMembers(params: seq<Member>) returns (g: Gathered)
    ensures g == OfMembers(params)
  {
    hide OfType, Both;
    g := NOTHING;
    var i := 0;
    BothNothing(OfMembers(params));
    assert params[0..] == params;
    while i < |params|
      invariant 0 <= i <= |params| && Both(g, OfMembers(params[i..])) == OfMembers(params)
    {
      assert params[i..][1..] == params[i + 1..];
      var typ := WalkType(params[i].typ);
      var own := Both(OfName(params[i]), typ);
      BothAssociates(g, own, OfMembers(params[i + 1..]));
      g := Both(g, own);
      i := i + 1;
    }
    BothNothing(g);
  }

  method WalkOptional(t: Option<TypeExpr>) returns (g: Gathered)
    ensures g == OfOptional(t)
  {
    hide OfType;
    g := NOTHING;
    if t.Some? {
      g := WalkType(t.value);
    }
  }

  method WalkDecl(d: Decl) returns (g: Gathered)
    ensures g == OfDecl(d)
  {
    hide OfType, OfMembers, OfOptional;
    match d {
      case TypeDecl(_, word, name, typ, semi) =>
        var inner := WalkType(typ);
        g := Both(Gathered([word.start], [semi.end], [name.end]), inner);
      case ExceptionDecl(_, word, name, payload, semi) =>
        var inner := WalkOptional(payload);
        g := Both(Gathered([word.start], [semi.end], [name.end]), inner);
      case ProcDecl(_, word, _, _, params, rbrace, result, semi) =>
        var inner := WalkMembers(params);
        var last := WalkOptional(result);
        g := Both(Gathered([word.start], [semi.end], [rbrace.end]), Both(inner, last));
    }
  }

  /** `collect`. */
  method Collect(ds: seq<Decl>) returns (g: Gathered)
    ensures g == OfDecls(ds)
  {
    hide OfDecl, Both;
    g := NOTHING;
    var i := 0;
    BothNothing(OfDecls(ds));
    assert ds[0..] == ds;
    while i < |ds|
      invariant 0 <= i <= |ds| && Both(g, OfDecls(ds[i..])) == OfDecls(ds)
    {
      assert ds[i..][1..] == ds[i + 1..];
      var own := WalkDecl(ds[i]);
      BothAssociates(g, own, OfDecls(ds[i + 1..]));
      g := Both(g, own);
      i := i + 1;
    }
    BothNothing(g);
  }

  // ---------------------------------------------------------------------------
  // Sorted offsets

  function Insert(xs: seq<nat>, x: nat): (r: seq<nat>)
    requires Ascending(xs)
    ensures Ascending(r) && forall y :: y in r <==> y == x || y in xs
  {
    if xs == [] || x <= xs[0] then [x] + xs
    else
      assert Ascending(xs[1..]);
      assert xs == [xs[0]] + xs[1..];
      var r := Insert(xs[1..], x);
      FirstIsLeast(xs);
      assert forall y :: y in r ==> xs[0] <= y;
      ConsAscends(xs[0], r);
      [xs[0]] + r
  }

  lemma {:induction false} ConsAscends(x: nat, xs: seq<nat>)
    requires Ascending(xs) && forall y :: y in xs ==> x <= y
    ensures Ascending([x] + xs)
  {
    var r := [x] + xs;
    forall i, j | 0 <= i < j < |r|
      ensures r[i] <= r[j]
    {
      assert r[j] == xs[j - 1] && xs[j - 1] in xs;
    }
  }

  lemma {:induction false} FirstIsLeast(xs: seq<nat>)
    requires Ascending(xs) && xs != []
    ensures forall y :: y in xs ==> xs[0] <= y
    ensures forall y :: y in xs[1..] ==> y in xs
  {
  }

  function Sorted(xs: seq<nat>): (r: seq<nat>)
    ensures Ascending(r) && forall y :: y in r <==> y in xs
  {
    if xs == [] then []
    else
      assert xs == [xs[0]] + xs[1..];
      Insert(Sorted(xs[1..]), xs[0])
  }

  lemma {:induction false} TrailingByMembers(f: Facts, h: Facts, c: Comment)
    requires f.src == h.src && forall e :: e in f.nodeEnds <==> e in h.nodeEnds
    ensures Trailing(f, c) <==> Trailing(h, c)
  {
    hide SameLine;
  }

  lemma {:induction false} SkipByMembers(f: Facts, h: Facts, group: seq<Comment>, k: nat)
    requires f.src == h.src && (forall e :: e in f.nodeEnds <==> e in h.nodeEnds) && k <= |group|
    ensures SkipTrailing(f, group, k) == SkipTrailing(h, group, k)
    decreases |group| - k
  {
    hide Trailing;
    if k < |group| {
      TrailingByMembers(f, h, group[k]);
      SkipByMembers(f, h, group, k + 1);
    }
  }

  /** The order of the node ends does not matter. */
  lemma {:induction false} DocByMembers(f: Facts, h: Facts, start: nat)
    requires f.src == h.src && f.tokenEnds == h.tokenEnds && f.comments == h.comments && f.prefixes == h.prefixes
    requires forall e :: e in f.nodeEnds <==> e in h.nodeEnds
    ensures DocAt(f, start) == DocAt(h, start)
  {
    hide SkipTrailing, SegmentStart, HasBlankLine, PrevEnd, Between, Slice;
    var prevEnd := PrevEnd(f.tokenEnds, start);
    var group := Between(f.comments, prevEnd, start);
    if group != [] {
      SkipByMembers(f, h, group, SegmentStart(f.src, group, |group| - 1));
    }
  }

  // ---------------------------------------------------------------------------
  // Scanned offsets ascend

  predicate Beyond(r: Scanned, base: nat, limit: nat) {
    && (forall i :: 0 <= i < |r.tokens| ==> base < r.tokens[i].end <= limit)
    && (forall i :: 0 <= i < |r.comments| ==>
       base <= r.comments[i].start && base < r.comments[i].end && r.comments[i].start <= limit)
    && Ascending(TokenEnds(r.tokens)) && Ascending(CommentEnds(r.comments))
  }

  lemma {:induction false} ScannedAscends(s: string, base: nat)
    ensures Beyond(Scan(s, base), base, base + |s|)
    decreases |s|
  {
    hide Scan, NextLex, Beyond, Joined;
    ScanAt(s, base);
    match NextLex(s)
    case Word(a, b) =>
      ScannedAscends(s[b..], base + b);
      WordFirst(Token(s[a..b], base + a, base + b), Scan(s[b..], base + b), base, base + |s|);
    case Note(a, b) =>
      ScannedAscends(s[b..], base + b);
      NoteFirst(Comment(s[a + 2..b - 2], base + a, base + b), Scan(s[b..], base + b), base, base + |s|);
    case _ => NothingBeyond(NextLex(s).End?, base, base + |s|);
  }

  lemma {:induction false} NothingBeyond(clean: bool, base: nat, limit: nat)
    ensures Beyond(Scanned([], [], clean), base, limit)
  {
  }

  lemma {:induction false} WordFirst(t: Token, r: Scanned, base: nat, limit: nat)
    requires base < t.end && Beyond(r, t.end, limit) && t.end <= limit
    ensures Beyond(Joined(Scanned([t], [], true), r), base, limit)
  {
    assert TokenEnds([t] + r.tokens) == [t.end] + TokenEnds(r.tokens);
    assert [] + r.comments == r.comments;
  }

  lemma {:induction false} NoteFirst(c: Comment, r: Scanned, base: nat, limit: nat)
    requires base <= c.start < c.end && Beyond(r, c.end, limit) && c.end <= limit
    ensures Beyond(Joined(Scanned([], [c], true), r), base, limit)
  {
    assert CommentEnds([c] + r.comments) == [c.end] + CommentEnds(r.comments);
    assert [] + r.tokens == r.tokens;
  }

  // ---------------------------------------------------------------------------
  // Setting every slot

  ghost predicate Agree(a: nat -> string, b: nat -> string, xs: seq<nat>) {
    forall x :: x in xs ==> a(x) == b(x)
  }

  lemma {:induction false} AgreeSplit(a: nat -> string, b: nat -> string, xs: seq<nat>, ys: seq<nat>)
    requires Agree(a, b, xs + ys)
    ensures Agree(a, b, xs) && Agree(a, b, ys)
  {
    assert forall x :: x in xs ==> x in xs + ys;
    assert forall y :: y in ys ==> y in xs + ys;
  }

  lemma {:induction false} AgreeOne(a: nat -> string, b: nat -> string, x: nat)
    requires Agree(a, b, [x])
    ensures a(x) == b(x)
  {
    assert x in [x];
  }

  lemma {:induction false} AttachTypeAgrees(a: nat -> string, b: nat -> string, t: TypeExpr)
    requires Agree(a, b, OfType(t).anchors)
    ensures AttachType(a, t) == AttachType(b, t)
    decreases t, 1
  {
    hide Agree;
    match t
    case ListOf(_, _, elem) =>
      AgreeSplit(a, b, [TypeStart(t)], OfType(elem).anchors);
      AgreeOne(a, b, TypeStart(t));
      AttachTypeAgrees(a, b, elem);
    case Record(_, _, _, fields, _) =>
      AgreeSplit(a, b, [TypeStart(t)], OfMembers(fields).anchors);
      AgreeOne(a, b, TypeStart(t));
      AttachMembersAgree(a, b, fields);
    case _ => AgreeOne(a, b, TypeStart(t));
  }

  lemma {:induction false} AttachMembersAgree(a: nat -> string, b: nat -> string, fs: seq<Member>)
    requires Agree(a, b, OfMembers(fs).anchors)
    ensures AttachMembers(a, fs) == AttachMembers(b, fs)
    decreases fs, 0
  {
    hide Agree;
    if fs != [] {
      AgreeSplit(a, b, [fs[0].name.start] + OfType(fs[0].typ).anchors, OfMembers(fs[1..]).anchors);
      AgreeSplit(a, b, [fs[0].name.start], OfType(fs[0].typ).anchors);
      AgreeOne(a, b, fs[0].name.start);
      AttachTypeAgrees(a, b, fs[0].typ);
      AttachMembersAgree(a, b, fs[1..]);
    }
  }

  lemma {:induction false} AttachOptionalAgrees(a: nat -> string, b: nat -> string, t: Option<TypeExpr>)
    requires Agree(a, b, OfOptional(t).anchors)
    ensures AttachOptional(a, t) == AttachOptional(b, t)
  {
    hide Agree, OfType, AttachType;
    if t.Some? {
      AttachTypeAgrees(a, b, t.value);
    }
  }

  lemma {:induction false} AttachDeclAgrees(a: nat -> string, b: nat -> string, d: Decl)
    requires Agree(a, b, OfDecl(d).anchors)
    ensures AttachDecl(a, d) == AttachDecl(b, d)
  {
    hide Agree, OfType, OfMembers, OfOptional, AttachType, AttachMembers, AttachOptional;
    match d
    case TypeDecl(_, word, _, typ, _) =>
      AgreeSplit(a, b, [word.start], OfType(typ).anchors);
      AgreeOne(a, b, word.start);
      AttachTypeAgrees(a, b, typ);
    case ExceptionDecl(_, word, _, payload, _) =>
      AgreeSplit(a, b, [word.start], OfOptional(payload).anchors);
      AgreeOne(a, b, word.start);
      AttachOptionalAgrees(a, b, payload);
    case ProcDecl(_, word, _, _, params, _, result, _) =>
      AgreeSplit(a, b, [word.start], OfMembers(params).anchors + OfOptional(result).anchors);
      AgreeSplit(a, b, OfMembers(params).anchors, OfOptional(result).anchors);
      AgreeOne(a, b, word.start);
      AttachMembersAgree(a, b, params);
      AttachOptionalAgrees(a, b, result);
  }

  /** A document found for every anchor is all that attachment needs. */
  lemma {:induction false} AttachAgrees(a: nat -> string, b: nat -> string, ds: seq<Decl>)
    requires Agree(a, b, OfDecls(ds).anchors)
    ensures AttachDecls(a, ds) == AttachDecls(b, ds)
    decreases |ds|
  {
    hide Agree, OfDecl, AttachDecl;
    if ds != [] {
      AgreeSplit(a, b, OfDecl(ds[0]).anchors, OfDecls(ds[1..]).anchors);
      AttachDeclAgrees(a, b, ds[0]);
      AttachAgrees(a, b, ds[1..]);
    }
  }

  function Lookup(docs: map<nat, string>): nat -> string {
    (x: nat) => if x in docs then docs[x] else ""
  }

  /** `attach`: one document per anchor, in source order. */
  method FindDocs(f: Facts, lines: seq<nat>, anchors: seq<nat>) returns (docs: map<nat, string>)
    requires AreLineStarts(f.src, lines) && Ascending(f.tokenEnds) && Ascending(f.nodeEnds)
    requires Ascending(CommentEnds(f.comments))
    requires forall e :: e in f.nodeEnds ==> e > 0
    requires forall i :: 0 <= i < |f.comments| ==> f.comments[i].start <= |f.src|
    ensures forall x :: x in anchors ==> x in docs && docs[x] == DocAt(f, x)
  {
    hide DocAt, AreLineStarts;
    docs := map[];
    var i := 0;
    while i < |anchors|
      invariant 0 <= i <= |anchors|
      invariant forall k :: 0 <= k < i ==> anchors[k] in docs
      invariant forall x :: x in docs ==> docs[x] == DocAt(f, x)
    {
      var doc := FindDoc(f, lines, anchors[i]);
      docs := docs[anchors[i] := doc];
      i := i + 1;
    }
  }

  /** `AttachDocs` on a file that parses. */
  method AttachDocs(src: string, ds: seq<Decl>) returns (r: seq<Decl>)
    requires ParseText(src) == Some(ds)
    ensures r == Attached(src, ds)
  {
    hide Scan, ParseDecls, DocAt, AttachDecls, OfDecls, DeclsEnds, DeclsPrefixes, AreLineStarts, Beyond, TokenEnds,
         CommentEnds;
    var s := ScanFile(src);
    var g := Collect(ds);
    DeclsGather(ds);
    var lines := LineStarts(src);
    var f := Facts(src, TokenEnds(s.tokens), Sorted(g.ends), g.prefixes, s.comments);
    FactsReady(src, ds, f);
    var docs := FindDocs(f, lines, g.anchors);
    ghost var wanted := DocsOf(FactsOf(src, ds));
    forall x | x in g.anchors
      ensures Lookup(docs)(x) == wanted(x)
    {
      DocByMembers(f, FactsOf(src, ds), x);
    }
    AttachAgrees(Lookup(docs), wanted, ds);
    r := AttachDecls(Lookup(docs), ds);
  }

  lemma {:induction false} FactsReady(src: string, ds: seq<Decl>, f: Facts)
    requires ParseText(src) == Some(ds) && f.src == src && f.tokenEnds == TokenEnds(Scan(src, 0).tokens)
    requires f.comments == Scan(src, 0).comments && forall e :: e in f.nodeEnds ==> e in DeclsEnds(ds)
    ensures Ascending(f.tokenEnds) && Ascending(CommentEnds(f.comments))
    ensures forall e :: e in f.nodeEnds ==> e > 0
    ensures forall i :: 0 <= i < |f.comments| ==> f.comments[i].start <= |f.src|
  {
    hide Scan, ParseDecls, DeclsEnds;
    ScannedAscends(src, 0);
    var ts := Scan(src, 0).tokens;
    forall e | e in f.nodeEnds
      ensures e > 0
    {
      ParsedEnds(ts, e);
      var k :| 0 <= k < |TokenEnds(ts)| && TokenEnds(ts)[k] == e;
      assert ts[k].end == e;
    }
  }

  /** `Parse`. */
  method ParseSource(src: string) returns (r: Option<seq<Decl>>)
    ensures r == ParseText(src)
  {
    hide Scan, ParseDecls;
    var s := ScanFile(src);
    var p := ParseTokens(s.tokens);
    if !s.clean || p.Fail? {
      return None;
    }
    return Some(p.value);
  }
}
