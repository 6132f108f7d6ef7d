/**
 * The parser of the interface language. Type specifiers are parsed with an explicit stack of open containers; it
 * gives the same tree and the same next token as recursive descent, or rejects at the same token for the same reason.
 */
module Parsers {
  import opened Leaves
  import opened Syntax

  /** One open container. */
  datatype Open =
    | OpenList(word: Token)
    | OpenMember(name: Token)
    | OpenRecord(word: Token, lbrace: Token, members: seq<Member>)

  predicate InRecord(stack: seq<Open>) {
    stack != [] && stack[|stack| - 1].OpenRecord?
  }

  function Below(stack: seq<Open>): seq<Open>
    requires stack != []
  {
    stack[..|stack| - 1]
  }

  /** A pending member sits on its record, and nothing else does. */
  predicate Nested(stack: seq<Open>) {
    stack == [] ||
    (Nested(Below(stack)) && (stack[|stack| - 1].OpenMember? <==> InRecord(Below(stack))))
  }

  /** What recursive descent would return to the outermost caller once the innermost pending type has result `r`. */
  function Resume(ts: seq<Token>, stack: seq<Open>, r: Parsed<TypeExpr>): Parsed<TypeExpr>
    requires Nested(stack) && !InRecord(stack) && (r.Ok? ==> r.next <= |ts|)
    decreases |stack|
  {
    if r.Fail? || stack == [] then r
    else
      var top := stack[|stack| - 1];
      var rest := Below(stack);
      if top.OpenList? then Resume(ts, rest, Ok(ListOf("", top.word, r.value), r.next))
      else if At(ts, r.next) != Semicolon then Fail(r.next, ASemicolon)
      else ResumeRecord(ts, WithMember(rest, Member("", top.name, r.value, ts[r.next])), r.next + 1)
  }

  /** The same, inside the field loop of the innermost record. */
  function ResumeRecord(ts: seq<Token>, stack: seq<Open>, i: nat): Parsed<TypeExpr>
    requires Nested(stack) && InRecord(stack) && i <= |ts|
    decreases |stack|
  {
    var top := stack[|stack| - 1];
    Resume(ts, Below(stack), CloseRecord(top.word, top.lbrace, top.members, ParseMembers(ts, i, FieldOrRBrace)))
  }

  function WithMember(stack: seq<Open>, m: Member): (r: seq<Open>)
    requires Nested(stack) && InRecord(stack)
    ensures Nested(r) && InRecord(r) && |r| == |stack| && Below(r) == Below(stack)
  {
    var top := stack[|stack| - 1];
    Below(stack) + [OpenRecord(top.word, top.lbrace, top.members + [m])]
  }

  /** What the loop state will come to. */
  function Outcome(ts: seq<Token>, stack: seq<Open>, complete: Option<TypeExpr>, i: nat): Parsed<TypeExpr>
    requires Nested(stack) && i <= |ts| && (complete.Some? ==> !InRecord(stack))
  {
    if complete.Some? then Resume(ts, stack, Ok(complete.value, i))
    else if InRecord(stack) then ResumeRecord(ts, stack, i)
    else Resume(ts, stack, ParseType(ts, i))
  }

  lemma {:induction false} PushNested(stack: seq<Open>, x: Open)
    requires Nested(stack) && (x.OpenMember? <==> InRecord(stack))
    ensures Nested(stack + [x]) && Below(stack + [x]) == stack
  {
    assert Below(stack + [x]) == stack;
  }

  lemma {:induction false} FailStays(ts: seq<Token>, stack: seq<Open>, at: nat, want: Want)
    requires Nested(stack) && !InRecord(stack)
    ensures Resume(ts, stack, Fail(at, want)) == Fail(at, want)
  {
  }

  /** Reading a field name inside a record. */
  lemma {:induction false} NameStep(ts: seq<Token>, stack: seq<Open>, i: nat)
    requires Nested(stack) && InRecord(stack) && i <= |ts| && At(ts, i) == Identifier
    ensures Nested(stack + [OpenMember(ts[i])])
    ensures ResumeRecord(ts, stack, i) == Resume(ts, stack + [OpenMember(ts[i])], ParseType(ts, i + 1))
  {
    hide KindOf;
    PushNested(stack, OpenMember(ts[i]));
    var next := stack + [OpenMember(ts[i])];
    var top := stack[|stack| - 1];
    var t := ParseType(ts, i + 1);
    hide ParseType;
    if t.Ok? && At(ts, t.next) == Semicolon {
      var m := Member("", ts[i], t.value, ts[t.next]);
      var rest := ParseMembers(ts, t.next + 1, FieldOrRBrace);
      assert ParseMembers(ts, i, FieldOrRBrace) == AddMember(m, rest);
      hide ParseMembers, Resume;
      if rest.Ok? {
        assert top.members + ([m] + rest.value.members) == (top.members + [m]) + rest.value.members;
      }
      assert CloseRecord(top.word, top.lbrace, top.members, AddMember(m, rest))
          == CloseRecord(top.word, top.lbrace, top.members + [m], rest);
      assert ResumeRecord(ts, stack, i) == ResumeRecord(ts, WithMember(stack, m), t.next + 1);
      MemberDone(ts, stack, ts[i], t);
    } else {
      MemberFails(ts, stack, i, t);
    }
  }

  lemma {:induction false} MemberDone(ts: seq<Token>, stack: seq<Open>, name: Token, t: Parsed<TypeExpr>)
    requires Nested(stack) && InRecord(stack) && t.Ok? && t.next <= |ts| && At(ts, t.next) == Semicolon
    requires Nested(stack + [OpenMember(name)])
    ensures Resume(ts, stack + [OpenMember(name)], t)
         == ResumeRecord(ts, WithMember(stack, Member("", name, t.value, ts[t.next])), t.next + 1)
  {
    hide KindOf, ResumeRecord, WithMember;
    assert Below(stack + [OpenMember(name)]) == stack;
  }

  lemma {:induction false} MemberFails(ts: seq<Token>, stack: seq<Open>, i: nat, t: Parsed<TypeExpr>)
    requires Nested(stack) && InRecord(stack) && i <= |ts| && At(ts, i) == Identifier && t == ParseType(ts, i + 1)
    requires t.Fail? || At(ts, t.next) != Semicolon
    requires Nested(stack + [OpenMember(ts[i])])
    ensures ResumeRecord(ts, stack, i) == Resume(ts, stack + [OpenMember(ts[i])], t)
  {
    hide KindOf, ParseType;
    assert Below(stack + [OpenMember(ts[i])]) == stack;
    assert ParseMembers(ts, i, FieldOrRBrace).Fail?;
  }

  /** `parseTypeSpec`. */
  method ParseTypeSpec(ts: seq<Token>, start: nat) returns (r: Parsed<TypeExpr>)
    requires start <= |ts|
    ensures r == ParseType(ts, start)
  {
    hide KindOf, ParseType, ParseMembers, Resume, ResumeRecord, Nested;
    var stack: seq<Open>, complete: Option<TypeExpr>, i := [], None, start;
    Nothing(ts, start);
    while true
      invariant Nested(stack) && start <= i <= |ts| && (complete.Some? ==> !InRecord(stack))
      invariant Outcome(ts, stack, complete, i) == ParseType(ts, start)
      decreases |ts| - i, |stack|
    {
      if complete.Some? {
        if stack == [] {
          Finished(ts, complete.value, i);
          return Ok(complete.value, i);
        }
        var top := stack[|stack| - 1];
        FoldStep(ts, stack, complete.value, i);
        if top.OpenList? {
          complete := Some(ListOf("", top.word, complete.value));
          stack := Below(stack);
        } else {
          if At(ts, i) != Semicolon {
            return Fail(i, ASemicolon);
          }
          stack := WithMember(Below(stack), Member("", top.name, complete.value, ts[i]));
          complete, i := None, i + 1;
        }
      } else if InRecord(stack) {
        match At(ts, i) {
          case Identifier =>
            NameStep(ts, stack, i);
            stack, i := stack + [OpenMember(ts[i])], i + 1;
          case RBrace =>
            CloseStep(ts, stack, i);
            var top := stack[|stack| - 1];
            complete := Some(Record("", top.word, top.lbrace, top.members, ts[i]));
            stack, i := Below(stack), i + 1;
          case EndOfFile =>
            RejectStep(ts, stack, i);
            return Fail(i, FieldOrRBrace);
          case _ =>
            RejectStep(ts, stack, i);
            return Fail(i, AnIdentifier);
        }
      } else {
        StartStep(ts, stack, i);
        match At(ts, i) {
          case PrimitiveWord => complete, i := Some(Primitive("", ts[i])), i + 1;
          case Identifier => complete, i := Some(Named("", ts[i])), i + 1;
          case ListWord => stack, i := stack + [OpenList(ts[i])], i + 1;
          case RecordWord =>
            if At(ts, i + 1) != LBrace {
              return Fail(i + 1, AnLBrace);
            }
            stack, i := stack + [OpenRecord(ts[i], ts[i + 1], [])], i + 2;
          case _ => return Fail(i, AType);
        }
      }
    }
  }

  lemma {:induction false} Nothing(ts: seq<Token>, i: nat)
    requires i <= |ts|
    ensures Nested([]) && Outcome(ts, [], None, i) == ParseType(ts, i)
  {
  }

  lemma {:induction false} Finished(ts: seq<Token>, t: TypeExpr, i: nat)
    requires i <= |ts|
    ensures Nested([]) && Outcome(ts, [], Some(t), i) == Ok(t, i)
  {
  }

  lemma {:induction false} FoldStep(ts: seq<Token>, stack: seq<Open>, t: TypeExpr, i: nat)
    requires Nested(stack) && stack != [] && !InRecord(stack) && i <= |ts|
    ensures Nested(Below(stack))
    ensures var top := stack[|stack| - 1];
            if top.OpenList? then
              !InRecord(Below(stack)) && Outcome(ts, stack, Some(t), i) ==
                  Outcome(ts, Below(stack), Some(ListOf("", top.word, t)), i)
            else
              && InRecord(Below(stack))
              && (if At(ts, i) != Semicolon then Outcome(ts, stack, Some(t), i) == Fail(i, ASemicolon)
                  else Outcome(ts, stack, Some(t), i) ==
                       Outcome(ts, WithMember(Below(stack), Member("", top.name, t, ts[i])), None, i + 1))
  {
    hide KindOf, ParseType, ParseMembers, ResumeRecord;
  }

  lemma {:induction false} CloseStep(ts: seq<Token>, stack: seq<Open>, i: nat)
    requires Nested(stack) && InRecord(stack) && i <= |ts| && At(ts, i) == RBrace
    ensures Nested(Below(stack)) && !InRecord(Below(stack))
    ensures var top := stack[|stack| - 1];
            Outcome(ts, stack, None, i) ==
            Outcome(ts, Below(stack), Some(Record("", top.word, top.lbrace, top.members, ts[i])), i + 1)
  {
    hide KindOf, ParseType, Resume;
    var top := stack[|stack| - 1];
    assert top.members + [] == top.members;
  }

  lemma {:induction false} RejectStep(ts: seq<Token>, stack: seq<Open>, i: nat)
    requires Nested(stack) && InRecord(stack) && i <= |ts| && At(ts, i) != RBrace && At(ts, i) != Identifier
    ensures Outcome(ts, stack, None, i) == Fail(i, if At(ts, i) == EndOfFile then FieldOrRBrace else AnIdentifier)
  {
    hide KindOf, ParseType;
    MembersAt(ts, i, FieldOrRBrace);
    hide ParseMembers;
    var top := stack[|stack| - 1];
    var want := if At(ts, i) == EndOfFile then FieldOrRBrace else AnIdentifier;
    var b := ParseMembers(ts, i, FieldOrRBrace);
    assert b.Fail? && b.at == i;
    assert b.want == want;
    var c := CloseRecord(top.word, top.lbrace, top.members, b);
    assert c == Fail(i, want);
    FailStays(ts, Below(stack), i, want);
    assert ResumeRecord(ts, stack, i) == Resume(ts, Below(stack), c);
  }

  lemma {:induction false} StartStep(ts: seq<Token>, stack: seq<Open>, i: nat)
    requires Nested(stack) && !InRecord(stack) && i <= |ts|
    ensures var now := Outcome(ts, stack, None, i);
            match At(ts, i)
            case PrimitiveWord => now == Outcome(ts, stack, Some(Primitive("", ts[i])), i + 1)
            case Identifier => now == Outcome(ts, stack, Some(Named("", ts[i])), i + 1)
            case ListWord =>
              Nested(stack + [OpenList(ts[i])]) && !InRecord(stack + [OpenList(ts[i])])
              && now == Outcome(ts, stack + [OpenList(ts[i])], None, i + 1)
            case RecordWord =>
              if At(ts, i + 1) != LBrace then now == Fail(i + 1, AnLBrace)
              else
                Nested(stack + [OpenRecord(ts[i], ts[i + 1], [])])
                && now == Outcome(ts, stack + [OpenRecord(ts[i], ts[i + 1], [])], None, i + 2)
            case _ => now == Fail(i, AType)
  {
    hide KindOf;
    match At(ts, i)
    case ListWord =>
      PushNested(stack, OpenList(ts[i]));
    case RecordWord =>
      if At(ts, i + 1) == LBrace {
        var top := OpenRecord(ts[i], ts[i + 1], []);
        PushNested(stack, top);
        hide Resume, ParseMembers;
        assert (stack + [top])[|stack + [top]| - 1] == top;
      }
    case _ =>
  }

  // ---------------------------------------------------------------------------
  // Declarations

  function AddMembers(done: seq<Member>, b: Parsed<Block>): Parsed<Block> {
    match b
    case Ok(block, next) => Ok(Block(done + block.members, block.rbrace), next)
    case Fail(at, want) => Fail(at, want)
  }

  /** One parameter: a name, a type and a semicolon. */
  function ParseMember(ts: seq<Token>, i: nat): (r: Parsed<Member>)
    requires i <= |ts|
    ensures r.Ok? ==> i < r.next <= |ts|
  {
    if At(ts, i) != Identifier then Fail(i, AnIdentifier)
    else
      var t := ParseType(ts, i + 1);
      if t.Fail? then Fail(t.at, t.want)
      else if At(ts, t.next) != Semicolon then Fail(t.next, ASemicolon)
      else Ok(Member("", ts[i], t.value, ts[t.next]), t.next + 1)
  }

  /** `parseParam`. */
  method ParseParam(ts: seq<Token>, i: nat) returns (r: Parsed<Member>)
    requires i <= |ts|
    ensures r == ParseMember(ts, i)
  {
    hide KindOf, ParseType;
    if At(ts, i) != Identifier {
      return Fail(i, AnIdentifier);
    }
    var t := ParseTypeSpec(ts, i + 1);
    if t.Fail? {
      return Fail(t.at, t.want);
    }
    if At(ts, t.next) != Semicolon {
      return Fail(t.next, ASemicolon);
    }
    r := Ok(Member("", ts[i], t.value, ts[t.next]), t.next + 1);
  }

  lemma {:induction false} MemberStep(ts: seq<Token>, i: nat, what: Want, done: seq<Member>)
    requires i <= |ts| && At(ts, i) != RBrace && At(ts, i) != EndOfFile
    ensures var m := ParseMember(ts, i);
            AddMembers(done, ParseMembers(ts, i, what)) ==
            if m.Fail? then Fail(m.at, m.want) else AddMembers(done + [m.value], ParseMembers(ts, m.next, what))
  {
    hide KindOf, ParseType, ParseMembers;
    MembersAt(ts, i, what);
    var m := ParseMember(ts, i);
    if m.Ok? {
      var rest := ParseMembers(ts, m.next, what);
      if rest.Ok? {
        assert done + ([m.value] + rest.value.members) == (done + [m.value]) + rest.value.members;
      }
    }
  }

  lemma {:induction false} AddNone(b: Parsed<Block>)
    ensures AddMembers([], b) == b
  {
    if b.Ok? {
      assert [] + b.value.members == b.value.members;
    }
  }

  /** Where a parameter list ends or is cut off. */
  lemma {:induction false} MembersStop(ts: seq<Token>, i: nat, what: Want, done: seq<Member>)
    requires i <= |ts|
    ensures At(ts, i) == RBrace ==> AddMembers(done, ParseMembers(ts, i, what)) == Ok(Block(done, ts[i]), i + 1)
    ensures At(ts, i) == EndOfFile ==> AddMembers(done, ParseMembers(ts, i, what)) == Fail(i, what)
  {
    hide KindOf, ParseType, ParseMembers;
    MembersAt(ts, i, what);
    assert done + [] == done;
  }

  /** The parameter loop of a procedure. */
  method ParseParams(ts: seq<Token>, start: nat) returns (r: Parsed<Block>)
    requires start <= |ts|
    ensures r == ParseMembers(ts, start, ParameterOrRBrace)
  {
    var params: seq<Member>, i := [], start;
    ghost var goal := ParseMembers(ts, start, ParameterOrRBrace);
    AddNone(goal);
    hide KindOf, ParseMember, ParseMembers, AddMembers;
    while At(ts, i) != RBrace
      invariant start <= i <= |ts| && goal == AddMembers(params, ParseMembers(ts, i, ParameterOrRBrace))
      decreases |ts| - i
    {
      if At(ts, i) == EndOfFile {
        MembersStop(ts, i, ParameterOrRBrace, params);
        return Fail(i, ParameterOrRBrace);
      }
      MemberStep(ts, i, ParameterOrRBrace, params);
      var m := ParseParam(ts, i);
      if m.Fail? {
        return Fail(m.at, m.want);
      }
      params, i := params + [m.value], m.next;
    }
    MembersStop(ts, i, ParameterOrRBrace, params);
    r := Ok(Block(params, ts[i]), i + 1);
  }

  method ParseOptionalSpec(ts: seq<Token>, i: nat) returns (r: Parsed<Option<TypeExpr>>)
    requires i <= |ts|
    ensures r == ParseOptional(ts, i)
  {
    hide KindOf, ParseType;
    if At(ts, i) == Semicolon {
      return Ok(None, i);
    }
    var t := ParseTypeSpec(ts, i);
    r := if t.Ok? then Ok(Some(t.value), t.next) else Fail(t.at, t.want);
  }

  method ParseDeclaration(ts: seq<Token>, i: nat) returns (r: Parsed<Decl>)
    requires i <= |ts|
    ensures r == ParseDecl(ts, i)
  {
    hide KindOf, ParseType, ParseMembers, ParseOptional;
    var kind := At(ts, i);
    if kind != TypeWord && kind != ExceptionWord && kind != ProcedureWord {
      return Fail(i, ADeclaration);
    }
    if At(ts, i + 1) != Identifier {
      return Fail(i + 1, AnIdentifier);
    }
    match kind {
      case TypeWord =>
        var t := ParseTypeSpec(ts, i + 2);
        if t.Fail? {
          return Fail(t.at, t.want);
        }
        if At(ts, t.next) != Semicolon {
          return Fail(t.next, ASemicolon);
        }
        return Ok(TypeDecl("", ts[i], ts[i + 1], t.value, ts[t.next]), t.next + 1);
      case ExceptionWord =>
        var t := ParseOptionalSpec(ts, i + 2);
        if t.Fail? {
          return Fail(t.at, t.want);
        }
        if At(ts, t.next) != Semicolon {
          return Fail(t.next, ASemicolon);
        }
        return Ok(ExceptionDecl("", ts[i], ts[i + 1], t.value, ts[t.next]), t.next + 1);
      case ProcedureWord =>
        if At(ts, i + 2) != LBrace {
          return Fail(i + 2, AnLBrace);
        }
        var b := ParseParams(ts, i + 3);
        if b.Fail? {
          return Fail(b.at, b.want);
        }
        var t := ParseOptionalSpec(ts, b.next);
        if t.Fail? {
          return Fail(t.at, t.want);
        }
        if At(ts, t.next) != Semicolon {
          return Fail(t.next, ASemicolon);
        }
        return Ok(ProcDecl("", ts[i], ts[i + 1], ts[i + 2], b.value.members, b.value.rbrace, t.value, ts[t.next]),
            t.next + 1);
    }
  }

  function AddDecls(done: seq<Decl>, r: Parsed<seq<Decl>>): Parsed<seq<Decl>> {
    match r
    case Ok(ds, next) => Ok(done + ds, next)
    case Fail(at, want) => Fail(at, want)
  }

  /** The declaration loop of `Parse`. */
  method ParseTokens(ts: seq<Token>) returns (r: Parsed<seq<Decl>>)
    ensures r == ParseDecls(ts, 0)
  {
    hide ParseDecl;
    var decls: seq<Decl>, i := [], 0;
    ghost var goal := ParseDecls(ts, 0);
    assert goal == AddDecls([], goal) by {
      if goal.Ok? {
        assert [] + goal.value == goal.value;
      }
    }
    while i < |ts|
      invariant i <= |ts| && goal == AddDecls(decls, ParseDecls(ts, i))
      decreases |ts| - i
    {
      var d := ParseDeclaration(ts, i);
      if d.Fail? {
        return Fail(d.at, d.want);
      }
      ghost var rest := ParseDecls(ts, d.next);
      if rest.Ok? {
        assert decls + ([d.value] + rest.value) == (decls + [d.value]) + rest.value;
      }
      decls, i := decls + [d.value], d.next;
    }
    assert decls + [] == decls;
    r := Ok(decls, i);
  }
}
