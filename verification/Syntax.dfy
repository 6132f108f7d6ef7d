/**
 * The interface language: tokens, the syntax tree with its documentation slots, and recursive descent over a token
 * sequence, which is the meaning that the explicit-stack parser is proved against.
 */
module Syntax {
  import opened Leaves

  // ---------------------------------------------------------------------------
  // Tokens

  datatype Kind =
    | EndOfFile
    | Identifier
    | TypeWord
    | ExceptionWord
    | ProcedureWord
    | ListWord
    | RecordWord
    | PrimitiveWord
    | LBrace
    | RBrace
    | Semicolon

  /** A non-comment token: its exact source text and span. */
  datatype Token = Token(lit: string, start: nat, end: nat)

  const PRIMITIVES: set<string> := {
    "int8", "int16", "int32", "int64", "uint8", "uint16", "uint32", "uint64", "float32", "float64", "string", "bytes"
  }

  /** The kind of a token is decided by its text: exact lowercase spellings are reserved. */
  function KindOf(lit: string): Kind {
    if lit == "{" then LBrace
    else if lit == "}" then RBrace
    else if lit == ";" then Semicolon
    else if lit == "type" then TypeWord
    else if lit == "exception" then ExceptionWord
    else if lit == "procedure" then ProcedureWord
    else if lit == "list" then ListWord
    else if lit == "record" then RecordWord
    else if lit in PRIMITIVES then PrimitiveWord
    else Identifier
  }

  function At(ts: seq<Token>, i: nat): Kind {
    if i < |ts| then KindOf(ts[i].lit) else EndOfFile
  }

  predicate Is(tok: Token, kind: Kind) {
    KindOf(tok.lit) == kind
  }

  // ---------------------------------------------------------------------------
  // The tree

  datatype TypeExpr =
    | Primitive(doc: string, name: Token)
    | Named(doc: string, name: Token)
    | ListOf(doc: string, word: Token, elem: TypeExpr)
    | Record(doc: string, word: Token, lbrace: Token, fields: seq<Member>, rbrace: Token)

  /** A record field or a procedure parameter. */
  datatype Member = Member(doc: string, name: Token, typ: TypeExpr, semi: Token)

  datatype Decl =
    | TypeDecl(doc: string, word: Token, name: Token, typ: TypeExpr, semi: Token)
    | ExceptionDecl(doc: string, word: Token, name: Token, payload: Option<TypeExpr>, semi: Token)
    | ProcDecl(doc: string, word: Token, name: Token, lbrace: Token, params: seq<Member>, rbrace: Token,
               result: Option<TypeExpr>, semi: Token)

  /** Every token of the tree has the kind its place demands; in particular no reserved word is a name. */
  predicate LexedType(t: TypeExpr) {
    match t
    case Primitive(_, name) => Is(name, PrimitiveWord)
    case Named(_, name) => Is(name, Identifier)
    case ListOf(_, word, elem) => Is(word, ListWord) && LexedType(elem)
    case Record(_, word, lbrace, fields, rbrace) =>
      Is(word, RecordWord) && Is(lbrace, LBrace) && LexedMembers(fields) && Is(rbrace, RBrace)
  }

  predicate LexedMembers(fs: seq<Member>) {
    fs == [] ||
    (Is(fs[0].name, Identifier) && LexedType(fs[0].typ) && Is(fs[0].semi, Semicolon) && LexedMembers(fs[1..]))
  }

  predicate LexedOptional(t: Option<TypeExpr>) {
    t.Some? ==> LexedType(t.value)
  }

  predicate LexedDecl(d: Decl) {
    && Is(d.name, Identifier) && Is(d.semi, Semicolon)
    && match d
       case TypeDecl(_, word, _, typ, _) => Is(word, TypeWord) && LexedType(typ)
       case ExceptionDecl(_, word, _, payload, _) => Is(word, ExceptionWord) && LexedOptional(payload)
       case ProcDecl(_, word, _, lbrace, params, rbrace, result, _) =>
         Is(word, ProcedureWord) && Is(lbrace, LBrace) && LexedMembers(params) && Is(rbrace, RBrace)
             && LexedOptional(result)
  }

  predicate LexedDecls(ds: seq<Decl>) {
    ds == [] || (LexedDecl(ds[0]) && LexedDecls(ds[1..]))
  }

  // ---------------------------------------------------------------------------
  // The tokens of a tree, in source order

  function TypeTokens(t: TypeExpr): (r: seq<Token>)
    ensures r != []
  {
    match t
    case Primitive(_, name) => [name]
    case Named(_, name) => [name]
    case ListOf(_, word, elem) => [word] + TypeTokens(elem)
    case Record(_, word, lbrace, fields, rbrace) => [word, lbrace] + MemberTokens(fields) + [rbrace]
  }

  function MemberTokens(fs: seq<Member>): seq<Token> {
    if fs == [] then [] else [fs[0].name] + TypeTokens(fs[0].typ) + [fs[0].semi] + MemberTokens(fs[1..])
  }

  function OptionalTokens(t: Option<TypeExpr>): seq<Token> {
    if t.Some? then TypeTokens(t.value) else []
  }

  function DeclTokens(d: Decl): (r: seq<Token>)
    ensures r != []
  {
    match d
    case TypeDecl(_, word, name, typ, semi) => [word, name] + TypeTokens(typ) + [semi]
    case ExceptionDecl(_, word, name, payload, semi) => [word, name] + OptionalTokens(payload) + [semi]
    case ProcDecl(_, word, name, lbrace, params, rbrace, result, semi) =>
      [word, name, lbrace] + MemberTokens(params) + [rbrace] + OptionalTokens(result) + [semi]
  }

  function DeclsTokens(ds: seq<Decl>): seq<Token> {
    if ds == [] then [] else DeclTokens(ds[0]) + DeclsTokens(ds[1..])
  }

  // ---------------------------------------------------------------------------
  // Recursive descent

  /** What the parser expected at the token it rejects. */
  datatype Want =
    | ADeclaration
    | AType
    | AnIdentifier
    | AnLBrace
    | ASemicolon
    | FieldOrRBrace
    | ParameterOrRBrace

  datatype Parsed<+T> = Ok(value: T, next: nat) | Fail(at: nat, want: Want)

  datatype Block = Block(members: seq<Member>, rbrace: Token)

  function ParseType(ts: seq<Token>, i: nat): (r: Parsed<TypeExpr>)
    requires i <= |ts|
    ensures r.Ok? ==> i < r.next <= |ts|
    ensures r.Fail? ==> i <= r.at <= |ts|
    decreases |ts| - i
  {
    match At(ts, i)
    case PrimitiveWord => Ok(Primitive("", ts[i]), i + 1)
    case Identifier => Ok(Named("", ts[i]), i + 1)
    case ListWord =>
      (match ParseType(ts, i + 1)
       case Ok(elem, next) => Ok(ListOf("", ts[i], elem), next)
       case Fail(at, want) => Fail(at, want))
    case RecordWord =>
      if At(ts, i + 1) != LBrace then Fail(i + 1, AnLBrace)
      else CloseRecord(ts[i], ts[i + 1], [], ParseMembers(ts, i + 2, FieldOrRBrace))
    case _ => Fail(i, AType)
  }

  function CloseRecord(word: Token, lbrace: Token, done: seq<Member>, b: Parsed<Block>): Parsed<TypeExpr> {
    match b
    case Ok(block, next) => Ok(Record("", word, lbrace, done + block.members, block.rbrace), next)
    case Fail(at, want) => Fail(at, want)
  }

  /** Members up to and including the closing brace. */
  function ParseMembers(ts: seq<Token>, i: nat, what: Want): (r: Parsed<Block>)
    requires i <= |ts|
    ensures r.Ok? ==> i < r.next <= |ts|
    ensures r.Fail? ==> i <= r.at <= |ts|
    decreases |ts| - i
  {
    match At(ts, i)
    case RBrace => Ok(Block([], ts[i]), i + 1)
    case EndOfFile => Fail(i, what)
    case Identifier =>
      (match ParseType(ts, i + 1)
       case Fail(at, want) => Fail(at, want)
       case Ok(typ, semi) =>
         if At(ts, semi) != Semicolon then Fail(semi, ASemicolon)
         else AddMember(Member("", ts[i], typ, ts[semi]), ParseMembers(ts, semi + 1, what)))
    case _ => Fail(i, AnIdentifier)
  }

  function AddMember(m: Member, b: Parsed<Block>): Parsed<Block> {
    match b
    case Ok(block, next) => Ok(Block([m] + block.members, block.rbrace), next)
    case Fail(at, want) => Fail(at, want)
  }

  function ParseOptional(ts: seq<Token>, i: nat): (r: Parsed<Option<TypeExpr>>)
    requires i <= |ts|
    ensures r.Ok? ==> i <= r.next <= |ts|
    ensures r.Fail? ==> i <= r.at <= |ts|
  {
    if At(ts, i) == Semicolon then Ok(None, i)
    else match ParseType(ts, i)
      case Ok(t, next) => Ok(Some(t), next)
      case Fail(at, want) => Fail(at, want)
  }

  function ParseDecl(ts: seq<Token>, i: nat): (r: Parsed<Decl>)
    requires i <= |ts|
    ensures r.Ok? ==> i < r.next <= |ts|
    ensures r.Fail? ==> i <= r.at <= |ts|
  {
    match At(ts, i)
    case TypeWord =>
      if At(ts, i + 1) != Identifier then Fail(i + 1, AnIdentifier)
      else (match ParseType(ts, i + 2)
            case Fail(at, want) => Fail(at, want)
            case Ok(t, semi) =>
              if At(ts, semi) != Semicolon then Fail(semi, ASemicolon)
              else Ok(TypeDecl("", ts[i], ts[i + 1], t, ts[semi]), semi + 1))
    case ExceptionWord =>
      if At(ts, i + 1) != Identifier then Fail(i + 1, AnIdentifier)
      else (match ParseOptional(ts, i + 2)
            case Fail(at, want) => Fail(at, want)
            case Ok(t, semi) =>
              if At(ts, semi) != Semicolon then Fail(semi, ASemicolon)
              else Ok(ExceptionDecl("", ts[i], ts[i + 1], t, ts[semi]), semi + 1))
    case ProcedureWord =>
      if At(ts, i + 1) != Identifier then Fail(i + 1, AnIdentifier)
      else if At(ts, i + 2) != LBrace then Fail(i + 2, AnLBrace)
      else (match ParseMembers(ts, i + 3, ParameterOrRBrace)
            case Fail(at, want) => Fail(at, want)
            case Ok(b, next) =>
              (match ParseOptional(ts, next)
               case Fail(at, want) => Fail(at, want)
               case Ok(t, semi) =>
                 if At(ts, semi) != Semicolon then Fail(semi, ASemicolon)
                 else Ok(ProcDecl("", ts[i], ts[i + 1], ts[i + 2], b.members, b.rbrace, t, ts[semi]), semi + 1)))
    case _ => Fail(i, ADeclaration)
  }

  function ParseDecls(ts: seq<Token>, i: nat): (r: Parsed<seq<Decl>>)
    requires i <= |ts|
    ensures r.Ok? ==> r.next == |ts|
    ensures r.Fail? ==> i <= r.at <= |ts|
    decreases |ts| - i
  {
    if i == |ts| then Ok([], i)
    else match ParseDecl(ts, i)
      case Fail(at, want) => Fail(at, want)
      case Ok(d, next) =>
        (match ParseDecls(ts, next)
         case Fail(at, want) => Fail(at, want)
         case Ok(ds, end) => Ok([d] + ds, end))
  }

  // ---------------------------------------------------------------------------
  // A parsed tree spans exactly the tokens consumed

  /** One turn of the member loop. */
  lemma {:induction false} MembersAt(ts: seq<Token>, i: nat, what: Want)
    requires i <= |ts|
    ensures ParseMembers(ts, i, what) ==
            match At(ts, i)
            case RBrace => Ok(Block([], ts[i]), i + 1)
            case EndOfFile => Fail(i, what)
            case Identifier =>
              var t := ParseType(ts, i + 1);
              if t.Fail? then Fail(t.at, t.want)
              else if At(ts, t.next) != Semicolon then Fail(t.next, ASemicolon)
              else AddMember(Member("", ts[i], t.value, ts[t.next]), ParseMembers(ts, t.next + 1, what))
            case _ => Fail(i, AnIdentifier)
  {
    hide KindOf, ParseType;
  }

  lemma {:induction false} ParsedType(ts: seq<Token>, i: nat)
    requires i <= |ts| && ParseType(ts, i).Ok?
    ensures var r := ParseType(ts, i); LexedType(r.value) && TypeTokens(r.value) == ts[i..r.next]
    decreases |ts| - i
  {
    hide KindOf, ParseMembers, LexedMembers, MemberTokens;
    match At(ts, i)
    case ListWord =>
      ParsedType(ts, i + 1);
      var t := ParseType(ts, i + 1);
      assert ts[i..t.next] == [ts[i]] + ts[i + 1..t.next];
    case RecordWord =>
      ParsedMembers(ts, i + 2, FieldOrRBrace);
      var b := ParseMembers(ts, i + 2, FieldOrRBrace);
      assert [] + b.value.members == b.value.members;
      assert ts[i..b.next] == [ts[i], ts[i + 1]] + ts[i + 2..b.next];
    case _ =>
  }

  lemma {:induction false} NoMemberTokens()
    ensures MemberTokens([]) == [] && LexedMembers([])
  {
  }

  lemma {:induction false} OneToken(ts: seq<Token>, i: nat)
    requires i < |ts|
    ensures [] + [ts[i]] == ts[i..i + 1]
  {
  }

  lemma {:induction false} AddedMember(ts: seq<Token>, i: nat, t: Parsed<TypeExpr>, rest: Parsed<Block>)
    requires t.Ok? && rest.Ok? && i < t.next < rest.next <= |ts|
    requires At(ts, i) == Identifier && At(ts, t.next) == Semicolon
    requires LexedType(t.value) && TypeTokens(t.value) == ts[i + 1..t.next]
    requires LexedMembers(rest.value.members) && Is(rest.value.rbrace, RBrace)
    requires MemberTokens(rest.value.members) + [rest.value.rbrace] == ts[t.next + 1..rest.next]
    ensures var r := AddMember(Member("", ts[i], t.value, ts[t.next]), rest);
            LexedMembers(r.value.members) && Is(r.value.rbrace, RBrace)
            && MemberTokens(r.value.members) + [r.value.rbrace] == ts[i..r.next]
  {
    hide KindOf, LexedType, TypeTokens, MemberTokens, LexedMembers;
    MembersStep(ts, i, Member("", ts[i], t.value, ts[t.next]), t.next, rest.value.members, rest.value.rbrace,
      rest.next);
  }

  lemma {:induction false} AddOk(m: Member, b: Parsed<Block>)
    ensures AddMember(m, b).Ok? <==> b.Ok?
  {
  }

  /** There is a token where the kind is not the end. */
  lemma {:induction false} AtEnd(ts: seq<Token>, i: nat)
    ensures At(ts, i) != EndOfFile ==> i < |ts| && Is(ts[i], At(ts, i))
  {
  }

  lemma {:induction false} ParsedMembers(ts: seq<Token>, i: nat, what: Want)
    requires i <= |ts| && ParseMembers(ts, i, what).Ok?
    ensures var r := ParseMembers(ts, i, what);
            LexedMembers(r.value.members) && Is(r.value.rbrace, RBrace)
            && MemberTokens(r.value.members) + [r.value.rbrace] == ts[i..r.next]
    decreases |ts| - i
  {
    hide *;
    MembersAt(ts, i, what);
    AtEnd(ts, i);
    if At(ts, i) == Identifier {
      var t := ParseType(ts, i + 1);
      assert t.Ok? && At(ts, t.next) == Semicolon;
      AtEnd(ts, t.next);
      var rest := ParseMembers(ts, t.next + 1, what);
      AddOk(Member("", ts[i], t.value, ts[t.next]), rest);
      ParsedType(ts, i + 1);
      ParsedMembers(ts, t.next + 1, what);
      AddedMember(ts, i, t, rest);
    } else {
      NoMemberTokens();
      OneToken(ts, i);
    }
  }

  lemma {:induction false} MembersStep(ts: seq<Token>, i: nat, m: Member, semi: nat, ms: seq<Member>, rbrace: Token,
      next: nat)
    requires i < semi < next <= |ts| && m.name == ts[i] && m.semi == ts[semi]
    requires TypeTokens(m.typ) == ts[i + 1..semi] && MemberTokens(ms) + [rbrace] == ts[semi + 1..next]
    ensures MemberTokens([m] + ms) + [rbrace] == ts[i..next]
    ensures LexedMembers([m] + ms) ==
            (Is(m.name, Identifier) && LexedType(m.typ) && Is(m.semi, Semicolon) && LexedMembers(ms))
  {
    hide TypeTokens, LexedType, KindOf;
    assert ([m] + ms)[1..] == ms;
    assert MemberTokens([m] + ms) == [m.name] + TypeTokens(m.typ) + [m.semi] + MemberTokens(ms);
    hide MemberTokens, LexedMembers;
    SliceOfFour(ts, i, semi, next);
    RegroupFour([m.name], TypeTokens(m.typ), [m.semi], MemberTokens(ms), [rbrace]);
  }

  lemma {:induction false} SliceOfFour(ts: seq<Token>, i: nat, semi: nat, next: nat)
    requires i < semi < next <= |ts|
    ensures ts[i..next] == [ts[i]] + ts[i + 1..semi] + [ts[semi]] + ts[semi + 1..next]
  {
  }

  lemma {:induction false} RegroupFour(a: seq<Token>, b: seq<Token>, c: seq<Token>, d: seq<Token>, e: seq<Token>)
    ensures a + b + c + d + e == a + b + c + (d + e)
  {
  }


  lemma {:induction false} ParsedOptional(ts: seq<Token>, i: nat)
    requires i <= |ts| && ParseOptional(ts, i).Ok?
    ensures var r := ParseOptional(ts, i); LexedOptional(r.value) && OptionalTokens(r.value) == ts[i..r.next]
  {
    hide KindOf, ParseType;
    if At(ts, i) != Semicolon {
      ParsedType(ts, i);
    }
  }

  lemma {:induction false} ParsedDecl(ts: seq<Token>, i: nat)
    requires i <= |ts| && ParseDecl(ts, i).Ok?
    ensures var r := ParseDecl(ts, i); LexedDecl(r.value) && DeclTokens(r.value) == ts[i..r.next]
  {
    hide KindOf, ParseType, ParseMembers, ParseOptional, LexedType, LexedMembers, LexedOptional, TypeTokens,
         MemberTokens,
         OptionalTokens;
    match At(ts, i)
    case TypeWord =>
      ParsedType(ts, i + 2);
      var t := ParseType(ts, i + 2);
      assert ts[i..t.next + 1] == [ts[i], ts[i + 1]] + ts[i + 2..t.next] + [ts[t.next]];
    case ExceptionWord =>
      ParsedOptional(ts, i + 2);
      var t := ParseOptional(ts, i + 2);
      assert ts[i..t.next + 1] == [ts[i], ts[i + 1]] + ts[i + 2..t.next] + [ts[t.next]];
    case ProcedureWord => ParsedProcedure(ts, i);
  }

  lemma {:induction false} ParsedProcedure(ts: seq<Token>, i: nat)
    requires i <= |ts| && ParseDecl(ts, i).Ok? && At(ts, i) == ProcedureWord
    ensures var r := ParseDecl(ts, i); LexedDecl(r.value) && DeclTokens(r.value) == ts[i..r.next]
  {
    hide KindOf, ParseType, ParseMembers, ParseOptional, LexedType, LexedMembers, LexedOptional, TypeTokens,
         MemberTokens,
         OptionalTokens;
    ParsedMembers(ts, i + 3, ParameterOrRBrace);
    var b := ParseMembers(ts, i + 3, ParameterOrRBrace);
    ParsedOptional(ts, b.next);
    var o := ParseOptional(ts, b.next);
    ghost var d := ParseDecl(ts, i).value;
    assert DeclTokens(d) == [ts[i], ts[i + 1], ts[i + 2]] + (MemberTokens(b.value.members) + [b.value.rbrace])
                            + OptionalTokens(o.value) + [ts[o.next]];
    assert ts[i..o.next + 1] == [ts[i], ts[i + 1], ts[i + 2]] + ts[i + 3..b.next] + ts[b.next..o.next] + [ts[o.next]];
  }

  lemma {:induction false} ParsedDecls(ts: seq<Token>, i: nat)
    requires i <= |ts| && ParseDecls(ts, i).Ok?
    ensures var r := ParseDecls(ts, i); LexedDecls(r.value) && DeclsTokens(r.value) == ts[i..]
    decreases |ts| - i
  {
    hide ParseDecl, LexedDecl, DeclTokens;
    if i < |ts| {
      ParsedDecl(ts, i);
      var next := ParseDecl(ts, i).next;
      ParsedDecls(ts, next);
      assert ParseDecls(ts, i).value[1..] == ParseDecls(ts, next).value;
    }
  }
}
