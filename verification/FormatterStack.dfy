/** The printer as the program runs it: a text that grows and a stack of pending items. */
module FormatterStacks {
  import opened Lists
  import opened Leaves
  import opened Syntax
  import opened DocTexts
  import opened WrittenDocs
  import opened Formatters

  /** One pending action: a type after its prefix, a field or parameter, ";" and LF, or a closing brace. */
  datatype Item =
    | TypeItem(t: TypeExpr, indent: string)
    | MemberItem(f: Member, indent: string)
    | SemiItem
    | TailItem(indent: string)

  function ItemText(it: Item): string {
    match it
    case TypeItem(t, indent) => FormatType(t, indent)
    case MemberItem(f, indent) => FormatMember(f, indent)
    case SemiItem => ";\n"
    case TailItem(indent) => indent + "}"
  }

  function StackText(stack: seq<Item>): string {
    if stack == [] then "" else ItemText(stack[|stack| - 1]) + StackText(stack[..|stack| - 1])
  }

  function ItemSize(it: Item): nat {
    match it
    case TypeItem(t, _) => |TypeTokens(t)|
    case MemberItem(f, _) => |TypeTokens(f.typ)| + 2
    case SemiItem => 1
    case TailItem(_) => 1
  }

  function StackSize(stack: seq<Item>): nat {
    if stack == [] then 0 else ItemSize(stack[|stack| - 1]) + StackSize(stack[..|stack| - 1])
  }

  lemma {:induction false} PushItem(base: seq<Item>, it: Item)
    ensures StackText(base + [it]) == ItemText(it) + StackText(base)
    ensures StackSize(base + [it]) == ItemSize(it) + StackSize(base)
  {
    hide ItemText, ItemSize;
    assert (base + [it])[..|base|] == base;
  }

  /** Members pushed in reverse come out in order. */
  method PushMembers(base: seq<Item>, fs: seq<Member>, indent: string) returns (stack: seq<Item>)
    ensures StackText(stack) == FormatMembers(fs, indent) + StackText(base)
    ensures StackSize(stack) == |MemberTokens(fs)| + StackSize(base)
  {
    hide StackText, StackSize, ItemText, ItemSize;
    stack := base;
    var i := |fs|;
    assert fs[i..] == [];
    assert FormatMembers([], indent) + StackText(base) == StackText(base);
    hide FormatMembers, MemberTokens;
    NoMembers(indent);
    while i > 0
      invariant 0 <= i <= |fs|
      invariant StackText(stack) == FormatMembers(fs[i..], indent) + StackText(base)
      invariant StackSize(stack) == |MemberTokens(fs[i..])| + StackSize(base)
    {
      i := i - 1;
      PushItem(stack, MemberItem(fs[i], indent));
      MembersFrom(fs, i, indent);
      Regroup(FormatMember(fs[i], indent), FormatMembers(fs[i + 1..], indent), StackText(base));
      stack := stack + [MemberItem(fs[i], indent)];
    }
    assert fs[0..] == fs;
  }

  lemma {:induction false} NoMembers(indent: string)
    ensures FormatMembers([], indent) == "" && MemberTokens([]) == []
  {
  }

  lemma {:induction false} MembersFrom(fs: seq<Member>, i: nat, indent: string)
    requires i < |fs|
    ensures FormatMembers(fs[i..], indent) == FormatMember(fs[i], indent) + FormatMembers(fs[i + 1..], indent)
    ensures |MemberTokens(fs[i..])| == ItemSize(MemberItem(fs[i], indent)) + |MemberTokens(fs[i + 1..])|
    ensures ItemText(MemberItem(fs[i], indent)) == FormatMember(fs[i], indent)
  {
    hide FormatMember, TypeTokens;
    assert fs[i..][1..] == fs[i + 1..];
  }

  /** `writeDoc`. */
  method WriteDoc(text: string, indent: string, doc: string) returns (out: string)
    ensures out == text + DocText(indent, doc)
  {
    out := text;
    if doc == "" {
      return;
    }
    hide Split, IndexOf, PaddedText;
    if IndexOf(doc, '\n', 0).None? {
      out := out + indent + "/* " + doc + " */\n";
      assert out == text + (indent + "/*" + (" " + doc + " ") + "*/" + "\n");
      return;
    }
    var pad := indent + "    ";
    out := out + indent + "/*\n";
    var lines := Split(doc);
    var i := 0;
    ghost var start := out;
    assert lines[0..] == lines;
    PaddedNone(pad);
    while i < |lines|
      invariant 0 <= i <= |lines| && out + PaddedText(pad, lines[i..]) == start + PaddedText(pad, lines)
    {
      PaddedNext(pad, lines, i, out);
      out := if lines[i] == "" then out + "\n" else out + pad + lines[i] + "\n";
      i := i + 1;
    }
    assert lines[i..] == [];
    assert out == start + PaddedText(pad, lines);
    ghost var body := PaddedText(pad, lines);
    out := out + indent + "*/\n";
    BlockComment(text, indent, body);
  }

  lemma {:induction false} PaddedNone(pad: string)
    ensures PaddedText(pad, []) == ""
  {
  }

  lemma {:induction false} PaddedNext(pad: string, ls: seq<string>, i: nat, out: string)
    requires i < |ls|
    ensures out + PaddedText(pad, ls[i..]) ==
            (if ls[i] == "" then out + "\n" else out + pad + ls[i] + "\n") + PaddedText(pad, ls[i + 1..])
  {
    assert ls[i..][1..] == ls[i + 1..];
    var rest := PaddedText(pad, ls[i + 1..]);
    assert PaddedText(pad, ls[i..]) == (if ls[i] == "" then "\n" else pad + ls[i] + "\n") + rest;
  }

  lemma {:induction false} BlockComment(text: string, indent: string, body: string)
    ensures text + indent + "/*\n" + body + indent + "*/\n" ==
            text + (indent + "/*" + ("\n" + body + indent) + "*/" + "\n")
  {
    assert "/*\n" == "/*" + "\n" && "*/\n" == "*/" + "\n";
  }

  /** One item, written or replaced by the items it stands for. */
  method WriteItem(text: string, base: seq<Item>, it: Item) returns (out: string, stack: seq<Item>)
    ensures out + StackText(stack) == text + (ItemText(it) + StackText(base))
    ensures StackSize(stack) < ItemSize(it) + StackSize(base)
  {
    hide StackText, StackSize, FormatType, FormatMember, TypeTokens;
    match it {
      case TypeItem(t, indent) => out, stack := WriteType(text, base, t, indent);
      case MemberItem(f, indent) => out, stack := WriteMember(text, base, f, indent);
      case SemiItem =>
        out, stack := text + ";\n", base;
        Regroup(text, ";\n", StackText(base));
      case TailItem(indent) =>
        out, stack := text + indent + "}", base;
        Regroup(text, indent + "}", StackText(base));
        Regroup(text, indent, "}");
    }
  }

  /** A field or parameter: its document and name; its type and semicolon are pushed. */
  method WriteMember(text: string, base: seq<Item>, f: Member, indent: string) returns (out: string, stack: seq<Item>)
    ensures out + StackText(stack) == text + (FormatMember(f, indent) + StackText(base))
    ensures StackSize(stack) < |TypeTokens(f.typ)| + 2 + StackSize(base)
  {
    hide StackText, StackSize, FormatType, DocText, TypeTokens;
    out := WriteDoc(text, indent, f.doc);
    out := out + indent + f.name.lit;
    PushItem(base, SemiItem);
    PushItem(base + [SemiItem], TypeItem(f.typ, indent));
    stack := base + [SemiItem] + [TypeItem(f.typ, indent)];
    MemberParts(text, DocText(indent, f.doc), indent, f.name.lit, FormatType(f.typ, indent), StackText(base));
  }

  lemma {:induction false} MemberParts(text: string, doc: string, indent: string, name: string, typ: string,
      below: string)
    ensures text + doc + indent + name + (typ + (";\n" + below)) == text + (doc + indent + name + typ + ";\n" + below)
  {
  }

  method WritePrefix(text: string, doc: string, indent: string) returns (out: string)
    ensures out == text + Prefix(doc, indent)
  {
    hide DocText;
    if doc == "" {
      return text + " ";
    }
    out := WriteDoc(text + "\n", indent, doc);
    out := out + indent;
    assert text + "\n" + DocText(indent, doc) + indent == text + ("\n" + DocText(indent, doc) + indent);
  }

  /** `writeType`: the prefix and the own words of a type; its parts are pushed. */
  method WriteType(text: string, base: seq<Item>, t: TypeExpr, indent: string) returns (out: string, stack: seq<Item>)
    ensures out + StackText(stack) == text + (FormatType(t, indent) + StackText(base))
    ensures StackSize(stack) < |TypeTokens(t)| + StackSize(base)
  {
    assert FormatType(t, indent) == Prefix(t.doc, indent) + FormatBody(t, indent);
    hide StackText, StackSize, FormatType, FormatBody, TypeTokens, Prefix;
    out := WritePrefix(text, t.doc, indent);
    var more: string;
    more, stack := WriteTypeBody(base, t, indent);
    out := out + more;
    TypeJoins(text, Prefix(t.doc, indent), FormatBody(t, indent), StackText(base), more, StackText(stack));
  }

  lemma {:induction false} TypeJoins(text: string, prefix: string, body: string, below: string, more: string,
      above: string)
    requires more + above == body + below
    ensures text + prefix + more + above == text + (prefix + body + below)
  {
    assert text + prefix + more + above == text + prefix + (more + above);
  }

  /** `writeTypeBody`. */
  method WriteTypeBody(base: seq<Item>, t: TypeExpr, indent: string) returns (more: string, stack: seq<Item>)
    ensures more + StackText(stack) == FormatBody(t, indent) + StackText(base)
    ensures StackSize(stack) < |TypeTokens(t)| + StackSize(base)
  {
    hide StackText, StackSize, FormatType;
    match t {
      case Primitive(_, name) => more, stack := name.lit, base;
      case Named(_, name) => more, stack := name.lit, base;
      case ListOf(_, _, elem) =>
        PushItem(base, TypeItem(elem, indent));
        more, stack := "list", base + [TypeItem(elem, indent)];
        Regroup("list", FormatType(elem, indent), StackText(base));
      case Record(_, _, _, fields, _) =>
        if fields == [] {
          more, stack := "record {" + "}", base;
        } else {
          PushItem(base, TailItem(indent));
          stack := PushMembers(base + [TailItem(indent)], fields, indent + STEP);
          more := "record {" + "\n";
          hide FormatMembers;
          ghost var ms := FormatMembers(fields, indent + STEP);
          assert FormatBody(t, indent) == "record {" + ("\n" + ms + indent + "}");
          hide FormatBody;
          RecordJoins(ms, indent, StackText(base));
        }
    }
  }

  lemma {:induction false} RecordJoins(ms: string, indent: string, below: string)
    ensures "record {" + "\n" + (ms + (indent + "}" + below)) == "record {" + ("\n" + ms + indent + "}") + below
  {
  }

  /** `runFormat`: draining the stack writes what the recursive printer writes for its items, top first. */
  method RunFormat(text: string, items: seq<Item>) returns (out: string)
    ensures out == text + StackText(items)
  {
    hide StackText, StackSize, ItemText, ItemSize;
    out := text;
    var stack := items;
    while stack != []
      invariant out + StackText(stack) == text + StackText(items)
      decreases StackSize(stack)
    {
      var top, base := stack[|stack| - 1], stack[..|stack| - 1];
      assert stack == base + [top];
      PushItem(base, top);
      out, stack := WriteItem(out, base, top);
    }
    NothingLeft();
  }

  lemma {:induction false} NothingLeft()
    ensures StackText([]) == ""
  {
  }

  /** The items of a declaration after its head, top last. */
  method DeclItems(d: Decl) returns (head: string, items: seq<Item>)
    ensures DocText("", d.doc) + head + StackText(items) == FormatDecl(d)
  {
    hide DocText, FormatType, FormatMembers;
    NothingLeft();
    PushItem([], SemiItem);
    assert [] + [SemiItem] == [SemiItem];
    hide StackText;
    ghost var doc := DocText("", d.doc);
    match d {
      case TypeDecl(_, _, name, typ, _) =>
        head, items := "type " + name.lit, [SemiItem] + [TypeItem(typ, "")];
        PushItem([SemiItem], TypeItem(typ, ""));
        assert doc + head + (FormatType(typ, "") + ";\n") == doc + (head + FormatType(typ, "") + ";\n");
      case ExceptionDecl(_, _, name, payload, _) =>
        head := "exception " + name.lit;
        items := PushOptional([SemiItem], payload);
        assert doc + head + (FormatOptional(payload) + ";\n") == doc + (head + FormatOptional(payload) + ";\n");
      case ProcDecl(_, _, name, _, params, _, result, _) =>
        head, items := ProcItems(name.lit, params, result);
        Regroup(doc, head, StackText(items));
    }
  }

  method PushOptional(base: seq<Item>, t: Option<TypeExpr>) returns (items: seq<Item>)
    ensures StackText(items) == FormatOptional(t) + StackText(base)
  {
    hide FormatType;
    items := base;
    if t.Some? {
      PushItem(base, TypeItem(t.value, ""));
      items := base + [TypeItem(t.value, "")];
    }
  }

  lemma {:induction false} JustSemi()
    ensures StackText([SemiItem]) == ";\n"
  {
    NothingLeft();
    PushItem([], SemiItem);
    assert [] + [SemiItem] == [SemiItem];
  }

  method ProcItems(name: string, params: seq<Member>, result: Option<TypeExpr>) returns (head: string, items: seq<Item>)
    ensures head + StackText(items) ==
            "procedure " + name + " {" + FormatBlock(params, "") + FormatOptional(result) + ";\n"
  {
    hide StackText, FormatOptional, FormatBlock;
    JustSemi();
    head := "procedure " + name + " {";
    items := PushOptional([SemiItem], result);
    ProcJoins(head, params, FormatOptional(result));
    if params == [] {
      head := head + "}";
    } else {
      head := head + "\n";
      PushItem(items, TailItem(""));
      items := PushMembers(items + [TailItem("")], params, "" + STEP);
    }
  }

  lemma {:induction false} ProcJoins(head: string, params: seq<Member>, result: string)
    ensures params == [] ==> head + "}" + (result + ";\n") == head + FormatBlock(params, "") + result + ";\n"
    ensures params != [] ==>
              head + "\n" + (FormatMembers(params, "" + STEP) + ("" + "}" + (result + ";\n"))) ==
              head + FormatBlock(params, "") + result + ";\n"
  {
    hide FormatMembers;
    if params != [] {
      var ms := FormatMembers(params, "" + STEP);
      assert FormatBlock(params, "") == "\n" + ms + "" + "}";
      assert head + "\n" + (ms + ("" + "}" + (result + ";\n"))) == head + ("\n" + ms + "" + "}") + result + ";\n";
    }
  }

  /** `writeDecl`. */
  method WriteDecl(text: string, d: Decl) returns (out: string)
    ensures out == text + FormatDecl(d)
  {
    hide FormatDecl, StackText, DocText;
    out := WriteDoc(text, "", d.doc);
    var head, items := DeclItems(d);
    out := RunFormat(out + head, items);
    DeclParts(text, DocText("", d.doc), head, StackText(items));
  }

  lemma {:induction false} DeclParts(text: string, doc: string, head: string, rest: string)
    ensures text + doc + head + rest == text + (doc + head + rest)
  {
  }

  /** The declarations from `i` on, after what is already written. */
  function Remaining(ds: seq<Decl>, i: nat): string
    requires i <= |ds|
  {
    if i == 0 || i == |ds| then Format(ds[i..]) else "\n" + Format(ds[i..])
  }

  lemma {:induction false} RemainingStep(ds: seq<Decl>, i: nat)
    requires i < |ds|
    ensures Remaining(ds, i) == (if i > 0 then "\n" else "") + FormatDecl(ds[i]) + Remaining(ds, i + 1)
  {
    hide FormatDecl;
    assert ds[i..][1..] == ds[i + 1..];
    if i + 1 == |ds| {
      assert ds[i + 1..] == [];
      assert Format(ds[i..]) == FormatDecl(ds[i]);
    } else {
      assert Format(ds[i..]) == FormatDecl(ds[i]) + "\n" + Format(ds[i + 1..]);
    }
  }

  /** `Format`. */
  method FormatFile(ds: seq<Decl>) returns (out: string)
    ensures out == Format(ds)
  {
    out := "";
    var i := 0;
    assert ds[0..] == ds && Remaining(ds, 0) == Format(ds);
    hide FormatDecl, Remaining, Format;
    while i < |ds|
      invariant 0 <= i <= |ds| && Format(ds) == out + Remaining(ds, i)
    {
      RemainingStep(ds, i);
      DeclParts(out, if i > 0 then "\n" else "", FormatDecl(ds[i]), Remaining(ds, i + 1));
      if i > 0 {
        out := out + "\n";
      }
      out := WriteDecl(out, ds[i]);
      i := i + 1;
    }
    RemainingNone(ds);
  }

  lemma {:induction false} RemainingNone(ds: seq<Decl>)
    ensures Remaining(ds, |ds|) == ""
  {
    assert ds[|ds|..] == [];
  }
}
