/** The predicate that the tools apply to a body they find: it is canonical or it is not owned. */
module InterfaceFiles {
  import opened Leaves
  import opened Syntax
  import opened CanonicalBodies
  import opened Collectors
  import opened Validators
  import opened Formatters
  import opened FormatterStacks

  /** `canonicalInterfaceBody`. */
  method IsCanonicalBody(key: (string, string) -> nat, body: string) returns (ok: bool)
    ensures ok <==> CanonicalInterfaceBody(key, body)
  {
    hide ParseText, Attached, ValidInterface, Format;
    var parsed := ParseSource(body);
    if parsed.None? {
      return false;
    }
    var attached := AttachDocs(body, parsed.value);
    var valid := Validate(key, attached);
    if !valid {
      return false;
    }
    var text := FormatFile(attached);
    return text == body;
  }
}
