/**
 The slice of the LSP schema (the `lsp_types` crate) that the harness reads or
 rewrites. Each record keeps the fields the harness touches; whatever it never
 looks at is folded into an opaque `Payload` so that "nothing else changes"
 can still be stated.
 */
module Lsp {
  import opened Base

  /** Serialized content of fields the harness never inspects. */
  datatype Payload = Payload(json: string)

  /** A URI, identified with its path component: every rewrite the harness
      performs reads `uri.path()` and re-parses a path string. */
  datatype Uri = Uri(path: string)

  datatype Position = Position(line: nat, character: nat)

  datatype Range = Range(start: Position, end: Position)

  datatype Location = Location(uri: Uri, range: Range)

  datatype LocationLink = LocationLink(
    originSelectionRange: Option<Range>,
    targetUri: Uri,
    targetRange: Range,
    targetSelectionRange: Range)

  datatype TextEdit = TextEdit(range: Range, newText: string)

  /** `OneOf<TextEdit, AnnotatedTextEdit>` inside a text document edit. */
  datatype AnyEdit = Plain(edit: TextEdit) | Annotated(annotated: TextEdit, annotationId: string)

  datatype Command = Command(title: string, command: string, arguments: Option<Payload>)

  /** A flat symbol; `kind` and `tags` are the protocol's integer codes. */
  datatype SymbolInformation = SymbolInformation(
    name: string,
    kind: nat,
    tags: Option<seq<nat>>,
    deprecated: Option<bool>,
    location: Location,
    containerName: Option<string>)
}
