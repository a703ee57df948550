/**
 The request kinds the harness can test, and the LSP method each one issues.
 */
module TestTypes {
  import opened Base

  datatype TestType
    = CodeAction
    | CodeActionResolve
    | CodeLens
    | CodeLensResolve
    | ColorPresentation
    | Completion
    | CompletionResolve
    | Declaration
    | Definition
    | Diagnostic
    | DocumentColor
    | DocumentHighlight
    | DocumentLink
    | DocumentLinkResolve
    | DocumentSymbol
    | FoldingRange
    | Formatting
    | Hover
    | Implementation
    | IncomingCalls
    | InlayHint
    | LinkedEditingRange
    | Moniker
    | OnTypeFormatting
    | OutgoingCalls
    | PrepareCallHierarchy
    | PrepareRename
    | PrepareTypeHierarchy
    | PublishDiagnostics
    | RangeFormatting
    | References
    | Rename
    | SelectionRange
    | SemanticTokensFull
    | SemanticTokensFullDelta
    | SemanticTokensRange
    | SignatureHelp
    | TypeDefinition
    | WorkspaceDiagnostic
    | WorkspaceExecuteCommand
    | WorkspaceSymbol
    | WorkspaceSymbolResolve
    | WorkspaceWillCreateFiles
    | WorkspaceWillDeleteFiles
    | WorkspaceWillRenameFiles

  /** The LSP method name a test type is displayed as. */
  function MethodName(t: TestType): string {
    match t
    case CodeAction => "textDocument/codeAction"
    case CodeActionResolve => "codeAction/resolve"
    case CodeLens => "textDocument/codeLens"
    case CodeLensResolve => "codeLens/resolve"
    case ColorPresentation => "textDocument/colorPresentation"
    case Completion => "textDocument/completion"
    case CompletionResolve => "completionItem/resolve"
    case Declaration => "textDocument/declaration"
    case Definition => "textDocument/definition"
    case Diagnostic => "textDocument/diagnostic"
    case DocumentColor => "textDocument/documentColor"
    case DocumentHighlight => "textDocument/documentHighlight"
    case DocumentLink => "textDocument/documentLink"
    case DocumentLinkResolve => "documentLink/resolve"
    case DocumentSymbol => "textDocument/documentSymbol"
    case FoldingRange => "textDocument/foldingRange"
    case Formatting => "textDocument/formatting"
    case Hover => "textDocument/hover"
    case Implementation => "textDocument/implementation"
    case IncomingCalls => "callHierarchy/incomingCalls"
    case InlayHint => "textDocument/inlayHint"
    case LinkedEditingRange => "textDocument/linkedEditingRange"
    case Moniker => "textDocument/moniker"
    case OnTypeFormatting => "textDocument/onTypeFormatting"
    case OutgoingCalls => "callHierarchy/outgoingCalls"
    case PrepareCallHierarchy => "textDocument/prepareCallHierarchy"
    case PrepareRename => "textDocument/prepareRename"
    case PrepareTypeHierarchy => "textDocument/prepareTypeHierarchy"
    case PublishDiagnostics => "textDocument/publishDiagnostics"
    case RangeFormatting => "textDocument/rangeFormatting"
    case References => "textDocument/references"
    case Rename => "textDocument/rename"
    case SelectionRange => "textDocument/selectionRange"
    case SemanticTokensFull => "textDocument/semanticTokens/full"
    case SemanticTokensFullDelta => "textDocument/semanticTokens/full/delta"
    case SemanticTokensRange => "textDocument/semanticTokens/range"
    case SignatureHelp => "textDocument/signatureHelp"
    case TypeDefinition => "textDocument/typeDefinition"
    case WorkspaceDiagnostic => "workspace/diagnostic"
    case WorkspaceExecuteCommand => "workspace/executeCommand"
    case WorkspaceSymbol => "workspace/symbol"
    case WorkspaceSymbolResolve => "workspaceSymbol/resolve"
    case WorkspaceWillCreateFiles => "workspace/willCreateFiles"
    case WorkspaceWillDeleteFiles => "workspace/willDeleteFiles"
    case WorkspaceWillRenameFiles => "workspace/willRenameFiles"
  }

  /** Reads a method name back to the test type that issues it (dispatching
      on the length first keeps each comparison local). */
  function ParseMethod(s: string): Option<TestType> {
    match |s|
    case 16 =>
      (match s[0]
      case 'c' => if s == "codeLens/resolve" then Some(CodeLensResolve) else None
      case 'w' => if s == "workspace/symbol" then Some(WorkspaceSymbol) else None
      case _ => None)
    case 18 =>
      (match s[0]
      case 'c' => if s == "codeAction/resolve" then Some(CodeActionResolve) else None
      case 't' => if s == "textDocument/hover" then Some(Hover) else None
      case _ => None)
    case 19 => if s == "textDocument/rename" then Some(Rename) else None
    case 20 =>
      (match s[0]
      case 'd' => if s == "documentLink/resolve" then Some(DocumentLinkResolve) else None
      case 't' => if s == "textDocument/moniker" then Some(Moniker) else None
      case 'w' => if s == "workspace/diagnostic" then Some(WorkspaceDiagnostic) else None
      case _ => None)
    case 21 => if s == "textDocument/codeLens" then Some(CodeLens) else None
    case 22 =>
      (match s[0]
      case 'c' => if s == "completionItem/resolve" then Some(CompletionResolve) else None
      case 't' => if s == "textDocument/inlayHint" then Some(InlayHint) else None
      case _ => None)
    case 23 =>
      (match s[15]
      case 'd' => if s == "textDocument/codeAction" then Some(CodeAction) else None
      case 'm' => if s == "textDocument/completion" then Some(Completion) else None
      case 'f' =>
        (match s[13]
        case 'd' => if s == "textDocument/definition" then Some(Definition) else None
        case 'r' => if s == "textDocument/references" then Some(References) else None
        case _ => None)
      case 'a' => if s == "textDocument/diagnostic" then Some(Diagnostic) else None
      case 'r' => if s == "textDocument/formatting" then Some(Formatting) else None
      case '/' => if s == "workspaceSymbol/resolve" then Some(WorkspaceSymbolResolve) else None
      case _ => None)
    case 24 =>
      (match s[0]
      case 't' => if s == "textDocument/declaration" then Some(Declaration) else None
      case 'w' => if s == "workspace/executeCommand" then Some(WorkspaceExecuteCommand) else None
      case _ => None)
    case 25 =>
      (match s[16]
      case 'u' => if s == "textDocument/documentLink" then Some(DocumentLink) else None
      case 'd' => if s == "textDocument/foldingRange" then Some(FoldingRange) else None
      case 'e' => if s == "workspace/willCreateFiles" then Some(WorkspaceWillCreateFiles) else None
      case 'l' => if s == "workspace/willDeleteFiles" then Some(WorkspaceWillDeleteFiles) else None
      case 'n' => if s == "workspace/willRenameFiles" then Some(WorkspaceWillRenameFiles) else None
      case _ => None)
    case 26 =>
      (match s[13]
      case 'd' => if s == "textDocument/documentColor" then Some(DocumentColor) else None
      case 'p' => if s == "textDocument/prepareRename" then Some(PrepareRename) else None
      case 's' => if s == "textDocument/signatureHelp" then Some(SignatureHelp) else None
      case _ => None)
    case 27 =>
      (match s[17]
      case 'm' => if s == "textDocument/documentSymbol" then Some(DocumentSymbol) else None
      case 'e' => if s == "textDocument/implementation" then Some(Implementation) else None
      case 'o' => if s == "callHierarchy/incomingCalls" then Some(IncomingCalls) else None
      case 'g' => if s == "callHierarchy/outgoingCalls" then Some(OutgoingCalls) else None
      case 'c' => if s == "textDocument/selectionRange" then Some(SelectionRange) else None
      case 'D' => if s == "textDocument/typeDefinition" then Some(TypeDefinition) else None
      case _ => None)
    case 28 => if s == "textDocument/rangeFormatting" then Some(RangeFormatting) else None
    case 29 => if s == "textDocument/onTypeFormatting" then Some(OnTypeFormatting) else None
    case 30 =>
      (match s[13]
      case 'c' => if s == "textDocument/colorPresentation" then Some(ColorPresentation) else None
      case 'd' => if s == "textDocument/documentHighlight" then Some(DocumentHighlight) else None
      case _ => None)
    case 31 =>
      (match s[13]
      case 'l' => if s == "textDocument/linkedEditingRange" then Some(LinkedEditingRange) else None
      case 'p' => if s == "textDocument/publishDiagnostics" then Some(PublishDiagnostics) else None
      case _ => None)
    case 32 => if s == "textDocument/semanticTokens/full" then Some(SemanticTokensFull) else None
    case 33 =>
      (match s[20]
      case 'C' => if s == "textDocument/prepareCallHierarchy" then Some(PrepareCallHierarchy) else None
      case 'T' => if s == "textDocument/prepareTypeHierarchy" then Some(PrepareTypeHierarchy) else None
      case 'c' => if s == "textDocument/semanticTokens/range" then Some(SemanticTokensRange) else None
      case _ => None)
    case 38 => if s == "textDocument/semanticTokens/full/delta" then Some(SemanticTokensFullDelta) else None
    case _ => None
  }


  /** Every test type is recovered from its method name. */
  lemma MethodNameRoundTrip(t: TestType)
    ensures ParseMethod(MethodName(t)) == Some(t)
  {
    if t.CodeAction? || t.CodeActionResolve? || t.CodeLens? {
      RoundTripGroup0(t);
    } else if t.CodeLensResolve? || t.ColorPresentation? || t.Completion? {
      RoundTripGroup1(t);
    } else if t.CompletionResolve? || t.Declaration? || t.Definition? {
      RoundTripGroup2(t);
    } else if t.Diagnostic? || t.DocumentColor? || t.DocumentHighlight? {
      RoundTripGroup3(t);
    } else if t.DocumentLink? || t.DocumentLinkResolve? || t.DocumentSymbol? {
      RoundTripGroup4(t);
    } else if t.FoldingRange? || t.Formatting? || t.Hover? {
      RoundTripGroup5(t);
    } else if t.Implementation? || t.IncomingCalls? || t.InlayHint? {
      RoundTripGroup6(t);
    } else if t.LinkedEditingRange? || t.Moniker? || t.OnTypeFormatting? {
      RoundTripGroup7(t);
    } else if t.OutgoingCalls? || t.PrepareCallHierarchy? || t.PrepareRename? {
      RoundTripGroup8(t);
    } else if t.PrepareTypeHierarchy? || t.PublishDiagnostics? || t.RangeFormatting? {
      RoundTripGroup9(t);
    } else if t.References? || t.Rename? || t.SelectionRange? {
      RoundTripGroup10(t);
    } else if t.SemanticTokensFull? || t.SemanticTokensFullDelta? || t.SemanticTokensRange? {
      RoundTripGroup11(t);
    } else if t.SignatureHelp? || t.TypeDefinition? || t.WorkspaceDiagnostic? {
      RoundTripGroup12(t);
    } else if t.WorkspaceExecuteCommand? || t.WorkspaceSymbol? || t.WorkspaceSymbolResolve? {
      RoundTripGroup13(t);
    } else {
      RoundTripGroup14(t);
    }
  }

  // The round trip, split into groups of three variants so that each proof
  // only has to tell a handful of method names apart.

  lemma RoundTripGroup0(t: TestType)
    requires t.CodeAction? || t.CodeActionResolve? || t.CodeLens?
    ensures ParseMethod(MethodName(t)) == Some(t)
  {
    match t
    case CodeAction => assert ParseMethod("textDocument/codeAction") == Some(CodeAction);
    case CodeActionResolve => assert ParseMethod("codeAction/resolve") == Some(CodeActionResolve);
    case CodeLens => assert ParseMethod("textDocument/codeLens") == Some(CodeLens);
  }

  lemma RoundTripGroup1(t: TestType)
    requires t.CodeLensResolve? || t.ColorPresentation? || t.Completion?
    ensures ParseMethod(MethodName(t)) == Some(t)
  {
    match t
    case CodeLensResolve => assert ParseMethod("codeLens/resolve") == Some(CodeLensResolve);
    case ColorPresentation => assert ParseMethod("textDocument/colorPresentation") == Some(ColorPresentation);
    case Completion => assert ParseMethod("textDocument/completion") == Some(Completion);
  }

  lemma RoundTripGroup2(t: TestType)
    requires t.CompletionResolve? || t.Declaration? || t.Definition?
    ensures ParseMethod(MethodName(t)) == Some(t)
  {
    match t
    case CompletionResolve => assert ParseMethod("completionItem/resolve") == Some(CompletionResolve);
    case Declaration => assert ParseMethod("textDocument/declaration") == Some(Declaration);
    case Definition => assert ParseMethod("textDocument/definition") == Some(Definition);
  }

  lemma RoundTripGroup3(t: TestType)
    requires t.Diagnostic? || t.DocumentColor? || t.DocumentHighlight?
    ensures ParseMethod(MethodName(t)) == Some(t)
  {
    match t
    case Diagnostic => assert ParseMethod("textDocument/diagnostic") == Some(Diagnostic);
    case DocumentColor => assert ParseMethod("textDocument/documentColor") == Some(DocumentColor);
    case DocumentHighlight => assert ParseMethod("textDocument/documentHighlight") == Some(DocumentHighlight);
  }

  lemma RoundTripGroup4(t: TestType)
    requires t.DocumentLink? || t.DocumentLinkResolve? || t.DocumentSymbol?
    ensures ParseMethod(MethodName(t)) == Some(t)
  {
    match t
    case DocumentLink => assert ParseMethod("textDocument/documentLink") == Some(DocumentLink);
    case DocumentLinkResolve => assert ParseMethod("documentLink/resolve") == Some(DocumentLinkResolve);
    case DocumentSymbol => assert ParseMethod("textDocument/documentSymbol") == Some(DocumentSymbol);
  }

  lemma RoundTripGroup5(t: TestType)
    requires t.FoldingRange? || t.Formatting? || t.Hover?
    ensures ParseMethod(MethodName(t)) == Some(t)
  {
    match t
    case FoldingRange => assert ParseMethod("textDocument/foldingRange") == Some(FoldingRange);
    case Formatting => assert ParseMethod("textDocument/formatting") == Some(Formatting);
    case Hover => assert ParseMethod("textDocument/hover") == Some(Hover);
  }

  lemma RoundTripGroup6(t: TestType)
    requires t.Implementation? || t.IncomingCalls? || t.InlayHint?
    ensures ParseMethod(MethodName(t)) == Some(t)
  {
    match t
    case Implementation => assert ParseMethod("textDocument/implementation") == Some(Implementation);
    case IncomingCalls => assert ParseMethod("callHierarchy/incomingCalls") == Some(IncomingCalls);
    case InlayHint => assert ParseMethod("textDocument/inlayHint") == Some(InlayHint);
  }

  lemma RoundTripGroup7(t: TestType)
    requires t.LinkedEditingRange? || t.Moniker? || t.OnTypeFormatting?
    ensures ParseMethod(MethodName(t)) == Some(t)
  {
    match t
    case LinkedEditingRange => assert ParseMethod("textDocument/linkedEditingRange") == Some(LinkedEditingRange);
    case Moniker => assert ParseMethod("textDocument/moniker") == Some(Moniker);
    case OnTypeFormatting => assert ParseMethod("textDocument/onTypeFormatting") == Some(OnTypeFormatting);
  }

  lemma RoundTripGroup8(t: TestType)
    requires t.OutgoingCalls? || t.PrepareCallHierarchy? || t.PrepareRename?
    ensures ParseMethod(MethodName(t)) == Some(t)
  {
    match t
    case OutgoingCalls => assert ParseMethod("callHierarchy/outgoingCalls") == Some(OutgoingCalls);
    case PrepareCallHierarchy => assert ParseMethod("textDocument/prepareCallHierarchy") == Some(PrepareCallHierarchy);
    case PrepareRename => assert ParseMethod("textDocument/prepareRename") == Some(PrepareRename);
  }

  lemma RoundTripGroup9(t: TestType)
    requires t.PrepareTypeHierarchy? || t.PublishDiagnostics? || t.RangeFormatting?
    ensures ParseMethod(MethodName(t)) == Some(t)
  {
    match t
    case PrepareTypeHierarchy => assert ParseMethod("textDocument/prepareTypeHierarchy") == Some(PrepareTypeHierarchy);
    case PublishDiagnostics => assert ParseMethod("textDocument/publishDiagnostics") == Some(PublishDiagnostics);
    case RangeFormatting => assert ParseMethod("textDocument/rangeFormatting") == Some(RangeFormatting);
  }

  lemma RoundTripGroup10(t: TestType)
    requires t.References? || t.Rename? || t.SelectionRange?
    ensures ParseMethod(MethodName(t)) == Some(t)
  {
    match t
    case References => assert ParseMethod("textDocument/references") == Some(References);
    case Rename => assert ParseMethod("textDocument/rename") == Some(Rename);
    case SelectionRange => assert ParseMethod("textDocument/selectionRange") == Some(SelectionRange);
  }

  lemma RoundTripGroup11(t: TestType)
    requires t.SemanticTokensFull? || t.SemanticTokensFullDelta? || t.SemanticTokensRange?
    ensures ParseMethod(MethodName(t)) == Some(t)
  {
    match t
    case SemanticTokensFull => assert ParseMethod("textDocument/semanticTokens/full") == Some(SemanticTokensFull);
    case SemanticTokensFullDelta => assert ParseMethod("textDocument/semanticTokens/full/delta") == Some(SemanticTokensFullDelta);
    case SemanticTokensRange => assert ParseMethod("textDocument/semanticTokens/range") == Some(SemanticTokensRange);
  }

  lemma RoundTripGroup12(t: TestType)
    requires t.SignatureHelp? || t.TypeDefinition? || t.WorkspaceDiagnostic?
    ensures ParseMethod(MethodName(t)) == Some(t)
  {
    match t
    case SignatureHelp => assert ParseMethod("textDocument/signatureHelp") == Some(SignatureHelp);
    case TypeDefinition => assert ParseMethod("textDocument/typeDefinition") == Some(TypeDefinition);
    case WorkspaceDiagnostic => assert ParseMethod("workspace/diagnostic") == Some(WorkspaceDiagnostic);
  }

  lemma RoundTripGroup13(t: TestType)
    requires t.WorkspaceExecuteCommand? || t.WorkspaceSymbol? || t.WorkspaceSymbolResolve?
    ensures ParseMethod(MethodName(t)) == Some(t)
  {
    match t
    case WorkspaceExecuteCommand => assert ParseMethod("workspace/executeCommand") == Some(WorkspaceExecuteCommand);
    case WorkspaceSymbol => assert ParseMethod("workspace/symbol") == Some(WorkspaceSymbol);
    case WorkspaceSymbolResolve => assert ParseMethod("workspaceSymbol/resolve") == Some(WorkspaceSymbolResolve);
  }

  lemma RoundTripGroup14(t: TestType)
    requires t.WorkspaceWillCreateFiles? || t.WorkspaceWillDeleteFiles? || t.WorkspaceWillRenameFiles?
    ensures ParseMethod(MethodName(t)) == Some(t)
  {
    match t
    case WorkspaceWillCreateFiles => assert ParseMethod("workspace/willCreateFiles") == Some(WorkspaceWillCreateFiles);
    case WorkspaceWillDeleteFiles => assert ParseMethod("workspace/willDeleteFiles") == Some(WorkspaceWillDeleteFiles);
    case WorkspaceWillRenameFiles => assert ParseMethod("workspace/willRenameFiles") == Some(WorkspaceWillRenameFiles);
  }

  /** Distinct test types are displayed as distinct methods. */
  lemma MethodNameInjective(a: TestType, b: TestType)
    ensures MethodName(a) == MethodName(b) ==> a == b
  {
    MethodNameRoundTrip(a);
    MethodNameRoundTrip(b);
  }
}
