# lspresso-shot: response normalisation, relaxed equality and script generation

lspresso-shot is a harness for testing language servers. It starts Neovim with a
generated `init.lua`, lets the editor issue one LSP request, and compares the
server's response with an expected value. This project models the harness's pure
core in Dafny and proves properties of that model:

- **URI relativisation.** `clean_uri` strips the per-test source root from a URI
  path. The `CleanResponse` implementations apply it to every URI field of every
  response shape: locations, links, symbols, hierarchy items and calls,
  diagnostics' related information, document links, and workspace edits (change
  maps, text-document edits, resource operations) inside code actions. Everything
  else is left untouched.
- **Relaxed equality.** Some response variants serialise alike, for example
  `Array([])` and `Link([])`, or a `SymbolInformation` and a `WorkspaceSymbol`
  with the same JSON fields. `ApproximateEq` identifies such values. The model
  gives each response a wire form and proves that relaxed equality is exactly
  equality of the wire forms.
  Types without an override use the default `approx_eq`, plain `==`
  (`Harness.DefaultApproxEq`); each override is proved to agree with it within
  one variant and only to add cross-variant matches (`RelaxesDefault`).
- **Completion matching.** `CompletionResult::results_satisfy` has two modes: exact
  comparison, and containment by greedy first-match removal. The second is proved
  to be multiset inclusion.
- **Diff rendering.** Two renderers are modelled as streams of abstract diff
  events rather than coloured text:
  - the generic `Compare` renderers of `types/compare.rs`;
  - the JSON field walk `write_fields_comparison` of `types.rs`.
- **Error lifting.** `TestError<T>` is lifted into `TestError<StateOrResponse<T>>`,
  and `to_parent_err_type` applies the lifting to a result.
- **Pure helpers:**
  - `TestType`'s method names;
  - `validate_path`;
  - benchmark-file parsing;
  - the `init.lua` generator: file extension, progress threshold, cursor, LSP
    action and the placeholder chain;
  - the fixture server's root-path extraction, response-number file and canned
    responses.

Each source file has its own module: `Harness` (types/mod.rs), `Definition`,
`DocumentSymbol`, `WorkspaceSymbol`, `Rename`, `Hierarchy` (call and type
hierarchy), `CodeAction`, `DocumentLink`, `Diagnostic`, `References`, `Formatting`,
`Completion`, `Compare`, `Fields` (types.rs), `InitLua`, `TestServer` and
`Responses`. The shared modules are:

- `Base`: `Option`, `Result`, and `Traverse`, which models Rust's `?`-propagating
  loops.
- `Text`: the `str` functions the code relies on.
- `Lsp`: the LSP records, keeping only the fields the code touches plus an opaque
  payload.

Representation choices:

- A URI is its path string. Whether a string parses as a URI is a parameter
  (`CleanEnv.parses`), and so is the outcome of looking up the source root.
- OS strings are sequences of characters and raw bytes, so that a failing
  `to_str()` can be expressed.
- A `HashMap` is a list of entries in iteration order, read as a map with the last
  entry winning.

## Model

| member | source | states |
|---|---|---|
| Base.Traverse | lspresso-shot/types/references.rs:7-11 | collecting results with `?` succeeds iff every step succeeds, keeps length and order, and otherwise returns the error of the first failing element |
| Text.ReplaceAbsent | lspresso-shot/init_dot_lua.rs:82-106 | `str::replace` with a non-empty pattern that does not occur returns the text unchanged |
| Text.ReplaceIsSplitJoin | lspresso-shot/init_dot_lua.rs:82-106 | `str::replace` with a non-empty pattern splits the text at the leftmost non-overlapping occurrences and joins the pieces with the replacement |
| Text.ReplaceAfterFreePrefix | lspresso-shot/init_dot_lua.rs:61 | after a prefix in which no occurrence starts, the next occurrence is replaced and the prefix is kept |
| Text.DecimalRoundTrip | test-server/src/lib.rs:51-65 | `to_string` followed by `parse::<uN>` returns every value of the type |
| Text.DecimalInjective | lspresso-shot/init_dot_lua.rs:76-81 | distinct numbers have distinct decimal renderings |
| Text.ParseUnsigned | lspresso-shot/types/mod.rs:521 | empty text is `Empty`; otherwise parsing succeeds exactly when the text after an optional `+` is a non-empty digit string whose value is below the limit, and it returns that value |
| Text.ParseOverflowIff | lspresso-shot/types/mod.rs:521 | `PosOverflow` is reported exactly when some all-digit prefix of the digits already reaches the limit, so an overflow wins over a later bad character |
| Text.OverflowBeforeInvalidDigit | test-server/src/lib.rs:64-67 | the decimal digits of any number at or above the limit, followed by anything (a letter included, as in `99999999999a` for a `u32`), fail with `PosOverflow` rather than an invalid digit |
| Text.LinesOfOneLine | lspresso-shot/types/mod.rs:517-519 | a text without newlines is one line kept whole, a final `\r` included, or no line when empty |
| Text.LinesCrLf | lspresso-shot/types/mod.rs:517-518 | a line ended by `\r\n` loses both characters |
| TestTypes.MethodNameRoundTrip | lspresso-shot/types/mod.rs:139-194 | every test type is recovered from the method name it displays as |
| TestTypes.MethodNameInjective | lspresso-shot/types/mod.rs:139-194 | no two test types display as the same LSP method |
| Harness.ToStr | lspresso-shot/types/mod.rs:898-900 | `to_str` succeeds exactly on UTF-8 paths and then yields the same characters |
| Harness.FromToStr | lspresso-shot/types/mod.rs:898-900 | a path that is valid UTF-8 is rebuilt exactly from the text `to_str` returns |
| Harness.Lossy | lspresso-shot/types/mod.rs:900 | valid characters are kept and every non-UTF-8 unit becomes U+FFFD, one for one |
| Harness.LossyOfUtf8 | lspresso-shot/types/mod.rs:898-900 | for a UTF-8 path the lossy display is the text `to_str` returns |
| Harness.LiftResponse | lspresso-shot/types/mod.rs:716-736 | a mismatch keeps its test id and the presence of each side, and wraps each present value in `Response`; setup and execution errors pass through |
| Harness.LiftResponseRoundTrip | lspresso-shot/types/mod.rs:716-736 | lifting is lossless: the original error is read back from the lifted one |
| Harness.ToParentErrType | lspresso-shot/types/mod.rs:744-754 | success stays success, and a failure carries the lifted error |
| Harness.StripRoot | lspresso-shot/types/mod.rs:902 | a path that starts with the root is the root followed by the result, and any other path is returned unchanged |
| Harness.CleanUri | lspresso-shot/types/mod.rs:894-905 | a failed root lookup gives an IO error with the test id; a non-UTF-8 root gives `InvalidFilePath` of its display form; otherwise cleaning succeeds iff the stripped path parses as a URI, and a failed parse reports the original path |
| Harness.CleanUriExample | lspresso-shot/types/mod.rs:887 | `/tmp/lspresso-shot/<id>/src/foo.rs` is cleaned to `foo.rs` |
| Harness.CleanUriOutsideRoot | lspresso-shot/types/mod.rs:903 | a parseable path outside the root is returned unchanged |
| Harness.CleanUriIdempotent | lspresso-shot/types/mod.rs:902-903 | cleaning a cleaned URI again changes nothing unless the remainder itself starts with the root |
| Harness.CleanUriStripsOnce | lspresso-shot/types/mod.rs:902 | the prefix is stripped once: a doubled root keeps one copy |
| Harness.CleanLocation | lspresso-shot/types/references.rs:8 | the location's URI is cleaned and its range kept; the error of `clean_uri` propagates |
| Harness.CleanLocations | lspresso-shot/types/references.rs:7-11 | cleaning a list succeeds iff every URI cleans; the result has the same length and ranges; a failure is the first failing URI's error |
| Harness.TraverseCleansUris | lspresso-shot/types/mod.rs:907-916 | if each element cleans exactly its own URIs, the whole list cleans exactly the concatenation of those URIs, failing at the first bad one |
| Validation.ValidatePath | lspresso-shot/types/mod.rs:367-380 | an IO error of the first source-directory lookup is returned, then one of the second; when both lookups succeed the only error is `InvalidFilePath` naming the input, and an absolute input always fails |
| Validation.PushRelativeComponents | lspresso-shot/types/mod.rs:368-369 | pushing a relative input onto the source directory appends exactly the input's components to those of the root |
| Validation.PathStartsWithIsComponentwise | lspresso-shot/types/mod.rs:372 | `starts_with` compares whole components: `ab` does not start with `a`, while `a/b` does |
| Validation.ValidatePathAcceptsEveryRelative | lspresso-shot/types/mod.rs:370-372 | for a non-empty source directory, the check accepts exactly the relative inputs |
| Validation.ValidatePathAcceptsEscape | lspresso-shot/types/mod.rs:370-372 | `../../etc/passwd` is accepted |
| Validation.ValidatePathContained | lspresso-shot/types/mod.rs:367-380 | the corrected check passes the lookups' IO errors through in the same order, rejects absolute inputs and otherwise reports only `InvalidFilePath` |
| Validation.ValidatePathContainedStaysUnderRoot | lspresso-shot/types/mod.rs:370-372 | every input the corrected check accepts stays under the source root after `..` steps are resolved |
| Validation.ValidatePathContainedRejectsParent | lspresso-shot/types/mod.rs:370-372 | the corrected check rejects any input starting with `../` |
| Validation.ValidatePathContainedAcceptsName | lspresso-shot/types/mod.rs:370-372 | the corrected check still accepts a plain file name |
| Validation.ValidatePathContainedRefines | lspresso-shot/types/mod.rs:367-380 | for the same lookup outcomes, the corrected check accepts only inputs the original accepts |
| Benchmark.ParseLines | lspresso-shot/types/mod.rs:517-524 | blank lines are skipped; the result exists iff every other line parses as a `u64`, and then holds their values in line order; otherwise the panic names the first non-blank line that does not parse |
| Benchmark.BenchmarkRoundTrip | lspresso-shot/types/mod.rs:512-526 | a file holding one decimal `u64` per line reads back as the same list of durations |
| Benchmark.BenchmarkRejectsLine | lspresso-shot/types/mod.rs:517-521 | a file of one non-blank line that is not a `u64` panics on that line |
| Benchmark.BenchmarkRejectsBareCr | lspresso-shot/types/mod.rs:517-521 | `5\r` panics: a final `\r` without a newline is not a line ending |
| References.CleanResponse | lspresso-shot/types/references.rs:5-12 | each URI is cleaned and ranges, length and order are kept; the first failure aborts |
| References.CleanResponseOutsideRoot | lspresso-shot/types/references.rs:5-12 | locations already outside the root come back unchanged |
| Definition.CleanLink | lspresso-shot/types/definition.rs:16-19 | only a link's target URI is cleaned; the origin, target and selection ranges are kept |
| Definition.CleanResponse | lspresso-shot/types/definition.rs:5-23 | the variant and length are kept; every location URI and link target is cleaned; the rest is unchanged; the first failure aborts |
| Definition.ApproxEqIsWireEquality | lspresso-shot/types/definition.rs:30-42 | relaxed equality holds exactly when the serialised forms are equal |
| Definition.ArrayLinkDiffer | lspresso-shot/types/definition.rs:36-38 | an array of locations and an array of links serialise differently unless both are empty |
| Definition.ApproxEqProperties | lspresso-shot/types/definition.rs:31-41 | relaxed equality is implied by `==` and is symmetric; `Scalar` never matches a list; `Array([])` matches `Link([])`; a non-empty cross pair never matches |
| Definition.RelaxesDefault | lspresso-shot/types/definition.rs:30-42 | the override holds whenever the default `approx_eq` (plain `==`, types/mod.rs:923-930) does, and within one variant it is exactly the default |
| DocumentSymbol.CleanSymbol | lspresso-shot/types/document_symbol.rs:9-11 | only the symbol's location URI is cleaned |
| DocumentSymbol.CleanResponse | lspresso-shot/types/document_symbol.rs:5-17 | flat symbols are cleaned one by one, keeping the variant and length; nested symbols are returned unchanged |
| DocumentSymbol.FlatNestedDiffer | lspresso-shot/types/document_symbol.rs:22-25 | flat and nested lists serialise differently unless both are empty |
| DocumentSymbol.ApproxEqIsWireEquality | lspresso-shot/types/document_symbol.rs:19-28 | relaxed equality holds exactly when the serialised forms are equal |
| DocumentSymbol.ApproxEqProperties | lspresso-shot/types/document_symbol.rs:20-27 | relaxed equality is implied by `==` and is symmetric; `Flat([])` matches `Nested([])`; a non-empty flat list never matches a nested one |
| DocumentSymbol.RelaxesDefault | lspresso-shot/types/document_symbol.rs:19-28 | the override holds whenever `==` does, and within one variant it is exactly `==` |
| WorkspaceSymbol.CleanSymbol | lspresso-shot/types/workspace_symbol.rs:5-19 | the URI is cleaned in whichever location form the symbol has, and the form is kept |
| WorkspaceSymbol.CleanInfo | lspresso-shot/types/workspace_symbol.rs:25-29 | a flat symbol has only its location URI cleaned |
| WorkspaceSymbol.CleanResponse | lspresso-shot/types/workspace_symbol.rs:21-38 | the variant and length are kept and every symbol is cleaned in turn; the first failure aborts |
| WorkspaceSymbol.CmpInnerIsJsonEquality | lspresso-shot/types/workspace_symbol.rs:59-95 | `cmp_inner` holds exactly when both symbols serialise to the same JSON object |
| WorkspaceSymbol.ApproxEqIsWireEquality | lspresso-shot/types/workspace_symbol.rs:40-57 | relaxed equality holds exactly when the serialised lists are equal |
| WorkspaceSymbol.CrossIsWireEquality | lspresso-shot/types/workspace_symbol.rs:43-53 | a cross-variant pair matches iff the lengths agree and every index pair serialises alike |
| WorkspaceSymbol.ApproxEqProperties | lspresso-shot/types/workspace_symbol.rs:41-56 | relaxed equality is implied by `==` and is symmetric, and `Flat([])` matches `Nested([])` |
| WorkspaceSymbol.RelaxesDefault | lspresso-shot/types/workspace_symbol.rs:40-57 | the override holds whenever `==` does, and within one variant it is exactly `==` |
| WorkspaceSymbol.DeprecatedNeverMatches | lspresso-shot/types/workspace_symbol.rs:65-67 | a flat symbol with `deprecated` set never matches a workspace symbol |
| Hierarchy.CleanItem | lspresso-shot/types/type_hierarchy.rs:7-9 | only the item's URI is cleaned |
| Hierarchy.CleanCall | lspresso-shot/types/call_hierarchy.rs:21-36 | only the URI of the call's `from`/`to` item is cleaned, and `from_ranges` is kept |
| Hierarchy.CleanItems | lspresso-shot/types/call_hierarchy.rs:13-20 | every item's URI is cleaned, with everything else, the length and the order kept; the first failure aborts |
| Hierarchy.CleanCalls | lspresso-shot/types/call_hierarchy.rs:21-36 | every call has its item URI cleaned and everything else kept; the first failure aborts |
| Hierarchy.CleanItemsOutsideRoot | lspresso-shot/types/type_hierarchy.rs:5-12 | items already outside the root come back unchanged |
| DocumentLink.CleanLink | lspresso-shot/types/document_link.rs:5-12 | a target is cleaned, a missing target stays missing, and range, tooltip and data are kept |
| DocumentLink.CleanLinks | lspresso-shot/types/document_link.rs:14-23 | a list is cleaned link by link, keeping its length |
| DocumentLink.TargetlessLinksUntouched | lspresso-shot/types/document_link.rs:14-23 | links without targets are returned unchanged |
| Diagnostic.CleanRelated | lspresso-shot/types/diagnostic.rs:12-14 | related information has its location URI cleaned and its message and range kept |
| Diagnostic.CleanDiagnostic | lspresso-shot/types/diagnostic.rs:10-16 | a diagnostic without related information is unchanged; otherwise only that list changes, keeping its length and order with each entry cleaned by `CleanRelated`, and a failure is some entry's error |
| Diagnostic.CleanResponse | lspresso-shot/types/diagnostic.rs:8-19 | diagnostics are cleaned one by one, keeping number and order; the first failure aborts |
| Diagnostic.FirstDiagnosticErrorWins | lspresso-shot/types/diagnostic.rs:8-19 | the error of the first failing diagnostic is the error of the whole list |
| Rename.Remove | lspresso-shot/types/rename.rs:23-26 | removing a key leaves exactly the other keys |
| Rename.RemoveAsMap | lspresso-shot/types/rename.rs:23-26 | removal drops one key from the map the entries denote |
| Rename.Insert | lspresso-shot/types/rename.rs:25 | `HashMap::insert` updates one key and keeps the keys distinct |
| Rename.InsertAll | lspresso-shot/types/rename.rs:23-27 | inserting entries one by one gives distinct keys denoting the same last-wins map |
| Rename.AsMapKeys | lspresso-shot/types/rename.rs:21-28 | a key is in the map iff some entry has it |
| Rename.AsMapLastWins | lspresso-shot/types/rename.rs:23-26 | a key's value comes from the last entry with that key |
| Rename.CleanEntry | lspresso-shot/types/rename.rs:24-25 | only an entry's key is cleaned, and its edits are kept |
| Rename.CleanChanges | lspresso-shot/types/rename.rs:21-28 | the new keys are exactly the cleaned old keys, each mapped to the unmodified edits of an original key that cleans to it; the first failure aborts |
| Rename.CleanChangesInjective | lspresso-shot/types/rename.rs:21-28 | when no two keys clean alike, each cleaned key keeps its own edits |
| Rename.CleanDocEdit | lspresso-shot/types/rename.rs:31-33 | a text-document edit has its URI cleaned and its version and edits kept |
| Rename.CleanRename | lspresso-shot/types/rename.rs:41-46 | a rename cleans both URIs and keeps its options |
| Rename.CleanOperation | lspresso-shot/types/rename.rs:35-54 | create, rename and delete keep their kind and options and clean their URIs; an edit is cleaned as a text-document edit |
| Rename.CleanDocumentChanges | lspresso-shot/types/rename.rs:30-55 | both variants keep their variant and length and clean element by element |
| Rename.CleanWorkspaceEdit | lspresso-shot/types/rename.rs:19-60 | `None` parts stay `None`, the change map and the document changes are cleaned, and the change annotations are never modified |
| Rename.CleanEmptyEdit | lspresso-shot/types/rename.rs:19-60 | an edit with neither changes nor document changes is returned unchanged |
| CodeAction.CleanItem | lspresso-shot/types/code_action.rs:17-27 | commands and actions without an edit are unchanged; an action's edit is cleaned as a workspace edit and its other fields are kept |
| CodeAction.CleanResponse | lspresso-shot/types/code_action.rs:15-29 | items are cleaned one by one, keeping length and order |
| CodeAction.NoEditsUntouched | lspresso-shot/types/code_action.rs:15-29 | a response without edits comes back unchanged |
| Formatting.LiftState | lspresso-shot/types/formatting.rs:8-28 | a text mismatch is wrapped in `State` on each present side, keeping the test id; other errors pass through |
| Formatting.LiftStateRoundTrip | lspresso-shot/types/formatting.rs:8-28 | lifting a text error is lossless |
| Formatting.LiftsDisagree | lspresso-shot/types/formatting.rs:16-17 | a lifted text mismatch with a present side never equals a lifted edit-list error |
| Completion.RemoveFirst | lspresso-shot/types/completion.rs:50-56 | removing the first match takes exactly one occurrence out of the multiset, and nothing when there is none |
| Completion.RemainingIsDifference | lspresso-shot/types/completion.rs:47-59 | what greedy removal leaves unmatched is the multiset difference of expected and actual |
| Completion.ResultsSatisfy | lspresso-shot/types/completion.rs:40-81 | a `Contains` expectation holds exactly when its items are a sub-multiset of the actual items, an `Exact` one exactly when the responses are equal |
| Completion.ContainsIsMultisetInclusion | lspresso-shot/types/completion.rs:47-59 | `Contains(e)` holds iff every item's count in `e` is at most its count in the actual items |
| Completion.ContainsIgnoresOrderAndVariant | lspresso-shot/types/completion.rs:43-59 | `Contains` depends only on the multiset of actual items, not their order or the response variant |
| Completion.ContainsNothing | lspresso-shot/types/completion.rs:47-59 | `Contains([])` is satisfied by every response |
| Completion.ContainsMissingFails | lspresso-shot/types/completion.rs:47-59 | an expected item absent from the response makes `Contains` fail |
| Completion.ExactIsEquality | lspresso-shot/types/completion.rs:61-80 | `Exact` holds iff the responses are equal, so it is reflexive and `Array([])` does not match an empty `List` |
| Compare.Fallback | lspresso-shot/types/compare.rs:24-55 | one event at the given depth and name: a match iff the values are equal, otherwise a mismatch carrying both values |
| Compare.ComparePosition | lspresso-shot/types/compare.rs:205-231 | a bracketed pair of line and character lines, reporting no difference iff the positions are equal |
| Compare.CompareRange | lspresso-shot/types/compare.rs:263-296 | a bracketed comparison of start and end, reporting no difference iff the ranges are equal |
| Compare.Compare | lspresso-shot/types/compare.rs:298-403 | the event stream is balanced and never shallower than its starting depth |
| Compare.SurplusPart | lspresso-shot/types/compare.rs:370-397 | a surplus section appears iff the lengths differ and names the longer side |
| Compare.SurplusPartItems | lspresso-shot/types/compare.rs:370-397 | after the marker come the longer side's elements from the shorter length on, each compared with itself one level deeper under its index, in the alarm colour unless a colour is imposed |
| Compare.SelfItemsAreSelfComparisons | lspresso-shot/types/compare.rs:373-382 | the surplus walk is exactly the self-comparisons of the remaining elements, in order |
| Compare.CompareUnequalVectors | lspresso-shot/types/compare.rs:356-401 | unequal vectors give an opening bracket, the comparisons of the common indices, the surplus section and a closing bracket, in that order |
| Compare.CompareQuietIffEqual | lspresso-shot/types/compare.rs:331-403 | a comparison reports no difference and no surplus iff the values are equal |
| Compare.PairsQuiet | lspresso-shot/types/compare.rs:360-369 | pairwise comparisons with no difference mean equal elements at every common index |
| Compare.PairsAreIndexComparisons | lspresso-shot/types/compare.rs:360-369 | the pairwise walk is exactly the comparisons of the common indices, in order, each labelled `[i]` |
| Compare.EqualVectorsOneLine | lspresso-shot/types/compare.rs:347-355 | equal vectors give a single matching line and no per-element events |
| Compare.UnequalVectorsShape | lspresso-shot/types/compare.rs:356-401 | unequal vectors are bracketed, and a surplus section at the vector's depth appears iff the lengths differ |
| Compare.ShallowCases | lspresso-shot/types/compare.rs:298-329 | two `Some`s delegate with the same name and depth; two `None`s give one match; a mixed pair falls back |
| Fields.CompareFields | lspresso-shot/types.rs:616-657 | one line: a match iff the values are equal, otherwise a mismatch carrying both |
| Fields.SortByKey | lspresso-shot/types.rs:677 | `sort_keys` yields the same fields sorted by key |
| Fields.Find | lspresso-shot/types.rs:680-683 | a key the actual object lacks reads as `null` |
| Fields.FindDistinct | lspresso-shot/types.rs:680-683 | in an object without repeated keys, a key reads as its own value |
| Fields.SelfComparisonQuiet | lspresso-shot/types.rs:658-746 | a well-formed value compared with itself reports no mismatch |
| Fields.ScalarFieldCompared | lspresso-shot/types.rs:675-697 | every scalar field of the expected object is compared with the actual field, or with `null` when that is missing |
| Fields.ExpectedFieldsContain | lspresso-shot/types.rs:678-698 | the events of every expected field, in sorted order, appear in the walk |
| Fields.ActualOnlyFieldReported | lspresso-shot/types.rs:700-714 | a key present only in the actual object is reported against an expected `null` |
| Fields.UnexpectedAllKnown | lspresso-shot/types.rs:700-714 | when the actual object has no extra key, no extra line is written |
| Fields.ExtraElementIsNullComparison | lspresso-shot/types.rs:732-739 | a surplus actual element is one comparison against `null` |
| Fields.ExtraElementCompared | lspresso-shot/types.rs:726-739 | every element the actual array has beyond the expected one is written as a comparison against `null`, a mismatch unless the element is `null` |
| Fields.ScalarTopIsOneLine | lspresso-shot/types.rs:742 | a value that is neither object nor array writes exactly one comparison, a match exactly when the two values are equal |
| Fields.ArrayElementCompared | lspresso-shot/types.rs:717-725 | every scalar element of the expected array is compared with the actual element at its index, or with `null` when the actual side has none |
| Fields.EmptyArrayAgainstNumberQuiet | lspresso-shot/types.rs:717-741 | an empty expected array against a number writes only the brackets, so the walk can miss a difference |
| InitLua.FileName | lspresso-shot/init_dot_lua.rs:15-18 | a file name is a normal path component, neither `.` nor `..` and without separators |
| InitLua.FileNameOfJoin | lspresso-shot/init_dot_lua.rs:15-18 | the file name of `dir/name`, with or without a trailing separator, is `name` |
| InitLua.ExtensionOf | lspresso-shot/init_dot_lua.rs:15-18 | an extension exists iff a dot follows the name's first character, and it is the dot-free text after the last dot |
| InitLua.ExtensionOfStem | lspresso-shot/init_dot_lua.rs:15-18 | a stem, a dot and a dot-free extension give back that extension |
| InitLua.SourceExtension | lspresso-shot/init_dot_lua.rs:15-30 | no extension gives `MissingFileExtension` and a non-UTF-8 extension gives `InvalidFileExtension`, each naming the lossy path |
| InitLua.SourceExtensionOfJoin | lspresso-shot/init_dot_lua.rs:15-30 | `dir/stem.ext` yields `ext` |
| InitLua.SourceExtensionMissing | lspresso-shot/init_dot_lua.rs:19-24 | a file name without a dot after its first character gives `MissingFileExtension` |
| InitLua.ActionPlacement | lspresso-shot/init_dot_lua.rs:34-62 | for every type but diagnostics the raw script is the helpers, that type's own action template and the attach logic, with the action placeholder replaced by the request invocation for the start type |
| InitLua.DiagnosticLayout | lspresso-shot/init_dot_lua.rs:34-67 | the raw diagnostic script is the helpers, the fixed note in place of an action template, the attach logic and then the diagnostic autocmd |
| InitLua.InvokeLspAction | lspresso-shot/init_dot_lua.rs:147-167 | a simple server gets one fixed action; a progress server gets a fixed `$/progress` handler with its token spliced in, so the two kinds never produce the same text (see the next row) |
| InitLua.InvokeLspActionInjective | lspresso-shot/init_dot_lua.rs:147-167 | the action text determines the start type and the token |
| InitLua.ProgressThreshold | lspresso-shot/init_dot_lua.rs:111-116 | the threshold text never starts with `0` |
| InitLua.ProgressThresholdRoundTrip | lspresso-shot/init_dot_lua.rs:111-116 | the threshold text parses back as 1 for a simple server and as the configured count otherwise |
| InitLua.SetCursor | lspresso-shot/init_dot_lua.rs:76-81 | the cursor text is empty exactly when there is no cursor |
| InitLua.SetCursorInjective | lspresso-shot/init_dot_lua.rs:76-81 | the cursor text determines the cursor |
| InitLua.ApplyAppend | lspresso-shot/init_dot_lua.rs:70-106 | a replacement chain is the composition of its parts, so custom replacements run before the fixed placeholders |
| InitLua.ApplyAbsent | lspresso-shot/init_dot_lua.rs:70-106 | a text containing none of the chain's non-empty patterns is left as it is |
| InitLua.DiagnosticIgnoresStartType | lspresso-shot/init_dot_lua.rs:63-67 | the diagnostic script does not depend on the start type and ends with the autocmd template |
| InitLua.Fixed | lspresso-shot/init_dot_lua.rs:82-106 | the fixed placeholders are filled in their fixed order |
| InitLua.FixedPathValues | lspresso-shot/init_dot_lua.rs:82-106 | each path placeholder is filled with the text of its own path (results, executable, root, error, log, empty, source directory) |
| InitLua.FixedOtherValues | lspresso-shot/init_dot_lua.rs:92-98 | the extension, the cursor command, an empty command list and the progress threshold fill their placeholders |
| InitLua.InitDotLua | lspresso-shot/init_dot_lua.rs:5-109 | errors of the five path getters come first and extension errors second, both returned as setup errors; only then is the source directory fetched, and its failure is a panic; otherwise the script is the raw template after the custom chain, then the fixed chain with the source directory as `PARENT_PATH` |
| InitLua.InitDotLuaKeepsPlainText | lspresso-shot/init_dot_lua.rs:70-106 | a template without placeholders or custom patterns is emitted verbatim |
| InitLua.CustomsRunFirst | lspresso-shot/init_dot_lua.rs:70-106 | the script is one chain, custom replacements first and then the fixed placeholders |
| TestServer.Find | test-server/src/lib.rs:26 | `find` returns the leftmost occurrence, and nothing iff there is none |
| TestServer.RootTestPath | test-server/src/lib.rs:23-37 | none without the marker; otherwise the path up to the first non-digit after the marker and one separator |
| TestServer.RootTestPathOfTestUri | test-server/src/lib.rs:15-37 | `<prefix>lspresso-shot/<id>/...` yields `<prefix>lspresso-shot/<id>` |
| TestServer.RootTestPathUnterminated | test-server/src/lib.rs:28-33 | digits running to the end of the path give none |
| TestServer.ResponseNumContents | test-server/src/lib.rs:47-52 | the written response number is a non-empty digit string |
| TestServer.ReceiveResponseNum | test-server/src/lib.rs:59-68 | a read error passes through; otherwise it succeeds exactly when the contents parse as a `u32`, returning the value of the digits after an optional `+`, and a parse failure is carried as `BadContents` with the parser's own reason (empty contents give `Empty`) |
| TestServer.SignedAndPaddedContents | test-server/src/lib.rs:64-65 | contents `+5` and `007` are read as 5 and 7: the reader accepts more than the writer produces |
| TestServer.ResponseNumRoundTrip | test-server/src/lib.rs:47-68 | a written response number reads back unchanged |
| TestServer.TrailingNewlineRejected | test-server/src/lib.rs:64-66 | contents with a trailing newline are rejected |
| Responses.ReferencesResponse | test-server/src/responses.rs:15-67 | response `n` exists iff `n <= 3`, has `n` locations in `main.dummy`, and the `k`-th has range (4k+1, 4k+2)-(4k+3, 4k+4) |
| Responses.FormattingResponse | test-server/src/responses.rs:73-124 | response `n` exists iff `n <= 3` and has `n` edits, the `k`-th with the same range formula and text `new_text {k+1}` |
| Responses.ReferencesGrow | test-server/src/responses.rs:18-64 | each reference response is a prefix of the next |
| Responses.FormattingGrows | test-server/src/responses.rs:75-121 | each formatting response is a prefix of the next |

## Left out

- File system, processes, Neovim, timeouts, the random test id and the test runner
  (`lspresso-shot/lib.rs`, the `TestCase` getters, `RunnerGuard`) are not modelled.
  Their outcomes enter as parameters: the source-root lookup in `CleanEnv`, the
  script paths, and the contents read from files.
- The `Display` renderers and ANSI colours are not modelled. Diff output is
  modelled as abstract events. Per-type `Compare` implementations for LSP records
  other than `Position`, `Range`, `Option`, `Vec` and `HashMap` are out of scope.
- `serde_json::Map`, `Value` and the `Uri` `Compare` implementations are not
  modelled, except that the JSON field walk of `types.rs` is.
- The Lua template files (`include_str!`) are opaque strings in `Templates`.
- Harness.CleanUri: `Uri::from_str` is the parameter `parses`. Its result is taken
  to have the parsed string as its path.
- The byte offset that `str::find` returns is treated as a character index.
  TestServer.RootTestPath is therefore exact only for ASCII paths. Test
  directories sit under the system's temporary directory, whose name need not be
  ASCII.
- TestServer.RootTestPath: the result has no trailing separator. The doc comment at
  test-server/src/lib.rs:18-19 shows one, but the code does not produce it.
- InitLua.InitDotLua:
  - It requires a scripted test type. The `match` at init_dot_lua.rs:41-68 and
    `get_attach_action` list 20 of the 45 `TestType` variants.
  - It requires the script paths to be UTF-8 once the getters and the extension
    succeed. There, `to_str().unwrap()` panics otherwise. The source directory's
    own getter runs after those texts are taken, so its failure is modelled as a
    panic (`ParentPanic`) only for paths that are UTF-8.
- The five path getters reached by `?` are one `Result` parameter. Their
  individual order among themselves is not modelled.
- Validation.ValidatePath: the two `get_source_file_path` calls are two `Result`
  parameters whose failures stand for the `TestSetupError::IO` (`SetupIo`) of
  `get_lspresso_dir` or `fs::create_dir_all` (types/mod.rs:435-438). The input
  path is a Unicode string, so the `to_string_lossy` text of a non-UTF-8 input
  in `InvalidFilePath` is not modelled.
- The default `CleanResponse::clean_response` returns its argument unchanged, and
  the types that use it (completion, formatting, plain strings) need nothing more.
- Several per-type files declare `clean_response` as returning `TestResult<Self>`.
  That alias takes two parameters at types/mod.rs:821, while the trait at
  types/mod.rs:913 returns `TestExecutionResult<Self>`. The model follows the
  trait: every cleaning error is an execution error.
- Fields.WriteFields: a key missing from the actual object reads as `null`, so it
  is indistinguishable from an explicit `null`. The walk is sound for equal values
  (Fields.SelfComparisonQuiet) but not complete
  (Fields.EmptyArrayAgainstNumberQuiet).
- Harness.CleanUriIdempotent holds only when the remainder does not itself start
  with the root (Harness.CleanUriStripsOnce). Cleaning is not idempotent in
  general.
- Compare: line and character of a position are both labelled with the position's
  own name, as the code at compare.rs:215-228 does.
- Compare: the "Additional actual/expected items" line is the event
  `Surplus(depth, side)`, carrying the vector's own depth. The text itself is
  indented two spaces past that depth's padding (compare.rs:372, 386), and such
  indentation is not part of the events.
- Harness.Lossy: every non-UTF-8 unit becomes one U+FFFD. Rust's
  `to_string_lossy` emits one per maximal ill-formed subsequence, so the bytes
  E2 82 give one replacement character there and two here. Only the text of the
  `InvalidFilePath`, `MissingFileExtension` and `InvalidFileExtension` messages
  for non-UTF-8 paths is affected.
- Harness.CleanUriOutsideRoot: a URI is its path. `clean_uri` rebuilds the URI
  from `uri.path()` alone (types/mod.rs:902-904), so a scheme or authority is
  dropped even outside the root. "Unchanged" holds for the path only.
- Fields.Json: numbers are integers. `serde_json` floats, and the difference
  between `1` and `1.0`, are not modelled.
- The `Empty` marker trait (types.rs:1212-1241) is left out. `is_empty` is a
  constant per type, true only for `EmptyResult`, and nothing in the modelled core
  calls it.
- Benchmark.ParseLines: the panic of `unwrap` on a bad line is modelled as a
  `Panic` result.

## Findings

| source | as written | input that shows it | evidently intended | confidence | as-written member | corrected member |
|---|---|---|---|---|---|---|
| lspresso-shot/types/mod.rs:370-372 | `Path::starts_with` compares components lexically, so `src/../../etc/passwd` starts with `src` and every relative input is accepted | `../../etc/passwd` | reject files that would be written outside the test's source directory | not executed; medium | Validation.ValidatePathAcceptsEscape | Validation.ValidatePathContainedStaysUnderRoot |
