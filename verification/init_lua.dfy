/**
 Generation of the `init.lua` script that drives Neovim through one test:
 a fixed template chosen by test type, the action that fires the request,
 the user's custom replacements and finally the fixed placeholder chain
 (results file, executable, directories, file extension, cursor, progress
 threshold, parent directory).
 */
module InitLua {
  import opened Base
  import opened Text
  import opened Lsp
  import opened Harness
  import opened TestTypes

  // ---------------------------------------------------------------------------
  // File name and extension of the source path (`Path::extension`)
  // ---------------------------------------------------------------------------

  const Sep: OsUnit := Ch('/')
  const Dot: OsUnit := Ch('.')

  /** Index of the last `u` in `p`, or -1 when there is none. */
  function LastIndexOf(p: OsPath, u: OsUnit): (k: int)
    ensures -1 <= k < |p|
    ensures k >= 0 ==> p[k] == u
    ensures forall j :: k < j < |p| ==> p[j] != u
  {
    if p == [] then -1
    else if p[|p| - 1] == u then |p| - 1
    else LastIndexOf(p[..|p| - 1], u)
  }

  predicate NoUnit(p: OsPath, u: OsUnit) {
    forall j :: 0 <= j < |p| ==> p[j] != u
  }

  /** A normal path component: non-empty, no separator, neither `.` nor `..`. */
  predicate NormalName(n: OsPath) {
    n != [] && NoUnit(n, Sep) && n != [Dot] && n != [Dot, Dot]
  }

  /** `Path::file_name`: the last component, skipping empty and `.`
      components; none when that component is `..` or there is none. */
  function FileName(p: OsPath): (r: Option<OsPath>)
    ensures r.Some? ==> NormalName(r.value)
    decreases |p|
  {
    var k := LastIndexOf(p, Sep);
    var seg := p[k + 1..];
    if seg == [] || seg == [Dot] then
      if k < 0 then None else FileName(p[..k])
    else if seg == [Dot, Dot] then None
    else Some(seg)
  }

  /** The file name of `dir/name` and of `dir/name/` is `name`, whatever `dir` is. */
  lemma FileNameOfJoin(dir: OsPath, name: OsPath)
    requires NormalName(name)
    ensures FileName(dir + [Sep] + name) == Some(name)
    ensures FileName(dir + [Sep] + name + [Sep]) == Some(name)
    ensures FileName(name) == Some(name)
  {
    var p := dir + [Sep] + name;
    assert p[|dir|] == Sep;
    assert forall j :: |dir| < j < |p| ==> p[j] == name[j - |dir| - 1];
    assert LastIndexOf(p, Sep) == |dir|;
    assert p[|dir| + 1..] == name;
    var q := p + [Sep];
    assert LastIndexOf(q, Sep) == |p|;
    assert q[..|p|] == p;
    assert LastIndexOf(name, Sep) == -1;
    assert name[0..] == name;
  }

  /** The extension of a file name: what follows its last dot, when that dot
      is not the first unit (so `.bashrc` has none, `a.` has an empty one). */
  function ExtensionOf(name: OsPath): (r: Option<OsPath>)
    ensures r.Some? <==> exists k :: 0 < k < |name| && name[k] == Dot
    ensures r.Some? ==>
      && NoUnit(r.value, Dot) && |r.value| < |name|
      && name == name[..|name| - |r.value| - 1] + [Dot] + r.value
      && name[..|name| - |r.value| - 1] != []
  {
    var k := LastIndexOf(name, Dot);
    if k <= 0 then None
    else
      assert name == name[..k] + [Dot] + name[k + 1..];
      Some(name[k + 1..])
  }

  /** A stem, a dot and a dot-free extension: the extension is recovered. */
  lemma ExtensionOfStem(stem: OsPath, ext: OsPath)
    requires stem != [] && NoUnit(ext, Dot)
    ensures ExtensionOf(stem + [Dot] + ext) == Some(ext)
  {
    var n := stem + [Dot] + ext;
    assert n[|stem|] == Dot;
    assert forall j :: |stem| < j < |n| ==> n[j] == ext[j - |stem| - 1];
    assert LastIndexOf(n, Dot) == |stem|;
    assert n[|stem| + 1..] == ext;
  }

  /** The source file's extension as text, or the setup error the harness
      reports: a path without extension, or one whose extension is not UTF-8. */
  function SourceExtension(path: OsPath): (r: Result<string, SetupError>)
    ensures r == Failure(MissingFileExtension(Lossy(path)))
      <==> FileName(path).None? || ExtensionOf(FileName(path).value).None?
    ensures r == Failure(InvalidFileExtension(Lossy(path))) <==>
      && FileName(path).Some? && ExtensionOf(FileName(path).value).Some?
      && !IsUtf8(ExtensionOf(FileName(path).value).value)
    ensures r.Success? ==> FromStr(r.value) == ExtensionOf(FileName(path).value).value
  {
    match FileName(path)
    case None => Failure(MissingFileExtension(Lossy(path)))
    case Some(name) =>
      match ExtensionOf(name)
      case None => Failure(MissingFileExtension(Lossy(path)))
      case Some(ext) =>
        match ToStr(ext)
        case None => Failure(InvalidFileExtension(Lossy(path)))
        case Some(s) =>
          assert FromStr(s) == ext;
          Success(s)
  }

  predicate NoChar(s: string, c: char) {
    forall j :: 0 <= j < |s| ==> s[j] != c
  }

  /** `dir/stem.ext` with a text extension yields that extension. */
  lemma SourceExtensionOfJoin(dir: OsPath, stem: OsPath, ext: string)
    requires stem != [] && NoUnit(stem, Sep)
    requires NoChar(ext, '/') && NoChar(ext, '.')
    requires stem + [Dot] + FromStr(ext) != [Dot, Dot]
    ensures SourceExtension(dir + [Sep] + (stem + [Dot] + FromStr(ext))) == Success(ext)
  {
    var e := FromStr(ext);
    var name := stem + [Dot] + e;
    assert NoUnit(name, Sep) by {
      forall j | 0 <= j < |name| ensures name[j] != Sep {
        if j > |stem| { assert name[j] == e[j - |stem| - 1] == Ch(ext[j - |stem| - 1]); }
      }
    }
    assert name != [Dot] by { assert |name| >= 2; }
    FileNameOfJoin(dir, name);
    assert NoUnit(e, Dot);
    ExtensionOfStem(stem, e);
  }

  /** A file name without a dot after its first unit has no extension. */
  lemma SourceExtensionMissing(dir: OsPath, name: OsPath)
    requires NormalName(name) && forall k :: 0 < k < |name| ==> name[k] != Dot
    ensures SourceExtension(dir + [Sep] + name)
      == Failure(MissingFileExtension(Lossy(dir + [Sep] + name)))
  {
    FileNameOfJoin(dir, name);
  }

  // ---------------------------------------------------------------------------
  // Templates and placeholders
  // ---------------------------------------------------------------------------

  /** The Lua templates bundled with the harness, whose text is outside this
      model: the helper functions, the attach logic, the diagnostic autocmd
      and the per-type attach action. */
  datatype Templates = Templates(
    helpers: string,
    attach: string,
    diagnosticAutocmd: string,
    action: TestType -> string)

  /** The test types a script can be generated for. */
  predicate Scripted(t: TestType) {
    t in {CodeLens, CodeLensResolve, Completion, Declaration, Definition, Diagnostic,
          DocumentHighlight, DocumentLink, DocumentLinkResolve, DocumentSymbol,
          FoldingRange, Formatting, Hover, Implementation, IncomingCalls,
          OutgoingCalls, PrepareCallHierarchy, References, Rename, TypeDefinition}
  }

  const DiagnosticNote: string :=
    "\n-- NOTE: No `check_progress_result` function for diagnostics, instead handled by `DiagnosticChanged` autocmd\n"

  function AttachAction(tpl: Templates, t: TestType): (s: string)
    requires Scripted(t)
    ensures t == Diagnostic ==> s == DiagnosticNote
    ensures t != Diagnostic ==> s == tpl.action(t)
  {
    if t == Diagnostic then DiagnosticNote else tpl.action(t)
  }

  function Spaces(n: nat): (s: string)
    ensures |s| == n && forall i :: 0 <= i < n ==> s[i] == ' '
  {
    seq(n, _ => ' ')
  }

  const ProgressHead: string :=
    "vim.lsp.handlers[\"$/progress\"] = function(_, result, _)\n"
    + Spaces(20) + "if client then\n"
    + Spaces(24) + "if result.value.kind == \"end\" and result.token == \""

  const ProgressTail: string :=
    "\" then\n"
    + Spaces(28) + "client.initialized = true\n"
    + Spaces(28) + "check_progress_result()\n"
    + Spaces(24) + "end\n"
    + Spaces(20) + "end\n"
    + Spaces(16) + "end"

  const SimpleAction: string := "check_progress_result()\n" + Spaces(16) + "vim.cmd('qa!')"

  /** The Lua that fires the request: at once for a simple server, or from a
      `$/progress` handler that waits for the `end` of the named token. */
  function InvokeLspAction(start: ServerStartType): (s: string)
    ensures start.Simple? ==> s == SimpleAction
    ensures start.Progress? ==> s == ProgressHead + start.token + ProgressTail
  {
    match start
    case Simple => SimpleAction
    case Progress(_, token) => ProgressHead + token + ProgressTail
  }

  /** A simple action never looks like a progress handler. */
  lemma SimpleIsNotProgress(token: string)
    ensures SimpleAction != ProgressHead + token + ProgressTail
  {
    assert |SimpleAction| < |ProgressHead|;
  }

  /** Different start types never produce the same action, so the script
      determines how the server is awaited, token included. */
  lemma InvokeLspActionInjective(a: ServerStartType, b: ServerStartType)
    requires InvokeLspAction(a) == InvokeLspAction(b)
    ensures a.Simple? <==> b.Simple?
    ensures a.Progress? ==> a.token == b.token
  {
    if a.Progress? { SimpleIsNotProgress(a.token); }
    if b.Progress? { SimpleIsNotProgress(b.token); }
    if a.Progress? && b.Progress? {
      var s := InvokeLspAction(a);
      assert |a.token| == |b.token|;
      assert a.token == s[|ProgressHead|..|ProgressHead| + |a.token|];
      assert b.token == s[|ProgressHead|..|ProgressHead| + |b.token|];
    }
  }

  /** `PROGRESS_THRESHOLD`: 1 for a simple server, else the configured count. */
  function ProgressThreshold(start: ServerStartType): (s: string)
    ensures |s| >= 1 && s[0] != '0'
  {
    match start
    case Simple => "1"
    case Progress(threshold, _) => Decimal(threshold)
  }

  /** The threshold written into the script reads back, as a `u32`, as the
      number of `end` notifications to wait for. */
  lemma ProgressThresholdRoundTrip(start: ServerStartType)
    ensures ParseUnsigned(ProgressThreshold(start), U32_LIMIT)
      == Success(if start.Simple? then 1 else start.threshold)
  {
    match start
    case Simple =>
      assert DigitsValue("1") == 1 by { assert "1"[..0] == []; }
    case Progress(n, _) => DecimalRoundTrip(n, U32_LIMIT);
  }

  const CursorHead: string := "position = { line = "
  const CursorMid: string := " character = "

  /** `SET_CURSOR_POSITION`: a Lua table field for the cursor, or nothing. */
  function SetCursor(cursor: Option<Position>): (s: string)
    ensures cursor.None? <==> s == []
  {
    match cursor
    case None => ""
    case Some(p) => CursorHead + Decimal(p.line) + "," + CursorMid + Decimal(p.character) + " }"
  }

  /** Index of the first non-digit of `s`, or `|s|`. */
  function FirstNonDigit(s: string): (k: nat)
    ensures k <= |s|
  {
    if s == [] || !IsDigit(s[0]) then 0 else 1 + FirstNonDigit(s[1..])
  }

  lemma {:induction false} FirstNonDigitAfterDigits(d: string, c: char, x: string)
    requires AllDigits(d) && !IsDigit(c)
    ensures FirstNonDigit(d + [c] + x) == |d|
    decreases |d|
  {
    if d != [] {
      assert (d + [c] + x)[1..] == d[1..] + [c] + x;
      FirstNonDigitAfterDigits(d[1..], c, x);
    }
  }

  /** Two digit strings each followed by the same non-digit split equally. */
  lemma DigitsThenSeparator(d1: string, d2: string, c: char, x: string, y: string)
    requires AllDigits(d1) && AllDigits(d2) && !IsDigit(c)
    requires d1 + [c] + x == d2 + [c] + y
    ensures d1 == d2 && x == y
  {
    var s := d1 + [c] + x;
    FirstNonDigitAfterDigits(d1, c, x);
    FirstNonDigitAfterDigits(d2, c, y);
    assert d1 == s[..|d1|] && d2 == s[..|d2|];
    assert x == s[|d1| + 1..] && y == s[|d2| + 1..];
  }

  lemma PrefixCancel(p: string, x: string, y: string)
    requires p + x == p + y
    ensures x == y
  {
    assert x == (p + x)[|p|..];
    assert y == (p + y)[|p|..];
  }

  lemma CursorReassociate(head: string, l: string, mid: string, c: string)
    ensures head + l + "," + mid + c + " }" == head + (l + [','] + (mid + (c + [' '] + "}")))
  {
    assert " }" == [' '] + "}";
    assert "," == [','];
  }

  lemma SetCursorShape(p: Position)
    ensures SetCursor(Some(p))
      == CursorHead + (Decimal(p.line) + [','] + (CursorMid + (Decimal(p.character) + [' '] + "}")))
  {
    CursorReassociate(CursorHead, Decimal(p.line), CursorMid, Decimal(p.character));
  }

  /** The cursor text determines the cursor. */
  lemma SetCursorInjective(a: Option<Position>, b: Option<Position>)
    requires SetCursor(a) == SetCursor(b)
    ensures a == b
  {
    if a.Some? && b.Some? {
      var la, ca := Decimal(a.value.line), Decimal(a.value.character);
      var lb, cb := Decimal(b.value.line), Decimal(b.value.character);
      SetCursorShape(a.value);
      SetCursorShape(b.value);
      PrefixCancel(CursorHead, la + [','] + (CursorMid + (ca + [' '] + "}")),
                               lb + [','] + (CursorMid + (cb + [' '] + "}")));
      DigitsThenSeparator(la, lb, ',', CursorMid + (ca + [' '] + "}"), CursorMid + (cb + [' '] + "}"));
      PrefixCancel(CursorMid, ca + [' '] + "}", cb + [' '] + "}");
      DigitsThenSeparator(ca, cb, ' ', "}", "}");
      DecimalInjective(a.value.line, b.value.line);
      DecimalInjective(a.value.character, b.value.character);
    }
  }

  // ---------------------------------------------------------------------------
  // Replacement chains
  // ---------------------------------------------------------------------------

  type Replacement = (string, string)

  /** Applies `s.replace(from, to)` for each pair in order. */
  function Apply(reps: seq<Replacement>, s: string): string
    decreases |reps|
  {
    if reps == [] then s else Apply(reps[1..], ReplaceAll(s, reps[0].0, reps[0].1))
  }

  /** A chain of replacements is the composition of its parts. */
  lemma {:induction false} ApplyAppend(a: seq<Replacement>, b: seq<Replacement>, s: string)
    ensures Apply(a + b, s) == Apply(b, Apply(a, s))
    decreases |a|
  {
    if a != [] {
      assert (a + b)[0] == a[0] && (a + b)[1..] == a[1..] + b;
      ApplyAppend(a[1..], b, ReplaceAll(s, a[0].0, a[0].1));
    } else {
      assert a + b == b;
    }
  }

  predicate AbsentPatterns(reps: seq<Replacement>, s: string) {
    forall i :: 0 <= i < |reps| ==> reps[i].0 != [] && !Contains(s, reps[i].0)
  }

  /** A text in which no (non-empty) pattern of the chain occurs is left as it is. */
  lemma {:induction false} ApplyAbsent(reps: seq<Replacement>, s: string)
    requires AbsentPatterns(reps, s)
    ensures Apply(reps, s) == s
    decreases |reps|
  {
    if reps != [] {
      ReplaceAbsent(s, reps[0].0, reps[0].1);
      assert AbsentPatterns(reps[1..], s) by {
        forall i | 0 <= i < |reps[1..]| ensures reps[1..][i].0 != [] && !Contains(s, reps[1..][i].0) {
          assert reps[1..][i] == reps[i + 1];
        }
      }
      ApplyAbsent(reps[1..], s);
    }
  }

  // ---------------------------------------------------------------------------
  // The script
  // ---------------------------------------------------------------------------

  /** A test case as far as script generation reads it. */
  datatype Case = Case(
    source: OsPath,
    executable: OsPath,
    start: ServerStartType,
    cursor: Option<Position>)

  /** The per-test paths fetched at the start of the script generation; each
      comes from a getter of the test case whose setup error is passed on. */
  datatype ScriptPaths = ScriptPaths(
    results: OsPath,
    root: OsPath,
    error: OsPath,
    log: OsPath,
    empty: OsPath)

  predicate PathsUtf8(p: ScriptPaths, executable: OsPath) {
    IsUtf8(p.results) && IsUtf8(executable) && IsUtf8(p.root) && IsUtf8(p.error)
    && IsUtf8(p.log) && IsUtf8(p.empty)
  }

  /** Why no script comes out: a setup error returned to the caller, or the
      panic of the `unwrap` on the source directory's getter, which is only
      called while the last placeholder is filled in. */
  datatype InitError = SetupFailed(error: SetupError) | ParentPanic(cause: SetupError)

  /** The script before any placeholder is filled in. */
  function RawInit(tpl: Templates, t: TestType, start: ServerStartType): (s: string)
    requires Scripted(t)
  {
    var base := tpl.helpers + AttachAction(tpl, t) + tpl.attach;
    if t == Diagnostic then ReplaceAll(base, "LSP_ACTION", "") + tpl.diagnosticAutocmd
    else ReplaceAll(base, "LSP_ACTION", InvokeLspAction(start))
  }

  /** Diagnostics are not awaited through `$/progress`: their script is the
      same for every start type, and it ends with the diagnostic autocmd. */
  lemma DiagnosticIgnoresStartType(tpl: Templates, a: ServerStartType, b: ServerStartType)
    ensures RawInit(tpl, Diagnostic, a) == RawInit(tpl, Diagnostic, b)
    ensures var s := RawInit(tpl, Diagnostic, a);
      |s| >= |tpl.diagnosticAutocmd|
      && s[|s| - |tpl.diagnosticAutocmd|..] == tpl.diagnosticAutocmd
  {
    var s := RawInit(tpl, Diagnostic, a);
    var pre := ReplaceAll(tpl.helpers + DiagnosticNote + tpl.attach, "LSP_ACTION", "");
    assert s == pre + tpl.diagnosticAutocmd;
    assert s[|pre|..] == tpl.diagnosticAutocmd;
  }

  /** For every type but diagnostics, the script is the helpers, the type's
      own action template and the attach logic, in that order, with the
      action placeholder of the template replaced by the request invocation. */
  lemma ActionPlacement(tpl: Templates, t: TestType, start: ServerStartType, pre: string, post: string)
    requires Scripted(t) && t != Diagnostic
    requires tpl.action(t) == pre + "LSP_ACTION" + post
    requires NoMatchBefore(tpl.helpers + pre, "LSP_ACTION") && !Contains(post + tpl.attach, "LSP_ACTION")
    ensures RawInit(tpl, t, start) == tpl.helpers + pre + InvokeLspAction(start) + post + tpl.attach
  {
    var base := tpl.helpers + AttachAction(tpl, t) + tpl.attach;
    assert base == (tpl.helpers + pre) + "LSP_ACTION" + (post + tpl.attach);
    ReplaceAfterFreePrefix(tpl.helpers + pre, "LSP_ACTION", post + tpl.attach, InvokeLspAction(start));
    ReplaceAbsent(post + tpl.attach, "LSP_ACTION", InvokeLspAction(start));
  }

  /** The diagnostic script is the helpers, the fixed note instead of an
      action template, the attach logic and the diagnostic autocmd. */
  lemma DiagnosticLayout(tpl: Templates, start: ServerStartType)
    requires !Contains(tpl.helpers + DiagnosticNote + tpl.attach, "LSP_ACTION")
    ensures RawInit(tpl, Diagnostic, start) == tpl.helpers + DiagnosticNote + tpl.attach + tpl.diagnosticAutocmd
  {
    ReplaceAbsent(tpl.helpers + DiagnosticNote + tpl.attach, "LSP_ACTION", "");
  }

  /** The placeholders filled in after the custom replacements, in order. */
  const Placeholders: seq<string> := [
    "RESULTS_FILE", "EXECUTABLE_PATH", "ROOT_PATH", "ERROR_PATH", "LOG_PATH",
    "EMPTY_PATH", "FILE_EXTENSION", "SET_CURSOR_POSITION", "COMMANDS",
    "PROGRESS_THRESHOLD", "PARENT_PATH"]

  function Fixed(paths: ScriptPaths, c: Case, ext: string, parent: OsPath): (reps: seq<Replacement>)
    requires PathsUtf8(paths, c.executable) && IsUtf8(parent)
    ensures |reps| == |Placeholders|
    ensures forall i :: 0 <= i < |reps| ==> reps[i].0 == Placeholders[i]
  {
    [("RESULTS_FILE", ToStr(paths.results).value),
     ("EXECUTABLE_PATH", ToStr(c.executable).value),
     ("ROOT_PATH", ToStr(paths.root).value),
     ("ERROR_PATH", ToStr(paths.error).value),
     ("LOG_PATH", ToStr(paths.log).value),
     ("EMPTY_PATH", ToStr(paths.empty).value),
     ("FILE_EXTENSION", ext),
     ("SET_CURSOR_POSITION", SetCursor(c.cursor)),
     ("COMMANDS", ""),
     ("PROGRESS_THRESHOLD", ProgressThreshold(c.start)),
     ("PARENT_PATH", ToStr(parent).value)]
  }

  /** Each path placeholder is filled with the text of its path, which maps
      back to that path. */
  lemma FixedPathValues(paths: ScriptPaths, c: Case, ext: string, parent: OsPath)
    requires PathsUtf8(paths, c.executable) && IsUtf8(parent)
    ensures var reps := Fixed(paths, c, ext, parent);
      && FromStr(reps[0].1) == paths.results && FromStr(reps[1].1) == c.executable
      && FromStr(reps[2].1) == paths.root && FromStr(reps[3].1) == paths.error
      && FromStr(reps[4].1) == paths.log && FromStr(reps[5].1) == paths.empty
      && FromStr(reps[10].1) == parent
  {
    var reps := Fixed(paths, c, ext, parent);
    FromToStr(paths.results); FromToStr(c.executable); FromToStr(paths.root);
    FromToStr(paths.error); FromToStr(paths.log); FromToStr(paths.empty);
    FromToStr(parent);
  }

  /** The other placeholders get the extension, the cursor command, no
      commands and the progress threshold. */
  lemma FixedOtherValues(paths: ScriptPaths, c: Case, ext: string, parent: OsPath)
    requires PathsUtf8(paths, c.executable) && IsUtf8(parent)
    ensures var reps := Fixed(paths, c, ext, parent);
      && reps[6].1 == ext && reps[7].1 == SetCursor(c.cursor) && reps[8].1 == []
      && reps[9].1 == ProgressThreshold(c.start)
  {
  }

  /** `get_init_dot_lua`. The five path getters fail first, then the
      extension; the source directory is fetched last, while the fixed chain
      runs, and its failure is a panic. The paths' texts must be UTF-8. */
  function InitDotLua(
    tpl: Templates, c: Case, t: TestType,
    customs: Option<seq<Replacement>>,
    paths: Result<ScriptPaths, SetupError>,
    parent: Result<OsPath, SetupError>): (r: Result<string, InitError>)
    requires Scripted(t)
    requires paths.Success? && SourceExtension(c.source).Success?
      ==> PathsUtf8(paths.value, c.executable) && (parent.Success? ==> IsUtf8(parent.value))
    ensures paths.Failure? ==> r == Failure(SetupFailed(paths.error))
    ensures paths.Success? && SourceExtension(c.source).Failure?
      ==> r == Failure(SetupFailed(SourceExtension(c.source).error))
    ensures paths.Success? && SourceExtension(c.source).Success? && parent.Failure?
      ==> r == Failure(ParentPanic(parent.error))
    ensures r.Success? <==> paths.Success? && SourceExtension(c.source).Success? && parent.Success?
    ensures r.Success? ==>
      var custom := if customs.Some? then customs.value else [];
      r.value == Apply(Fixed(paths.value, c, SourceExtension(c.source).value, parent.value),
                       Apply(custom, RawInit(tpl, t, c.start)))
  {
    if paths.Failure? then Failure(SetupFailed(paths.error))
    else if SourceExtension(c.source).Failure? then Failure(SetupFailed(SourceExtension(c.source).error))
    else if parent.Failure? then Failure(ParentPanic(parent.error))
    else
      var p, ext := paths.value, SourceExtension(c.source).value;
      var raw := RawInit(tpl, t, c.start);
      var custom := if customs.Some? then customs.value else [];
      ApplyAppend(custom, Fixed(p, c, ext, parent.value), raw);
      Success(Apply(custom + Fixed(p, c, ext, parent.value), raw))
  }

  /** The generator only ever rewrites placeholders: a template in which no
      fixed placeholder and no custom pattern occurs comes out verbatim. */
  lemma InitDotLuaKeepsPlainText(
    tpl: Templates, c: Case, t: TestType,
    customs: Option<seq<Replacement>>, paths: ScriptPaths, parent: OsPath)
    requires Scripted(t)
    requires SourceExtension(c.source).Success? && PathsUtf8(paths, c.executable) && IsUtf8(parent)
    requires customs.Some? ==> AbsentPatterns(customs.value, RawInit(tpl, t, c.start))
    requires forall i :: 0 <= i < |Placeholders| ==> !Contains(RawInit(tpl, t, c.start), Placeholders[i])
    ensures InitDotLua(tpl, c, t, customs, Success(paths), Success(parent)) == Success(RawInit(tpl, t, c.start))
  {
    var raw := RawInit(tpl, t, c.start);
    var custom := if customs.Some? then customs.value else [];
    var fixed := Fixed(paths, c, SourceExtension(c.source).value, parent);
    ApplyAbsent(custom, raw);
    assert AbsentPatterns(fixed, raw) by { PlaceholdersNonEmpty(); }
    ApplyAbsent(fixed, raw);
  }

  lemma PlaceholdersNonEmpty()
    ensures forall i :: 0 <= i < |Placeholders| ==> Placeholders[i] != []
  {
  }

  /** Custom replacements run before the fixed chain, so a custom value may
      itself introduce a placeholder that the chain then fills in. */
  lemma CustomsRunFirst(
    tpl: Templates, c: Case, t: TestType,
    customs: seq<Replacement>, paths: ScriptPaths, parent: OsPath)
    requires Scripted(t)
    requires SourceExtension(c.source).Success? && PathsUtf8(paths, c.executable) && IsUtf8(parent)
    ensures InitDotLua(tpl, c, t, Some(customs), Success(paths), Success(parent))
      == Success(Apply(customs + Fixed(paths, c, SourceExtension(c.source).value, parent),
                       RawInit(tpl, t, c.start)))
  {
    ApplyAppend(customs, Fixed(paths, c, SourceExtension(c.source).value, parent), RawInit(tpl, t, c.start));
  }
}
