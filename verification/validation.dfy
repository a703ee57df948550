/**
 `TestCase::validate_path`: a test file path must be relative and its joined
 path must start with the test's source root. `Path::starts_with` compares
 components lexically, so the model spells out Unix path components,
 `PathBuf::push` and component-prefix comparison.
 */
module Validation {
  import opened Base
  import opened Text
  import opened Harness

  datatype Component = RootDir | ParentDir | Normal(name: string)

  predicate IsAbsolute(p: string) {
    p != [] && p[0] == '/'
  }

  /** Components of the '/'-separated pieces: empty pieces and `.` vanish,
      `..` is a parent-directory step. */
  function PieceComponents(pieces: seq<string>): (cs: seq<Component>)
    ensures forall i :: 0 <= i < |cs| ==> !cs[i].RootDir?
  {
    if pieces == [] then []
    else
      var head :=
        if pieces[0] == [] || pieces[0] == "." then []
        else if pieces[0] == ".." then [ParentDir]
        else [Normal(pieces[0])];
      head + PieceComponents(pieces[1..])
  }

  lemma {:induction false} PieceComponentsAppend(a: seq<string>, b: seq<string>)
    ensures PieceComponents(a + b) == PieceComponents(a) + PieceComponents(b)
  {
    if a == [] {
      assert a + b == b;
    } else {
      assert (a + b)[0] == a[0];
      assert (a + b)[1..] == a[1..] + b;
      PieceComponentsAppend(a[1..], b);
    }
  }

  /** `Path::components` on Unix. */
  function Components(p: string): seq<Component> {
    (if IsAbsolute(p) then [RootDir] else []) + PieceComponents(Split(p, "/"))
  }

  /** `PathBuf::push`: an absolute path replaces the base; otherwise a
      separator is inserted unless the base is empty or already ends in one. */
  function Push(base: string, p: string): string {
    if IsAbsolute(p) then p
    else if base == [] || base[|base| - 1] == '/' then base + p
    else base + "/" + p
  }

  /** `Path::starts_with`: the base's components are a prefix of the path's. */
  predicate PathStartsWith(path: string, base: string) {
    var pc := Components(path);
    var bc := Components(base);
    |bc| <= |pc| && pc[..|bc|] == bc
  }

  /** `Path::starts_with` compares whole components, not characters: `a`
      is a string prefix of `ab` but not a path prefix, while `a/b` starts
      with `a`. */
  lemma PathStartsWithIsComponentwise()
    ensures StartsWith("ab", "a") && !PathStartsWith("ab", "a")
    ensures PathStartsWith("a/b", "a")
  {
    SplitWithoutSeparator("ab", '/');
    SplitWithoutSeparator("a", '/');
    SplitWithoutSeparator("b", '/');
    SplitAtSeparator("a", '/', "b");
    assert "a/b" == "a" + ['/'] + "b";
    assert "ab" != "." && "ab" != ".." && "a" != "." && "a" != "..";
    assert Components("ab") == [Normal("ab")];
    assert Components("a") == [Normal("a")];
    assert "ab" != "a";
    var pc := Components("ab");
    assert pc[..1] == [Normal("ab")] != [Normal("a")];
  }

  /** `validate_path`. `first` and `second` are the outcomes of the two
      `get_source_file_path` calls that find (and create) the source directory
      `/tmp/lspresso-shot/<id>/src`; their IO errors propagate by `?`, the first
      call's before the second's. The root is the first directory pushed with
      the empty path, the full path is the second pushed with the input. */
  function ValidatePath(first: Result<string, SetupError>, second: Result<string, SetupError>,
                        input: string): (r: Result<Unit, SetupError>)
    ensures first.Failure? ==> r == Failure(first.error)
    ensures first.Success? && second.Failure? ==> r == Failure(second.error)
    ensures first.Success? && second.Success? && r.Failure? ==> r.error == InvalidFilePath(input)
    ensures IsAbsolute(input) ==> r.Failure?
  {
    if first.Failure? then Failure(first.error)
    else if second.Failure? then Failure(second.error)
    else
      var root := Push(first.value, "");
      var full := Push(second.value, input);
      if full == [] || IsAbsolute(input) || !PathStartsWith(full, root) then
        Failure(InvalidFilePath(input))
      else
        Success(Unit)
  }

  /** The pieces of `stem/input` are those of `stem/` followed by the input's. */
  lemma PiecesAfterSeparator(stem: string, input: string)
    ensures PieceComponents(Split(stem + "/" + input, "/"))
      == PieceComponents(Split(stem + "/", "/")) + PieceComponents(Split(input, "/"))
  {
    var a, b, e := Split(stem, "/"), Split(input, "/"), Split("", "/");
    assert stem + "/" + input == stem + ['/'] + input;
    assert stem + "/" == stem + ['/'] + "";
    SplitAtSeparator(stem, '/', input);
    SplitAtSeparator(stem, '/', "");
    assert PieceComponents(e) == [];
    PieceComponentsAppend(a, b);
    PieceComponentsAppend(a, e);
  }

  /** Two paths with the same first character whose pieces differ by a
      suffix have components that differ by the same suffix. */
  lemma ComponentsExtend(full: string, base: string, y: seq<Component>)
    requires full != [] && base != [] && full[0] == base[0]
    requires PieceComponents(Split(full, "/")) == PieceComponents(Split(base, "/")) + y
    ensures Components(full) == Components(base) + y
  {
    var pre: seq<Component> := if IsAbsolute(base) then [RootDir] else [];
    var x := PieceComponents(Split(base, "/"));
    assert Components(full) == pre + (x + y);
  }

  /** Components of `stem/input` for a relative `input`: those of `stem/`
      followed by the input's own. */
  lemma ComponentsAfterSeparator(stem: string, input: string)
    ensures Components(stem + "/" + input) == Components(stem + "/") + PieceComponents(Split(input, "/"))
  {
    var full, base := stem + "/" + input, stem + "/";
    PiecesAfterSeparator(stem, input);
    assert |base| <= |full| && full[..|base|] == base;
    ComponentsExtend(full, base, PieceComponents(Split(input, "/")));
  }

  /** Pushing a relative path appends exactly its components to those of the
      base pushed with the empty path. */
  lemma PushRelativeComponents(src: string, input: string)
    requires src != [] && !IsAbsolute(input)
    ensures Components(Push(src, input)) == Components(Push(src, "")) + PieceComponents(Split(input, "/"))
  {
    var last := |src| - 1;
    var stem := if src[last] == '/' then src[..last] else src;
    if src[last] == '/' {
      assert src == stem + "/";
    }
    assert Push(src, input) == stem + "/" + input;
    assert Push(src, "") == stem + "/";
    ComponentsAfterSeparator(stem, input);
  }

  /** As written, the component check never rejects anything: a path is
      accepted exactly when it is relative. */
  lemma ValidatePathAcceptsEveryRelative(src: string, input: string)
    requires src != []
    ensures ValidatePath(Success(src), Success(src), input).Success? <==> !IsAbsolute(input)
  {
    if !IsAbsolute(input) {
      PushRelativeComponents(src, input);
    }
  }

  /** So a relative path that climbs out of the test directory is accepted. */
  lemma ValidatePathAcceptsEscape(src: string)
    requires src != []
    ensures ValidatePath(Success(src), Success(src), "../../etc/passwd").Success?
  {
    ValidatePathAcceptsEveryRelative(src, "../../etc/passwd");
  }

  // ---------------------------------------------------------------------------
  // Corrected check: reject relative paths that climb above their start
  // ---------------------------------------------------------------------------

  /** Lexical normalisation: `..` removes the preceding normal component. */
  function NormalizeFrom(stack: seq<Component>, cs: seq<Component>): seq<Component>
    decreases |cs|
  {
    if cs == [] then stack
    else
      var next :=
        if cs[0] == ParentDir && stack != [] && stack[|stack| - 1].Normal? then stack[..|stack| - 1]
        else if cs[0] == ParentDir && stack != [] && stack[|stack| - 1] == RootDir then stack
        else stack + [cs[0]];
      NormalizeFrom(next, cs[1..])
  }

  function Normalize(cs: seq<Component>): seq<Component> {
    NormalizeFrom([], cs)
  }

  lemma {:induction false} NormalizeFromAppend(stack: seq<Component>, a: seq<Component>, b: seq<Component>)
    ensures NormalizeFrom(stack, a + b) == NormalizeFrom(NormalizeFrom(stack, a), b)
    decreases |a|
  {
    if a == [] {
      assert a + b == b;
    } else {
      assert (a + b)[0] == a[0];
      assert (a + b)[1..] == a[1..] + b;
      var next :=
        if a[0] == ParentDir && stack != [] && stack[|stack| - 1].Normal? then stack[..|stack| - 1]
        else if a[0] == ParentDir && stack != [] && stack[|stack| - 1] == RootDir then stack
        else stack + [a[0]];
      NormalizeFromAppend(next, a[1..], b);
    }
  }

  /** Walking `cs` from `depth` normal components deep never climbs above the start. */
  predicate StaysWithin(depth: nat, cs: seq<Component>)
    decreases |cs|
  {
    if cs == [] then true
    else if cs[0] == ParentDir then depth > 0 && StaysWithin(depth - 1, cs[1..])
    else StaysWithin(if cs[0].Normal? then depth + 1 else depth, cs[1..])
  }

  predicate AllNormal(cs: seq<Component>) {
    forall i :: 0 <= i < |cs| ==> cs[i].Normal?
  }

  lemma {:induction false} NormalizeKeepsBase(base: seq<Component>, extra: seq<Component>, cs: seq<Component>)
    requires AllNormal(extra)
    requires forall i :: 0 <= i < |cs| ==> !cs[i].RootDir?
    requires StaysWithin(|extra|, cs)
    ensures
      var r := NormalizeFrom(base + extra, cs);
      |base| <= |r| && r[..|base|] == base
    decreases |cs|
  {
    if cs != [] {
      var stack := base + extra;
      if cs[0] == ParentDir {
        assert stack[|stack| - 1] == extra[|extra| - 1];
        assert stack[..|stack| - 1] == base + extra[..|extra| - 1];
        NormalizeKeepsBase(base, extra[..|extra| - 1], cs[1..]);
      } else {
        assert stack + [cs[0]] == base + (extra + [cs[0]]);
        NormalizeKeepsBase(base, extra + [cs[0]], cs[1..]);
      }
    }
  }

  /** The evidently intended check: the same directory lookups, and besides
      being relative, the path must not climb above the source root once `..`
      steps are resolved. */
  function ValidatePathContained(first: Result<string, SetupError>, second: Result<string, SetupError>,
                                 input: string): (r: Result<Unit, SetupError>)
    ensures first.Failure? ==> r == Failure(first.error)
    ensures first.Success? && second.Failure? ==> r == Failure(second.error)
    ensures r.Success? ==> !IsAbsolute(input)
    ensures first.Success? && second.Success? && r.Failure? ==> r.error == InvalidFilePath(input)
  {
    if first.Failure? then Failure(first.error)
    else if second.Failure? then Failure(second.error)
    else if IsAbsolute(input) || !StaysWithin(0, Components(input)) then Failure(InvalidFilePath(input))
    else Success(Unit)
  }

  /** Every accepted path stays under the source root after normalisation. */
  lemma ValidatePathContainedStaysUnderRoot(src: string, input: string)
    requires src != []
    requires ValidatePathContained(Success(src), Success(src), input).Success?
    ensures
      var root := Normalize(Components(Push(src, "")));
      var full := Normalize(Components(Push(src, input)));
      |root| <= |full| && full[..|root|] == root
  {
    PushRelativeComponents(src, input);
    var rc := Components(Push(src, ""));
    var ic := PieceComponents(Split(input, "/"));
    assert Components(input) == ic;
    NormalizeFromAppend([], rc, ic);
    NormalizeKeepsBase(Normalize(rc), [], ic);
    assert Normalize(rc) + [] == Normalize(rc);
  }

  /** The corrected check turns away every path that starts by climbing out
      (`../…`) ... */
  lemma ValidatePathContainedRejectsParent(src: string, rest: string)
    ensures ValidatePathContained(Success(src), Success(src), "../" + rest).Failure?
  {
    var input := "../" + rest;
    assert input == ".." + "/" + rest;
    SplitAtSeparator("..", '/', rest);
    SplitWithoutSeparator("..", '/');
    PieceComponentsAppend([".."], Split(rest, "/"));
    assert Components(input)[0] == ParentDir;
  }

  /** ... and still accepts a plain file name. */
  lemma ValidatePathContainedAcceptsName(src: string, name: string)
    requires name != [] && name != "." && name != ".." && name[0] != '/'
    requires forall i :: 0 <= i < |name| ==> name[i] != '/'
    ensures ValidatePathContained(Success(src), Success(src), name).Success?
  {
    SplitWithoutSeparator(name, '/');
    assert [name][1..] == [];
    assert PieceComponents([name]) == [Normal(name)] + PieceComponents([]);
    assert Components(name) == [Normal(name)];
    assert [Normal(name)][1..] == [];
    assert StaysWithin(1, []);
    assert StaysWithin(0, [Normal(name)]);
  }

  /** On paths it accepts, the corrected check agrees with the original, for
      the same outcomes of the directory lookups. */
  lemma ValidatePathContainedRefines(first: Result<string, SetupError>, second: Result<string, SetupError>,
                                     input: string)
    requires first.Success? && second.Success? ==> first.value == second.value != []
    ensures ValidatePathContained(first, second, input).Success? ==> ValidatePath(first, second, input).Success?
  {
    if first.Success? && second.Success? {
      ValidatePathAcceptsEveryRelative(first.value, input);
    }
  }
}
