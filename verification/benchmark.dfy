/**
 The line-parsing half of `TestCase::get_benchmark_results`: the measurement
 file holds one nanosecond count per line; blank lines are skipped and a line
 that is not a `u64` makes the harness panic.
 */
module Benchmark {
  import opened Base
  import opened Text

  /** A line that failed to parse: the point where `unwrap` panics. */
  datatype Panic = Panic(line: string)

  /** The lines that are not empty, in their order (`filter(|line| !line.is_empty())`). */
  function NonBlank(lines: seq<string>): (kept: seq<string>)
    ensures forall i :: 0 <= i < |kept| ==> kept[i] != []
    ensures forall x :: x in kept <==> x in lines && x != []
  {
    if lines == [] then []
    else if lines[0] == [] then NonBlank(lines[1..])
    else [lines[0]] + NonBlank(lines[1..])
  }

  /** Every non-blank line must parse as a `u64`; the values come out in the
      order of the lines. The first line that does not parse is the panic. */
  function ParseLines(lines: seq<string>): (r: Result<seq<nat>, Panic>)
    ensures r.Success? <==> forall i :: 0 <= i < |lines| ==> lines[i] == [] || ParseUnsigned(lines[i], U64_LIMIT).Success?
    ensures r.Success? ==>
      && |r.value| == |NonBlank(lines)|
      && forall i :: 0 <= i < |r.value| ==> ParseUnsigned(NonBlank(lines)[i], U64_LIMIT) == Success(r.value[i])
    ensures r.Failure? ==> exists i :: 0 <= i < |lines| && FirstPanic(lines, i) && r.error == Panic(lines[i])
  {
    if lines == [] then Success([])
    else if lines[0] != [] && ParseUnsigned(lines[0], U64_LIMIT).Failure? then
      assert FirstPanic(lines, 0);
      Failure(Panic(lines[0]))
    else
      var rest := ParseLines(lines[1..]);
      AllParseStep(lines);
      if rest.Failure? then
        var i :| 0 <= i < |lines[1..]| && FirstPanic(lines[1..], i) && rest.error == Panic(lines[1..][i]);
        FirstPanicStep(lines, i);
        rest
      else
        var r := if lines[0] == [] then rest.value else [ParseUnsigned(lines[0], U64_LIMIT).value] + rest.value;
        ValuesStep(lines, rest.value, r);
        Success(r)
  }

  /** Whether every line is blank or parses, decided one line at a time. */
  lemma AllParseStep(lines: seq<string>)
    requires lines != []
    ensures (forall i :: 0 <= i < |lines| ==> lines[i] == [] || ParseUnsigned(lines[i], U64_LIMIT).Success?) <==>
      && (lines[0] == [] || ParseUnsigned(lines[0], U64_LIMIT).Success?)
      && forall i :: 0 <= i < |lines[1..]| ==> lines[1..][i] == [] || ParseUnsigned(lines[1..][i], U64_LIMIT).Success?
  {
    assert forall i :: 1 <= i < |lines| ==> lines[i] == lines[1..][i - 1];
  }

  /** A first line that is blank or parses leaves the first panic of the
      rest the first panic of the whole, one line further on. */
  lemma FirstPanicStep(lines: seq<string>, i: nat)
    requires lines != [] && (lines[0] == [] || ParseUnsigned(lines[0], U64_LIMIT).Success?)
    requires i < |lines[1..]| && FirstPanic(lines[1..], i)
    ensures FirstPanic(lines, i + 1) && lines[i + 1] == lines[1..][i]
  {
    assert forall j :: 1 <= j < |lines| ==> lines[j] == lines[1..][j - 1];
  }

  /** The values of a parsed first line and of the parsed rest are the
      values of the non-blank lines, in order. */
  lemma ValuesStep(lines: seq<string>, vs: seq<nat>, r: seq<nat>)
    requires lines != [] && (lines[0] == [] || ParseUnsigned(lines[0], U64_LIMIT).Success?)
    requires |vs| == |NonBlank(lines[1..])|
    requires forall i :: 0 <= i < |vs| ==> ParseUnsigned(NonBlank(lines[1..])[i], U64_LIMIT) == Success(vs[i])
    requires r == if lines[0] == [] then vs else [ParseUnsigned(lines[0], U64_LIMIT).value] + vs
    ensures |r| == |NonBlank(lines)|
    ensures forall i :: 0 <= i < |r| ==> ParseUnsigned(NonBlank(lines)[i], U64_LIMIT) == Success(r[i])
  {
    assert NonBlank(lines) == (if lines[0] == [] then [] else [lines[0]]) + NonBlank(lines[1..]);
  }

  /** Line `i` is the first non-blank line that is not a `u64`. */
  predicate FirstPanic(lines: seq<string>, i: nat)
    requires i < |lines|
  {
    && lines[i] != [] && ParseUnsigned(lines[i], U64_LIMIT).Failure?
    && forall j :: 0 <= j < i ==> lines[j] == [] || ParseUnsigned(lines[j], U64_LIMIT).Success?
  }

  /** Durations, in nanoseconds, read from the measurement file's contents. */
  function BenchmarkResults(contents: string): Result<seq<nat>, Panic> {
    ParseLines(Lines(contents))
  }

  /** The decimal rendering of each measurement. */
  function Decimals(ns: seq<nat>): (parts: seq<string>)
    ensures |parts| == |ns|
    ensures forall k, i :: 0 <= k < |parts| && 0 <= i < |parts[k]| ==> IsDigit(parts[k][i])
    ensures forall k :: 0 <= k < |parts| ==> parts[k] != [] && parts[k] == Decimal(ns[k])
  {
    if ns == [] then [] else [Decimal(ns[0])] + Decimals(ns[1..])
  }

  /** The measurement file: one decimal count per line, each ending in a newline. */
  function Render(ns: seq<nat>): string {
    if ns == [] then [] else Join(Decimals(ns), "\n") + "\n"
  }

  /** Filtering lines none of which is blank keeps them all. */
  lemma {:induction false} NonBlankKeepsAll(lines: seq<string>)
    requires forall i :: 0 <= i < |lines| ==> lines[i] != []
    ensures NonBlank(lines) == lines
  {
    if lines != [] {
      NonBlankKeepsAll(lines[1..]);
      assert lines == [lines[0]] + lines[1..];
    }
  }

  lemma ParseDecimals(ns: seq<nat>)
    requires forall i :: 0 <= i < |ns| ==> ns[i] < U64_LIMIT
    ensures ParseLines(Decimals(ns)) == Success(ns)
  {
    var parts := Decimals(ns);
    NonBlankKeepsAll(parts);
    forall i | 0 <= i < |ns| ensures ParseUnsigned(parts[i], U64_LIMIT) == Success(ns[i]) {
      DecimalRoundTrip(ns[i], U64_LIMIT);
    }
    var r := ParseLines(parts);
    assert r.Success?;
    assert r.value == ns;
  }

  /** The rendered file splits into its pieces at the newlines, and a last
      empty piece after the final newline. */
  lemma SplitRender(ns: seq<nat>)
    requires ns != []
    ensures Split(Render(ns), "\n") == Decimals(ns) + [[]]
  {
    var parts := Decimals(ns);
    assert Split([], "\n") == [[]];
    assert forall k, i :: 0 <= k < |parts| && 0 <= i < |parts[k]| ==> parts[k][i] != '\n';
    SplitAtSeparator(Join(parts, "\n"), '\n', []);
    JoinSplitRoundTrip(parts, '\n');
    assert Render(ns) == Join(parts, "\n") + ['\n'] + [];
  }

  /** A text ending in a newline whose pieces carry no trailing `\r` has
      those pieces as its lines. */
  lemma LinesOfTerminated(s: string, parts: seq<string>)
    requires Split(s, "\n") == parts + [[]]
    requires forall k :: 0 <= k < |parts| ==> StripCr(parts[k]) == parts[k]
    ensures Lines(s) == parts
  {
    var pieces := Split(s, "\n");
    assert pieces[..|pieces| - 1] == parts;
  }

  /** The lines of the rendered file are the rendered numbers. */
  lemma LinesOfRender(ns: seq<nat>)
    ensures Lines(Render(ns)) == Decimals(ns)
  {
    if ns != [] {
      var parts := Decimals(ns);
      SplitRender(ns);
      forall k | 0 <= k < |parts| ensures StripCr(parts[k]) == parts[k] {
        assert IsDigit(parts[k][|parts[k]| - 1]);
      }
      LinesOfTerminated(Render(ns), parts);
    }
  }

  /** Every measurement written to the file is read back unchanged. */
  lemma BenchmarkRoundTrip(ns: seq<nat>)
    requires forall i :: 0 <= i < |ns| ==> ns[i] < U64_LIMIT
    ensures BenchmarkResults(Render(ns)) == Success(ns)
  {
    LinesOfRender(ns);
    ParseDecimals(ns);
  }

  /** A file of one non-blank line that is not a `u64` panics on that line;
      this includes a number followed by a bare `\r`. */
  lemma BenchmarkRejectsLine(line: string)
    requires forall i :: 0 <= i < |line| ==> line[i] != '\n'
    requires line != [] && ParseUnsigned(line, U64_LIMIT).Failure?
    ensures BenchmarkResults(line) == Failure(Panic(line))
  {
    LinesOfOneLine(line);
    assert ParseLines([line]) == Failure(Panic(line));
  }

  /** `5\r` is one line whose `\r` is not a line ending, so it panics. */
  lemma BenchmarkRejectsBareCr()
    ensures BenchmarkResults("5\r") == Failure(Panic("5\r"))
  {
    var line := "5\r";
    assert line[1] == '\r' && !IsDigit(line[1]);
    assert Unsigned(line) == line;
    BenchmarkRejectsLine("5\r");
  }
}
