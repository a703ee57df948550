/**
 Pure helpers of the fixture language server used by the harness's own test
 suite: the name of the source file, the test directory a URI lies in, and
 the response number handed from the test to the server through a file.
 */
module TestServer {
  import opened Base
  import opened Text

  /** The source file every fixture test opens. */
  const SourcePath: string := "main.dummy"

  /** The directory name under which every test directory is created. */
  const Marker: string := "lspresso-shot"

  // ---------------------------------------------------------------------------
  // `str::find` and the digit scan
  // ---------------------------------------------------------------------------

  /** Leftmost occurrence of `pat` in `s` at or after `i`. */
  function FindFrom(s: string, pat: string, i: nat): (r: Option<nat>)
    ensures r.Some? ==>
      && i <= r.value && r.value + |pat| <= |s| && StartsWith(s[r.value..], pat)
      && forall m :: i <= m < r.value ==> !StartsWith(s[m..], pat)
    ensures r.None? ==> forall m :: i <= m <= |s| - |pat| ==> !StartsWith(s[m..], pat)
    decreases |s| - i
  {
    if i + |pat| > |s| then None
    else if StartsWith(s[i..], pat) then Some(i)
    else FindFrom(s, pat, i + 1)
  }

  /** `s.find(pat)`: the offset of the leftmost occurrence, if any. */
  function Find(s: string, pat: string): (r: Option<nat>)
    ensures r.None? <==> !Contains(s, pat)
    ensures r.Some? ==>
      && r.value + |pat| <= |s| && StartsWith(s[r.value..], pat)
      && forall m :: 0 <= m < r.value ==> !StartsWith(s[m..], pat)
  {
    FindFrom(s, pat, 0)
  }

  /** Index of the first non-digit of `s` at or after `i`, if any. */
  function NonDigitFrom(s: string, i: nat): (r: Option<nat>)
    ensures r.Some? ==>
      && i <= r.value < |s| && !IsDigit(s[r.value])
      && forall m :: i <= m < r.value ==> IsDigit(s[m])
    ensures r.None? ==> forall m :: i <= m < |s| ==> IsDigit(s[m])
    decreases |s| - i
  {
    if i >= |s| then None
    else if !IsDigit(s[i]) then Some(i)
    else NonDigitFrom(s, i + 1)
  }

  // ---------------------------------------------------------------------------
  // `get_root_test_path`
  // ---------------------------------------------------------------------------

  /** The test directory of a URI path: everything up to the first non-digit
      that follows `lspresso-shot` and one separator. None when the marker is
      absent or the digits run to the end of the path. Paths are taken to be
      ASCII, where byte offsets and character offsets agree. */
  function RootTestPath(path: string): (r: Option<string>)
    ensures !Contains(path, Marker) ==> r.None?
    ensures r.Some? ==>
      && Find(path, Marker).Some?
      && var id := Find(path, Marker).value + |Marker| + 1;
         && id <= |r.value| < |path| && r.value == path[..|r.value|]
         && !IsDigit(path[|r.value|])
         && forall m :: id <= m < |r.value| ==> IsDigit(path[m])
  {
    match Find(path, Marker)
    case None => None
    case Some(k) =>
      match NonDigitFrom(path, k + |Marker| + 1)
      case None => None
      case Some(j) => Some(path[..j])
  }

  /** No occurrence of the marker starts inside `prefix`. */
  predicate MarkerFree(prefix: string) {
    NoMatchBefore(prefix, Marker)
  }

  /** After a marker-free prefix, the first marker is the one that follows it. */
  lemma FindAfterFreePrefix(prefix: string, after: string)
    requires MarkerFree(prefix)
    ensures Find(prefix + Marker + after, Marker) == Some(|prefix|)
  {
    var path := prefix + Marker + after;
    var head := prefix + Marker;
    assert path == head + after;
    assert path[|prefix|..][..|Marker|] == Marker;
    forall m | 0 <= m < |prefix| ensures !StartsWith(path[m..], Marker) {
      assert path[m..] == head[m..] + after;
      StartsWithLong(head[m..], after, Marker);
    }
  }

  /** Digits from `start` up to a non-digit at `start + |id|` end the scan there. */
  lemma NonDigitAfterId(path: string, start: nat, id: string)
    requires AllDigits(id) && start + |id| < |path| && !IsDigit(path[start + |id|])
    requires path[start..start + |id|] == id
    ensures NonDigitFrom(path, start) == Some(start + |id|)
  {
    assert forall m :: start <= m < start + |id| ==> path[m] == id[m - start];
  }

  /** A test URI `<prefix>lspresso-shot/<id><rest>`, whose id is all digits
      and whose rest starts with a non-digit, yields `<prefix>lspresso-shot/<id>`. */
  lemma RootTestPathOfTestUri(prefix: string, sep: char, id: string, rest: string)
    requires MarkerFree(prefix)
    requires AllDigits(id) && rest != [] && !IsDigit(rest[0])
    ensures RootTestPath(prefix + Marker + [sep] + id + rest)
      == Some(prefix + Marker + [sep] + id)
  {
    var root := prefix + Marker + [sep] + id;
    var path := root + rest;
    assert path == prefix + Marker + ([sep] + id + rest);
    FindAfterFreePrefix(prefix, [sep] + id + rest);
    var start := |prefix| + |Marker| + 1;
    assert path[start..start + |id|] == id;
    assert path[start + |id|] == rest[0];
    NonDigitAfterId(path, start, id);
    assert path[..start + |id|] == root;
  }

  /** A path outside any test directory has no test root. */
  lemma RootTestPathOutside(path: string)
    requires !Contains(path, Marker)
    ensures RootTestPath(path).None?
  {
  }

  /** When the digits after the marker run to the end, there is no root. */
  lemma RootTestPathUnterminated(prefix: string, sep: char, id: string)
    requires MarkerFree(prefix) && AllDigits(id)
    ensures RootTestPath(prefix + Marker + [sep] + id).None?
  {
    var path := prefix + Marker + [sep] + id;
    assert path == prefix + Marker + ([sep] + id);
    FindAfterFreePrefix(prefix, [sep] + id);
    var start := |prefix| + |Marker| + 1;
    assert forall m :: start <= m < |path| ==> path[m] == id[m - start];
  }

  // ---------------------------------------------------------------------------
  // The response number
  // ---------------------------------------------------------------------------

  /** `send_response_num`: the contents written to `RESPONSE_NUM.txt`. */
  function ResponseNumContents(n: nat): (s: string)
    requires n < U32_LIMIT
    ensures s != [] && AllDigits(s)
  {
    Decimal(n)
  }

  datatype ReceiveError = ReadFailed(message: string) | BadContents(reason: ParseError)

  /** `receive_response_num`: a failed read passes its error on; the contents
      must parse as a `u32` in full, with no surrounding whitespace. */
  function ReceiveResponseNum(read: Result<string, string>): (r: Result<nat, ReceiveError>)
    ensures read.Failure? ==> r == Failure(ReadFailed(read.error))
    ensures r.Success? ==> r.value < U32_LIMIT
    ensures read.Success? ==> (r.Success? <==> ParseUnsigned(read.value, U32_LIMIT).Success?)
    ensures read.Success? && read.value == [] ==> r == Failure(BadContents(Empty))
    ensures read.Success? && r.Success? ==>
      read.value != [] && AllDigits(Unsigned(read.value)) && r.value == DigitsValue(Unsigned(read.value))
    ensures read.Success? && r.Failure? ==> r.error == BadContents(ParseUnsigned(read.value, U32_LIMIT).error)
  {
    match read
    case Failure(e) => Failure(ReadFailed(e))
    case Success(contents) =>
      match ParseUnsigned(contents, U32_LIMIT)
      case Success(n) => Success(n)
      case Failure(e) => Failure(BadContents(e))
  }

  /** Writing a number and reading the file back yields the number. */
  lemma ResponseNumRoundTrip(n: nat)
    requires n < U32_LIMIT
    ensures ReceiveResponseNum(Success(ResponseNumContents(n))) == Success(n)
  {
    DecimalRoundTrip(n, U32_LIMIT);
  }

  /** A leading `+` and leading zeros are accepted: the contents need not be
      what `send_response_num` writes. */
  lemma SignedAndPaddedContents()
    ensures ReceiveResponseNum(Success("+5")) == Success(5)
    ensures ReceiveResponseNum(Success("007")) == Success(7)
  {
  }

  /** Contents with a trailing newline are not a number. */
  lemma TrailingNewlineRejected(n: nat)
    requires n < U32_LIMIT
    ensures ReceiveResponseNum(Success(ResponseNumContents(n) + "\n"))
      == Failure(BadContents(InvalidDigit))
  {
    var d := ResponseNumContents(n);
    var s := d + "\n";
    assert s[0] != '+' && Unsigned(s) == s;
    DecimalValue(n);
    DigitsFromZero(d);
    ScanAppend(d, "\n", 0, U32_LIMIT);
  }
}
