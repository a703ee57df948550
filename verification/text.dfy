/**
 String helpers of the Rust standard library that the harness relies on:
 `str::starts_with`/`strip_prefix`, `str::replace`, `u32::to_string`,
 `str::parse::<u32>`/`parse::<u64>` and `str::lines`. Strings are `seq<char>`.
 */
module Text {
  import opened Base

  predicate StartsWith(s: string, prefix: string) {
    |prefix| <= |s| && s[..|prefix|] == prefix
  }

  /** `s` contains `pat` at some offset. */
  predicate Contains(s: string, pat: string) {
    exists k :: 0 <= k <= |s| - |pat| && StartsWith(s[k..], pat)
  }

  lemma {:induction false} ContainsStep(s: string, pat: string)
    requires s != [] && !StartsWith(s, pat)
    ensures Contains(s, pat) <==> Contains(s[1..], pat)
  {
    if Contains(s, pat) {
      var k :| 0 <= k <= |s| - |pat| && StartsWith(s[k..], pat);
      assert k != 0;
      assert s[1..][k - 1..] == s[k..];
    }
    if Contains(s[1..], pat) {
      var k :| 0 <= k <= |s[1..]| - |pat| && StartsWith(s[1..][k..], pat);
      assert s[k + 1..] == s[1..][k..];
    }
  }

  // ---------------------------------------------------------------------------
  // `str::replace`
  // ---------------------------------------------------------------------------

  /** `s.replace(pat, rep)`: every leftmost, non-overlapping occurrence of
      `pat` is replaced by `rep`. An empty pattern matches before every
      character and at the end, so `"ab".replace("", "x") == "xaxbx"`. */
  function ReplaceAll(s: string, pat: string, rep: string): string
    decreases |s|, |pat|
  {
    if pat == [] then
      if s == [] then rep else rep + [s[0]] + ReplaceAll(s[1..], pat, rep)
    else if s == [] then []
    else if StartsWith(s, pat) then rep + ReplaceAll(s[|pat|..], pat, rep)
    else [s[0]] + ReplaceAll(s[1..], pat, rep)
  }

  /** Pieces of `s` between the leftmost non-overlapping occurrences of a
      non-empty `pat` (`str::split`). There is always at least one piece. */
  function Split(s: string, pat: string): (parts: seq<string>)
    requires pat != []
    ensures |parts| >= 1
    decreases |s|
  {
    if s == [] then [[]]
    else if StartsWith(s, pat) then [[]] + Split(s[|pat|..], pat)
    else
      var rest := Split(s[1..], pat);
      [[s[0]] + rest[0]] + rest[1..]
  }

  /** `parts.join(sep)`. */
  function Join(parts: seq<string>, sep: string): string
    requires |parts| >= 1
  {
    if |parts| == 1 then parts[0] else parts[0] + sep + Join(parts[1..], sep)
  }

  lemma {:induction false} JoinConsChar(c: char, parts: seq<string>, sep: string)
    requires |parts| >= 1
    ensures Join([[c] + parts[0]] + parts[1..], sep) == [c] + Join(parts, sep)
  {
    var ps := [[c] + parts[0]] + parts[1..];
    if |parts| > 1 {
      assert ps[1..] == parts[1..];
    }
  }

  /** Replacing a non-empty pattern is splitting at its occurrences and
      joining the pieces with the replacement. */
  lemma {:induction false} ReplaceIsSplitJoin(s: string, pat: string, rep: string)
    requires pat != []
    ensures ReplaceAll(s, pat, rep) == Join(Split(s, pat), rep)
    decreases |s|
  {
    if s == [] {
    } else if StartsWith(s, pat) {
      var tail := s[|pat|..];
      var pieces := Split(tail, pat);
      ReplaceIsSplitJoin(tail, pat, rep);
      assert ReplaceAll(s, pat, rep) == rep + ReplaceAll(tail, pat, rep);
      var parts := [[]] + pieces;
      assert Split(s, pat) == parts;
      assert parts[1..] == pieces;
      assert Join(parts, rep) == [] + rep + Join(pieces, rep);
    } else {
      var pieces := Split(s[1..], pat);
      ReplaceIsSplitJoin(s[1..], pat, rep);
      assert ReplaceAll(s, pat, rep) == [s[0]] + ReplaceAll(s[1..], pat, rep);
      assert Split(s, pat) == [[s[0]] + pieces[0]] + pieces[1..];
      JoinConsChar(s[0], pieces, rep);
    }
  }

  /** Replacing a pattern by itself changes nothing. */
  lemma {:induction false} ReplaceBySelf(s: string, pat: string)
    requires pat != []
    ensures ReplaceAll(s, pat, pat) == s
    decreases |s|
  {
    if s == [] {
    } else if StartsWith(s, pat) {
      ReplaceBySelf(s[|pat|..], pat);
      assert s == s[..|pat|] + s[|pat|..];
    } else {
      ReplaceBySelf(s[1..], pat);
      assert s == [s[0]] + s[1..];
    }
  }

  /** Splitting and re-joining with the same separator restores the input:
      the pieces and the matched occurrences together make up `s`. */
  lemma SplitJoinRoundTrip(s: string, pat: string)
    requires pat != []
    ensures Join(Split(s, pat), pat) == s
  {
    ReplaceIsSplitJoin(s, pat, pat);
    ReplaceBySelf(s, pat);
  }

  /** A non-empty pattern that does not occur leaves the text unchanged. */
  lemma {:induction false} ReplaceAbsent(s: string, pat: string, rep: string)
    requires pat != [] && !Contains(s, pat)
    ensures ReplaceAll(s, pat, rep) == s
    decreases |s|
  {
    if s != [] {
      assert s[0..] == s;
      ContainsStep(s, pat);
      ReplaceAbsent(s[1..], pat, rep);
      assert s == [s[0]] + s[1..];
    }
  }

  /** No occurrence of `pat` starts inside `a`, even one that runs on into a
      `pat` placed right after it. */
  predicate NoMatchBefore(a: string, pat: string) {
    forall k :: 0 <= k < |a| ==> !StartsWith((a + pat)[k..], pat)
  }

  /** Whether a text long enough for the pattern starts with it does not
      depend on what follows. */
  lemma StartsWithLong(s: string, t: string, pat: string)
    requires |s| >= |pat|
    ensures StartsWith(s + t, pat) <==> StartsWith(s, pat)
  {
    assert (s + t)[..|pat|] == s[..|pat|];
  }

  lemma NoMatchBeforeTail(a: string, pat: string)
    requires a != [] && NoMatchBefore(a, pat)
    ensures NoMatchBefore(a[1..], pat)
  {
    forall k | 0 <= k < |a[1..]| ensures !StartsWith((a[1..] + pat)[k..], pat) {
      assert (a[1..] + pat)[k..] == (a + pat)[k + 1..];
    }
  }

  /** A text that starts with a non-empty `a` free of the pattern does not
      start with the pattern. */
  lemma NoMatchAtHead(a: string, pat: string, b: string)
    requires a != [] && NoMatchBefore(a, pat)
    ensures !StartsWith(a + pat + b, pat)
  {
    assert (a + pat)[0..] == a + pat;
    assert a + pat + b == (a + pat) + b;
    StartsWithLong(a + pat, b, pat);
  }

  lemma ReplaceAtHead(pat: string, b: string, rep: string)
    requires pat != []
    ensures ReplaceAll(pat + b, pat, rep) == rep + ReplaceAll(b, pat, rep)
  {
    var s := pat + b;
    assert s[..|pat|] == pat && s[|pat|..] == b;
  }

  /** A first character that does not start the pattern is kept in front of
      the replaced rest. */
  lemma ReplaceSkipsHead(c: char, t: string, pat: string, rep: string)
    requires pat != [] && !StartsWith([c] + t, pat)
    ensures ReplaceAll([c] + t, pat, rep) == [c] + ReplaceAll(t, pat, rep)
  {
    assert ([c] + t)[1..] == t;
  }

  lemma HeadRegroup(a: string, x: string, y: string)
    requires a != []
    ensures a + x + y == [a[0]] + (a[1..] + x + y)
  {
    assert a == [a[0]] + a[1..];
  }

  /** The first occurrence after a prefix free of the pattern is the one
      replaced first: the prefix is kept and the rest is replaced in turn. */
  lemma {:induction false} ReplaceAfterFreePrefix(a: string, pat: string, b: string, rep: string)
    requires pat != [] && NoMatchBefore(a, pat)
    ensures ReplaceAll(a + pat + b, pat, rep) == a + rep + ReplaceAll(b, pat, rep)
    decreases |a|
  {
    if a == [] {
      assert a + pat + b == pat + b;
      ReplaceAtHead(pat, b, rep);
    } else {
      var c, tail := a[0], a[1..];
      NoMatchBeforeTail(a, pat);
      ReplaceAfterFreePrefix(tail, pat, b, rep);
      NoMatchAtHead(a, pat, b);
      HeadRegroup(a, pat, b);
      ReplaceSkipsHead(c, tail + pat + b, pat, rep);
      HeadRegroup(a, rep, ReplaceAll(b, pat, rep));
    }
  }

  /** With a one-character separator, a separator placed between two texts
      splits exactly there. */
  lemma {:induction false} SplitAtSeparator(a: string, c: char, b: string)
    ensures Split(a + [c] + b, [c]) == Split(a, [c]) + Split(b, [c])
    decreases |a|
  {
    var s := a + [c] + b;
    if a == [] {
      assert s == [c] + b;
      assert s[1..] == b;
    } else if a[0] == c {
      assert StartsWith(s, [c]);
      assert s[1..] == a[1..] + [c] + b;
      SplitAtSeparator(a[1..], c, b);
    } else {
      assert s[..1][0] == a[..1][0] == a[0];
      assert s[1..] == a[1..] + [c] + b;
      SplitAtSeparator(a[1..], c, b);
    }
  }

  /** A text without the separator is a single piece. */
  lemma {:induction false} SplitWithoutSeparator(a: string, c: char)
    requires forall i :: 0 <= i < |a| ==> a[i] != c
    ensures Split(a, [c]) == [a]
    decreases |a|
  {
    if a != [] {
      assert a[..1][0] == a[0];
      SplitWithoutSeparator(a[1..], c);
      assert a == [a[0]] + a[1..];
    }
  }

  /** Joining pieces free of a one-character separator and splitting again
      gives the pieces back. */
  lemma {:induction false} JoinSplitRoundTrip(parts: seq<string>, c: char)
    requires |parts| >= 1
    requires forall k, i :: 0 <= k < |parts| && 0 <= i < |parts[k]| ==> parts[k][i] != c
    ensures Split(Join(parts, [c]), [c]) == parts
  {
    if |parts| == 1 {
      SplitWithoutSeparator(parts[0], c);
    } else {
      var first, rest := parts[0], parts[1..];
      assert forall k, i :: 0 <= k < |rest| && 0 <= i < |rest[k]| ==> rest[k][i] == parts[k + 1][i];
      JoinSplitRoundTrip(rest, c);
      assert Join(parts, [c]) == first + [c] + Join(rest, [c]);
      SplitAtSeparator(first, c, Join(rest, [c]));
      SplitWithoutSeparator(first, c);
      assert parts == [first] + rest;
    }
  }

  // ---------------------------------------------------------------------------
  // Decimal numbers: `n.to_string()` and `s.parse::<u32>()` / `parse::<u64>()`
  // ---------------------------------------------------------------------------

  const U32_LIMIT: nat := 0x1_0000_0000
  const U64_LIMIT: nat := 0x1_0000_0000_0000_0000

  predicate IsDigit(c: char) { '0' <= c <= '9' }

  function DigitChar(d: nat): (c: char)
    requires d < 10
    ensures IsDigit(c)
  {
    ['0', '1', '2', '3', '4', '5', '6', '7', '8', '9'][d]
  }

  function DigitValue(c: char): (d: nat)
    requires IsDigit(c)
    ensures d < 10 && DigitChar(d) == c
  {
    (c as int - '0' as int) as nat
  }

  /** `n.to_string()`: shortest decimal rendering, no sign, no leading zero. */
  function Decimal(n: nat): (s: string)
    ensures |s| >= 1
    ensures forall i :: 0 <= i < |s| ==> IsDigit(s[i])
    ensures s[0] == '0' ==> n == 0
  {
    if n < 10 then [DigitChar(n)] else Decimal(n / 10) + [DigitChar(n % 10)]
  }

  /** The value of a non-empty string of decimal digits. */
  function DigitsValue(s: string): nat
    requires forall i :: 0 <= i < |s| ==> IsDigit(s[i])
  {
    if s == [] then 0 else DigitsValue(s[..|s| - 1]) * 10 + DigitValue(s[|s| - 1])
  }

  predicate AllDigits(s: string) {
    forall i :: 0 <= i < |s| ==> IsDigit(s[i])
  }

  datatype ParseError = Empty | InvalidDigit | PosOverflow

  /** The digits after an optional leading `+`. */
  function Unsigned(s: string): string
    requires s != []
  {
    if s[0] == '+' then s[1..] else s
  }

  /** The value of `digits` read left to right, starting from `acc`. */
  function DigitsFrom(acc: nat, digits: string): nat
    requires AllDigits(digits)
    decreases |digits|
  {
    if digits == [] then acc else DigitsFrom(acc * 10 + DigitValue(digits[0]), digits[1..])
  }

  /** The digit loop of `from_str_radix`: characters are taken left to right;
      a non-digit fails with `InvalidDigit`, and a digit that takes the value
      to `limit` or beyond fails with `PosOverflow` on the spot, before any
      later character is looked at. */
  function Scan(digits: string, acc: nat, limit: nat): (r: Result<nat, ParseError>)
    ensures r.Failure? ==> r.error != Empty
    decreases |digits|
  {
    if digits == [] then Success(acc)
    else if !IsDigit(digits[0]) then Failure(InvalidDigit)
    else
      var v := acc * 10 + DigitValue(digits[0]);
      if v >= limit then Failure(PosOverflow) else Scan(digits[1..], v, limit)
  }

  /** `s.parse::<uN>()` for an unsigned type whose values are below `limit`:
      empty text is `Empty`; a lone `+` is `InvalidDigit`; otherwise the digits
      after an optional `+` are scanned left to right, so the first offending
      character decides between `InvalidDigit` and `PosOverflow`. Leading
      zeros are accepted. */
  function ParseUnsigned(s: string, limit: nat): (r: Result<nat, ParseError>)
    ensures r == Failure(Empty) <==> s == []
    ensures r.Success? <==>
      s != [] && Unsigned(s) != [] && AllDigits(Unsigned(s)) && DigitsValue(Unsigned(s)) < limit
    ensures r.Success? ==> r.value == DigitsValue(Unsigned(s)) && r.value < limit
  {
    if s == [] then Failure(Empty)
    else
      var digits := Unsigned(s);
      if digits == [] then Failure(InvalidDigit)
      else
        ScanMeaning(digits, limit);
        if limit == 0 then Failure(PosOverflow) else Scan(digits, 0, limit)
  }

  /** Reading one more digit at the end multiplies by ten and adds it. */
  lemma {:induction false} DigitsFromSnoc(acc: nat, digits: string, c: char)
    requires AllDigits(digits) && IsDigit(c)
    ensures DigitsFrom(acc, digits + [c]) == DigitsFrom(acc, digits) * 10 + DigitValue(c)
    decreases |digits|
  {
    if digits == [] {
      assert ([] + [c])[1..] == [];
    } else {
      assert (digits + [c])[1..] == digits[1..] + [c];
      DigitsFromSnoc(acc * 10 + DigitValue(digits[0]), digits[1..], c);
    }
  }

  /** Left to right from zero is the usual value of a digit string. */
  lemma {:induction false} DigitsFromZero(digits: string)
    requires AllDigits(digits)
    ensures DigitsFrom(0, digits) == DigitsValue(digits)
    decreases |digits|
  {
    if digits != [] {
      var init := digits[..|digits| - 1];
      DigitsFromZero(init);
      DigitsFromSnoc(0, init, digits[|digits| - 1]);
      assert init + [digits[|digits| - 1]] == digits;
    }
  }

  /** Reading further digits never lowers the value. */
  lemma {:induction false} DigitsFromGrows(acc: nat, digits: string)
    requires AllDigits(digits)
    ensures DigitsFrom(acc, digits) >= acc
    decreases |digits|
  {
    if digits != [] {
      DigitsFromGrows(acc * 10 + DigitValue(digits[0]), digits[1..]);
    }
  }

  /** The scan succeeds exactly on digit strings whose value stays below the
      limit, and then returns that value. */
  lemma {:induction false} ScanValue(digits: string, acc: nat, limit: nat)
    requires acc < limit
    ensures Scan(digits, acc, limit).Success? <==> AllDigits(digits) && DigitsFrom(acc, digits) < limit
    ensures Scan(digits, acc, limit).Success? ==> Scan(digits, acc, limit).value == DigitsFrom(acc, digits)
    decreases |digits|
  {
    if digits != [] {
      if !IsDigit(digits[0]) {
        assert !AllDigits(digits);
      } else {
        var v := acc * 10 + DigitValue(digits[0]);
        assert AllDigits(digits) <==> AllDigits(digits[1..]) by {
          if AllDigits(digits[1..]) {
            assert forall i :: 1 <= i < |digits| ==> digits[i] == digits[1..][i - 1];
          }
        }
        if v >= limit {
          if AllDigits(digits) {
            DigitsFromGrows(v, digits[1..]);
          }
        } else {
          ScanValue(digits[1..], v, limit);
        }
      }
    }
  }

  /** The scan from zero in terms of the usual value. */
  lemma ScanMeaning(digits: string, limit: nat)
    ensures limit > 0 ==>
      && (Scan(digits, 0, limit).Success? <==> AllDigits(digits) && DigitsValue(digits) < limit)
      && (Scan(digits, 0, limit).Success? ==> Scan(digits, 0, limit).value == DigitsValue(digits))
  {
    if limit > 0 {
      ScanValue(digits, 0, limit);
      if AllDigits(digits) {
        DigitsFromZero(digits);
      }
    }
  }

  /** Digits read without overflow hand their value on to the rest of the text. */
  lemma {:induction false} ScanAppend(digits: string, rest: string, acc: nat, limit: nat)
    requires acc < limit && AllDigits(digits) && DigitsFrom(acc, digits) < limit
    ensures Scan(digits + rest, acc, limit) == Scan(rest, DigitsFrom(acc, digits), limit)
    decreases |digits|
  {
    if digits != [] {
      var v := acc * 10 + DigitValue(digits[0]);
      assert (digits + rest)[0] == digits[0];
      assert (digits + rest)[1..] == digits[1..] + rest;
      assert AllDigits(digits[1..]);
      DigitsFromGrows(v, digits[1..]);
      ScanAppend(digits[1..], rest, v, limit);
    } else {
      assert digits + rest == rest;
    }
  }

  /** An overflow is reported as soon as it happens: a digit prefix whose value
      already reaches the limit decides the error, whatever follows it. */
  lemma {:induction false} ScanOverflowFirst(digits: string, rest: string, acc: nat, limit: nat)
    requires acc < limit && digits != [] && AllDigits(digits) && DigitsFrom(acc, digits) >= limit
    ensures Scan(digits + rest, acc, limit) == Failure(PosOverflow)
    decreases |digits|
  {
    var v := acc * 10 + DigitValue(digits[0]);
    assert (digits + rest)[0] == digits[0];
    assert (digits + rest)[1..] == digits[1..] + rest;
    if v < limit {
      assert AllDigits(digits[1..]);
      ScanOverflowFirst(digits[1..], rest, v, limit);
    }
  }

  /** Overflow is reported exactly when some all-digit prefix of the digits
      already reaches the limit; any other failure is an invalid digit. */
  lemma ParseOverflowIff(s: string, limit: nat)
    requires s != [] && Unsigned(s) != [] && limit > 0
    ensures ParseUnsigned(s, limit) == Failure(PosOverflow) <==>
      exists k :: 0 < k <= |Unsigned(s)| && AllDigits(Unsigned(s)[..k]) && DigitsValue(Unsigned(s)[..k]) >= limit
  {
    var d := Unsigned(s);
    if exists k :: 0 < k <= |d| && AllDigits(d[..k]) && DigitsValue(d[..k]) >= limit {
      var k :| 0 < k <= |d| && AllDigits(d[..k]) && DigitsValue(d[..k]) >= limit;
      DigitsFromZero(d[..k]);
      ScanOverflowFirst(d[..k], d[k..], 0, limit);
      assert d[..k] + d[k..] == d;
    } else {
      forall k | 0 < k <= |d| && AllDigits(d[..k]) ensures DigitsFrom(0, d[..k]) < limit {
        DigitsFromZero(d[..k]);
      }
      NoOverflowPrefix(d, 0, limit);
    }
  }

  /** Without an overflowing digit prefix the scan never reports overflow. */
  lemma {:induction false} NoOverflowPrefix(d: string, acc: nat, limit: nat)
    requires acc < limit
    requires forall k :: 0 < k <= |d| && AllDigits(d[..k]) ==> DigitsFrom(acc, d[..k]) < limit
    ensures Scan(d, acc, limit) != Failure(PosOverflow)
    decreases |d|
  {
    if d != [] && IsDigit(d[0]) {
      var v := acc * 10 + DigitValue(d[0]);
      assert d[..1][1..] == [];
      assert DigitsFrom(acc, d[..1]) == v;
      forall k | 0 < k <= |d[1..]| && AllDigits(d[1..][..k])
        ensures DigitsFrom(v, d[1..][..k]) < limit
      {
        assert d[..k + 1][0] == d[0] && d[..k + 1][1..] == d[1..][..k];
        assert AllDigits(d[..k + 1]);
      }
      NoOverflowPrefix(d[1..], v, limit);
    }
  }

  lemma {:induction false} DecimalValue(n: nat)
    ensures DigitsValue(Decimal(n)) == n
  {
    if n >= 10 {
      DecimalValue(n / 10);
      var s, c := Decimal(n), DigitChar(n % 10);
      assert s == Decimal(n / 10) + [c];
      assert s[..|s| - 1] == Decimal(n / 10) && s[|s| - 1] == c;
      assert DigitValue(c) == n % 10;
    }
  }

  /** Rendering a number in decimal and parsing it back yields the number,
      for every value of the parsed type. */
  lemma DecimalRoundTrip(n: nat, limit: nat)
    requires n < limit
    ensures ParseUnsigned(Decimal(n), limit) == Success(n)
  {
    DecimalValue(n);
  }

  lemma {:induction false} DecimalInjective(m: nat, n: nat)
    ensures Decimal(m) == Decimal(n) ==> m == n
  {
    if Decimal(m) == Decimal(n) {
      DecimalValue(m);
      DecimalValue(n);
    }
  }

  // ---------------------------------------------------------------------------
  // `str::lines`
  // ---------------------------------------------------------------------------

  /** `s.lines()`: the pieces between `\n`s. A piece followed by `\n` loses
      one trailing `\r`, since `\r\n` also ends a line; the last piece,
      followed by no newline, is a line only when it is not empty, and keeps
      a trailing `\r`. */
  function Lines(s: string): seq<string> {
    var pieces := Split(s, "\n");
    var n := |pieces| - 1;
    var ended := seq(n, i requires 0 <= i < n => StripCr(pieces[i]));
    if pieces[n] == [] then ended else ended + [pieces[n]]
  }

  /** A text without newlines is one line, kept as it is, unless it is empty. */
  lemma LinesOfOneLine(s: string)
    requires forall i :: 0 <= i < |s| ==> s[i] != '\n'
    ensures Lines(s) == if s == [] then [] else [s]
  {
    SplitWithoutSeparator(s, '\n');
  }

  /** A line ended by `\r\n` loses both characters. */
  lemma LinesCrLf(a: string)
    requires forall i :: 0 <= i < |a| ==> a[i] != '\n'
    ensures Lines(a + "\r\n") == [a]
  {
    var b := a + ['\r'];
    assert forall i :: 0 <= i < |b| ==> b[i] != '\n';
    SplitAtSeparator(b, '\n', []);
    SplitWithoutSeparator(b, '\n');
    assert Split([], "\n") == [[]];
    assert a + "\r\n" == b + ['\n'] + [];
    assert StripCr(b) == a;
  }

  /** A number too large for the type fails with `PosOverflow` whatever
      follows its digits, a letter included: `99999999999a` is an overflow
      for `u32`, not an invalid digit. */
  lemma OverflowBeforeInvalidDigit(n: nat, rest: string, limit: nat)
    requires 0 < limit <= n
    ensures ParseUnsigned(Decimal(n) + rest, limit) == Failure(PosOverflow)
  {
    var d := Decimal(n);
    assert (d + rest)[0] == d[0] && Unsigned(d + rest) == d + rest;
    DecimalValue(n);
    DigitsFromZero(d);
    ScanOverflowFirst(d, rest, 0, limit);
  }

  function StripCr(line: string): string {
    if line != [] && line[|line| - 1] == '\r' then line[..|line| - 1] else line
  }
}
