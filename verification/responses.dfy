/**
 The canned responses the fixture server returns for `textDocument/references`
 and `textDocument/formatting`, selected by the response number.
 */
module Responses {
  import opened Base
  import opened Text
  import opened Lsp
  import opened TestServer

  /** The range of the `k`-th (0-based) item of every fixture family. */
  function FixtureRange(k: nat): Range {
    Range(Position(4 * k + 1, 4 * k + 2), Position(4 * k + 3, 4 * k + 4))
  }

  const R0: Range := Range(Position(1, 2), Position(3, 4))
  const R1: Range := Range(Position(5, 6), Position(7, 8))
  const R2: Range := Range(Position(9, 10), Position(11, 12))

  /** `get_references_response`. */
  function ReferencesResponse(n: nat): (r: Option<seq<Location>>)
    ensures r.Some? <==> n <= 3
    ensures r.Some? ==>
      && |r.value| == n
      && forall k :: 0 <= k < n ==> r.value[k] == Location(Uri(SourcePath), FixtureRange(k))
  {
    var uri := Uri(SourcePath);
    if n == 0 then Some([])
    else if n == 1 then Some([Location(uri, R0)])
    else if n == 2 then Some([Location(uri, R0), Location(uri, R1)])
    else if n == 3 then Some([Location(uri, R0), Location(uri, R1), Location(uri, R2)])
    else None
  }

  /** The text of the `k`-th (0-based) formatting edit. */
  function EditText(k: nat): string {
    "new_text " + Decimal(k + 1)
  }

  lemma EditTexts()
    ensures EditText(0) == "new_text 1" && EditText(1) == "new_text 2" && EditText(2) == "new_text 3"
  {
  }

  /** `get_formatting_response`. */
  function FormattingResponse(n: nat): (r: Option<seq<TextEdit>>)
    ensures r.Some? <==> n <= 3
    ensures r.Some? ==>
      && |r.value| == n
      && forall k :: 0 <= k < n ==> r.value[k] == TextEdit(FixtureRange(k), EditText(k))
  {
    EditTexts();
    var e0 := TextEdit(R0, "new_text 1");
    var e1 := TextEdit(R1, "new_text 2");
    var e2 := TextEdit(R2, "new_text 3");
    if n == 0 then Some([])
    else if n == 1 then Some([e0])
    else if n == 2 then Some([e0, e1])
    else if n == 3 then Some([e0, e1, e2])
    else None
  }

  /** Each reference response extends the previous one by one location. */
  lemma ReferencesGrow(n: nat)
    requires n < 3
    ensures ReferencesResponse(n).value == ReferencesResponse(n + 1).value[..n]
  {
    var a, b := ReferencesResponse(n).value, ReferencesResponse(n + 1).value;
    assert forall k :: 0 <= k < n ==> a[k] == b[k];
  }

  /** Each formatting response extends the previous one by one edit. */
  lemma FormattingGrows(n: nat)
    requires n < 3
    ensures FormattingResponse(n).value == FormattingResponse(n + 1).value[..n]
  {
    var a, b := FormattingResponse(n).value, FormattingResponse(n + 1).value;
    assert forall k :: 0 <= k < n ==> a[k] == b[k];
  }

  /** Fixture items never repeat: every range in a response is distinct. */
  lemma FixtureRangesDistinct(j: nat, k: nat)
    requires j != k
    ensures FixtureRange(j) != FixtureRange(k)
  {
  }
}
