/**
 Formatting results: a failed formatting test compares buffer text, so its
 `TestError<String>` is lifted into `TestError<StateOrResponse<Vec<TextEdit>>>`
 by wrapping each side as a `State`.
 */
module Formatting {
  import opened Base
  import opened Lsp
  import opened Harness

  type FormattingResponse = StateOrResponse<seq<TextEdit>>

  function LiftState(e: TestError<string>): (r: TestError<FormattingResponse>)
    ensures r.ResponseMismatch? <==> e.ResponseMismatch?
    ensures e.ResponseMismatch? ==>
      && r.testId == e.testId
      && (r.expected.Some? <==> e.expected.Some?)
      && (r.actual.Some? <==> e.actual.Some?)
      && (e.expected.Some? ==> r.expected.value == State(e.expected.value))
      && (e.actual.Some? ==> r.actual.value == State(e.actual.value))
    ensures e.TestExecution? ==> r == TestExecution(e.execution)
    ensures e.TestSetup? ==> r == TestSetup(e.setup)
  {
    match e
    case ResponseMismatch(id, expected, actual) =>
      ResponseMismatch(id, MapOption(expected, (t: string) => State(t)), MapOption(actual, (t: string) => State(t)))
    case TestSetup(s) => TestSetup(s)
    case TestExecution(x) => TestExecution(x)
  }

  function StateSide(o: Option<FormattingResponse>): Option<Option<string>> {
    match o
    case None => Some(None)
    case Some(State(t)) => Some(Some(t))
    case Some(Response(_)) => None
  }

  /** Reads a lifted error back as a text error; a `Response` side has none. */
  function UnliftState(e: TestError<FormattingResponse>): Option<TestError<string>> {
    match e
    case ResponseMismatch(id, expected, actual) =>
      (match (StateSide(expected), StateSide(actual))
       case (Some(x), Some(y)) => Some(ResponseMismatch(id, x, y))
       case _ => None)
    case TestSetup(s) => Some(TestSetup(s))
    case TestExecution(x) => Some(TestExecution(x))
  }

  lemma LiftStateRoundTrip(e: TestError<string>)
    ensures UnliftState(LiftState(e)) == Some(e)
  {
  }

  /** A lifted text mismatch with a side present is never mistaken for a
      lifted edit-list mismatch. */
  lemma LiftsDisagree(e: TestError<string>, f: TestError<seq<TextEdit>>)
    requires e.ResponseMismatch? && (e.expected.Some? || e.actual.Some?)
    ensures LiftState(e) != LiftResponse(f)
  {
  }
}
