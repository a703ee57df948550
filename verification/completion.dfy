/**
 `CompletionResult::results_satisfy`: an exact expectation is compared with
 `==`, a `Contains` expectation by striking each actual item off a copy of the
 expected list, first match first.
 */
module Completion {
  /** A completion item; the fields the harness never reads apart are kept
      whole, since the comparison is plain equality on items. */
  datatype CompletionItem = CompletionItem(labelText: string, kind: int, detail: string, rest: string)

  datatype CompletionResponse =
    | Array(items: seq<CompletionItem>)
    | List(isIncomplete: bool, items: seq<CompletionItem>)

  datatype CompletionResult = Exact(response: CompletionResponse) | Contains(expected: seq<CompletionItem>)

  /** Removes the first occurrence of `x`, if there is one. */
  function RemoveFirst<T(==)>(xs: seq<T>, x: T): (r: seq<T>)
    ensures multiset(r) == multiset(xs) - multiset{x}
    ensures x in xs ==> |r| == |xs| - 1
    ensures x !in xs ==> r == xs
  {
    if xs == [] then []
    else if xs[0] == x then
      assert xs == [xs[0]] + xs[1..];
      xs[1..]
    else
      assert xs == [xs[0]] + xs[1..];
      [xs[0]] + RemoveFirst(xs[1..], x)
  }

  /** What is left of `expected` after every actual item, in order, struck
      off its first equal remaining entry. */
  function Remaining<T(==)>(expected: seq<T>, actual: seq<T>): seq<T>
    decreases |actual|
  {
    if actual == [] then expected else Remaining(RemoveFirst(expected, actual[0]), actual[1..])
  }

  /** Greedy striking-off computes multiset difference. */
  lemma {:induction false} RemainingIsDifference<T>(expected: seq<T>, actual: seq<T>)
    ensures multiset(Remaining(expected, actual)) == multiset(expected) - multiset(actual)
    decreases |actual|
  {
    if actual != [] {
      var x, rest := actual[0], actual[1..];
      var e' := RemoveFirst(expected, x);
      assert Remaining(expected, actual) == Remaining(e', rest);
      RemainingIsDifference(e', rest);
      assert multiset(e') == multiset(expected) - multiset{x};
      assert actual == [x] + rest;
      assert multiset(actual) == multiset{x} + multiset(rest);
      DifferenceOfSum(multiset(expected), multiset{x}, multiset(rest));
    }
  }

  lemma DifferenceOfSum<T>(a: multiset<T>, b: multiset<T>, c: multiset<T>)
    ensures (a - b) - c == a - (b + c)
  {
    forall x ensures ((a - b) - c)[x] == (a - (b + c))[x] { }
  }

  function Items(r: CompletionResponse): seq<CompletionItem> {
    match r
    case Array(items) => items
    case List(_, items) => items
  }

  /** Nothing is left after striking off the actual items exactly when the
      expected items are a sub-multiset of them. */
  lemma NothingRemainsIffIncluded<T>(es: seq<T>, items: seq<T>)
    ensures Remaining(es, items) == [] <==> multiset(es) <= multiset(items)
  {
    RemainingIsDifference(es, items);
    var A, B := multiset(es), multiset(items);
    if A <= B {
      assert A - B == multiset{} by {
        forall x ensures (A - B)[x] == 0 { }
      }
    }
    if A - B == multiset{} {
      forall x ensures A[x] <= B[x] {
        assert (A - B)[x] == 0;
      }
    }
  }

  /** `results_satisfy`: a `Contains` expectation holds exactly when its items
      form a sub-multiset of the actual items; an `Exact` one exactly when
      the responses are equal. */
  function ResultsSatisfy(expected: CompletionResult, actual: CompletionResponse): (r: bool)
    ensures expected.Contains? ==> (r <==> multiset(expected.expected) <= multiset(Items(actual)))
    ensures expected.Exact? ==> (r <==> expected.response == actual)
  {
    match expected
    case Contains(es) =>
      NothingRemainsIffIncluded(es, Items(actual));
      Remaining(es, Items(actual)) == []
    case Exact(e) =>
      match (e, actual)
      case (Array(x), Array(y)) => x == y
      case (List(xi, x), List(yi, y)) => xi == yi && x == y
      case _ => false
  }

  /** `Contains(e)` holds exactly when every item occurs among the actual
      items at least as often as in `e`. */
  lemma ContainsIsMultisetInclusion(es: seq<CompletionItem>, actual: CompletionResponse)
    ensures ResultsSatisfy(Contains(es), actual) <==> multiset(es) <= multiset(Items(actual))
  {
  }

  /** `Contains` reads only the items: neither the order of the actual items,
      nor the response variant, nor `is_incomplete` affects it. */
  lemma ContainsIgnoresOrderAndVariant(es: seq<CompletionItem>, a: CompletionResponse, b: CompletionResponse)
    requires multiset(Items(a)) == multiset(Items(b))
    ensures ResultsSatisfy(Contains(es), a) == ResultsSatisfy(Contains(es), b)
  {
    ContainsIsMultisetInclusion(es, a);
    ContainsIsMultisetInclusion(es, b);
  }

  /** Expecting nothing is satisfied by every response. */
  lemma ContainsNothing(actual: CompletionResponse)
    ensures ResultsSatisfy(Contains([]), actual)
  {
    ContainsIsMultisetInclusion([], actual);
  }

  /** A missing item fails a `Contains` expectation. */
  lemma ContainsMissingFails(es: seq<CompletionItem>, actual: CompletionResponse, x: CompletionItem)
    requires x in es && x !in Items(actual)
    ensures !ResultsSatisfy(Contains(es), actual)
  {
    ContainsIsMultisetInclusion(es, actual);
    assert multiset(es)[x] > 0 == multiset(Items(actual))[x];
  }

  /** `Exact` is plain equality of responses: order-sensitive, and never
      satisfied across variants, not even by two empty lists. */
  lemma ExactIsEquality(e: CompletionResponse, actual: CompletionResponse)
    ensures ResultsSatisfy(Exact(e), actual) <==> e == actual
    ensures ResultsSatisfy(Exact(e), e)
    ensures !ResultsSatisfy(Exact(Array([])), List(false, []))
  {
  }
}
