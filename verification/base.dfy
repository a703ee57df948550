/**
 Failure-compatible wrappers shared by the whole model, and the one
 traversal every response cleaner is built from: map a fallible step over a
 sequence, stopping at the first failure (Rust's `?` inside a `for` loop).
 */
module Base {

  datatype Option<+T> = None | Some(value: T)

  datatype Result<+T, +E> = Success(value: T) | Failure(error: E) {
    predicate IsFailure() { Failure? }

    function PropagateFailure<U>(): Result<U, E>
      requires Failure?
    {
      Failure(error)
    }

    function Extract(): T
      requires Success?
    {
      value
    }
  }

  /** Apply `step` to every element in order; the first failing element aborts
      the whole traversal with its error, as `for x in &mut xs { *x = step(x)?; }`. */
  function Traverse<A, E>(xs: seq<A>, step: A -> Result<A, E>): (r: Result<seq<A>, E>)
    ensures r.Success? <==> forall i :: 0 <= i < |xs| ==> step(xs[i]).Success?
    ensures r.Success? ==> |r.value| == |xs|
    ensures r.Success? ==> forall i :: 0 <= i < |xs| ==> step(xs[i]) == Success(r.value[i])
    ensures r.Failure? ==>
      exists i :: 0 <= i < |xs| && step(xs[i]) == Failure(r.error)
        && forall j :: 0 <= j < i ==> step(xs[j]).Success?
  {
    if xs == [] then Success([])
    else
      match step(xs[0])
      case Failure(e) => Failure(e)
      case Success(y) =>
        match Traverse(xs[1..], step)
        case Failure(e) =>
          assert forall j :: 1 <= j < |xs| ==> xs[j] == xs[1..][j - 1];
          Failure(e)
        case Success(ys) => Success([y] + ys)
  }

  /** A step that succeeds with its input leaves the traversal an identity. */
  lemma {:induction false} TraverseIdentity<A, E>(xs: seq<A>, step: A -> Result<A, E>)
    requires forall i :: 0 <= i < |xs| ==> step(xs[i]) == Success(xs[i])
    ensures Traverse(xs, step) == Success(xs)
  {
    var r := Traverse(xs, step);
    assert r.Success?;
    assert r.value == xs;
  }
}
