/** Option and Result values used for the error paths of the converter. */
module Wrappers {

  datatype Option<T> = None | Some(value: T)

  /** An operation that either yields a value or fails with an error. */
  datatype Result<T, E> = Success(value: T) | Failure(error: E)

  /** The ways the parsing and replay steps fail; each one stands for a
      Python exception or an explicit `sys.exit` in the converter. */
  datatype Error =
    | MalformedMetadata     // first two log lines are not `Name` / `Branch`
    | MalformedHeader       // header line with too few tokens (IndexError)
    | MalformedAuthor       // author blob does not match `name (email)`
    | MalformedDate         // date does not parse as `%a %b %d %H:%M:%S %Y`
    | MalformedProgress     // a `k=v` pair of the progress note does not split in two
    | MalformedConfig       // CONARY lacks line 2 or a `:` in it
    | UpdateFailed          // `cvc update` reported an error

  /** `f` applied to each element in order, stopping at the first failure,
      as a loop that raises on a bad element does. */
  function MapResult<T, U, E>(f: T -> Result<U, E>, xs: seq<T>): Result<seq<U>, E>
    decreases |xs|
  {
    if |xs| == 0 then Success([])
    else
      var init := xs[..|xs| - 1];
      match MapResult(f, init)
      case Failure(e) => Failure(e)
      case Success(ys) =>
        match f(xs[|xs| - 1])
        case Failure(e) => Failure(e)
        case Success(y) => Success(ys + [y])
  }

  /** The mapping succeeds exactly when `f` succeeds on every element, and
      then holds `f`'s results in order; otherwise it fails with the error
      of the first element on which `f` fails. */
  lemma {:induction false} MapResultMeaning<T, U, E>(f: T -> Result<U, E>, xs: seq<T>)
    ensures MapResult(f, xs).Success? <==> forall k :: 0 <= k < |xs| ==> f(xs[k]).Success?
    ensures MapResult(f, xs).Success? ==> var ys := MapResult(f, xs).value;
      |ys| == |xs| && forall k :: 0 <= k < |xs| ==> f(xs[k]) == Success(ys[k])
    ensures MapResult(f, xs).Failure? ==> exists k :: 0 <= k < |xs| && f(xs[k]) == Failure(MapResult(f, xs).error) && forall j :: 0 <= j < k ==> f(xs[j]).Success?
    decreases |xs|
  {
    if |xs| > 0 {
      var init := xs[..|xs| - 1];
      MapResultMeaning(f, init);
      assert forall k :: 0 <= k < |init| ==> init[k] == xs[k];
    }
  }

  /** One more element: its result is appended, or its failure is the
      failure of the whole. */
  lemma MapResultSnoc<T, U, E>(f: T -> Result<U, E>, xs: seq<T>, x: T)
    requires MapResult(f, xs).Success?
    ensures MapResult(f, xs + [x]) == if f(x).Success? then Success(MapResult(f, xs).value + [f(x).value]) else Failure(f(x).error)
  {
    assert (xs + [x])[..|xs|] == xs;
  }

  /** Elements after a failure are never looked at. */
  lemma {:induction false} MapResultFailurePersists<T, U, E>(f: T -> Result<U, E>, xs: seq<T>, more: seq<T>)
    requires MapResult(f, xs).Failure?
    ensures MapResult(f, xs + more) == MapResult(f, xs)
    decreases |more|
  {
    if |more| > 0 {
      var init := more[..|more| - 1];
      MapResultFailurePersists(f, xs, init);
      var all := xs + more;
      assert all[..|all| - 1] == xs + init;
      assert MapResult(f, all[..|all| - 1]).Failure?;
    } else {
      assert xs + more == xs;
    }
  }
}
