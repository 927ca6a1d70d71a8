/** Failure-compatible result types shared by the model. */
module Wrappers {

  /** A value that may be absent, as BeautifulSoup's `.string` or `.find(...)` may be. */
  datatype Option<+T> = None | Some(value: T) {

    predicate IsFailure() {
      None?
    }

    function PropagateFailure<U>(): Option<U>
      requires None?
    {
      None
    }

    function Extract(): T
      requires Some?
    {
      value
    }

    /** The value, or the given error when it is absent. */
    function ToResult<E>(error: E): (r: Result<T, E>)
      ensures r.Success? <==> Some?
      ensures Some? ==> r.value == value
      ensures None? ==> r.error == error
    {
      match this
      case Some(v) => Success(v)
      case None => Failure(error)
    }
  }

  /** Either a computed value or the reason the computation was aborted. */
  datatype Result<+T, +E> = Success(value: T) | Failure(error: E) {

    predicate IsFailure() {
      Failure?
    }

    function PropagateFailure<U>(): Result<U, E>
      requires Failure?
    {
      Failure(error)
    }

    function Extract(): T
      requires Success?
    {
      value
    }

    /** The same outcome, with the error converted. */
    function MapFailure<F>(convert: E -> F): (r: Result<T, F>)
      ensures r.Success? <==> Success?
      ensures Success? ==> r.value == value
      ensures Failure? ==> r.error == convert(error)
    {
      match this
      case Success(v) => Success(v)
      case Failure(e) => Failure(convert(e))
    }
  }

  /**
   * `f` applied to every element in order; the first failure aborts the whole sequence
   * and becomes its outcome.
   */
  function MapAll<A, B, E>(xs: seq<A>, f: A -> Result<B, E>): (r: Result<seq<B>, E>)
    ensures r.Success? <==> forall i :: 0 <= i < |xs| ==> f(xs[i]).Success?
    ensures r.Success? ==> |r.value| == |xs| && forall i :: 0 <= i < |xs| ==> f(xs[i]) == Success(r.value[i])
    ensures r.Failure? ==>
      exists i :: 0 <= i < |xs| && f(xs[i]) == Failure(r.error) && forall j :: 0 <= j < i ==> f(xs[j]).Success?
  {
    if xs == [] then Success([])
    else
      match f(xs[0])
      case Failure(e) =>
        assert f(xs[0]) == Failure(e);
        Failure(e)
      case Success(first) =>
        var rest := MapAll(xs[1..], f);
        if rest.Failure? then
          ghost var i :| 0 <= i < |xs| - 1 && f(xs[1..][i]) == Failure(rest.error)
            && forall j :: 0 <= j < i ==> f(xs[1..][j]).Success?;
          assert f(xs[i + 1]) == Failure(rest.error);
          assert forall j :: 0 < j < i + 1 ==> xs[j] == xs[1..][j - 1];
          Failure(rest.error)
        else
          assert forall i :: 0 < i < |xs| ==> xs[i] == xs[1..][i - 1];
          Success([first] + rest.value)
  }

  /** Conversely, an element that succeeds followed by elements that succeed gives their values in order. */
  lemma MapAllCons<A, B, E>(x: A, xs: seq<A>, f: A -> Result<B, E>, y: B, ys: seq<B>)
    requires f(x) == Success(y)
    requires MapAll(xs, f) == Success(ys)
    ensures MapAll([x] + xs, f) == Success([y] + ys)
  {
    var all := [x] + xs;
    assert all[0] == x && all[1..] == xs;
  }
}
