/** Failure-compatible datatypes: `Option` for values pandas would leave as NaN or
    a dict lookup that may miss, `Result` for operations that raise. */
module Wrappers {

  datatype Option<+T> = None | Some(value: T) {

    /** The wrapped value, or `default` when there is none (Python's `dict.get(k, default)`). */
    function GetOr(default: T): T
    {
      match this
      case Some(v) => v
      case None => default
    }
  }

  datatype Result<+T, +E> = Success(value: T) | Failure(error: E) {

    predicate IsFailure() {
      Failure?
    }

    function PropagateFailure<U>(): Result<U, E>
      requires Failure?
    {
      Failure(error)
    }

    function Extract(): T
      requires Success?
    {
      value
    }
  }

  /** `f` applied to every element in order, stopping at the first failure the way a
      Python loop lets the first exception propagate. */
  function MapAll<T, U, E(==)>(xs: seq<T>, f: T -> Result<U, E>): (r: Result<seq<U>, E>)
    ensures r.Success? <==> forall i :: 0 <= i < |xs| ==> f(xs[i]).Success?
    ensures r.Success? ==> |r.value| == |xs|
    ensures r.Success? ==> forall i :: 0 <= i < |xs| ==> r.value[i] == f(xs[i]).value
    ensures r.Failure? ==>
      exists i :: 0 <= i < |xs| && f(xs[i]).Failure? && r.error == f(xs[i]).error
        && forall j :: 0 <= j < i ==> f(xs[j]).Success?
  {
    if |xs| == 0 then Success([])
    else
      var head :- f(xs[0]);
      var rest := MapAll(xs[1..], f);
      assert forall i :: 1 <= i < |xs| ==> xs[i] == xs[1..][i - 1];
      if rest.Failure? then
        var k :| 0 <= k < |xs[1..]| && f(xs[1..][k]).Failure? && rest.error == f(xs[1..][k]).error
          && forall j :: 0 <= j < k ==> f(xs[1..][j]).Success?;
        assert f(xs[k + 1]).Failure?;
        Failure(rest.error)
      else
        Success([head] + rest.value)
  }
}

/** The exceptions the modelled code raises, one constructor per distinct cause. */
module Errors {

  datatype Error =
    | FractionsDoNotSumToOne          // ValueError in both split functions
    | NegativeFraction                // the corrected split's extra range check
    | MissingPopularityTable          // ValueError: item_pop must be provided
    | UnknownStrategy(name: string)   // ValueError: unknown sampling strategy
    | InvalidProbabilities            // numpy refuses NaN or negative probabilities
    | EmptyCandidatePool              // numpy refuses to choose from an empty array
    | RandomStreamExhausted           // the draws ran out: the source would keep looping
    | MissingColumn(name: string)     // pandas KeyError on a column that is not there
    | NotAnInteger                    // int() / astype(int) of NaN or of text
    | NotATimestamp                   // pd.to_datetime of a cell that is not a time
    | MissingKey(key: int)            // a lookup in a Python dict that misses
    | InvalidRequest                  // HTTP 422: the request body fails validation
    | UnknownUser(userId: string)     // HTTP 404: no catalogue row for the user
    | UnknownItems(ids: seq<string>)  // HTTP 404: candidates with no catalogue row, sorted
}
