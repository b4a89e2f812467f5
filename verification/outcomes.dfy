/** Failure-compatible wrappers and the error taxonomy shared by the whole model.

    Every exception the modelled Java code can raise on the paths we model is
    an `Error` value here; an operation that may throw returns a `Result`.
 */
module Outcomes {

  datatype Option<+T> = None | Some(value: T)

  /** Why the embedding remote failed on one attempt. */
  datatype Cause =
    | Transport(detail: string)   // connection error, non-2xx status or the 30 s timeout
    | NullEmbeddings              // a body without an `embeddings` field: the null check dereferences null

  datatype Error =
    | StoreUnavailable            // the record store could not run the query
    | ClassCast(key: string)      // a string property of a node held a non-string value
    | Uncoercible(key: string)    // the `embedding` property was not a list of numbers
    | RemoteFailure(cause: Cause) // the last of the embedding attempts failed
    | Interrupted                 // the back-off sleep between two attempts was interrupted

  datatype Result<+T> = Success(value: T) | Failure(error: Error) {

    predicate IsFailure() {
      Failure?
    }

    function PropagateFailure<U>(): Result<U>
      requires Failure?
    {
      Failure(error)
    }

    function Extract(): T
      requires Success?
    {
      value
    }
  }

  /** Applies `f` to every element in order and stops at the first failure,
      as a Java stream `map` whose mapper throws does. */
  function MapAll<A, B>(xs: seq<A>, f: A -> Result<B>): (r: Result<seq<B>>)
    ensures r.Success? <==> forall i :: 0 <= i < |xs| ==> f(xs[i]).Success?
    ensures r.Success? ==> |r.value| == |xs|
    ensures r.Success? ==> forall i :: 0 <= i < |xs| ==> f(xs[i]) == Success(r.value[i])
    ensures r.Failure? ==>
              exists i :: 0 <= i < |xs| && f(xs[i]) == Failure(r.error)
                          && forall j :: 0 <= j < i ==> f(xs[j]).Success?
  {
    if |xs| == 0 then Success([])
    else
      var head :- f(xs[0]);
      var tail :- MapAll(xs[1..], f);
      var r := [head] + tail;
      assert forall i :: 1 <= i < |xs| ==> xs[i] == xs[1..][i - 1] && r[i] == tail[i - 1];
      Success(r)
  }
}
