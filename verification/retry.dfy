/** The retry policy shared by every fetch (`stop_after_attempt(3)`): the
    decorated body runs until it returns, at most three times; every exception is
    retried alike, and after the third failure the call fails. Waiting between
    attempts takes wall-clock time only and is not modelled. */
module Retry {

  import opened Wrappers

  const MaxAttempts: nat := 3

  /** How one run of the decorated body ended. */
  datatype Attempt<T> = Returned(value: T) | Raised

  /** The result of the retried call and how many runs it took. */
  datatype Retried<T> = Retried(result: Option<T>, made: nat)

  function RetryFrom<T>(attempts: seq<Attempt<T>>, k: nat): (r: Retried<T>)
    requires k < |attempts|
    decreases |attempts| - k
  {
    match attempts[k]
    case Returned(v) => Retried(Some(v), k + 1)
    case Raised => if k + 1 == |attempts| then Retried(None, |attempts|) else RetryFrom(attempts, k + 1)
  }

  /** Runs the body until the first return; `attempts[i]` is how run `i` would end. */
  function RetryCall<T>(attempts: seq<Attempt<T>>): (r: Retried<T>)
    requires |attempts| == MaxAttempts
    ensures 1 <= r.made <= MaxAttempts
    ensures forall i :: 0 <= i < r.made - 1 ==> attempts[i].Raised?
    ensures r.result.Some? ==> attempts[r.made - 1] == Returned(r.result.value)
    ensures r.result.None? <==> forall i :: 0 <= i < MaxAttempts ==> attempts[i].Raised?
    ensures r.result.None? ==> r.made == MaxAttempts
  {
    RetryFromSpec(attempts, 0);
    RetryFrom(attempts, 0)
  }

  lemma {:induction false} RetryFromSpec<T>(attempts: seq<Attempt<T>>, k: nat)
    requires k < |attempts|
    requires forall i :: 0 <= i < k ==> attempts[i].Raised?
    ensures var r := RetryFrom(attempts, k);
      && k + 1 <= r.made <= |attempts|
      && (forall i :: 0 <= i < r.made - 1 ==> attempts[i].Raised?)
      && (r.result.Some? ==> attempts[r.made - 1] == Returned(r.result.value))
      && (r.result.None? <==> forall i :: 0 <= i < |attempts| ==> attempts[i].Raised?)
      && (r.result.None? ==> r.made == |attempts|)
    decreases |attempts| - k
  {
    if attempts[k].Raised? && k + 1 < |attempts| {
      RetryFromSpec(attempts, k + 1);
    }
  }

  /** The first run that returns decides the result, and no further run is made. */
  lemma FirstReturnWins<T>(attempts: seq<Attempt<T>>, k: nat)
    requires |attempts| == MaxAttempts && k < MaxAttempts
    requires forall i :: 0 <= i < k ==> attempts[i].Raised?
    requires attempts[k].Returned?
    ensures RetryCall(attempts) == Retried(Some(attempts[k].value), k + 1)
  {
    var r := RetryCall(attempts);
    assert r.result.Some?;
  }
}
