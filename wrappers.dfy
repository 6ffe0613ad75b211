/** Option, Result and Outcome: the model's stand-ins for null returns and thrown exceptions. */
module Wrappers {

  /** `None` is the source's `null`. */
  datatype Option<+T> = None | Some(value: T)

  /** `Failure(e)` is a thrown exception whose kind is `e`. */
  datatype Result<+T, +E> = Success(value: T) | Failure(error: E)

  /** The outcome of a `void` operation: it returns normally or throws `e`. */
  datatype Outcome<+E> = Pass | Fail(error: E)

  /**
   * A sequence of checks run in order, the first failing one ending the run:
   * the outcome of a constructor that calls one validating setter after another.
   */
  function FirstFailure<E>(checks: seq<Outcome<E>>): (r: Outcome<E>)
    ensures r.Pass? <==> forall i :: 0 <= i < |checks| ==> checks[i].Pass?
    ensures r.Fail? ==> exists k :: 0 <= k < |checks| && checks[k] == r && forall i :: 0 <= i < k ==> checks[i].Pass?
  {
    if |checks| == 0 then Pass
    else if checks[0].Fail? then checks[0]
    else
      var rest := FirstFailure(checks[1..]);
      assert forall i :: 1 <= i < |checks| ==> checks[i] == checks[1..][i - 1];
      rest
  }

  /** One step of the run: a failing first check ends it, a passing one hands on to the rest. */
  lemma FirstFailureCons<E>(c: Outcome<E>, rest: seq<Outcome<E>>)
    ensures FirstFailure([c] + rest) == if c.Fail? then c else FirstFailure(rest)
  {
    var checks := [c] + rest;
    assert checks[0] == c && checks[1..] == rest;
  }

  /** A run of six checks ends at the first that fails, or passes. */
  lemma FirstFailureOfSix<E>(c0: Outcome<E>, c1: Outcome<E>, c2: Outcome<E>,
                             c3: Outcome<E>, c4: Outcome<E>, c5: Outcome<E>)
    ensures FirstFailure([c0, c1, c2, c3, c4, c5]) ==
      if c0.Fail? then c0 else if c1.Fail? then c1 else if c2.Fail? then c2
      else if c3.Fail? then c3 else if c4.Fail? then c4 else if c5.Fail? then c5 else Pass
  {
    assert [c0, c1, c2, c3, c4, c5] == [c0] + [c1, c2, c3, c4, c5];
    assert [c1, c2, c3, c4, c5] == [c1] + [c2, c3, c4, c5];
    assert [c2, c3, c4, c5] == [c2] + [c3, c4, c5];
    assert [c3, c4, c5] == [c3] + [c4, c5];
    assert [c4, c5] == [c4] + [c5];
    assert [c5] == [c5] + [];
    FirstFailureCons(c0, [c1, c2, c3, c4, c5]);
    FirstFailureCons(c1, [c2, c3, c4, c5]);
    FirstFailureCons(c2, [c3, c4, c5]);
    FirstFailureCons(c3, [c4, c5]);
    FirstFailureCons(c4, [c5]);
    FirstFailureCons(c5, []);
  }
}
