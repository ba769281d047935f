/** Failure-compatible result types shared by every module of the model. */
module Wrappers {

  datatype Option<+T> = None | Some(value: T) {
    predicate IsFailure() { None? }

    function PropagateFailure<U>(): Option<U>
      requires None?
    {
      None
    }

    function Extract(): T
      requires Some?
    {
      value
    }
  }

  /** Success or the error the original program raises. */
  datatype Result<+R, +E> = Success(value: R) | Failure(error: E) {
    predicate IsFailure() { Failure? }

    function PropagateFailure<U>(): Result<U, E>
      requires Failure?
    {
      Failure(error)
    }

    function Extract(): R
      requires Success?
    {
      value
    }
  }

  /** Run the steps in order: all their values, or the first failure. */
  function Collect<R, E>(rs: seq<Result<R, E>>): (r: Result<seq<R>, E>)
    ensures r.Success? ==> |r.value| == |rs|
  {
    if |rs| == 0 then Success([])
    else
      var first :- rs[0];
      var rest :- Collect(rs[1..]);
      Success([first] + rest)
  }

  lemma {:induction false} CollectAt<R, E>(rs: seq<Result<R, E>>, i: nat)
    requires Collect(rs).Success? && i < |rs|
    ensures rs[i].Success? && Collect(rs).value[i] == rs[i].value
  {
    if i > 0 {
      CollectAt(rs[1..], i - 1);
    }
  }

  /** `Collect` fails exactly when some step fails, with the first failure's error. */
  lemma {:induction false} CollectFails<R, E>(rs: seq<Result<R, E>>, i: nat)
    requires i < |rs| && rs[i].Failure? && forall j :: 0 <= j < i ==> rs[j].Success?
    ensures Collect(rs) == Failure(rs[i].error)
  {
    if i > 0 {
      CollectFails(rs[1..], i - 1);
    }
  }
}
