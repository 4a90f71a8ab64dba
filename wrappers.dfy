// Option, Result and the exception kinds that the modelled Python code raises.
module Wrappers {

  datatype Option<T> = None | Some(value: T)

  /** The Python exception classes raised by the modelled code, plus
      OutOfFuel, which the model returns when a traversal that may not
      terminate in the original is cut off. */
  datatype ErrorKind =
    | ValueError
    | KeyError
    | IndexError
    | AssertionError
    | StopIteration
    | NameError
    | NotImplementedError
    | TypeError
    | AttributeError
    | OSError
    | SyntaxError
    | OutOfFuel

  datatype Result<T> = Ok(value: T) | Err(error: ErrorKind)
  {
    predicate IsFailure() { Err? }

    function PropagateFailure<U>(): Result<U>
      requires Err?
    {
      Err(error)
    }

    function Extract(): T
      requires Ok?
    {
      value
    }
  }

  /** The values of a sequence of results, or its first error: what a loop
      that stops at the first exception collects. */
  function Collect<T>(rs: seq<Result<T>>): Result<seq<T>>
  {
    if |rs| == 0 then Ok([])
    else
      var front :- Collect(rs[..|rs| - 1]);
      var x :- rs[|rs| - 1];
      Ok(front + [x])
  }

  /** Collecting succeeds exactly when every result is a value, and then
      keeps them all in order. */
  lemma {:induction false} CollectOk<T>(rs: seq<Result<T>>)
    ensures Collect(rs).Ok? <==> forall k :: 0 <= k < |rs| ==> rs[k].Ok?
    ensures Collect(rs).Ok? ==>
              |Collect(rs).value| == |rs| && forall k :: 0 <= k < |rs| ==> Collect(rs).value[k] == rs[k].value
  {
    if |rs| > 0 {
      var front := rs[..|rs| - 1];
      CollectOk(front);
      assert forall k :: 0 <= k < |front| ==> front[k] == rs[k];
    }
  }

  /** One more result: its value is appended, or its error is the result. */
  lemma CollectSnoc<T>(rs: seq<Result<T>>, i: nat)
    requires i < |rs| && Collect(rs[..i]).Ok?
    ensures Collect(rs[..i + 1]) == if rs[i].Ok? then Ok(Collect(rs[..i]).value + [rs[i].value]) else Err(rs[i].error)
  {
    assert rs[..i + 1][..i] == rs[..i];
  }

  /** Once a prefix fails, the whole sequence fails the same way. */
  lemma {:induction false} CollectStopsAtError<T>(rs: seq<Result<T>>, n: nat)
    requires n <= |rs| && Collect(rs[..n]).Err?
    ensures Collect(rs) == Collect(rs[..n])
    decreases |rs| - n
  {
    if n < |rs| {
      assert rs[..n + 1][..n] == rs[..n];
      CollectStopsAtError(rs, n + 1);
    } else {
      assert rs[..n] == rs;
    }
  }

  /** The outcome of an operation that returns nothing but may raise. */
  datatype Outcome = Pass | Fail(error: ErrorKind)
}
