/** Failure-carrying results shared by every puzzle model: the C++ programs
    throw on malformed input, which the model reports as `Err`. */
module Outcomes {

  datatype Option<+T> = None | Some(value: T)

  /** `Err` carries the message the source attaches to its exception. */
  datatype Result<+T> = Ok(value: T) | Err(message: string) {
    predicate IsFailure() { Err? }

    function PropagateFailure<U>(): Result<U>
      requires Err?
    {
      Err(message)
    }

    function Extract(): T
      requires Ok?
    {
      value
    }
  }

  /** `f` applied to the first `n` elements in order; the first failure
      ends the whole run, the way an exception ends a reading loop. */
  function MapAll<A, B>(f: A -> Result<B>, xs: seq<A>, n: nat): (r: Result<seq<B>>)
    requires n <= |xs|
    ensures r.Ok? ==> |r.value| == n
  {
    if n == 0 then Ok([])
    else
      var front :- MapAll(f, xs, n - 1);
      var y :- f(xs[n - 1]);
      Ok(front + [y])
  }

  /** Once a failure is met, later elements change nothing. */
  lemma {:induction false} MapAllErr<A, B>(f: A -> Result<B>, xs: seq<A>, k: nat, n: nat)
    requires k <= n <= |xs| && MapAll(f, xs, k).Err?
    ensures MapAll(f, xs, n) == MapAll(f, xs, k)
  {
    if k < n {
      MapAllErr(f, xs, k, n - 1);
    }
  }

  /** One more element: its failure ends the run, its result is appended
      otherwise. */
  lemma MapAllStep<A, B>(f: A -> Result<B>, xs: seq<A>, n: nat, front: seq<B>)
    requires n < |xs| && MapAll(f, xs, n) == Ok(front)
    ensures MapAll(f, xs, n + 1) == if f(xs[n]).Ok? then Ok(front + [f(xs[n]).value]) else Err(f(xs[n]).message)
  {
  }

  /** The run succeeds exactly when every element succeeds, and then holds
      the results in order. */
  lemma {:induction false} MapAllOk<A, B>(f: A -> Result<B>, xs: seq<A>, n: nat)
    requires n <= |xs|
    ensures MapAll(f, xs, n).Ok? <==> forall k :: 0 <= k < n ==> f(xs[k]).Ok?
    ensures MapAll(f, xs, n).Ok? ==> forall k :: 0 <= k < n ==> MapAll(f, xs, n).value[k] == f(xs[k]).value
  {
    if n > 0 {
      MapAllOk(f, xs, n - 1);
    }
  }

  /** The run over the first `n` elements looks at nothing beyond them. */
  lemma {:induction false} MapAllPrefix<A, B>(f: A -> Result<B>, xs: seq<A>, ys: seq<A>, n: nat)
    requires n <= |xs| && n <= |ys| && xs[..n] == ys[..n]
    ensures MapAll(f, xs, n) == MapAll(f, ys, n)
  {
    if n > 0 {
      assert xs[..n - 1] == xs[..n][..n - 1] && ys[..n - 1] == ys[..n][..n - 1];
      assert xs[n - 1] == xs[..n][n - 1] && ys[n - 1] == ys[..n][n - 1];
      MapAllPrefix(f, xs, ys, n - 1);
    }
  }
}
