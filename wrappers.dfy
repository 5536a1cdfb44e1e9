/** Option and Result, the two failure-carrying shapes the model returns. */
module Wrappers {

  datatype Option<+T> = None | Some(value: T)

  /** Ok or Err; failure-compatible, so `:-` propagates an Err like Rust's `?`. */
  datatype Result<+T, +E> = Ok(value: T) | Err(error: E) {

    predicate IsFailure() {
      Err?
    }

    function PropagateFailure<U>(): Result<U, E>
      requires Err?
    {
      Err(error)
    }

    function Extract(): T
      requires Ok?
    {
      value
    }
  }

  /** Joins two sequence results in order; the first error wins. */
  function Concat<T, E>(a: Result<seq<T>, E>, b: Result<seq<T>, E>): Result<seq<T>, E>
  {
    match a
    case Err(e) => Err(e)
    case Ok(x) =>
      match b
      case Err(e) => Err(e)
      case Ok(y) => Ok(x + y)
  }

  lemma ConcatAssoc<T, E>(a: Result<seq<T>, E>, b: Result<seq<T>, E>, c: Result<seq<T>, E>)
    ensures Concat(Concat(a, b), c) == Concat(a, Concat(b, c))
  {
    if a.Ok? && b.Ok? && c.Ok? {
      assert (a.value + b.value) + c.value == a.value + (b.value + c.value);
    }
  }

  lemma ConcatEmpty<T, E>(a: Result<seq<T>, E>)
    ensures Concat(Ok([]), a) == a
  {
    if a.Ok? {
      assert [] + a.value == a.value;
    }
  }

  /**
   * Runs `f` on each element in order and concatenates the results,
   * stopping at the first error: the shape of a Rust loop that extends an
   * output vector and returns early through `?`.
   */
  function ConcatMap<X, T, E>(xs: seq<X>, f: X -> Result<seq<T>, E>): Result<seq<T>, E>
  {
    if xs == [] then Ok([]) else Concat(f(xs[0]), ConcatMap(xs[1..], f))
  }

  /** The results of two runs are joined in the order of their inputs. */
  lemma {:induction false} ConcatMapAppend<X, T, E>(xs: seq<X>, ys: seq<X>, f: X -> Result<seq<T>, E>)
    ensures ConcatMap(xs + ys, f) == Concat(ConcatMap(xs, f), ConcatMap(ys, f))
  {
    if xs == [] {
      assert xs + ys == ys;
      assert Concat(Ok([]), ConcatMap(ys, f)) == ConcatMap(ys, f) by {
        if ConcatMap(ys, f).Ok? {
          assert [] + ConcatMap(ys, f).value == ConcatMap(ys, f).value;
        }
      }
    } else {
      assert (xs + ys)[1..] == xs[1..] + ys;
      ConcatMapAppend(xs[1..], ys, f);
      ConcatAssoc(f(xs[0]), ConcatMap(xs[1..], f), ConcatMap(ys, f));
    }
  }

  /** A run succeeds exactly when every step succeeds. */
  lemma {:induction false} ConcatMapOk<X, T, E>(xs: seq<X>, f: X -> Result<seq<T>, E>)
    ensures ConcatMap(xs, f).Ok? <==> forall i | 0 <= i < |xs| :: f(xs[i]).Ok?
  {
    if xs != [] {
      ConcatMapOk(xs[1..], f);
      assert forall i | 1 <= i < |xs| :: xs[i] == xs[1..][i - 1];
    }
  }

  /** A failing run reports the error of its first failing step. */
  lemma {:induction false} ConcatMapFirstError<X, T, E>(xs: seq<X>, f: X -> Result<seq<T>, E>, i: nat)
    requires i < |xs| && f(xs[i]).Err?
    requires forall j | 0 <= j < i :: f(xs[j]).Ok?
    ensures ConcatMap(xs, f) == Err(f(xs[i]).error)
  {
    if i > 0 {
      assert forall j | 0 <= j < i - 1 :: xs[1..][j] == xs[j + 1];
      ConcatMapFirstError(xs[1..], f, i - 1);
    }
  }

  /** One step of a run, for loops that walk the input from the front. */
  lemma ConcatMapStep<X, T, E>(xs: seq<X>, f: X -> Result<seq<T>, E>, i: nat)
    requires i < |xs|
    ensures ConcatMap(xs[i..], f) == Concat(f(xs[i]), ConcatMap(xs[i + 1..], f))
  {
    assert xs[i..][1..] == xs[i + 1..];
  }
}
