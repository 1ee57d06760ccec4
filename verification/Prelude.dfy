/** Small datatypes and sequence facts shared by the other modules. */
module Prelude {

  datatype Option<+T> = None | Some(value: T)

  datatype Result<+T, +E> = Ok(value: T) | Err(error: E)

  /** What a Python expression comes to: a value, or an exception. */
  datatype Outcome<+T> = Done(value: T) | Raised {
    predicate IsFailure() {
      Raised?
    }

    function PropagateFailure<U>(): Outcome<U>
      requires Raised?
    {
      Raised
    }

    function Extract(): T
      requires Done?
    {
      value
    }
  }

  /** One octet of a socket, a pty or a log file. */
  type byte = b: int | 0 <= b < 0x100

  function Min(a: int, b: int): int {
    if a <= b then a else b
  }

  /** The concatenation of the parts, in order. */
  function Flatten<T>(parts: seq<seq<T>>): seq<T> {
    if parts == [] then [] else parts[0] + Flatten(parts[1..])
  }

  lemma {:induction false} FlattenAppend<T>(xs: seq<seq<T>>, ys: seq<seq<T>>)
    ensures Flatten(xs + ys) == Flatten(xs) + Flatten(ys)
  {
    if xs == [] {
      assert xs + ys == ys;
    } else {
      FlattenAppend(xs[1..], ys);
      assert (xs + ys)[1..] == xs[1..] + ys && (xs + ys)[0] == xs[0];
      assert xs[0] + (Flatten(xs[1..]) + Flatten(ys)) == Flatten(xs) + Flatten(ys);
    }
  }

  lemma FlattenSnoc<T>(xs: seq<seq<T>>, y: seq<T>)
    ensures Flatten(xs + [y]) == Flatten(xs) + y
  {
    FlattenAppend(xs, [y]);
    assert Flatten([y]) == y + Flatten<T>([]);
  }
}
