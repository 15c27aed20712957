/** Reducing a list of values with a binary operation, and the operations of the reductions here. */
module Reduction {

  ghost predicate Associates<T>(op: (T, T) -> T, a: T, b: T, c: T) { op(op(a, b), c) == op(a, op(b, c)) }

  ghost predicate Commutes<T>(op: (T, T) -> T, a: T, b: T) { op(a, b) == op(b, a) }

  ghost predicate Associative<T(!new)>(op: (T, T) -> T) { forall a, b, c :: Associates(op, a, b, c) }

  ghost predicate Commutative<T(!new)>(op: (T, T) -> T) { forall a, b :: Commutes(op, a, b) }

  /** The reduction of a list of values, from left to right. */
  function Reduce<T>(op: (T, T) -> T, values: seq<T>): (t: T)
    requires values != []
  {
    var n := |values| - 1;
    if n == 0 then values[0] else op(Reduce(op, values[..n]), values[n])
  }

  lemma {:induction false} ReduceConcat<T(!new)>(op: (T, T) -> T, xs: seq<T>, ys: seq<T>)
    requires xs != [] && ys != [] && Associative(op)
    ensures Reduce(op, xs + ys) == op(Reduce(op, xs), Reduce(op, ys))
  {
    var n := |ys| - 1;
    if n == 0 {
      assert (xs + ys)[..|xs|] == xs;
    } else {
      assert (xs + ys)[..|xs| + n] == xs + ys[..n];
      ReduceConcat(op, xs, ys[..n]);
      assert Associates(op, Reduce(op, xs), Reduce(op, ys[..n]), ys[n]);
    }
  }
}
