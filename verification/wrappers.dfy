/** Failure-carrying result types, standing in for Rust's `Option` and `Result`.
    A panic in the programs is modelled as `None` or as an `Err` naming its cause. */
module Wrappers {

  datatype Option<+T> = None | Some(value: T)

  datatype Result<+T, +E> = Ok(value: T) | Err(error: E)

  /** Mapping with an `expect` on each value and collecting: all the values in
      order, or `None` (the panic) as soon as one is missing. */
  function AllSome<T>(xs: seq<Option<T>>): (r: Option<seq<T>>)
    ensures r.Some? <==> forall i | 0 <= i < |xs| :: xs[i].Some?
    ensures r.Some? ==> |r.value| == |xs| && forall i | 0 <= i < |xs| :: xs[i] == Some(r.value[i])
  {
    if xs == [] then Some([])
    else
      assert forall i | 1 <= i < |xs| :: xs[i] == xs[1..][i - 1];
      match (xs[0], AllSome(xs[1..]))
      case (Some(x), Some(rest)) =>
        assert forall i | 1 <= i < |xs| :: ([x] + rest)[i] == rest[i - 1];
        Some([x] + rest)
      case _ => None
  }
}
