/** Failure-carrying values shared by every solver: Rust's `Result<T, E>` and
    `Option<T>`, with `anyhow` errors represented by their message. */
module Outcomes {

  datatype Option<+T> = None | Some(value: T)

  datatype Result<+T, +E> = Ok(value: T) | Err(error: E)

  /** An `anyhow::Result`: the error is the message the solver would report. */
  type Answer<+T> = Result<T, string>

  /** `n` added to a total, or the error. */
  function AddTo(n: nat, r: Answer<nat>): (t: Answer<nat>)
    ensures t.Ok? <==> r.Ok?
    ensures t.Ok? ==> t.value == n + r.value
    ensures t.Err? ==> t == r
  {
    match r
    case Err(e) => Err(e)
    case Ok(v) => Ok(n + v)
  }
}
