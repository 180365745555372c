/** The result shapes every module shares. */
module Wrappers {
  datatype Option<+T> = None | Some(value: T)

  datatype Result<+T, +E> = Ok(value: T) | Err(error: E)

  /** How a statement turns out; `Unanswered`: it took effect, but the answer was lost. */
  datatype Statement = Answered | Fails | Unanswered

  /** `value ?? fallback`. */
  function Or<T>(o: Option<T>, fallback: T): T {
    match o
    case Some(v) => v
    case None => fallback
  }
}
