/** Failure-carrying results: a thrown JavaScript error becomes an `Err`. */
module Outcomes {

  datatype Option<+T> = None | Some(value: T)

  datatype Result<+T, +E> = Ok(value: T) | Err(error: E)
}
