/** Optional values and results with an error, used wherever the source returns "nothing"
    or fails. */
module Outcomes {

  datatype Option<+T> = None | Some(value: T)

  datatype Result<+T, +E> = Ok(value: T) | Err(error: E)
}
