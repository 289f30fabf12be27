/** Optional values and results with an error, as used throughout the model.
    `Option` stands for a JSON key that may be absent (or Python's `None`);
    `Result` for a computation that may raise. */
module Wrappers {

  datatype Option<+T> = None | Some(value: T) {
    function GetOr(default: T): T {
      match this
      case Some(v) => v
      case None => default
    }
  }

  datatype Result<+T, +E> = Ok(value: T) | Err(error: E)
}
