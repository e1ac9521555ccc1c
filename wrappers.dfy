/** Option and Result, the failure-carrying values the rest of the model returns. */
module Wrappers {

  /** A value that may be absent (`null`, `undefined` or `NaN` in the source). */
  datatype Option<+T> = None | Some(value: T)
  {
    function GetOr(default: T): T
    {
      match this
      case Some(v) => v
      case None => default
    }
  }

  /** The outcome of an operation that may throw: `Err` stands for the exception. */
  datatype Result<+T, +E> = Ok(value: T) | Err(error: E)
}
