/** Optional values and results with an error message, standing for Java's
    nullable references and thrown exceptions. */
module Wrappers {
  datatype Option<T> = None | Some(value: T)

  datatype Result<T> = Ok(value: T) | Err(error: string)
  {
    predicate IsFailure() { Err? }
  }

  /** A Java string reference that may be null or empty, as checked by
      `x == null || x.isEmpty()`. */
  predicate NullOrEmpty(x: Option<string>)
  {
    x.None? || x.value == ""
  }
}
