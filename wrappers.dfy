/** Small failure-carrying datatypes shared by the other modules: a C# reference
    that may be null becomes an Option, an operation that may throw returns a Result. */
module Wrappers {

  /** A value that may be absent (a C# null reference or nullable value). */
  datatype Option<+T> = None | Some(value: T)

  /** The outcome of an operation that either returns a value or throws. */
  datatype Result<+R, +E> = Success(value: R) | Failure(error: E)
}
