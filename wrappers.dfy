/** Failure-carrying values shared by the modules of the model. */
module Wrappers {

  /** A value that may be absent: the model of a C# nullable reference. */
  datatype Option<+T> = None | Some(value: T)

  /** The exceptions the modelled code throws, one constructor per kind. */
  datatype Error =
    | ArgumentOutOfRange   // ArgumentOutOfRangeException (chunks < 1)
    | InvalidArgument      // ArgumentException (blank regex pattern)
    | InvalidPattern       // an exception from the regex engine for a malformed pattern
    | IndexOutOfRange      // IndexOutOfRangeException (a store past the end of an array)
    | Overflow             // OverflowException (an array allocated with a negative length)

  /** The outcome of an operation that either returns a value or throws. */
  datatype Result<+T> = Ok(value: T) | Err(error: Error)
}
