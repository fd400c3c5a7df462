/** Result type for the carving engine. The source signals its failures with
    .NET exceptions; each exception kind it can raise is one constructor of
    `Error`. */
module Wrappers {

  /** The exceptions the carving core can raise. */
  datatype Error =
    | EmptySequence      // First(), Last(), Min() or Max() on an empty list
    | DivideByZero       // integer `/` by zero
    | IndexOutOfRange    // a list index outside 0 .. Count - 1

  datatype Result<+T> = Success(value: T) | Failure(error: Error)
}
