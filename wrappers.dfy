/** Option and Result wrappers, and the failures the geometry kernel reports. */
module Wrappers {

  /** A value that may be absent: a Java null argument, or the NaN "not found" result. */
  datatype Option<+T> = None | Some(value: T)

  /** The kinds of failure. In the library every one of them is raised as an
      IllegalArgumentException, except the builder misuse errors (the last three),
      which are state errors of the builder. */
  datatype Error =
    | NullArgument      // a required geometry, position or code is null
    | CrsMismatch       // a CRS (or position type) differs from the expected one
    | OutOfExtent       // a coordinate lies outside the Morton context's extent
    | CodeTooLong       // a Morton code has more digits than the context's levels
    | InvalidDigit      // a Morton code holds a character outside '0'..'3'
    | TypeMismatch      // the measured output type disagrees about the vertical axis
    | NotLineal         // a non-empty geometry that is not lineal where a lineal one is needed
    | EmptyRing         // an empty (or missing) shell, or an empty hole, for a Polygon
    | InvalidRing       // a non-empty ring with fewer than four positions or not closed
    | WrongArity        // a builder was given the wrong number of ordinates
    | CapacityExceeded  // a fixed-size builder was given more positions than its capacity
    | NotFilled         // a fixed-size builder was finalised before it was full
    | Consumed          // a builder was used after it was finalised

  datatype Result<+T> = Ok(value: T) | Err(error: Error)

  /** The outcome of an operation that returns nothing but may fail. */
  datatype Outcome = Pass | Fail(error: Error)
}
