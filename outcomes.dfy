/** The failure side of the kernel: each C# exception the core throws becomes an
    `Error`, and every operation that can throw returns a `Result`. */
module Outcomes {

  datatype Error =
    | NonPositiveSize    // ArgumentOutOfRangeException from a sized constructor
    | NullOrEmpty        // ArgumentNullException from an element constructor
    | DimensionMismatch  // ArgumentException from an operation on ill-matched shapes
    | DivideByZero       // DivideByZeroException from complex division

  datatype Result<+T> = Success(value: T) | Failure(error: Error)
}
