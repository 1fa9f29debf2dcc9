/** Failure-compatible result types for the formatter.

    The only failure the formatter can raise is the `RangeError` that
    ECMAScript's `String.prototype.repeat` throws for a negative count.
 */
module Results {

  datatype Option<+T> = None | Some(value: T)

  /** The exception `'  '.repeat(count)` throws when `count` is negative. */
  datatype Error = RangeError(count: int)

  datatype Result<+T> = Success(value: T) | Failure(error: Error) {

    predicate IsFailure() {
      Failure?
    }

    function PropagateFailure<U>(): Result<U>
      requires Failure?
    {
      Failure(error)
    }

    function Extract(): T
      requires Success?
    {
      value
    }
  }
}
