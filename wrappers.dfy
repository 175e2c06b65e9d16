/** Option and Result, the two failure-carrying shapes the app uses. */
module Wrappers {

  /** Kotlin's nullable value: `null` is None. */
  datatype Option<+T> = None | Some(value: T) {
    /** Kotlin's `?:` (elvis) operator. */
    function GetOr(default: T): T {
      if Some? then value else default
    }
  }

  /**
   * Kotlin's `Result<T>`: a value, or a caught exception reduced to its
   * `message`, which Kotlin allows to be null.
   */
  datatype Result<+T> = Success(value: T) | Failure(message: Option<string>)
}
