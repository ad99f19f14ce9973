/** Kotlin's nullable values and `kotlin.Result`, as datatypes. */
module Wrappers {

  /** A Kotlin `T?`: `None` stands for `null`. */
  datatype Option<+T> = None | Some(value: T) {

    /** The elvis operator: `this ?: default`. */
    function GetOr(default: T): T {
      match this
      case Some(v) => v
      case None => default
    }
  }

  /** The outcome of an asynchronous call, as `Result.fold` sees it. A failure
      carries the exception's `message`, which Kotlin allows to be null. */
  datatype Outcome<+T> = Success(value: T) | Failure(message: Option<string>)
}
