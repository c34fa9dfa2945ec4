/** Option and outcome types shared by the whole model. */
module Wrappers {

  /** A value that may be absent (JavaScript `null` / `undefined`). */
  datatype Option<+T> = None | Some(value: T) {
    function GetOr(default: T): T {
      match this
      case Some(v) => v
      case None => default
    }
  }

  /** The result of an asynchronous service call: resolved with a value, or
      rejected with an `Error` whose `message` is carried here. */
  datatype Outcome<+T> = Ok(value: T) | Err(message: string)
}
