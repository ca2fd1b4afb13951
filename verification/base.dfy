/** Failure-carrying wrappers shared by every module of the model. */
module Base {

  /** JavaScript's `null`/absent value next to a present one. */
  datatype Option<+T> = None | Some(value: T) {
    function GetOr(default: T): T {
      match this
      case Some(v) => v
      case None => default
    }
  }

  /** A resolved promise (`Ok`) or a rejected one (`Err`). */
  datatype Result<+T, +E> = Ok(value: T) | Err(error: E)
}
