/** Optional values and validation outcomes shared by the other modules. */
module Wrappers {

  datatype Option<T> = None | Some(value: T) {
    function GetOr(default: T): T {
      match this
      case Some(v) => v
      case None => default
    }
  }

  /** A value, or the list of messages explaining why it was refused. */
  datatype Result<T> = Ok(value: T) | Invalid(errors: seq<string>)
}
