/** Optional values and results with an error, used where the source returns
    null/undefined or throws. */
module Options {

  datatype Option<+T> = None | Some(value: T) {
    function GetOr(default: T): T {
      match this
      case Some(v) => v
      case None => default
    }
  }

  datatype Result<+T> = Ok(value: T) | Fail(error: string)
}
