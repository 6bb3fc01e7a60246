/** The absent-or-present value the client uses wherever the source has `null`. */
module Optional {

  datatype Option<T> = None | Some(value: T) {

    /** The value when present, otherwise `default` (the source's `x || default`). */
    function GetOr(default: T): T {
      match this
      case Some(v) => v
      case None => default
    }
  }
}
