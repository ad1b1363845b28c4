/** The conventional Some/None datatype, used for JavaScript's `undefined`
    and for Swift/Kotlin optionals. */
module Optional {

  datatype Option<+T> = None | Some(value: T) {

    /** The wrapped value, or `default` when there is none (JavaScript `x ?? default`). */
    function GetOr(default: T): T {
      match this
      case Some(v) => v
      case None => default
    }
  }
}
