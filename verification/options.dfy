/** The optional-value datatype shared by every module: JavaScript's `null`/`undefined`
    and Python's `None` become `None`. */
module Options {

  datatype Option<+T> = None | Some(value: T) {

    /** The carried value, or `default` when there is none (JavaScript's `x ?? default`). */
    function GetOr(default: T): T {
      match this
      case Some(v) => v
      case None => default
    }
  }
}
