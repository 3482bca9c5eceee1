/** The absent-or-present value used wherever the program reads something
    that may be `null` or `undefined` (a missing storage entry, an unknown
    table key, a regular expression that did not match). */
module Options {

  datatype Option<+T> = None | Some(value: T) {

    /** The value, or `default` when there is none. */
    function GetOr(default: T): T {
      match this
      case Some(v) => v
      case None => default
    }
  }
}
