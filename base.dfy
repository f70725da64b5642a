/** Optional values: an absent request field, a cookie that is not set, a row that is not found. */
module Base {

  datatype Option<+T> = None | Some(value: T) {

    /** The value, or `default` when absent (a schema default, `message || curr`). */
    function GetOr(default: T): T {
      match this
      case Some(v) => v
      case None => default
    }
  }
}
