/** `T | undefined` and `T | null` in the source. */
module Optional {

  datatype Option<+T> = None | Some(value: T) {

    /** `x ?? d`: the value, or `d` when absent. */
    function GetOr(d: T): T {
      match this
      case Some(v) => v
      case None => d
    }
  }
}
