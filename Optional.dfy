/** A value that may be absent: the model's stand-in for a Java reference that may be null. */
module Optional {

  datatype Option<+T> = None | Some(value: T) {

    /** The present value, or `default` when absent. */
    function GetOr(default: T): T {
      match this
      case Some(v) => v
      case None => default
    }
  }
}
