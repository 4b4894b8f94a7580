/** The optional value used throughout: C code signals "nothing" with NULL or NGX_ERROR. */
module Options {
  datatype Option<+T> = None | Some(value: T) {
    function GetOr(default: T): T {
      match this
      case None => default
      case Some(v) => v
    }
  }
}
