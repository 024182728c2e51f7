/** Values shared by every module: a nullable column or payload field. */
module Common {

  /** A value that may be SQL NULL / Python None. */
  datatype Option<+T> = None | Some(value: T) {
    function GetOr(default: T): T
    {
      match this
      case Some(v) => v
      case None => default
    }
  }
}
