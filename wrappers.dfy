/** Small optional-value datatype shared by every module. */
module Wrappers {

  /** A value that may be absent; stands for a nullable column or a missing lookup. */
  datatype Option<+T> = None | Some(value: T) {

    /** The value held, or `default` when absent. */
    function GetOr(default: T): T {
      match this
      case Some(v) => v
      case None => default
    }
  }
}
