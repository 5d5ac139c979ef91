/** The optional value used wherever the source returns `None` or a key may be missing. */
module Wrappers {

  datatype Option<+T> = None | Some(value: T) {

    /** `value` when present, otherwise `default` (Python's `dict.get(key, default)`). */
    function GetOr(default: T): T {
      match this
      case Some(v) => v
      case None => default
    }

    /** The value as a sequence of zero or one elements. */
    function ToSeq(): seq<T> {
      match this
      case Some(v) => [v]
      case None => []
    }
  }
}
