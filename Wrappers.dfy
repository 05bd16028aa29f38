/** Optional values: a dictionary key that may be absent, a reply that may be None. */
module Wrappers {

  datatype Option<+T> = None | Some(value: T) {

    /** The value held, or `default` when there is none (Python's `dict.get(key, default)`). */
    function GetOr(default: T): (r: T)
      ensures Some? ==> r == value
      ensures None? ==> r == default
    {
      match this
      case Some(v) => v
      case None => default
    }

    /** The value as a sequence of zero or one elements. */
    function ToSeq(): (r: seq<T>)
      ensures |r| <= 1
      ensures Some? <==> |r| == 1
      ensures Some? ==> r[0] == value
    {
      match this
      case Some(v) => [v]
      case None => []
    }
  }
}
