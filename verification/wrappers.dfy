/** Option and Result, used for Kotlin's nullable values and thrown exceptions. */
module Wrappers {
  datatype Option<T> = None | Some(value: T) {
    /** The value as a sequence of length at most one. */
    function ToSeq(): (r: seq<T>)
      ensures Some? ==> r == [value]
      ensures None? ==> r == []
    {
      if Some? then [value] else []
    }
  }

  datatype Result<T, E> = Success(value: T) | Failure(error: E)
}
