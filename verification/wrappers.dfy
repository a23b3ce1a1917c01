/** Failure-compatible wrappers shared by the chord-extraction model. */
module Wrappers {

  /** A value that may be missing: Python's `None` versus a present value. */
  datatype Option<+T> = None | Some(value: T)

  /** The outcome of an operation that can abort with an error. */
  datatype Result<+R, +E> = Success(value: R) | Failure(error: E)

  /** The list holding the value of `o`, if any. */
  function OptionToSeq<T>(o: Option<T>): (s: seq<T>)
    ensures |s| <= 1
    ensures o.Some? <==> |s| == 1
    ensures o.Some? ==> s[0] == o.value
  {
    match o
    case None => []
    case Some(v) => [v]
  }
}
