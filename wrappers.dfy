/** Option and Result, the shapes every fallible step of the bot returns. */
module Wrappers {

  datatype Option<+T> = None | Some(value: T) {

    /** The option as a sequence of zero or one element. */
    function ToSeq(): (s: seq<T>)
      ensures |s| <= 1
      ensures s == [] <==> None?
      ensures Some? ==> s == [value]
    {
      match this
      case None => []
      case Some(v) => [v]
    }
  }

  datatype Result<+T, +E> = Ok(value: T) | Err(error: E)
}
