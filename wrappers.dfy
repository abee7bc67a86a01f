/** Optional values and results, used for the fields a report may leave unset
    and for the errors the parser raises. */
module Wrappers {

  datatype Option<+T> = None | Some(value: T) {

    /** The first of two alternatives that is present: the way a regular
        expression engine falls back to its next alternative. */
    function OrElse(other: Option<T>): (r: Option<T>)
      ensures r.Some? <==> Some? || other.Some?
      ensures Some? ==> r == this
    {
      if Some? then this else other
    }
  }

  datatype Result<+R, +E> = Success(value: R) | Failure(error: E)
}
