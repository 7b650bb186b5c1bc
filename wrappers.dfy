/** Optional values, the three-way "undefined / null / value" of JavaScript
    payloads, and results of operations that can throw. */
module Wrappers {

  /** A nullable column or an absent-or-present value. */
  datatype Option<+T> = None | Some(value: T) {
    function GetOr(default: T): T {
      match this
      case Some(v) => v
      case None => default
    }
  }

  /** A payload field that is either left out (`undefined`), sent as `null`,
      or sent with a value. */
  datatype Maybe<+T> = Undefined | Null | Defined(value: T) {

    /** JavaScript's `field ?? fallback`: both `undefined` and `null` fall back. */
    function Coalesce(fallback: T): (r: T)
      ensures Defined? ==> r == value
      ensures !Defined? ==> r == fallback
    {
      if Defined? then value else fallback
    }

    /** The value as a nullable column: `null` and `undefined` are both no value. */
    function ToOption(): (r: Option<T>)
      ensures r.Some? <==> Defined?
      ensures r.Some? ==> r.value == value
    {
      if Defined? then Some(value) else None
    }
  }

  /** The outcome of a service call that either returns a value or throws. */
  datatype Result<+T, +E> = Ok(value: T) | Err(error: E)
}
