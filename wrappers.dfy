/** Option and Result values standing for Python's `None` and for raised exceptions. */
module Wrappers {

  datatype Option<+T> = None | Some(value: T)

  datatype Result<+T, +E> = Success(value: T) | Failure(error: E)

  /** Python's `x or default` for an optional string: `None` and `""` both give the default. */
  function OrElse(o: Option<string>, default: string): (r: string)
    ensures r == default || (o.Some? && r == o.value && r != "")
  {
    if o.Some? && o.value != "" then o.value else default
  }
}
