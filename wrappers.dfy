/** Optional values and the two ways a request handler of the backend fails. */
module Wrappers {
  datatype Option<T> = None | Some(value: T)

  /** How a request ends when it does not succeed: an HTTPException with its
      status code and detail text, or a Python exception escaping the handler
      (which the web framework turns into a 500 response). */
  datatype Failure =
    | Http(status: int, detail: string)
    | Raised(exception: string)

  datatype Result<T> = Ok(value: T) | Err(failure: Failure)

  function OrElse<T>(o: Option<T>, default: T): (r: T)
    ensures o.None? ==> r == default
    ensures o.Some? ==> r == o.value
  {
    if o.Some? then o.value else default
  }
}
