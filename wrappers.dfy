/** Optional values and results shared by every module of the model. */
module Wrappers {

  /** A JavaScript value that may be `null` or `undefined` (None) or present (Some). */
  datatype Option<+T> = None | Some(value: T)

  /** The outcome of an operation that may throw: a value or an error. */
  datatype Result<+T, +E> = Ok(value: T) | Err(error: E)

  /** JavaScript truthiness of an optional string: present and non-empty. */
  predicate Truthy(s: Option<string>) {
    s.Some? && s.value != ""
  }
}

/** The JSON responses of the route handlers. */
module Http {

  /** `NextResponse.json(body)` with status 200, or an error body with its status. */
  datatype Response<+T> = Json(body: T) | Error(status: int, message: string)
}
