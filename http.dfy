/**
 * What a handler answers: a success value, or an HTTP error carrying its
 * status and detail string (the handlers raise HTTPException for these).
 */
module Http {

  /** The two error kinds the handlers raise, each with its detail text:
      NotFound is sent with status 404, Conflict with status 409. */
  datatype Error = NotFound(detail: string) | Conflict(detail: string)

  /** A handler's answer. */
  datatype Result<T> = Ok(value: T) | Err(error: Error)
}
