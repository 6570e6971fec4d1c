/** What the Express handlers hand to `next(...)` and what they answer. */
module Http {

  /** The error `handleError(status, message)` builds; the global error
      handler turns it into the JSON envelope. */
  datatype HttpError = HttpError(status: int, message: string)

  /** A controller's outcome: a success response with its status code and
      payload, or an error passed on to the error handler. */
  datatype Reply<T> = Ok(status: int, value: T) | Fail(error: HttpError)
}
