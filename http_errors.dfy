/** The parts of an axios error that the services' `_handleError` functions inspect. */
module HttpErrors {
  import opened Wrappers

  /** `error.response`: the status, and `data.message` when the body carries one. */
  datatype ErrorResponse = ErrorResponse(status: int, dataMessage: Option<string>)

  /** `error.response`, whether `error.request` is set, and `error.message`. */
  datatype HttpError = HttpError(response: Option<ErrorResponse>, hasRequest: bool, message: string)

  /** A plain `new Error(message)` thrown by the services' own code. */
  function PlainError(message: string): HttpError
  {
    HttpError(None, false, message)
  }
}
