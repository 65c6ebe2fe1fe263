/** The error a request handler turns into an HTTP reply, shared by the bundled
    services. */
module Errors {

  /** `HttpError(statusCode, message)`, or any other thrown error, which the
      routes answer with a 500 carrying its message. */
  datatype AppError = HttpError(status: nat, message: string) | Internal(message: string)

  /** The three statuses the services throw, each with its message. */
  function BadRequest(m: string): AppError
  {
    HttpError(400, m)
  }

  function Unauthorized(m: string): AppError
  {
    HttpError(401, m)
  }

  function Forbidden(m: string): AppError
  {
    HttpError(403, m)
  }
}
