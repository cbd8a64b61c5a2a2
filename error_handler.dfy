/** The last two middlewares: `errorHandler`, which turns whatever a handler
    passed to `next(err)` into a JSON error response, and `notFoundHandler`. */
module ErrorHandler {
  import opened Wrappers
  import opened Errors
  import opened Http

  /** What can reach the error middleware: an `AppError`, or any other thrown
      value together with its own message. */
  datatype Thrown = App(error: AppError) | Other(message: string)

  /** Exactly one response per error. An `AppError` keeps its status and its
      message, whatever `isOperational` says; anything else is a 500 with a
      fixed message. */
  function HandleError(err: Thrown): (r: Response)
    ensures r.body.ErrorBody? && r.body.Success() == Some(false)
    ensures r.body.statusCode == r.status
    ensures err.App? ==> r.status == err.error.StatusCode() && r.body.message == err.error.message
    ensures err.Other? ==> r.status == 500 && r.body.message == "Internal Server Error"
  {
    match err
    case App(e) => Response(e.StatusCode(), ErrorBody(e.message, e.StatusCode()))
    case Other(_) => Response(500, ErrorBody("Internal Server Error", 500))
  }

  /** Any unmatched route. */
  function NotFoundHandler(): (r: Response)
    ensures r.status == 404 && r.body == ErrorBody("Route not found", 404)
    ensures r.body.Success() == Some(false)
  {
    Response(404, ErrorBody("Route not found", 404))
  }

  /** The response depends only on the status code and the message: an
      internal server error's message reaches the client verbatim, and
      `isOperational` never matters. */
  lemma ResponseIgnoresOperational(a: AppError, b: AppError)
    requires a.StatusCode() == b.StatusCode() && a.message == b.message
    ensures HandleError(App(a)) == HandleError(App(b))
  {
  }

  /** A non-`AppError` never leaks its own message. */
  lemma OtherErrorsAreOpaque(m1: string, m2: string)
    ensures HandleError(Other(m1)) == HandleError(Other(m2)) == HandleError(App(InternalServerError()))
  {
  }
}
