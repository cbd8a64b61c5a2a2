/** The application error hierarchy: the base `AppError` and its six
    subclasses, each fixing an HTTP status code and, for three of them, a
    default message. */
module Errors {

  datatype AppError =
    | AppError(status: int, message: string, operational: bool := true)
    | ValidationError(message: string)
    | UnauthorizedError(message: string := "Unauthorized")
    | ForbiddenError(message: string := "Forbidden")
    | NotFoundError(message: string)
    | ConflictError(message: string)
    | InternalServerError(message: string := "Internal Server Error")
  {
    /** `err.statusCode`. */
    function StatusCode(): int
    {
      match this
      case AppError(status, _, _) => status
      case ValidationError(_) => 400
      case UnauthorizedError(_) => 401
      case ForbiddenError(_) => 403
      case NotFoundError(_) => 404
      case ConflictError(_) => 409
      case InternalServerError(_) => 500
    }

    /** `err.isOperational`: only the internal server error is not. */
    function IsOperational(): bool
    {
      match this
      case AppError(_, _, operational) => operational
      case InternalServerError(_) => false
      case _ => true
    }

    /** Whether this is one of the six subclasses rather than a bare `AppError`. */
    predicate IsSubclass()
    {
      !AppError?
    }
  }

  /** Among the subclasses, the status code tells which one was thrown. */
  lemma {:induction false} SubclassStatusDeterminesKind(a: AppError, b: AppError)
    requires a.IsSubclass() && b.IsSubclass()
    requires a.StatusCode() == b.StatusCode() && a.message == b.message
    ensures a == b
  {
  }

  /** The subclass statuses are client errors, except the internal server error's 500. */
  lemma SubclassStatusRange(e: AppError)
    requires e.IsSubclass()
    ensures 400 <= e.StatusCode() < 500 <==> !e.InternalServerError?
    ensures e.StatusCode() in {400, 401, 403, 404, 409, 500}
  {
  }

  /** Among the subclasses, exactly the internal server error is non-operational. */
  lemma OnlyInternalIsNonOperational(e: AppError)
    requires e.IsSubclass()
    ensures !e.IsOperational() <==> e.InternalServerError?
    ensures !e.IsOperational() <==> e.StatusCode() == 500
  {
  }

  /** The default messages. */
  lemma DefaultMessages()
    ensures UnauthorizedError().message == "Unauthorized" && UnauthorizedError().StatusCode() == 401
    ensures ForbiddenError().message == "Forbidden" && ForbiddenError().StatusCode() == 403
    ensures InternalServerError().message == "Internal Server Error"
    ensures InternalServerError().StatusCode() == 500 && !InternalServerError().IsOperational()
  {
  }
}
