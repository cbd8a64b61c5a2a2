/** The JSON responses the vendor API writes with `res.status(..).json(..)`. */
module Http {
  import opened Wrappers
  import opened Types
  import opened Errors
  import opened Database

  /** The `data` member of a successful response. */
  datatype Payload =
    | FacilityList(facilities: seq<FacilityWithOrders>)
    | Facility(facility: Equipment)
    | History(history: MaintenanceHistoryResponse)
    | Report(report: MaintenanceReport)

  datatype Body =
      /** `{ success: false, error: { message, statusCode } }` */
    | ErrorBody(message: string, statusCode: int)
      /** `{ error }`, written directly by a route handler */
    | BareError(error: string)
      /** `{ success: true, data }` */
    | DataBody(data: Payload)
  {
    /** The body's `success` member, absent from a bare error. */
    function Success(): Option<bool>
    {
      match this
      case ErrorBody(_, _) => Some(false)
      case BareError(_) => None
      case DataBody(_) => Some(true)
    }
  }

  datatype Response = Response(status: int, body: Body)

  /** How a route handler ends: it writes a response itself, or it calls
      `next(err)` and leaves the response to the error middleware. */
  datatype Handled = Respond(response: Response) | NextError(error: AppError)

  /** A handler's outcome and the statements it issued, in order. */
  datatype RouteResult = RouteResult(outcome: Handled, queries: seq<Query>)

  /** The direct reply to a request without a user. */
  const Unauthorized401 := Response(401, BareError("Unauthorized"))

  /** The direct reply to an id that does not parse. */
  const InvalidId400 := Response(400, BareError("Invalid equipment ID"))
}
