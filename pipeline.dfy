/** One request through the vendor API's middleware chain: `authenticate`,
    then the route handler, then — when the handler calls `next(err)` — the
    error handler. */
module Pipeline {
  import opened Wrappers
  import opened Types
  import opened Errors
  import opened JsNumber
  import opened Database
  import opened FacilityRepository
  import opened Http
  import opened ErrorHandler
  import opened Auth
  import opened FacilityRoutes

  /** The response a handler's outcome ends in. */
  function Finish(h: Handled): (r: Response)
    ensures h.Respond? ==> r == h.response
    ensures h.NextError? ==> r.status == h.error.StatusCode() && r.body == ErrorBody(h.error.message, r.status)
  {
    match h
    case Respond(response) => response
    case NextError(e) => HandleError(App(e))
  }

  /** A GET under `/api` (the two facility routes and the history route): a
      failed `authenticate` ends the request with a 401 error body and the
      route never runs; otherwise the route runs with the verified user. */
  function ServeGet(header: Option<string>, verify: string -> Option<CognitoJwtPayload>,
                    route: Option<CognitoJwtPayload> -> RouteResult): (r: (Response, seq<Query>))
    ensures Authenticate(header, verify).Failure? ==>
      r.1 == [] && r.0.status == 401 && r.0.body.ErrorBody? && r.0.body.Success() == Some(false)
    ensures Authenticate(header, verify).Success? ==>
      var rr := route(Some(Authenticate(header, verify).value));
      r == (Finish(rr.outcome), rr.queries)
  {
    match Authenticate(header, verify)
    case Failure(e) => (HandleError(App(e)), [])
    case Success(user) =>
      var rr := route(Some(user));
      (Finish(rr.outcome), rr.queries)
  }

  /** Through the whole chain, another tenant's equipment is a 404 with the
      repository's message, whichever user asks. */
  lemma OtherTenantsFacilityIs404(header: Option<string>, verify: string -> Option<CognitoJwtPayload>,
                                  t: Tables, tenant: Tenant, e: Equipment, faults: Query -> bool)
    requires Authenticate(header, verify).Success?
    requires e in t.equipment && !Visible(e.companyId, tenant) && BindsAsInteger(Int(e.equipmentId))
    requires forall x :: x in t.equipment && x.equipmentId == e.equipmentId ==> x.companyId == e.companyId
    requires !faults(SelectFacilityById(e.equipmentId))
    ensures ServeGet(header, verify, _ => GetFacility(FormatInt(e.equipmentId), t, tenant, faults)).0
      == Response(404, ErrorBody("Facility with ID " + FormatInt(e.equipmentId) + " not found", 404))
  {
    var id := e.equipmentId;
    var msg := "Facility with ID " + FormatInt(id) + " not found";
    ParseIntFormatIntExact(id);
    OtherTenantsEquipmentIsNotFound(t, tenant, e);
    var rr := GetFacility(FormatInt(id), t, tenant, faults);
    assert rr.outcome == NextError(NotFoundError(msg));
    assert Finish(rr.outcome) == HandleError(App(NotFoundError(msg)));
  }

  /** Behind `authenticate`, the user check of `GET /` never fires: the
      facility list is only refused with a 401 by the gate itself. */
  lemma ListBehindGateHasUser(header: Option<string>, verify: string -> Option<CognitoJwtPayload>,
                              t: Tables, tenant: Tenant, faults: Query -> bool)
    requires Authenticate(header, verify).Success?
    ensures ServeGet(header, verify, u => ListFacilities(u, t, tenant, faults)).1 != []
  {
  }
}
