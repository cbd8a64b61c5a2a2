/** The facilities router: `GET /` (the caller's facility list) and
    `GET /:id` (one facility). Each handler is a function of the request,
    the table snapshot, the session's tenant and which statements fail. */
module FacilityRoutes {
  import opened Wrappers
  import opened Types
  import opened Errors
  import opened JsNumber
  import opened Database
  import opened FacilityRepository
  import opened Http

  /** `GET /`: no user is a direct 401 before any query; otherwise the list
      for `parseInt` of the company claim (NaN is not checked here) is
      returned with 200, and a repository error goes to `next`. */
  function ListFacilities(user: Option<CognitoJwtPayload>, t: Tables, tenant: Tenant, faults: Query -> bool)
    : (r: RouteResult)
    ensures user.None? ==> r == RouteResult(Respond(Unauthorized401), [])
    ensures user.Some? ==> r.queries == [SelectFacilities(ParseInt(user.value.companyIdClaim))]
    ensures user.Some? ==>
      var c := ParseInt(user.value.companyIdClaim);
      var listed := GetFacilitiesByCompany(t, tenant, c, faults(SelectFacilities(c)));
      && (r.outcome.Respond? <==> listed.Success?)
      && (listed.Success? ==> r.outcome.response == Response(200, DataBody(FacilityList(listed.value))))
      && (listed.Failure? ==> r.outcome.error == InternalServerError("Failed to fetch facilities"))
  {
    match user
    case None => RouteResult(Respond(Unauthorized401), [])
    case Some(u) =>
      var companyId := ParseInt(u.companyIdClaim);
      var q := SelectFacilities(companyId);
      match GetFacilitiesByCompany(t, tenant, companyId, faults(q))
      case Success(facilities) => RouteResult(Respond(Response(200, DataBody(FacilityList(facilities)))), [q])
      case Failure(e) => RouteResult(NextError(e), [q])
  }

  /** A claim without digits reaches the repository as NaN, which fails the query. */
  lemma NonNumericClaimFailsList(user: CognitoJwtPayload, t: Tables, tenant: Tenant, faults: Query -> bool)
    requires ParseInt(user.companyIdClaim) == NaN
    ensures ListFacilities(Some(user), t, tenant, faults).outcome == NextError(InternalServerError("Failed to fetch facilities"))
  {
  }

  /** `GET /:id`: an id that `parseInt` reads as NaN is a direct 400 before
      any query; any other id, including zero, negatives and digit prefixes
      such as "1abc", is looked up. No user is required. */
  function GetFacility(idParam: string, t: Tables, tenant: Tenant, faults: Query -> bool): (r: RouteResult)
    ensures ParseInt(idParam) == NaN <==> r == RouteResult(Respond(InvalidId400), [])
    ensures ParseInt(idParam).Int? ==>
      var id := ParseInt(idParam).value;
      var found := GetFacilityById(t, tenant, id, faults(SelectFacilityById(id)));
      && r.queries == [SelectFacilityById(id)]
      && r.outcome == match found
                      case Success(e) => Respond(Response(200, DataBody(Facility(e))))
                      case Failure(err) => NextError(err)
  {
    match ParseInt(idParam)
    case NaN => RouteResult(Respond(InvalidId400), [])
    case Int(id) =>
      var q := SelectFacilityById(id);
      match GetFacilityById(t, tenant, id, faults(q))
      case Success(e) => RouteResult(Respond(Response(200, DataBody(Facility(e)))), [q])
      case Failure(err) => RouteResult(NextError(err), [q])
  }

  /** "invalid-id" is refused without touching the database. */
  lemma InvalidIdIsRefused(t: Tables, tenant: Tenant, faults: Query -> bool)
    ensures GetFacility("invalid-id", t, tenant, faults) == RouteResult(Respond(InvalidId400), [])
  {
    assert ParseInt("invalid-id") == NaN by {
      assert TrimStart("invalid-id") == "invalid-id";
      assert DigitPrefix("invalid-id") == [];
    }
  }

  /** An id made of a number followed by non-digits is looked up as that
      number: "1abc" and "1' OR '1'='1" both query equipment 1. */
  lemma DigitPrefixIdIsLookedUp(n: int, rest: string, t: Tables, tenant: Tenant, faults: Query -> bool)
    requires rest == [] || !IsDigit(rest[0])
    ensures GetFacility(FormatInt(n) + rest, t, tenant, faults).queries == [SelectFacilityById(n)]
  {
    ParseIntFormatInt(n, rest);
  }
}
