/** The bearer-token gate (`authenticate`) and the company check
    (`requireCompanyAccess`). Signature checking, key fetching and expiry are
    the token verifier's business; the model receives the verifier as a
    function from token text to the payload it accepts, or `None`. */
module Auth {
  import opened Wrappers
  import opened Errors
  import opened Types
  import opened JsNumber

  const BearerPrefix: string := "Bearer "

  /** The token that `authenticate` hands to the verifier: the header minus its
      first seven characters, when the header is present and starts with
      exactly "Bearer ". */
  function BearerToken(header: Option<string>): (token: Option<string>)
    ensures token.Some? <==> header.Some? && |header.value| >= 7 && header.value[..7] == BearerPrefix
    ensures token.Some? ==> BearerPrefix + token.value == header.value
  {
    if header.Some? && |header.value| >= |BearerPrefix| && header.value[..|BearerPrefix|] == BearerPrefix
    then Some(header.value[|BearerPrefix|..])
    else None
  }

  /** Any token survives being put into a header and taken out again. */
  lemma BearerTokenOfHeader(token: string)
    ensures BearerToken(Some(BearerPrefix + token)) == Some(token)
  {
    assert (BearerPrefix + token)[..7] == BearerPrefix;
    assert (BearerPrefix + token)[7..] == token;
  }

  /** The decision `authenticate` takes: the payload to attach, or the error it
      passes to `next`. A bad header never reaches the verifier; every
      verifier failure is the same "Invalid token". */
  function Authenticate(header: Option<string>, verify: string -> Option<CognitoJwtPayload>)
    : (r: Result<CognitoJwtPayload, AppError>)
    ensures r.Failure? ==> r.error.UnauthorizedError? && r.error.StatusCode() == 401
    ensures BearerToken(header).None? ==>
      r == Failure(UnauthorizedError("Authorization header missing or invalid"))
    ensures BearerToken(header).Some? ==>
      r == (match verify(BearerToken(header).value)
            case None => Failure(UnauthorizedError("Invalid token"))
            case Some(p) => Success(p))
  {
    match BearerToken(header)
    case None => Failure(UnauthorizedError("Authorization header missing or invalid"))
    case Some(token) =>
      match verify(token)
      case None => Failure(UnauthorizedError("Invalid token"))
      case Some(payload) => Success(payload)
  }

  /** A well-formed header succeeds exactly when the verifier accepts its token. */
  lemma AuthenticateBearer(token: string, verify: string -> Option<CognitoJwtPayload>)
    ensures Authenticate(Some(BearerPrefix + token), verify).Success? <==> verify(token).Some?
    ensures verify(token).Some? ==> Authenticate(Some(BearerPrefix + token), verify) == Success(verify(token).value)
  {
    BearerTokenOfHeader(token);
  }

  /** `authenticate` on a request: calls the verifier at most once, with the
      token, attaches the payload on success, and calls `next` exactly once:
      with no error on success (`nextError == None`), with the error otherwise. */
  method AuthenticateRequest(req: AuthenticatedRequest, verify: string -> Option<CognitoJwtPayload>)
    returns (verifiedToken: Option<string>, nextError: Option<AppError>)
    modifies req
    ensures verifiedToken == BearerToken(req.authorization)
    ensures match Authenticate(req.authorization, verify)
            case Success(p) => req.user == Some(p) && nextError == None
            case Failure(e) => req.user == old(req.user) && nextError == Some(e)
  {
    verifiedToken := BearerToken(req.authorization);
    if verifiedToken == None {
      nextError := Some(UnauthorizedError("Authorization header missing or invalid"));
      return;
    }
    var payload := verify(verifiedToken.value);
    if payload == None {
      nextError := Some(UnauthorizedError("Invalid token"));
      return;
    }
    req.user := payload;
    nextError := None;
  }

  /** `requireCompanyAccess(companyId)`: the argument it passes to `next`. */
  function RequireCompanyAccess(companyId: int, user: Option<CognitoJwtPayload>): (r: Option<AppError>)
    ensures r.None? <==> user.Some? && ParseInt(user.value.companyIdClaim) == Int(companyId)
    ensures user.None? ==> r == Some(UnauthorizedError("User not authenticated"))
    ensures user.Some? && r.Some? ==> r == Some(ForbiddenError("Access denied to this company data"))
  {
    if user.None? then Some(UnauthorizedError("User not authenticated"))
    else if ParseInt(user.value.companyIdClaim) != Int(companyId) then Some(ForbiddenError("Access denied to this company data"))
    else None
  }

  /** A claim without digits parses to NaN and is refused for every company. */
  lemma NonNumericClaimAlwaysForbidden(user: CognitoJwtPayload, companyId: int)
    requires ParseInt(user.companyIdClaim) == NaN
    ensures RequireCompanyAccess(companyId, Some(user)) == Some(ForbiddenError("Access denied to this company data"))
  {
  }

  /** A claim that starts with the company's number grants access, whatever
      non-digit text follows it. */
  lemma ClaimPrefixGrantsAccess(user: CognitoJwtPayload, companyId: int, rest: string)
    requires user.companyIdClaim == FormatInt(companyId) + rest
    requires rest == [] || !IsDigit(rest[0])
    ensures RequireCompanyAccess(companyId, Some(user)) == None
  {
    ParseIntFormatInt(companyId, rest);
  }
}
