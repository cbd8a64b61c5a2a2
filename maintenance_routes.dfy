/** The maintenance router: `GET /facilities/:id/maintenance-history` and
    `POST /maintenance-reports`, with the request-body schema of the latter
    (equipment_id a positive integer, report_date an ISO date, description
    1 to 1000 characters, next_maintenance_date an optional ISO date). */
module MaintenanceRoutes {
  import opened Wrappers
  import opened Types
  import opened Errors
  import opened JsNumber
  import opened Database
  import opened FacilityRepository
  import opened MaintenanceRepository
  import opened Http

  /** `GET /facilities/:id/maintenance-history`: a NaN id is a direct 400;
      otherwise the equipment is looked up first, and only when it is
      visible is its history queried. */
  function GetHistory(idParam: string, t: Tables, tenant: Tenant, faults: Query -> bool): (r: RouteResult)
    ensures ParseInt(idParam) == NaN <==> r == RouteResult(Respond(InvalidId400), [])
    ensures ParseInt(idParam).Int? ==>
      var id := ParseInt(idParam).value;
      var found := GetFacilityById(t, tenant, id, faults(SelectFacilityById(id)));
      var history := GetMaintenanceHistory(t, tenant, id, faults(SelectHistory(id)));
      && (found.Failure? ==> r == RouteResult(NextError(found.error), [SelectFacilityById(id)]))
      && (found.Success? ==> r.queries == [SelectFacilityById(id), SelectHistory(id)])
      && (found.Success? && history.Failure? ==> r.outcome == NextError(history.error))
      && (found.Success? && history.Success? ==>
            r.outcome == Respond(Response(200, DataBody(History(MaintenanceHistoryResponse(found.value, history.value))))))
  {
    match ParseInt(idParam)
    case NaN => RouteResult(Respond(InvalidId400), [])
    case Int(id) =>
      var q1 := SelectFacilityById(id);
      match GetFacilityById(t, tenant, id, faults(q1))
      case Failure(e) => RouteResult(NextError(e), [q1])
      case Success(equipment) =>
        var q2 := SelectHistory(id);
        match GetMaintenanceHistory(t, tenant, id, faults(q2))
        case Failure(e) => RouteResult(NextError(e), [q1, q2])
        case Success(reports) =>
          RouteResult(Respond(Response(200, DataBody(History(MaintenanceHistoryResponse(equipment, reports))))), [q1, q2])
  }

  /** Equipment the tenant cannot see is "not found", and its history is never read. */
  lemma InvisibleEquipmentHasNoHistory(n: int, t: Tables, tenant: Tenant, faults: Query -> bool)
    requires BindsAsInteger(Int(n)) && !faults(SelectFacilityById(n))
    requires forall e :: e in t.equipment && e.equipmentId == n ==> !Visible(e.companyId, tenant)
    ensures GetHistory(FormatInt(n), t, tenant, faults) ==
      RouteResult(NextError(NotFoundError("Facility with ID " + FormatInt(n) + " not found")), [SelectFacilityById(n)])
  {
    ParseIntFormatIntExact(n);
  }

  /** A JSON value of the request body. Numbers are integers, or some number
      with a fractional part. */
  datatype Json = JNull | JBool(b: bool) | JInt(i: int) | JFraction | JString(s: string) | JArray | JObject

  /** Each key names one member. */
  predicate UniqueKeys(members: seq<(string, Json)>)
  {
    forall i, j :: 0 <= i < j < |members| ==> members[i].0 != members[j].0
  }

  /** A parsed JSON object: its members in `Object.keys` order (integer-like
      keys first, ascending, then the others as written), each key once, as
      `JSON.parse` leaves it. */
  type JsonObject = members: seq<(string, Json)> | UniqueKeys(members)

  function Lookup(body: JsonObject, key: string): (r: Option<Json>)
    ensures r.Some? <==> exists i :: 0 <= i < |body| && body[i].0 == key
    ensures r.Some? ==> (key, r.value) in body
  {
    if body == [] then None
    else if body[0].0 == key then Some(body[0].1)
    else
      var r := Lookup(body[1..], key);
      assert r.Some? ==> (key, r.value) in body[1..];
      assert forall i :: 1 <= i < |body| ==> body[i] == body[1..][i - 1];
      r
  }

  const SchemaKeys: seq<string> := ["equipment_id", "report_date", "description", "next_maintenance_date"]

  /** `Number.MAX_SAFE_INTEGER`, beyond which a number schema refuses a value. */
  const MaxSafeInteger: int := 0x1F_FFFF_FFFF_FFFF

  const MaxDescriptionLength: int := 1000

  /** A key as the validator quotes it in messages. */
  function Label(key: string): string
  {
    "\"" + key + "\""
  }

  /** `Joi.number().integer().positive().required()`. */
  function CheckPositiveInteger(key: string, v: Option<Json>): (r: Result<int, string>)
    ensures r.Success? <==> v.Some? && v.value.JInt? && 0 < v.value.i <= MaxSafeInteger
    ensures r.Success? ==> v == Some(JInt(r.value))
  {
    match v
    case None => Failure(Label(key) + " is required")
    case Some(JInt(i)) =>
      if i > MaxSafeInteger || i < -MaxSafeInteger then Failure(Label(key) + " must be a safe number")
      else if i <= 0 then Failure(Label(key) + " must be a positive number")
      else Success(i)
    case Some(JFraction) => Failure(Label(key) + " must be an integer")
    case Some(_) => Failure(Label(key) + " must be a number")
  }

  /** `Joi.date().iso()`, required or optional; ISO 8601 text is what the
      date parser accepts. */
  function CheckIsoDate(key: string, v: Option<Json>, required: bool, parseDate: string -> Option<Date>)
    : (r: Result<Option<string>, string>)
    ensures r.Success? <==> (v.None? && !required) || (v.Some? && v.value.JString? && parseDate(v.value.s).Some?)
    ensures r.Success? ==> (r.value.None? <==> v.None?) && (v.Some? ==> v.value == JString(r.value.value))
  {
    match v
    case None => if required then Failure(Label(key) + " is required") else Success(None)
    case Some(JString(s)) =>
      if parseDate(s).Some? then Success(Some(s)) else Failure(Label(key) + " must be in ISO 8601 date format")
    case Some(_) => Failure(Label(key) + " must be a valid date")
  }

  /** `Joi.string().min(1).max(1000).required()`. */
  function CheckDescription(key: string, v: Option<Json>): (r: Result<string, string>)
    ensures r.Success? <==> v.Some? && v.value.JString? && 1 <= |v.value.s| <= MaxDescriptionLength
    ensures r.Success? ==> v == Some(JString(r.value))
  {
    match v
    case None => Failure(Label(key) + " is required")
    case Some(JString(s)) =>
      if s == "" then Failure(Label(key) + " is not allowed to be empty")
      else if |s| > MaxDescriptionLength then
        Failure(Label(key) + " length must be less than or equal to " + FormatInt(MaxDescriptionLength) + " characters long")
      else Success(s)
    case Some(_) => Failure(Label(key) + " must be a string")
  }

  /** The first member whose key the schema does not know. */
  function FirstUnknownKey(body: JsonObject): (r: Option<string>)
    ensures r.None? <==> forall i :: 0 <= i < |body| ==> body[i].0 in SchemaKeys
    ensures r.Some? ==> r.value !in SchemaKeys
  {
    if body == [] then None
    else if body[0].0 !in SchemaKeys then Some(body[0].0)
    else
      assert forall i :: 1 <= i < |body| ==> body[i] == body[1..][i - 1];
      FirstUnknownKey(body[1..])
  }

  /** The schema as a predicate on the body. */
  predicate ConformsToSchema(body: JsonObject, parseDate: string -> Option<Date>)
  {
    var id := Lookup(body, "equipment_id");
    var reportDate := Lookup(body, "report_date");
    var description := Lookup(body, "description");
    var next := Lookup(body, "next_maintenance_date");
    && id.Some? && id.value.JInt? && 0 < id.value.i <= MaxSafeInteger
    && reportDate.Some? && reportDate.value.JString? && parseDate(reportDate.value.s).Some?
    && description.Some? && description.value.JString? && 1 <= |description.value.s| <= MaxDescriptionLength
    && (next.Some? ==> next.value.JString? && parseDate(next.value.s).Some?)
    && forall i :: 0 <= i < |body| ==> body[i].0 in SchemaKeys
  }

  /** `createMaintenanceReportSchema.validate(body)`: the keys are checked in
      schema order and the first failure is reported (unknown keys last); on
      success the DTO carries the body's own values. */
  function ValidateCreateReport(body: JsonObject, parseDate: string -> Option<Date>)
    : (r: Result<CreateMaintenanceReportDto, string>)
    ensures r.Success? <==> ConformsToSchema(body, parseDate)
    ensures r.Success? ==>
      && Lookup(body, "equipment_id") == Some(JInt(r.value.equipmentId))
      && Lookup(body, "report_date") == Some(JString(r.value.reportDate))
      && Lookup(body, "description") == Some(JString(r.value.description))
      && (r.value.nextMaintenanceDate.None? <==> Lookup(body, "next_maintenance_date").None?)
      && (r.value.nextMaintenanceDate.Some? ==>
            Lookup(body, "next_maintenance_date") == Some(JString(r.value.nextMaintenanceDate.value)))
  {
    match CheckPositiveInteger("equipment_id", Lookup(body, "equipment_id"))
    case Failure(m) => Failure(m)
    case Success(id) =>
      match CheckIsoDate("report_date", Lookup(body, "report_date"), true, parseDate)
      case Failure(m) => Failure(m)
      case Success(reportDate) =>
        match CheckDescription("description", Lookup(body, "description"))
        case Failure(m) => Failure(m)
        case Success(description) =>
          match CheckIsoDate("next_maintenance_date", Lookup(body, "next_maintenance_date"), false, parseDate)
          case Failure(m) => Failure(m)
          case Success(next) =>
            match FirstUnknownKey(body)
            case Some(key) => Failure(Label(key) + " is not allowed")
            case None => Success(CreateMaintenanceReportDto(id, reportDate.value, description, next))
  }

  /** A refused body carries the message of the first check that fails, in
      schema order (equipment_id, report_date, description,
      next_maintenance_date), and an unknown key is reported only when all
      four pass. */
  lemma FirstFailureIsReported(body: JsonObject, parseDate: string -> Option<Date>)
    ensures var r := ValidateCreateReport(body, parseDate);
      var id := CheckPositiveInteger("equipment_id", Lookup(body, "equipment_id"));
      var date := CheckIsoDate("report_date", Lookup(body, "report_date"), true, parseDate);
      var text := CheckDescription("description", Lookup(body, "description"));
      var next := CheckIsoDate("next_maintenance_date", Lookup(body, "next_maintenance_date"), false, parseDate);
      && (id.Failure? ==> r == Failure(id.error))
      && (id.Success? && date.Failure? ==> r == Failure(date.error))
      && (id.Success? && date.Success? && text.Failure? ==> r == Failure(text.error))
      && (id.Success? && date.Success? && text.Success? && next.Failure? ==> r == Failure(next.error))
      && (id.Success? && date.Success? && text.Success? && next.Success? && FirstUnknownKey(body).Some? ==>
            r == Failure(Label(FirstUnknownKey(body).value) + " is not allowed"))
  {
  }

  /** A body without report_date is refused with the "is required" message. */
  lemma MissingReportDateIsRequired(body: JsonObject, parseDate: string -> Option<Date>)
    requires Lookup(body, "report_date").None?
    requires CheckPositiveInteger("equipment_id", Lookup(body, "equipment_id")).Success?
    ensures ValidateCreateReport(body, parseDate) == Failure(Label("report_date") + " is required")
  {
    FirstFailureIsReported(body, parseDate);
  }

  /** A validated body whose equipment id fits the INTEGER column, filed
      under an integer company, gives insert parameters the database
      accepts, and the row keeps that company and the body's equipment. */
  lemma ValidatedReportDecodes(body: JsonObject, parseDate: string -> Option<Date>, companyId: int)
    requires ValidateCreateReport(body, parseDate).Success? && BindsAsInteger(Int(companyId))
    requires BindsAsInteger(Int(ValidateCreateReport(body, parseDate).value.equipmentId))
    ensures var dto := ValidateCreateReport(body, parseDate).value;
            var v := DecodeInsert(InsertParams(Int(companyId), dto), parseDate);
            v.Some? && v.value.companyId == companyId && v.value.equipmentId == dto.equipmentId
  {
    var dto := ValidateCreateReport(body, parseDate).value;
    InsertParamsDecode(companyId, dto, parseDate);
  }

  /** The end of the POST handler, once the equipment is known to exist:
      create the report and answer 201 with it, or hand the repository's
      error to the error handler. Only a 201 changes the tables, by the
      returned row; a row the database accepts for a visible company
      always gives 201. */
  method CreateAndRespond(db: Store, tenant: Tenant, companyId: IntOrNaN, dto: CreateMaintenanceReportDto,
                          fails: bool, now: Date, parseDate: string -> Option<Date>)
    returns (h: Handled)
    requires db.Valid()
    requires exists e :: e in db.tables.equipment && e.equipmentId == dto.equipmentId
    modifies db
    ensures db.Valid()
    ensures h.NextError? ==>
      h.error == InternalServerError("Failed to create maintenance report") && db.tables == old(db.tables)
    ensures h.Respond? ==>
      && h.response.status == 201 && h.response.body.DataBody? && h.response.body.data.Report?
      && var row := h.response.body.data.report;
      && companyId == Int(row.companyId) && Visible(row.companyId, tenant)
      && RowOfDto(row, dto, parseDate, now)
      && db.tables == old(db.tables).(reports := old(db.tables).reports + [row])
    ensures var v := DecodeInsert(InsertParams(companyId, dto), parseDate);
      !fails && v.Some? && Visible(v.value.companyId, tenant) ==> h.Respond?
  {
    var created := CreateMaintenanceReport(db, tenant, companyId, dto, fails, now, parseDate);
    match created
    case Failure(e) =>
      h := NextError(e);
    case Success(report) =>
      h := Respond(Response(201, DataBody(Report(report))));
  }

  /** `POST /maintenance-reports`: no user is a direct 401; then the body is
      validated, then the equipment's visibility is checked, and only then is
      the report inserted, under the company of the caller's claim. Each
      failure stops the chain, and nothing is written unless the insert
      succeeds. Success is 201 with the stored row. */
  method PostMaintenanceReport(db: Store, user: Option<CognitoJwtPayload>, body: JsonObject, tenant: Tenant,
                               faults: Query -> bool, now: Date, parseDate: string -> Option<Date>)
    returns (r: RouteResult)
    requires db.Valid()
    modifies db
    ensures db.Valid()
    ensures !(r.outcome.Respond? && r.outcome.response.status == 201) ==> db.tables == old(db.tables)
    ensures user.None? ==> r == RouteResult(Respond(Unauthorized401), [])
    ensures user.Some? && ValidateCreateReport(body, parseDate).Failure? ==>
      r == RouteResult(NextError(ValidationError(ValidateCreateReport(body, parseDate).error)), [])
    ensures user.Some? && ValidateCreateReport(body, parseDate).Success? ==>
      var dto := ValidateCreateReport(body, parseDate).value;
      var check := SelectEquipmentExists(dto.equipmentId);
      var exists_ := EquipmentExists(old(db.tables), tenant, dto.equipmentId, faults(check));
      var insert := InsertReport(InsertParams(ParseInt(user.value.companyIdClaim), dto));
      && |r.queries| >= 1 && r.queries[0] == check
      && (exists_.Failure? ==> r == RouteResult(NextError(exists_.error), [check]))
      && (exists_ == Success(false) ==>
            r == RouteResult(NextError(NotFoundError("Equipment with ID " + FormatInt(dto.equipmentId) + " not found")), [check]))
      && (exists_ == Success(true) ==>
            && r.queries == [check, insert]
            && (r.outcome.NextError? ==> r.outcome.error == InternalServerError("Failed to create maintenance report"))
            && (r.outcome.Respond? ==> r.outcome.response.status == 201))
    ensures user.Some? && ValidateCreateReport(body, parseDate).Success? ==>
      var dto := ValidateCreateReport(body, parseDate).value;
      var c := ParseInt(user.value.companyIdClaim);
      && EquipmentExists(old(db.tables), tenant, dto.equipmentId, faults(SelectEquipmentExists(dto.equipmentId))) == Success(true)
      && !faults(InsertReport(InsertParams(c, dto)))
      && BindsAsInteger(c) && tenant == Some(c.value)
      ==> r.outcome.Respond? && r.outcome.response.status == 201
    ensures r.outcome.Respond? && r.outcome.response.status == 201 ==>
      && user.Some? && r.outcome.response.body.DataBody? && r.outcome.response.body.data.Report?
      && var row := r.outcome.response.body.data.report;
      && ParseInt(user.value.companyIdClaim) == Int(row.companyId)
      && Visible(row.companyId, tenant)
      && ValidateCreateReport(body, parseDate).Success?
      && RowOfDto(row, ValidateCreateReport(body, parseDate).value, parseDate, now)
      && db.tables == old(db.tables).(reports := old(db.tables).reports + [row])
  {
    if user.None? {
      return RouteResult(Respond(Unauthorized401), []);
    }
    var companyId := ParseInt(user.value.companyIdClaim);
    var validated := ValidateCreateReport(body, parseDate);
    if validated.Failure? {
      return RouteResult(NextError(ValidationError(validated.error)), []);
    }
    var dto := validated.value;
    var check := SelectEquipmentExists(dto.equipmentId);
    var exists_ := EquipmentExists(db.tables, tenant, dto.equipmentId, faults(check));
    if exists_.Failure? {
      return RouteResult(NextError(exists_.error), [check]);
    }
    if !exists_.value {
      return RouteResult(NextError(NotFoundError("Equipment with ID " + FormatInt(dto.equipmentId) + " not found")), [check]);
    }
    var insert := InsertReport(InsertParams(companyId, dto));
    if BindsAsInteger(companyId) {
      ValidatedReportDecodes(body, parseDate, companyId.value);
    }
    var outcome := CreateAndRespond(db, tenant, companyId, dto, faults(insert), now, parseDate);
    r := RouteResult(outcome, [check, insert]);
  }
}
