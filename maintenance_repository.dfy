/** `MaintenanceRepository`: a facility's maintenance history, the
    equipment existence check, and the report insert. Every database failure
    becomes an `InternalServerError` with the operation's own message. */
module MaintenanceRepository {
  import opened Wrappers
  import opened Types
  import opened Errors
  import opened JsNumber
  import opened LexOrder
  import opened Sorting
  import opened Database
  import opened FacilityRepository

  /** `ORDER BY report_date DESC`. */
  predicate NewestFirst(a: MaintenanceReport, b: MaintenanceReport)
  {
    LexLe(b.reportDate, a.reportDate)
  }

  lemma NewestFirstIsTotalPreorder()
    ensures TotalPreorder(NewestFirst)
  {
    forall a: MaintenanceReport, b: MaintenanceReport ensures NewestFirst(a, b) || NewestFirst(b, a) {
      LexLeTotal(a.reportDate, b.reportDate);
    }
    forall a: MaintenanceReport, b: MaintenanceReport, c: MaintenanceReport
      | NewestFirst(a, b) && NewestFirst(b, c)
      ensures NewestFirst(a, c)
    {
      LexLeTransitive(c.reportDate, b.reportDate, a.reportDate);
    }
  }

  /** `getMaintenanceHistory(id)`: exactly the visible reports for that
      equipment, newest first; none is an empty list, not an error. */
  function GetMaintenanceHistory(t: Tables, tenant: Tenant, equipmentId: int, fails: bool)
    : (r: Result<seq<MaintenanceReport>, AppError>)
    ensures r.Failure? <==> fails || !BindsAsInteger(Int(equipmentId))
    ensures r.Failure? ==> r.error == InternalServerError("Failed to fetch maintenance history")
    ensures r.Success? ==>
      && (forall m :: multiset(r.value)[m] ==
                        if m.equipmentId == equipmentId && Visible(m.companyId, tenant)
                        then multiset(t.reports)[m] else 0)
      && SortedBy(r.value, NewestFirst)
  {
    if fails || !BindsAsInteger(Int(equipmentId)) then
      Failure(InternalServerError("Failed to fetch maintenance history"))
    else
      NewestFirstIsTotalPreorder();
      var matching := Filter(t.reports, (m: MaintenanceReport) => m.equipmentId == equipmentId && Visible(m.companyId, tenant));
      Success(SortBy(matching, NewestFirst))
  }

  /** `equipmentExists(id)`: whether a visible equipment row has that id. */
  function EquipmentExists(t: Tables, tenant: Tenant, equipmentId: int, fails: bool)
    : (r: Result<bool, AppError>)
    ensures r.Failure? <==> fails || !BindsAsInteger(Int(equipmentId))
    ensures r.Failure? ==> r.error == InternalServerError("Failed to check equipment existence")
    ensures r.Success? ==>
      (r.value <==> exists e :: e in t.equipment && e.equipmentId == equipmentId && Visible(e.companyId, tenant))
  {
    if fails || !BindsAsInteger(Int(equipmentId)) then
      Failure(InternalServerError("Failed to check equipment existence"))
    else
      var rows := Filter(t.equipment, (e: Equipment) => e.equipmentId == equipmentId && Visible(e.companyId, tenant));
      assert rows != [] ==> rows[0] in rows;
      Success(|rows| > 0)
  }

  /** The existence check and the facility lookup agree: the equipment
      exists exactly when the lookup finds it, and is absent exactly when the
      lookup answers "not found". */
  lemma ExistsIffFacilityFound(t: Tables, tenant: Tenant, equipmentId: int, fails: bool)
    ensures EquipmentExists(t, tenant, equipmentId, fails) == Success(true)
            <==> GetFacilityById(t, tenant, equipmentId, fails).Success?
    ensures EquipmentExists(t, tenant, equipmentId, fails) == Success(false)
            <==> GetFacilityById(t, tenant, equipmentId, fails).Failure?
                 && GetFacilityById(t, tenant, equipmentId, fails).error.NotFoundError?
  {
  }

  /** `dto.next_maintenance_date || null`: absent or empty becomes NULL. */
  function NextDateParam(next: Option<string>): (p: SqlParam)
    ensures p == PNull <==> next == None || next == Some("")
  {
    if next.None? || next.value == "" then PNull else PText(next.value)
  }

  /** The parameters of the insert, in column order. */
  function InsertParams(companyId: IntOrNaN, dto: CreateMaintenanceReportDto): seq<SqlParam>
  {
    [PNumber(Int(dto.equipmentId)), PNumber(companyId), PText(dto.reportDate),
     PText(dto.description), NextDateParam(dto.nextMaintenanceDate)]
  }

  /** The parameters land in their own columns: the equipment and the
      description from the DTO, the company from the caller, the dates as the
      database reads them, and an absent or empty next date as NULL. */
  lemma InsertParamsDecode(companyId: int, dto: CreateMaintenanceReportDto, parseDate: string -> Option<Date>)
    requires BindsAsInteger(Int(companyId)) && BindsAsInteger(Int(dto.equipmentId))
    requires parseDate(dto.reportDate).Some?
    requires dto.nextMaintenanceDate.Some? && dto.nextMaintenanceDate.value != "" ==>
             parseDate(dto.nextMaintenanceDate.value).Some?
    ensures DecodeInsert(InsertParams(Int(companyId), dto), parseDate) ==
      Some(ReportValues(dto.equipmentId, companyId, parseDate(dto.reportDate).value, dto.description,
                        if dto.nextMaintenanceDate.None? || dto.nextMaintenanceDate.value == "" then None
                        else Some(parseDate(dto.nextMaintenanceDate.value).value)))
  {
  }

  /** A stored row carries the DTO's values as the database reads them: its
      equipment and description, the parsed report date, NULL for an absent
      or empty next date and the parsed next date otherwise, and the time of
      the insert. */
  predicate RowOfDto(row: MaintenanceReport, dto: CreateMaintenanceReportDto, parseDate: string -> Option<Date>, now: Date)
  {
    && row.equipmentId == dto.equipmentId && row.description == dto.description && row.createdAt == now
    && Some(row.reportDate) == parseDate(dto.reportDate)
    && (row.nextMaintenanceDate.None? <==> dto.nextMaintenanceDate.None? || dto.nextMaintenanceDate == Some(""))
    && (row.nextMaintenanceDate.Some? ==> Some(row.nextMaintenanceDate.value) == parseDate(dto.nextMaintenanceDate.value))
  }

  /** `createMaintenanceReport(companyId, dto)`: inserts one row with the
      parameters above and returns it; any failure, of the connection or of
      the insert itself, is "Failed to create maintenance report" and leaves
      the tables unchanged. */
  method CreateMaintenanceReport(db: Store, tenant: Tenant, companyId: IntOrNaN, dto: CreateMaintenanceReportDto,
                                 fails: bool, now: Date, parseDate: string -> Option<Date>)
    returns (r: Result<MaintenanceReport, AppError>)
    requires db.Valid()
    modifies db
    ensures db.Valid()
    ensures r.Failure? ==> r.error == InternalServerError("Failed to create maintenance report")
                           && db.tables == old(db.tables) && db.nextReportId == old(db.nextReportId)
    ensures r.Success? <==>
      var v := DecodeInsert(InsertParams(companyId, dto), parseDate);
      && !fails && v.Some? && Visible(v.value.companyId, tenant)
      && exists e :: e in old(db.tables).equipment && e.equipmentId == v.value.equipmentId
    ensures r.Success? ==>
      && RowOfDto(r.value, dto, parseDate, now) && companyId == Int(r.value.companyId)
      && r.value.reportId == old(db.nextReportId)
      && (forall q :: q in old(db.tables).reports ==> q.reportId != r.value.reportId)
      && db.tables == old(db.tables).(reports := old(db.tables).reports + [r.value])
  {
    if fails {
      return Failure(InternalServerError("Failed to create maintenance report"));
    }
    var params := InsertParams(companyId, dto);
    var inserted := db.InsertReport(tenant, params, now, parseDate);
    match inserted
    case Failure(_) =>
      r := Failure(InternalServerError("Failed to create maintenance report"));
    case Success(row) =>
      assert params[4] == NextDateParam(dto.nextMaintenanceDate);
      r := Success(row);
  }

  /** After an insert, the equipment's history holds the new report. */
  lemma {:induction false} CreatedReportInHistory(t: Tables, tenant: Tenant, row: MaintenanceReport)
    requires Visible(row.companyId, tenant) && BindsAsInteger(Int(row.equipmentId))
    ensures var h := GetMaintenanceHistory(t.(reports := t.reports + [row]), tenant, row.equipmentId, false);
            h.Success? && row in h.value
  {
    var t' := t.(reports := t.reports + [row]);
    var h := GetMaintenanceHistory(t', tenant, row.equipmentId, false);
    assert row in t'.reports;
    assert multiset(t'.reports)[row] > 0;
    assert multiset(h.value)[row] > 0;
  }

  /** A report dated after every earlier report of its equipment heads the history. */
  lemma {:induction false} NewestReportComesFirst(t: Tables, tenant: Tenant, row: MaintenanceReport)
    requires Visible(row.companyId, tenant) && BindsAsInteger(Int(row.equipmentId))
    requires forall m :: m in t.reports && m.equipmentId == row.equipmentId && Visible(m.companyId, tenant) ==>
                         LexLt(m.reportDate, row.reportDate)
    ensures var h := GetMaintenanceHistory(t.(reports := t.reports + [row]), tenant, row.equipmentId, false);
            h.Success? && |h.value| > 0 && h.value[0] == row
  {
    var t' := t.(reports := t.reports + [row]);
    var h := GetMaintenanceHistory(t', tenant, row.equipmentId, false);
    CreatedReportInHistory(t, tenant, row);
    var k :| 0 <= k < |h.value| && h.value[k] == row;
    var first := h.value[0];
    assert NewestFirst(first, row) by {
      if k > 0 {
        assert NewestFirst(h.value[0], h.value[k]);
      } else {
        LexLeReflexive(row.reportDate);
      }
    }
    assert first in t'.reports by {
      assert first in multiset(h.value);
    }
    LexLtIsStrict(first.reportDate, row.reportDate);
  }
}
