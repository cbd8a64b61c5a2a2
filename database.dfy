/** The PostgreSQL database as the vendor API uses it: the four tables, the
    row-level-security policy on `equipment` and `maintenance_reports`, the
    parameters a query binds, and the one write (the report insert). The
    session's `app.company_id` setting is an explicit `Tenant` argument. */
module Database {
  import opened Wrappers
  import opened Types
  import opened JsNumber
  import opened Sorting

  /** The `app.company_id` setting: unset, or a company id. */
  type Tenant = Option<int>

  /** The policy `company_id = current_setting('app.company_id', true)::INTEGER`:
      an unset setting reads as NULL, which equals nothing. */
  predicate Visible(rowCompanyId: int, tenant: Tenant)
  {
    tenant == Some(rowCompanyId)
  }

  datatype Tables = Tables(
    equipment: seq<Equipment>,
    orders: seq<Order>,
    orderItems: seq<OrderItem>,
    reports: seq<MaintenanceReport>)

  /** `SELECT * FROM equipment` under the policy. */
  function VisibleEquipment(t: Tables, tenant: Tenant): (r: seq<Equipment>)
    ensures forall e :: e in r ==> tenant.Some? && e.companyId == tenant.value
    ensures forall e :: multiset(r)[e] == if Visible(e.companyId, tenant) then multiset(t.equipment)[e] else 0
  {
    Filter(t.equipment, (e: Equipment) => Visible(e.companyId, tenant))
  }

  /** No tenant set: every equipment query comes back empty. */
  lemma NothingVisibleWithoutTenant(t: Tables)
    ensures VisibleEquipment(t, None) == []
  {
  }

  /** A JavaScript number bound to an INTEGER parameter: NaN is sent as the
      text 'NaN' and numbers outside 32 bits overflow; either fails the query. */
  predicate BindsAsInteger(n: IntOrNaN)
  {
    n.Int? && -0x8000_0000 <= n.value < 0x8000_0000
  }

  /** A bound query parameter. */
  datatype SqlParam = PNumber(n: IntOrNaN) | PText(text: string) | PNull

  /** The statements the repositories issue, with their parameters. */
  datatype Query =
    | SelectFacilities(companyId: IntOrNaN)
    | SelectFacilityById(equipmentId: int)
    | SelectHistory(equipmentId: int)
    | SelectEquipmentExists(equipmentId: int)
    | InsertReport(params: seq<SqlParam>)

  /** Why the database refuses an insert. */
  datatype InsertError = InvalidParameter | ForeignKeyViolation | RowSecurityViolation

  /** The column values of `INSERT INTO maintenance_reports (equipment_id,
      company_id, report_date, description, next_maintenance_date)` after the
      database has converted the five parameters. */
  datatype ReportValues = ReportValues(
    equipmentId: int,
    companyId: int,
    reportDate: Date,
    description: string,
    nextMaintenanceDate: Option<Date>)

  /** A nullable DATE parameter: NULL, or text the date parser accepts. */
  function DateParam(p: SqlParam, parseDate: string -> Option<Date>): Option<Option<Date>>
  {
    match p
    case PNull => Some(None)
    case PText(s) => if parseDate(s).Some? then Some(Some(parseDate(s).value)) else None
    case PNumber(_) => None
  }

  /** Converts `$1..$5` positionally to the column values, or `None` when one
      of them does not fit its column (NaN or overflowing integers, NULL in a
      NOT NULL column, text that is not a date). */
  function DecodeInsert(params: seq<SqlParam>, parseDate: string -> Option<Date>): (r: Option<ReportValues>)
    ensures r.Some? <==>
      && |params| == 5
      && params[0].PNumber? && BindsAsInteger(params[0].n)
      && params[1].PNumber? && BindsAsInteger(params[1].n)
      && params[2].PText? && parseDate(params[2].text).Some?
      && params[3].PText?
      && DateParam(params[4], parseDate).Some?
    ensures r.Some? ==> params[0] == PNumber(Int(r.value.equipmentId))
    ensures r.Some? ==> params[1] == PNumber(Int(r.value.companyId))
    ensures r.Some? ==> parseDate(params[2].text) == Some(r.value.reportDate)
    ensures r.Some? ==> params[3] == PText(r.value.description)
    ensures r.Some? ==> DateParam(params[4], parseDate) == Some(r.value.nextMaintenanceDate)
  {
    if |params| == 5 && params[0].PNumber? && BindsAsInteger(params[0].n)
      && params[1].PNumber? && BindsAsInteger(params[1].n)
      && params[2].PText? && parseDate(params[2].text).Some?
      && params[3].PText?
      && DateParam(params[4], parseDate).Some?
    then
      Some(ReportValues(params[0].n.value, params[1].n.value, parseDate(params[2].text).value,
                        params[3].text, DateParam(params[4], parseDate).value))
    else None
  }

  /** The database: the table contents and the `report_id` sequence. */
  class Store {
    var tables: Tables
    /** The next value of the `report_id` SERIAL sequence. */
    var nextReportId: int

    /** Every stored report id was drawn from the sequence before its current value. */
    ghost predicate Valid()
      reads this
    {
      forall r :: r in tables.reports ==> r.reportId < nextReportId
    }

    constructor (initial: Tables, nextReportId: int)
      requires forall r :: r in initial.reports ==> r.reportId < nextReportId
      ensures Valid() && tables == initial && this.nextReportId == nextReportId
    {
      tables := initial;
      this.nextReportId := nextReportId;
    }

    /** `INSERT ... VALUES ($1, $2, $3, $4, $5) RETURNING *` with the session's
        tenant. The row must satisfy the policy (it doubles as the insert
        check), and its equipment must exist; the foreign-key check sees every
        equipment row, whatever the tenant. On success exactly one row is
        appended, with a fresh id and `created_at = now`, and returned. */
    method InsertReport(tenant: Tenant, params: seq<SqlParam>, now: Date, parseDate: string -> Option<Date>)
      returns (r: Result<MaintenanceReport, InsertError>)
      requires Valid()
      modifies this
      ensures Valid()
      ensures r.Failure? ==> tables == old(tables) && nextReportId == old(nextReportId)
      ensures r.Failure? <==>
        || DecodeInsert(params, parseDate).None?
        || !Visible(DecodeInsert(params, parseDate).value.companyId, tenant)
        || !(exists e :: e in old(tables).equipment && e.equipmentId == DecodeInsert(params, parseDate).value.equipmentId)
      ensures r.Success? ==>
        var v := DecodeInsert(params, parseDate).value;
        && r.value == MaintenanceReport(old(nextReportId), v.equipmentId, v.companyId, v.reportDate,
                                        v.description, v.nextMaintenanceDate, now)
        && (forall q :: q in old(tables).reports ==> q.reportId != r.value.reportId)
        && tables == old(tables).(reports := old(tables).reports + [r.value])
        && nextReportId == old(nextReportId) + 1
    {
      var decoded := DecodeInsert(params, parseDate);
      if decoded.None? {
        return Failure(InvalidParameter);
      }
      var v := decoded.value;
      if !Visible(v.companyId, tenant) {
        return Failure(RowSecurityViolation);
      }
      if !(exists e :: e in tables.equipment && e.equipmentId == v.equipmentId) {
        return Failure(ForeignKeyViolation);
      }
      var row := MaintenanceReport(nextReportId, v.equipmentId, v.companyId, v.reportDate,
                                   v.description, v.nextMaintenanceDate, now);
      tables := tables.(reports := tables.reports + [row]);
      nextReportId := nextReportId + 1;
      r := Success(row);
    }
  }
}
