# Facility management: vendor API core, CSV writer and report windows

A Dafny model of three parts of the facility-management system.

- **The vendor API's request handling.** It covers:
  - the error hierarchy and the error middleware;
  - the bearer-token gate `authenticate` and `requireCompanyAccess`;
  - the facility and maintenance repositories;
  - the routes `GET /api/facilities`, `GET /api/facilities/:id`, `GET /api/facilities/:id/maintenance-history` and `POST /api/maintenance-reports`.
- **The batch jobs' CSV writer** `generateCSV`.
- **The report jobs' date windows and upload keys** (monthly and annual).

How the model represents the outside world:

- **Database.** PostgreSQL is an in-memory snapshot (`Database.Tables`) of the `equipment`, `orders`, `order_items` and `maintenance_reports` tables.
  - Row-level security on `equipment` and `maintenance_reports` is the policy `company_id = current_setting('app.company_id', true)::INTEGER`. A row is visible exactly when the session's setting equals its `company_id`.
  - The setting (`Database.Tenant`) is passed explicitly to every read and write. Unset, it reads as NULL and nothing is visible.
  - The one write, the report insert, is a method on the `Database.Store` class. The store holds the tables and the `report_id` sequence.
- **Statement failures.** A route receives `faults: Query -> bool`, which says which statements fail. It returns the statements it issued, in order (`Http.RouteResult`). This makes "no query is issued" and "the history is never read" statable.
- **Oracles.**
  - The JWT verifier is a function from token text to the payload it accepts.
  - The ISO-8601 date check is a function from text to a date.
- **`parseInt(s, 10)`** follows section 19.2.5 of ECMA-262 (leading white space, optional sign, longest digit prefix, NaN). Its inverse is `String(n)`.
- **Dates** are ISO `YYYY-MM-DD` text, ordered by code point. For four-digit years this is calendar order.

Modules, one per file:

| module | file | what it models |
|---|---|---|
| Wrappers | wrappers.dfy | Option and Result |
| JsNumber | js_number.dfy | `parseInt`, number to string, `padStart` |
| LexOrder | lex_order.dfy | code-point order on text (the order of ISO dates) |
| Sorting | sorting.dfy | filter and stable sort by a comparator |
| Types | types.dfy | the row, DTO and token types |
| Errors | errors.dfy | `AppError` and its six subclasses |
| Http | http.dfy | response bodies and route outcomes |
| ErrorHandler | error_handler.dfy | `errorHandler`, `notFoundHandler` |
| Auth | auth.dfy | `authenticate`, `requireCompanyAccess` |
| Database | database.dfy | tables, row-level security, bound parameters, the insert |
| FacilityRepository | facility_repository.dfy | `getFacilitiesByCompany`, `getFacilityById` |
| MaintenanceRepository | maintenance_repository.dfy | `getMaintenanceHistory`, `createMaintenanceReport`, `equipmentExists` |
| FacilityRoutes | facility_routes.dfy | the facilities router |
| MaintenanceRoutes | maintenance_routes.dfy | the maintenance router and its body schema |
| Pipeline | pipeline.dfy | `authenticate`, then a route, then the error handler |
| Csv | csv.dfy | `generateCSV`, plus a reader for its output |
| MonthlyReport | monthly_report.dfy | monthly window, month check, upload key |
| AnnualReport | annual_report.dfy | annual window, upload key |

## Model

| member | source | states |
|---|---|---|
| Types.ParseStatus | app/vendor-api/src/types/index.ts:61 | an order status is exactly one of the four names: reading a name gives the status that is written as that name, and any other text is rejected |
| Types.AuthenticatedRequest.constructor | app/vendor-api/src/types/index.ts:96-98 | a request starts with its authorization header and no user |
| Errors.SubclassStatusDeterminesKind | app/vendor-api/src/errors/index.ts:17-51 | each subclass has its own status code (400, 401, 403, 404, 409, 500), so the code and the message identify the error |
| Errors.SubclassStatusRange | app/vendor-api/src/errors/index.ts:17-51 | every subclass status is one of 400, 401, 403, 404, 409, 500; it is a 4xx exactly when the error is not the internal server error |
| Errors.OnlyInternalIsNonOperational | app/vendor-api/src/errors/index.ts:5-51 | among the subclasses, exactly `InternalServerError` (status 500) has `isOperational = false` |
| Errors.DefaultMessages | app/vendor-api/src/errors/index.ts:23-51 | the defaults are "Unauthorized" (401), "Forbidden" (403) and "Internal Server Error" (500, non-operational) |
| ErrorHandler.HandleError | app/vendor-api/src/middleware/errorHandler.ts:8-34 | every response has `success: false` and a body `statusCode` equal to the HTTP status; an `AppError` keeps its status and its message verbatim (also for 500); anything else is 500 "Internal Server Error" |
| ErrorHandler.NotFoundHandler | app/vendor-api/src/middleware/errorHandler.ts:36-44 | always 404 "Route not found" with `success: false` |
| ErrorHandler.ResponseIgnoresOperational | app/vendor-api/src/middleware/errorHandler.ts:14-22 | two errors with the same status and message give the same response: `isOperational` is never consulted |
| ErrorHandler.OtherErrorsAreOpaque | app/vendor-api/src/middleware/errorHandler.ts:26-33 | the message of a non-`AppError` never reaches the response, which equals that of a default `InternalServerError` |
| Auth.BearerToken | app/vendor-api/src/middleware/auth.ts:70-75 | a token is extracted iff the header is present and starts with exactly "Bearer "; then "Bearer " + token = header |
| Auth.BearerTokenOfHeader | app/vendor-api/src/middleware/auth.ts:71-75 | any token put behind "Bearer " is extracted unchanged |
| Auth.Authenticate | app/vendor-api/src/middleware/auth.ts:51-85 | a bad header gives "Authorization header missing or invalid" without consulting the verifier; every verifier refusal is "Invalid token"; every failure is a 401 `UnauthorizedError`; otherwise the verifier's payload |
| Auth.AuthenticateBearer | app/vendor-api/src/middleware/auth.ts:70-81 | a well-formed header succeeds exactly when the verifier accepts its token, with that payload |
| Auth.AuthenticateRequest | app/vendor-api/src/middleware/auth.ts:64-85 | the verifier sees the extracted token; on success the payload is attached as `req.user` and `next` gets no error; on failure `req.user` is untouched and `next` gets the error: one call of `next` on every path |
| Auth.RequireCompanyAccess | app/vendor-api/src/middleware/auth.ts:90-104 | passes iff there is a user whose parsed claim equals the company id; no user gives "User not authenticated" (401), a mismatch gives "Access denied to this company data" (403) |
| Auth.NonNumericClaimAlwaysForbidden | app/vendor-api/src/middleware/auth.ts:97-100 | a claim without digits parses to NaN and is forbidden for every company |
| Auth.ClaimPrefixGrantsAccess | app/vendor-api/src/middleware/auth.ts:97-102 | a claim made of the company's number followed by non-digit text still passes |
| JsNumber.ParseIntNaNIff | app/vendor-api/src/routes/facilities.ts:44-45 | `parseInt` is NaN exactly when no digit follows the white space and the optional sign |
| JsNumber.ParseIntFormatInt | app/vendor-api/src/routes/facilities.ts:44 | `parseInt(String(n) + rest)` is n whenever `rest` does not start with a digit, so "1abc" is 1 |
| JsNumber.FormatIntInjective | app/vendor-api/src/repositories/facilityRepository.ts:60 | distinct numbers are written differently |
| JsNumber.ParseIntPad2 | app/batch/src/monthly-report.ts:26 | `String(m).padStart(2, '0')` of 0..99 is two characters that parse back to m |
| Database.VisibleEquipment | app/vendor-api/tests/integration/setup.ts:102-108 | a visible equipment row is one whose `company_id` equals the set tenant, with each such row kept as often as stored |
| Database.NothingVisibleWithoutTenant | app/vendor-api/tests/integration/setup.ts:106-108 | with `app.company_id` unset, no equipment is visible |
| Database.DecodeInsert | app/vendor-api/src/repositories/maintenanceRepository.ts:39-57 | the five parameters are read positionally as equipment, company, report date, description and next date (NULL or a parsed date); the conversion succeeds iff all five fit their columns |
| Database.Store.constructor | app/vendor-api/tests/integration/setup.ts:85-93 | a store starts with the given tables and a sequence above every stored report id |
| Database.Store.InsertReport | app/vendor-api/tests/integration/setup.ts:85-112 | the insert fails iff a parameter does not fit, the row violates the policy, or its equipment does not exist; a failure changes nothing; a success appends exactly one row with a fresh id and returns it |
| Sorting.Filter | app/vendor-api/src/repositories/maintenanceRepository.ts:18-19 | keeps exactly the elements that pass, each as often as in the input |
| Sorting.SortBy | app/vendor-api/src/repositories/maintenanceRepository.ts:20 | the result is ordered by the comparator and is a permutation of the input |
| FacilityRepository.NameOrderIsTotalPreorder | app/vendor-api/src/repositories/facilityRepository.ts:36 | `ORDER BY equipment_name ASC` is a total preorder |
| FacilityRepository.Latest | app/vendor-api/src/repositories/facilityRepository.ts:33-34 | picks an element of the list with the greatest order date; `None` exactly for an empty list |
| FacilityRepository.LatestOrderFor | app/vendor-api/src/repositories/facilityRepository.ts:25-35 | the paired order is one of the company's orders with an item for the equipment, dated no earlier than any other such order; `None` exactly when there is none |
| FacilityRepository.GetFacilitiesByCompany | app/vendor-api/src/repositories/facilityRepository.ts:16-46 | fails with "Failed to fetch facilities" iff the query fails or the company id does not bind (NaN, beyond 32 bits); otherwise lists exactly the visible equipment, by name ascending, each with its latest order |
| FacilityRepository.NoFacilitiesWithoutTenant | app/vendor-api/src/repositories/facilityRepository.ts:36-41 | no visible rows give an empty list, not an error |
| FacilityRepository.FacilityCountIsVisibleCount | app/vendor-api/src/repositories/facilityRepository.ts:24-36 | the list has one entry per visible equipment row, whatever the company id; the SQL does not filter equipment by company |
| FacilityRepository.GetFacilityById | app/vendor-api/src/repositories/facilityRepository.ts:51-70 | returns a visible row with that id; with none, `NotFoundError("Facility with ID <id> not found")`, rethrown unchanged; a query failure is "Failed to fetch facility" |
| FacilityRepository.OtherTenantsEquipmentIsNotFound | app/vendor-api/src/repositories/facilityRepository.ts:57-66 | equipment of another company is "not found" |
| MaintenanceRepository.NewestFirstIsTotalPreorder | app/vendor-api/src/repositories/maintenanceRepository.ts:20 | `ORDER BY report_date DESC` is a total preorder |
| MaintenanceRepository.GetMaintenanceHistory | app/vendor-api/src/repositories/maintenanceRepository.ts:16-30 | exactly the visible reports of that equipment, newest first, and empty when there are none; a failure is "Failed to fetch maintenance history" |
| MaintenanceRepository.EquipmentExists | app/vendor-api/src/repositories/maintenanceRepository.ts:69-82 | the query returns a row (`rows.length > 0`) iff some visible equipment row has that id; a failure is "Failed to check equipment existence" |
| MaintenanceRepository.NextDateParam | app/vendor-api/src/repositories/maintenanceRepository.ts:56 | an absent or empty next-maintenance date is bound as NULL, and only those |
| MaintenanceRepository.InsertParamsDecode | app/vendor-api/src/repositories/maintenanceRepository.ts:51-57 | the parameters land in their own columns: equipment and description from the DTO, company from the caller, and an absent or empty next date as NULL |
| MaintenanceRepository.ExistsIffFacilityFound | app/vendor-api/src/repositories/maintenanceRepository.ts:69-82 | the existence check is true exactly when the facility lookup finds the equipment, and false exactly when the lookup answers "not found" |
| MaintenanceRepository.CreateMaintenanceReport | app/vendor-api/src/repositories/maintenanceRepository.ts:35-64 | succeeds iff the connection works and the insert is accepted; then it adds exactly that one row and returns it, with the caller's company, the DTO's equipment and description, the parsed report date, and NULL for an absent or empty next date or else the parsed next date; any failure is "Failed to create maintenance report" and changes nothing |
| MaintenanceRepository.CreatedReportInHistory | app/vendor-api/tests/integration/maintenance.integration.test.ts:226-237 | after an insert, the equipment's history contains the new report |
| MaintenanceRepository.NewestReportComesFirst | app/vendor-api/src/repositories/maintenanceRepository.ts:17-20 | a report dated after all earlier ones of its equipment heads the history |
| FacilityRoutes.ListFacilities | app/vendor-api/src/routes/facilities.ts:19-36 | no user gives 401 `{error: "Unauthorized"}` before any query; otherwise exactly one query, for `parseInt` of the company claim, and 200 `{success: true, data}` or the repository error passed on |
| FacilityRoutes.NonNumericClaimFailsList | app/vendor-api/src/routes/facilities.ts:26-27 | a non-numeric claim is not checked for NaN and makes the list fail with an internal error |
| FacilityRoutes.GetFacility | app/vendor-api/src/routes/facilities.ts:42-58 | 400 "Invalid equipment ID" with no query exactly when `parseInt` of the id is NaN; otherwise one lookup and 200 with the row, or the repository error passed on unchanged; no user is required |
| FacilityRoutes.InvalidIdIsRefused | app/vendor-api/tests/integration/facilities.integration.test.ts:130-137 | "invalid-id" is refused with 400 before any query |
| FacilityRoutes.DigitPrefixIdIsLookedUp | app/vendor-api/src/routes/facilities.ts:44-49 | an id with a digit prefix, such as "1abc" or "1' OR '1'='1", is looked up as that number |
| MaintenanceRoutes.GetHistory | app/vendor-api/src/routes/maintenance.ts:31-55 | a NaN id gives 400 before any query; the equipment lookup comes first, and when it fails its error is passed on and the history is never queried; success is 200 `{equipment, reports}` |
| MaintenanceRoutes.InvisibleEquipmentHasNoHistory | app/vendor-api/src/routes/maintenance.ts:40-42 | invisible equipment gives "Facility with ID <id> not found", and the history query is not issued |
| MaintenanceRoutes.Lookup | app/vendor-api/src/routes/maintenance.ts:71 | a body member is found iff the body has that key; keys are unique, as `JSON.parse` leaves them |
| MaintenanceRoutes.CheckPositiveInteger | app/vendor-api/src/routes/maintenance.ts:16 | `equipment_id` passes iff it is present and is a safe positive integer, which is returned |
| MaintenanceRoutes.CheckIsoDate | app/vendor-api/src/routes/maintenance.ts:17-19 | a date member passes iff it is ISO text, or it is absent and optional |
| MaintenanceRoutes.CheckDescription | app/vendor-api/src/routes/maintenance.ts:18 | `description` passes iff it is text of 1 to 1000 characters |
| MaintenanceRoutes.FirstUnknownKey | app/vendor-api/src/routes/maintenance.ts:15-20 | a key outside the schema is reported iff the body has one |
| MaintenanceRoutes.ValidateCreateReport | app/vendor-api/src/routes/maintenance.ts:15-20 | succeeds iff the body conforms to the schema, and the DTO then holds the body's own values |
| MaintenanceRoutes.FirstFailureIsReported | app/vendor-api/src/routes/maintenance.ts:15-20 | a refused body carries the message of the first failing check in schema order (equipment_id, report_date, description, next_maintenance_date); "\"<key>\" is not allowed" for an unknown key only when all four pass |
| MaintenanceRoutes.MissingReportDateIsRequired | app/vendor-api/src/routes/maintenance.ts:15-20 | a body with a valid `equipment_id` and no `report_date` is refused with `"report_date" is required` |
| MaintenanceRoutes.ValidatedReportDecodes | app/vendor-api/src/routes/maintenance.ts:76-84 | a validated body whose equipment id fits the 32-bit INTEGER column, filed under a company id that also fits it, gives insert parameters the database accepts, and the row keeps that company and the body's equipment |
| MaintenanceRoutes.CreateAndRespond | app/vendor-api/src/routes/maintenance.ts:84-92 | after the existence check, the report is created and answered with 201 and the row (the caller's company, the DTO's equipment, description and parsed dates, the insert time), or "Failed to create maintenance report" goes to `next` with the tables unchanged; a row the database accepts for a visible company always gives 201 |
| MaintenanceRoutes.PostMaintenanceReport | app/vendor-api/src/routes/maintenance.ts:61-93 | the steps run in order: auth (401), then validation (`ValidationError` with the first message), then the existence check ("Equipment with ID <id> not found"), then the insert, whose failure is "Failed to create maintenance report"; only a 201 changes the tables, by exactly the returned row, whose company comes from the claim and whose equipment, description and dates come from the validated body; a visible equipment, a matching tenant and no failure give 201 |
| Pipeline.Finish | app/vendor-api/src/index.ts:50-55 | a response a handler writes is sent as it is; an error passed to `next` becomes the error handler's response, with its status |
| Pipeline.ServeGet | app/vendor-api/src/index.ts:50-51 | when `authenticate` fails, the request ends with a 401 error body and the route issues no query; otherwise the route runs with the verified user |
| Pipeline.OtherTenantsFacilityIs404 | app/vendor-api/tests/integration/facilities.integration.test.ts:139-147 | through the whole chain, another tenant's equipment is a 404 with the repository's message |
| Pipeline.ListBehindGateHasUser | app/vendor-api/src/index.ts:50 | behind `authenticate` the list route always has a user and always queries |
| Csv.Escape | app/batch/src/lib/csv.ts:24-28 | a value with a comma, LF or double quote comes out quoted; any other value is unchanged; a line break appears in the output iff it is in the value |
| Csv.UnescapeEscape | app/batch/src/lib/csv.ts:25-27 | stripping the quotes of a written field and collapsing `""` gives back the value |
| Csv.Cell | app/batch/src/lib/csv.ts:19-28 | a null or missing value is an empty field; any other unescapes back to the value, and the field holds a line break iff the value does |
| Csv.GenerateCSV | app/batch/src/lib/csv.ts:9-11 | no rows give "", whatever the headers |
| Csv.HeaderWrittenAsIs | app/batch/src/lib/csv.ts:13-14 | with at least one row, the output starts with the column names joined by commas, unescaped whatever they hold, then a line break |
| Csv.GenerateCSVRoundTrip | app/batch/src/lib/csv.ts:13-33 | for at least one row and a non-empty list of column names that need no quoting (no comma, quote or line break), reading the output back gives the columns (the headers if given, else the first row's keys) and then, for each row, its values under those columns in column order, one record per row even when a value holds a line break |
| Csv.RowHasOneFieldPerColumn | app/batch/src/lib/csv.ts:16-31 | each data line reads back as exactly one field per column |
| Csv.LineBreaksAreRowCount | app/batch/src/lib/csv.ts:33 | with no line break in any value or column name, the output has exactly one line break per row, so one line more than there are rows |
| MonthlyReport.MonthlyWindow | app/batch/src/monthly-report.ts:26-30 | the window starts on the first of the month and ends on the first of the next month, which for December is January of the next year |
| MonthlyReport.OrdersIn | app/batch/src/monthly-report.ts:43-47 | exactly the orders dated in the half-open window |
| MonthlyReport.ReportsIn | app/batch/src/monthly-report.ts:43-47 | exactly the maintenance reports dated in the half-open window |
| MonthlyReport.MonthlyPlan | app/batch/src/monthly-report.ts:78-96 | a month outside 1..12 exits with code 1 before anything else; otherwise the report is for that month's window, under `monthly-reports/<year>/<MM>/report.csv` |
| MonthlyReport.MonthsTile | app/batch/src/monthly-report.ts:26-30 | each month's window ends where the next one starts, across the year end too |
| MonthlyReport.StartBeforeEnd | app/batch/src/monthly-report.ts:26-30 | for four-digit years every monthly window is non-empty |
| MonthlyReport.AtMostOneMonth | app/batch/src/monthly-report.ts:26-30 | the monthly windows of a year do not overlap |
| MonthlyReport.MonthlyKeyInjective | app/batch/src/monthly-report.ts:95 | distinct (year, month) pairs are uploaded under distinct keys |
| AnnualReport.AnnualWindow | app/batch/src/annual-report.ts:28-29 | the year's window runs from its 1 January to the next year's 1 January |
| AnnualReport.YearsTile | app/batch/src/annual-report.ts:28-29 | each year's window ends where the next one starts |
| AnnualReport.YearIsJanuaryToDecember | app/batch/src/annual-report.ts:28-29 | the year starts where January starts and ends where December ends |
| AnnualReport.AnnualStartBeforeEnd | app/batch/src/annual-report.ts:28-29 | for four-digit years the window is non-empty |
| AnnualReport.YearIsUnionOfMonths | app/batch/src/annual-report.ts:28-29 | a date is in the year's window iff it is in one of its twelve monthly windows, and then in exactly one |
| AnnualReport.AnnualKeyInjective | app/batch/src/annual-report.ts:90 | distinct years are uploaded under distinct keys |

## Left out

- Token verification: the JWT signature and expiry check, the key fetching and the RS256 restriction are a verifier function the model receives.
- `AppError` itself keeps its `name` and stack trace, which no response shows.
- The tenant setting: no code outside the tests sets `app.company_id`. The model takes it as a parameter of every read and write and assumes the policy applies to the connecting role. PostgreSQL exempts table owners and superusers unless row security is forced.
- Connection pooling and per-connection session state, and concurrency between requests.
- Failed inserts: in PostgreSQL an insert refused by the row policy or the foreign key has already drawn its `report_id`, so the sequence advances; a parameter that does not convert fails before that and does not. In the model every failed insert leaves `nextReportId` alone, so ids have no gaps.
- The `companies` foreign key and the `deleted_at` column are not modelled.
- `orders` and `order_items`: the schema at app/vendor-api/tests/integration/setup.ts:57-112 creates only `companies`, `equipment` and `maintenance_reports`, with policies on the last two. The model assumes the two order tables exist without a row-level policy and reads them unfiltered. Against that schema as written, the LATERAL join at app/vendor-api/src/repositories/facilityRepository.ts:25-35 would fail, because `orders` does not exist.
- Ties in `ORDER BY`:
  - PostgreSQL leaves the order of equal names or equal dates unspecified. The model sorts stably, so contracts only promise the order, never the order among ties.
  - `LATERAL ... LIMIT 1` among equally dated orders may pick any of them. The model picks the first in table order.
- Collation: names and dates are compared by code point, not by a locale's collation.
- Numbers:
  - JavaScript numbers are integers here.
  - `parseInt` beyond 2^53 is exact, where JavaScript rounds.
  - Fractions are one `JFraction` case.
  - A company claim that is absent reads as NaN, like `parseInt(undefined)`.
- MaintenanceRoutes.ValidateCreateReport: it does not model Joi's conversions. Joi also accepts numeric strings for `equipment_id` and timestamps for the dates, and turns dates into `Date` objects. The model passes the date text on and lets the database parse it.
- MaintenanceRoutes.CheckDescription: lengths count code points, while Joi counts UTF-16 code units.
- MaintenanceRoutes.ValidateCreateReport: the body is always a JSON object. `express.json()` in strict mode also passes a top-level array through, which the validator refuses with "\"value\" must be of type object" (a 400); that input is not represented. Numbers are unbounded integers, so a literal beyond the double range (`1e400`, which JavaScript reads as Infinity and the validator refuses with "cannot be infinity") appears as a huge `JInt` and gets "must be a safe number" instead.
- MaintenanceRoutes.ValidateCreateReport: the message texts follow Joi's default templates. A date member that is not text is reported with the single message "must be a valid date".
- Pipeline.ServeGet: the history route sits under both mounts in app/vendor-api/src/index.ts:50-51, so `authenticate` runs twice for it. Both runs decide the same way, so the model runs it once.
- `requireCompanyAccess` is modelled, but no route uses it.
- CSV values: `String(value)` of numbers, dates and objects is not modelled. Values are already text or null.
- Report jobs:
  - The SQL aggregation (counts, sums, average intervals) is not modelled.
  - The command-line parsing, the pool lifecycle and the S3 upload are not modelled. The model keeps the date windows, the month check and the keys.
- The TypeScript tests disagree with the code in three places, and the model follows the code:
  - They import default exports that do not exist.
  - They expect the history `data` to be an array, but it is `{equipment, reports}`.
  - They expect `error` to be a string in error-middleware responses, but it is an object.
- 500 messages: the error handler writes the message of an `InternalServerError` verbatim (for example "Failed to create maintenance report"), and the model does the same.
