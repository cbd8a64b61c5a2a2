/** The vendor API's records: the database rows it reads and writes, the
    request DTO, the verified token payload and the response shapes built
    from them. Nullable columns are `Option`s; everything else is always
    present. */
module Types {
  import opened Wrappers

  /** A calendar date or timestamp as ISO 8601 text ("2024-10-25"). For
      four-digit years its lexicographic order is calendar order, which is
      how the model compares dates. */
  type Date = string

  /** A row of the `equipment` table. `companyId` is the table's tenant
      column that row-level security reads; `SELECT *` returns it too. */
  datatype Equipment = Equipment(
    equipmentId: int,
    equipmentName: string,
    modelNumber: Option<string>,
    category: Option<string>,
    quantity: int,
    storageLocation: Option<string>,
    purchaseDate: Option<Date>,
    companyId: int,
    createdAt: Date,
    updatedAt: Date)

  datatype OrderStatus = Pending | Approved | Sent | Delivered

  /** A row of the `orders` table; `totalAmount` is in the currency's smallest unit. */
  datatype Order = Order(
    orderId: int,
    userId: int,
    companyId: int,
    status: OrderStatus,
    orderDate: Date,
    deliveryDate: Option<Date>,
    totalAmount: int,
    notes: Option<string>,
    createdAt: Date,
    updatedAt: Date)

  /** A row of the `order_items` table: one equipment line of an order. */
  datatype OrderItem = OrderItem(
    orderItemId: int,
    orderId: int,
    equipmentId: int,
    quantity: int,
    unitPrice: int,
    subtotal: int,
    createdAt: Date)

  /** A row of the `maintenance_reports` table. */
  datatype MaintenanceReport = MaintenanceReport(
    reportId: int,
    equipmentId: int,
    companyId: int,
    reportDate: Date,
    description: string,
    nextMaintenanceDate: Option<Date>,
    createdAt: Date)

  /** The validated body of a new maintenance report; the dates are still text. */
  datatype CreateMaintenanceReportDto = CreateMaintenanceReportDto(
    equipmentId: int,
    reportDate: string,
    description: string,
    nextMaintenanceDate: Option<string>)

  /** The order columns the facility list adds to each equipment row. */
  datatype OrderSummary = OrderSummary(
    orderId: int,
    orderStatus: OrderStatus,
    orderDate: Date,
    deliveryDate: Option<Date>)

  /** An equipment row with the latest matching order, or none. */
  datatype FacilityWithOrders = FacilityWithOrders(equipment: Equipment, latestOrder: Option<OrderSummary>)

  datatype MaintenanceHistoryResponse = MaintenanceHistoryResponse(
    equipment: Equipment,
    reports: seq<MaintenanceReport>)

  /** The claims of a verified Cognito token; the company claim is text. */
  datatype CognitoJwtPayload = CognitoJwtPayload(
    sub: string,
    email: string,
    username: string,
    companyIdClaim: string,
    exp: int,
    iat: int)

  /** An incoming request as the middleware sees it: its `Authorization`
      header, and the user that authentication may attach to it. */
  class AuthenticatedRequest {
    const authorization: Option<string>
    var user: Option<CognitoJwtPayload>

    constructor (authorization: Option<string>)
      ensures this.authorization == authorization && user == None
    {
      this.authorization := authorization;
      user := None;
    }
  }

  /** The text the `status` column holds for each order status. */
  function StatusName(s: OrderStatus): string
  {
    match s
    case Pending => "pending"
    case Approved => "approved"
    case Sent => "sent"
    case Delivered => "delivered"
  }

  /** Reads a `status` column value; anything but the four names is rejected. */
  function ParseStatus(t: string): (r: Option<OrderStatus>)
    ensures r.Some? ==> StatusName(r.value) == t
    ensures forall s: OrderStatus :: StatusName(s) == t ==> r == Some(s)
  {
    if t == "pending" then Some(Pending)
    else if t == "approved" then Some(Approved)
    else if t == "sent" then Some(Sent)
    else if t == "delivered" then Some(Delivered)
    else None
  }
}
