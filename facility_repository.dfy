/** `FacilityRepository`: the facility list with each equipment's latest
    order, and the single-facility lookup. Both are read-only queries over a
    table snapshot, seen through the session's tenant. */
module FacilityRepository {
  import opened Wrappers
  import opened Types
  import opened Errors
  import opened JsNumber
  import opened LexOrder
  import opened Sorting
  import opened Database

  /** `ORDER BY equipment_name ASC`. */
  predicate NameOrder(a: Equipment, b: Equipment)
  {
    LexLe(a.equipmentName, b.equipmentName)
  }

  lemma NameOrderIsTotalPreorder()
    ensures TotalPreorder(NameOrder)
  {
    forall a: Equipment, b: Equipment ensures NameOrder(a, b) || NameOrder(b, a) {
      LexLeTotal(a.equipmentName, b.equipmentName);
    }
    forall a: Equipment, b: Equipment, c: Equipment | NameOrder(a, b) && NameOrder(b, c)
      ensures NameOrder(a, c)
    {
      LexLeTransitive(a.equipmentName, b.equipmentName, c.equipmentName);
    }
  }

  /** Whether some order item of order `orderId` is for equipment `equipmentId`. */
  predicate HasItemFor(items: seq<OrderItem>, orderId: int, equipmentId: int)
  {
    exists it :: it in items && it.orderId == orderId && it.equipmentId == equipmentId
  }

  /** The orders the lateral subquery considers for one equipment:
      `company_id = $1` and some order item for that equipment. The orders
      table has no tenant policy; only the parameter restricts it. */
  predicate Candidate(t: Tables, companyId: int, equipmentId: int, o: Order)
  {
    o.companyId == companyId && HasItemFor(t.orderItems, o.orderId, equipmentId)
  }

  /** `ORDER BY order_date DESC LIMIT 1`; among equal dates the first in
      table order. */
  function Latest(os: seq<Order>): (r: Option<Order>)
    ensures r.None? <==> os == []
    ensures r.Some? ==> r.value in os && forall o :: o in os ==> LexLe(o.orderDate, r.value.orderDate)
  {
    if os == [] then None
    else
      var rest := Latest(os[1..]);
      assert os == [os[0]] + os[1..];
      if rest.None? then
        LexLeReflexive(os[0].orderDate);
        Some(os[0])
      else if LexLe(rest.value.orderDate, os[0].orderDate) then
        assert forall o :: o in os[1..] ==> LexLe(o.orderDate, os[0].orderDate) by {
          forall o | o in os[1..] ensures LexLe(o.orderDate, os[0].orderDate) {
            LexLeTransitive(o.orderDate, rest.value.orderDate, os[0].orderDate);
          }
        }
        LexLeReflexive(os[0].orderDate);
        Some(os[0])
      else
        LexLeTotal(rest.value.orderDate, os[0].orderDate);
        rest
  }

  /** The order the facility list pairs with one equipment: the latest
      candidate, or none when there is no candidate. */
  function LatestOrderFor(t: Tables, companyId: int, equipmentId: int): (r: Option<Order>)
    ensures r.None? <==> forall o :: o in t.orders ==> !Candidate(t, companyId, equipmentId, o)
    ensures r.Some? ==> r.value in t.orders && Candidate(t, companyId, equipmentId, r.value)
    ensures r.Some? ==> forall o :: o in t.orders && Candidate(t, companyId, equipmentId, o) ==>
                          LexLe(o.orderDate, r.value.orderDate)
  {
    var cs := Filter(t.orders, (o: Order) => Candidate(t, companyId, equipmentId, o));
    var r := Latest(cs);
    r
  }

  /** The columns `o.order_id, o.status AS order_status, o.order_date, o.delivery_date`. */
  function Summary(o: Option<Order>): Option<OrderSummary>
  {
    match o
    case None => None
    case Some(x) => Some(OrderSummary(x.orderId, x.status, x.orderDate, x.deliveryDate))
  }

  /** The equipment column group of each result row. */
  function EquipmentOf(rows: seq<FacilityWithOrders>): (es: seq<Equipment>)
    ensures |es| == |rows| && forall i :: 0 <= i < |rows| ==> es[i] == rows[i].equipment
  {
    seq(|rows|, i requires 0 <= i < |rows| => rows[i].equipment)
  }

  /** `getFacilitiesByCompany(companyId)`: every visible equipment row exactly
      once, by name, each with its latest order for `companyId`; an empty
      list is a result, not an error. A failed query (also a NaN or
      overflowing `companyId`) becomes "Failed to fetch facilities". */
  function GetFacilitiesByCompany(t: Tables, tenant: Tenant, companyId: IntOrNaN, fails: bool)
    : (r: Result<seq<FacilityWithOrders>, AppError>)
    ensures r.Failure? <==> fails || !BindsAsInteger(companyId)
    ensures r.Failure? ==> r.error == InternalServerError("Failed to fetch facilities")
    ensures r.Success? ==>
      && (forall e :: multiset(EquipmentOf(r.value))[e] ==
                        if Visible(e.companyId, tenant) then multiset(t.equipment)[e] else 0)
      && SortedBy(EquipmentOf(r.value), NameOrder)
      && forall i :: 0 <= i < |r.value| ==>
           r.value[i].latestOrder == Summary(LatestOrderFor(t, companyId.value, r.value[i].equipment.equipmentId))
  {
    if fails || !BindsAsInteger(companyId) then
      Failure(InternalServerError("Failed to fetch facilities"))
    else
      NameOrderIsTotalPreorder();
      var es := SortBy(VisibleEquipment(t, tenant), NameOrder);
      var rows := seq(|es|, i requires 0 <= i < |es| =>
                      FacilityWithOrders(es[i], Summary(LatestOrderFor(t, companyId.value, es[i].equipmentId))));
      assert EquipmentOf(rows) == es;
      Success(rows)
  }

  /** Without a tenant the list is empty, whatever the tables hold. */
  lemma NoFacilitiesWithoutTenant(t: Tables, companyId: IntOrNaN)
    requires BindsAsInteger(companyId)
    ensures GetFacilitiesByCompany(t, None, companyId, false) == Success([])
  {
  }

  /** The list holds as many rows as the tenant has equipment. */
  lemma FacilityCountIsVisibleCount(t: Tables, tenant: Tenant, companyId: IntOrNaN)
    requires BindsAsInteger(companyId)
    ensures GetFacilitiesByCompany(t, tenant, companyId, false).Success?
    ensures |GetFacilitiesByCompany(t, tenant, companyId, false).value| == |VisibleEquipment(t, tenant)|
  {
    var r := GetFacilitiesByCompany(t, tenant, companyId, false);
    var es := EquipmentOf(r.value);
    var vs := VisibleEquipment(t, tenant);
    assert multiset(es) == multiset(vs) by {
      forall e ensures multiset(es)[e] == multiset(vs)[e] {}
    }
    assert |multiset(es)| == |es| && |multiset(vs)| == |vs|;
  }

  /** `getFacilityById(id)`: the visible row with that id; no such row is
      "Facility with ID <id> not found", passed on as it is; a failed query
      (also an id outside 32 bits) is "Failed to fetch facility". */
  function GetFacilityById(t: Tables, tenant: Tenant, equipmentId: int, fails: bool)
    : (r: Result<Equipment, AppError>)
    ensures r.Success? <==> !fails && BindsAsInteger(Int(equipmentId))
                            && exists e :: e in t.equipment && e.equipmentId == equipmentId && Visible(e.companyId, tenant)
    ensures r.Success? ==> r.value in t.equipment && r.value.equipmentId == equipmentId
                           && Visible(r.value.companyId, tenant)
    ensures r.Failure? ==>
      r.error == if fails || !BindsAsInteger(Int(equipmentId))
                 then InternalServerError("Failed to fetch facility")
                 else NotFoundError("Facility with ID " + FormatInt(equipmentId) + " not found")
  {
    if fails || !BindsAsInteger(Int(equipmentId)) then
      Failure(InternalServerError("Failed to fetch facility"))
    else
      var found := Filter(t.equipment, (e: Equipment) => e.equipmentId == equipmentId && Visible(e.companyId, tenant));
      if found == [] then
        Failure(NotFoundError("Facility with ID " + FormatInt(equipmentId) + " not found"))
      else
        assert found[0] in found;
        Success(found[0])
  }

  /** Another tenant's equipment is indistinguishable from missing equipment. */
  lemma OtherTenantsEquipmentIsNotFound(t: Tables, tenant: Tenant, e: Equipment)
    requires e in t.equipment && !Visible(e.companyId, tenant) && BindsAsInteger(Int(e.equipmentId))
    requires forall x :: x in t.equipment && x.equipmentId == e.equipmentId ==> x.companyId == e.companyId
    ensures GetFacilityById(t, tenant, e.equipmentId, false)
         == Failure(NotFoundError("Facility with ID " + FormatInt(e.equipmentId) + " not found"))
  {
  }
}
