/** The checks of the orders controller, each a pure decision over the request
    payload (`req.body.data`), the route id, or an order that was found. */
module Validation {
  import opened JsValues

  /** `req.body.data` and a stored order record are both plain objects. */
  type Payload = map<string, Json>
  type Order = map<string, Json>

  /** What a failing check hands to `next(...)`: an error with an HTTP status
      and a message, or an exception thrown by the check itself (reading a
      property of `null`), which Express passes on in the same way. */
  datatype Failure = Rejected(status: int, message: string) | TypeError

  datatype Outcome = Pass | Fail(failure: Failure)

  // ---------------------------------------------------------------------
  // checkOrder

  /** `!x || x == ""`, the test applied to deliverTo and mobileNumber. */
  predicate Blank(x: Option<Json>)
  {
    Falsy(x) || LooselyEqualsEmptyString(x.value)
  }

  /** `dish.quantity`; only called on a dish that is not null. */
  function Quantity(dish: Json): Option<Json>
  {
    if dish.JObj? then Get(dish.fields, "quantity") else None
  }

  /** A dish whose quantity fails `!q || q <= 0 || typeof q != "number"`. A
      null dish counts as bad too: reading its quantity throws. */
  predicate BadDish(dish: Json)
  {
    dish.JNull? || !(Quantity(dish).Some? && Quantity(dish).value.JNum? && Quantity(dish).value.n > 0)
  }

  function DishMessage(index: nat): string
  {
    "Dish " + NatToString(index) + " must have a quantity that is an integer greater than 0"
  }

  /** The failure reported for bad dish number `index`. */
  function DishFailure(dish: Json, index: nat): Failure
  {
    if dish.JNull? then TypeError else Rejected(400, DishMessage(index))
  }

  /** The dish loop from index `from` on, stopping at the first bad dish. */
  function CheckDishes(dishes: seq<Json>, from: nat): (r: Outcome)
    requires from <= |dishes|
    ensures r.Pass? <==> forall j :: from <= j < |dishes| ==> !BadDish(dishes[j])
    ensures r.Fail? && r.failure.Rejected? ==> r.failure.status == 400
    decreases |dishes| - from
  {
    if from == |dishes| then Pass
    else if BadDish(dishes[from]) then Fail(DishFailure(dishes[from], from))
    else CheckDishes(dishes, from + 1)
  }

  /** The dish loop reports the first bad dish, by its 0-based index. */
  lemma {:induction false} CheckDishesReportsFirstBad(dishes: seq<Json>, from: nat, k: nat)
    requires from <= k < |dishes| && BadDish(dishes[k])
    requires forall j :: from <= j < k ==> !BadDish(dishes[j])
    ensures CheckDishes(dishes, from) == Fail(DishFailure(dishes[k], k))
    decreases k - from
  {
    if from < k {
      CheckDishesReportsFirstBad(dishes, from + 1, k);
    }
  }

  /** Distinct dish indexes give distinct messages: the message names the dish. */
  lemma DishMessageNamesIndex(a: nat, b: nat)
    requires DishMessage(a) == DishMessage(b)
    ensures a == b
  {
    var prefix := "Dish ";
    var suffix := " must have a quantity that is an integer greater than 0";
    var ma, mb := DishMessage(a), DishMessage(b);
    assert NatToString(a) == ma[|prefix|..|ma| - |suffix|];
    assert NatToString(b) == mb[|prefix|..|mb| - |suffix|];
    NatToStringInjective(a, b);
  }

  const DeliverToMessage := "Order must include a deliverTo"
  const MobileNumberMessage := "Order must include a mobileNumber"
  const DishesMessage := "Order must include a dish"
  const DishesNonEmptyMessage := "Order must include at least one dish"

  /** The content check shared by create and update. */
  function CheckOrder(p: Payload): (r: Outcome)
    ensures r.Pass? <==> AcceptablePayload(p)
    ensures r.Fail? && r.failure.Rejected? ==> r.failure.status == 400
  {
    var dishes := Get(p, "dishes");
    if Blank(Get(p, "deliverTo")) then Fail(Rejected(400, DeliverToMessage))
    else if Blank(Get(p, "mobileNumber")) then Fail(Rejected(400, MobileNumberMessage))
    else if Falsy(dishes) then Fail(Rejected(400, DishesMessage))
    else if !dishes.value.JArr? || |dishes.value.items| == 0 then Fail(Rejected(400, DishesNonEmptyMessage))
    else CheckDishes(dishes.value.items, 0)
  }

  /** The payloads checkOrder lets through, stated field by field. */
  predicate AcceptablePayload(p: Payload)
  {
    && !Blank(Get(p, "deliverTo"))
    && !Blank(Get(p, "mobileNumber"))
    && Get(p, "dishes").Some?
    && Get(p, "dishes").value.JArr?
    && |Get(p, "dishes").value.items| > 0
    && forall j :: 0 <= j < |Get(p, "dishes").value.items| ==> !BadDish(Get(p, "dishes").value.items[j])
  }

  /** The four field rules of checkOrder, in the order they are tried. Each is
      stated on its own; later rules overlap earlier ones (absent dishes also
      break the non-empty-array rule), so the order decides the message. */
  datatype FieldRule = DeliverToGiven | MobileNumberGiven | DishesGiven | DishesNonEmptyArray

  const FieldRules: seq<FieldRule> := [DeliverToGiven, MobileNumberGiven, DishesGiven, DishesNonEmptyArray]

  predicate Violates(p: Payload, rule: FieldRule)
  {
    match rule
    case DeliverToGiven => Blank(Get(p, "deliverTo"))
    case MobileNumberGiven => Blank(Get(p, "mobileNumber"))
    case DishesGiven => Falsy(Get(p, "dishes"))
    case DishesNonEmptyArray =>
      !(Get(p, "dishes").Some? && Get(p, "dishes").value.JArr? && |Get(p, "dishes").value.items| > 0)
  }

  function RuleMessage(rule: FieldRule): string
  {
    match rule
    case DeliverToGiven => DeliverToMessage
    case MobileNumberGiven => MobileNumberMessage
    case DishesGiven => DishesMessage
    case DishesNonEmptyArray => DishesNonEmptyMessage
  }

  /** Only the first violated field rule is reported. */
  lemma CheckOrderReportsFirstRule(p: Payload, k: nat)
    requires k < |FieldRules| && Violates(p, FieldRules[k])
    requires forall j :: 0 <= j < k ==> !Violates(p, FieldRules[j])
    ensures CheckOrder(p) == Fail(Rejected(400, RuleMessage(FieldRules[k])))
  {
    if k > 0 { assert !Violates(p, FieldRules[0]); }
    if k > 1 { assert !Violates(p, FieldRules[1]); }
    if k > 2 { assert !Violates(p, FieldRules[2]); }
  }

  /** Once the field rules hold, the first bad dish decides the outcome. */
  lemma CheckOrderReportsFirstBadDish(p: Payload, k: nat)
    requires forall j :: 0 <= j < |FieldRules| ==> !Violates(p, FieldRules[j])
    requires Get(p, "dishes").Some? && Get(p, "dishes").value.JArr?
    requires k < |Get(p, "dishes").value.items| && BadDish(Get(p, "dishes").value.items[k])
    requires forall j :: 0 <= j < k ==> !BadDish(Get(p, "dishes").value.items[j])
    ensures CheckOrder(p) == Fail(DishFailure(Get(p, "dishes").value.items[k], k))
  {
    assert !Violates(p, FieldRules[0]) && !Violates(p, FieldRules[1]) && !Violates(p, FieldRules[2]);
    CheckDishesReportsFirstBad(Get(p, "dishes").value.items, 0, k);
  }

  // ---------------------------------------------------------------------
  // matchId, statusIsValid, orderStatusIsPending

  /** The payload's `id` must be falsy or strictly equal to the route id. */
  function MatchId(p: Payload, routeId: string): (r: Outcome)
    ensures Falsy(Get(p, "id")) ==> r.Pass?
    ensures forall s :: Get(p, "id") == Some(JStr(s)) && s != "" ==> (r.Pass? <==> s == routeId)
    ensures forall n :: Get(p, "id") == Some(JNum(n)) ==> (r.Pass? <==> n == 0)
    ensures Get(p, "id").Some? && Truthy(Get(p, "id").value) && !Get(p, "id").value.JStr? ==> r.Fail?
    ensures r.Fail? ==>
      Get(p, "id").Some? && r.failure == Rejected(400, "Dish id does not match route id. Order: " + ToJsString(Get(p, "id").value) + ", Route: " + routeId)
  {
    var id := Get(p, "id");
    if Falsy(id) || id == Some(JStr(routeId)) then Pass
    else Fail(Rejected(400, "Dish id does not match route id. Order: " + ToJsString(id.value) + ", Route: " + routeId))
  }

  const ValidStatuses: seq<string> := ["pending", "preparing", "out-for-delivery", "delivered"]

  /** `validStatus` as the array value that the message interpolates. */
  const StatusArray: Json := JArr([JStr(ValidStatuses[0]), JStr(ValidStatuses[1]), JStr(ValidStatuses[2]), JStr(ValidStatuses[3])])

  /** The message lists the allowed values the way `${validStatus}` prints them. */
  function StatusMessage(): string
  {
    "Order must have a status of " + ToJsString(StatusArray)
  }

  lemma StatusArrayTail()
    ensures JoinFrom(StatusArray, 2) == "out-for-delivery" + "," + "delivered"
  {
    JoinFromString(StatusArray, 3, "delivered");
    JoinFromString(StatusArray, 2, "out-for-delivery");
  }

  lemma StatusArrayText()
    ensures ToJsString(StatusArray) == "pending" + "," + "preparing" + "," + "out-for-delivery" + "," + "delivered"
  {
    StatusArrayTail();
    JoinFromString(StatusArray, 1, "preparing");
    JoinFromString(StatusArray, 0, "pending");
  }

  /** The rejection message spells out the four allowed values, comma-separated. */
  lemma StatusMessageText()
    ensures StatusMessage() == "Order must have a status of " + "pending" + "," + "preparing" + "," + "out-for-delivery" + "," + "delivered"
  {
    StatusArrayText();
  }

  predicate IsValidStatus(x: Option<Json>)
  {
    x.Some? && x.value.JStr? && x.value.s in ValidStatuses
  }

  /** `validStatus.includes(status)`. */
  function StatusIsValid(p: Payload): (r: Outcome)
    ensures r.Pass? <==> exists k :: 0 <= k < |ValidStatuses| && Get(p, "status") == Some(JStr(ValidStatuses[k]))
    ensures r.Fail? ==> r.failure == Rejected(400, StatusMessage())
  {
    if IsValidStatus(Get(p, "status")) then Pass else Fail(Rejected(400, StatusMessage()))
  }

  const NotPendingMessage := "Order cannot be deleted if pending."

  /** The lifecycle rule: only a pending order may be deleted. */
  function OrderStatusIsPending(order: Order): (r: Outcome)
    ensures r.Pass? <==> Get(order, "status") == Some(JStr("pending"))
    ensures r.Fail? ==> r.failure.Rejected? && r.failure.status == 400
  {
    if Get(order, "status") != Some(JStr("pending")) then Fail(Rejected(400, NotPendingMessage)) else Pass
  }

  // ---------------------------------------------------------------------
  // orderExists

  predicate HasId(order: Order, id: string)
  {
    Get(order, "id") == Some(JStr(id))
  }

  /** `orders.find(order => order.id === orderId)`, as the index of the first
      match. */
  function FindOrder(orders: seq<Order>, routeId: string): (r: Option<nat>)
    ensures r.Some? ==> r.value < |orders| && HasId(orders[r.value], routeId)
    ensures r.Some? ==> forall j :: 0 <= j < r.value ==> !HasId(orders[j], routeId)
    ensures r.None? <==> forall j :: 0 <= j < |orders| ==> !HasId(orders[j], routeId)
  {
    FindFrom(orders, routeId, 0)
  }

  function FindFrom(orders: seq<Order>, routeId: string, from: nat): (r: Option<nat>)
    requires from <= |orders|
    ensures r.Some? ==> from <= r.value < |orders| && HasId(orders[r.value], routeId)
    ensures r.Some? ==> forall j :: from <= j < r.value ==> !HasId(orders[j], routeId)
    ensures r.None? <==> forall j :: from <= j < |orders| ==> !HasId(orders[j], routeId)
    decreases |orders| - from
  {
    if from == |orders| then None
    else if HasId(orders[from], routeId) then Some(from)
    else FindFrom(orders, routeId, from + 1)
  }

  function NotFoundMessage(routeId: string): string
  {
    "Order id does not match route id: " + routeId + "."
  }

  /** The existence check: 404 exactly when no stored order has the route id. */
  function OrderExists(orders: seq<Order>, routeId: string): (r: Outcome)
    ensures r.Fail? <==> forall j :: 0 <= j < |orders| ==> !HasId(orders[j], routeId)
    ensures r.Fail? ==> r.failure == Rejected(404, NotFoundMessage(routeId))
  {
    if FindOrder(orders, routeId).Some? then Pass else Fail(Rejected(404, NotFoundMessage(routeId)))
  }
}
