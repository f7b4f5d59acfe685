/** The orders resource: the shared store of order records and the five
    operations of the controller, each run behind its chain from the export
    table. Identifier minting is a parameter: `freshId` is the value the id
    generator returned, which it promises is used by no stored order. */
module Orders {
  import opened JsValues
  import opened Validation
  import P = Pipeline

  datatype Body = One(order: Order) | All(orders: seq<Order>) | NoContent

  /** What the handler sends: a status and a body, or the failure of a link. */
  datatype Response = Sent(status: int, body: Body) | Failed(failure: Failure)

  /** The record `create` stores: the payload object itself with `id` set to the
      fresh id and `status` forced to "pending", whatever the caller sent. */
  function NewOrder(p: Payload, freshId: string): (o: Order)
    ensures HasId(o, freshId) && Get(o, "status") == Some(JStr("pending"))
    ensures o.Keys == p.Keys + {"id", "status"}
    ensures forall k :: k in p && k != "id" && k != "status" ==> o[k] == p[k]
  {
    p["id" := JStr(freshId)]["status" := JStr("pending")]
  }

  /** `Object.assign(order, data, { id })` with `id` read from the order first:
      every payload field is copied over, then the order's own id is put back
      (an order without an id ends with `id` undefined). */
  function Merge(order: Order, p: Payload): (m: Order)
    ensures Get(m, "id") == Get(order, "id")
    ensures forall k :: k in p && k != "id" ==> k in m && m[k] == p[k]
    ensures forall k :: k != "id" && k !in p ==> Get(m, k) == Get(order, k)
  {
    if "id" in order then order + p + map["id" := order["id"]] else (order + p) - {"id"}
  }

  /** A stored record as the checks leave it: a string id, content that
      checkOrder accepts and one of the four status values. */
  predicate WellFormedOrder(o: Order)
  {
    && Get(o, "id").Some? && Get(o, "id").value.JStr?
    && AcceptablePayload(o)
    && IsValidStatus(Get(o, "status"))
  }

  /** Every record is well formed and no two records share an id. */
  predicate StoreInvariant(orders: seq<Order>)
  {
    && (forall i :: 0 <= i < |orders| ==> WellFormedOrder(orders[i]))
    && (forall i, j :: 0 <= i < j < |orders| ==> Get(orders[i], "id") != Get(orders[j], "id"))
  }

  /** checkOrder reads only deliverTo, mobileNumber and dishes. */
  lemma AcceptableDependsOnContent(p: Payload, q: Payload)
    requires Get(p, "deliverTo") == Get(q, "deliverTo")
    requires Get(p, "mobileNumber") == Get(q, "mobileNumber")
    requires Get(p, "dishes") == Get(q, "dishes")
    ensures AcceptablePayload(p) <==> AcceptablePayload(q)
  {
  }

  /** A created record is well formed once checkOrder has let its payload through. */
  lemma NewOrderWellFormed(p: Payload, freshId: string)
    requires AcceptablePayload(p)
    ensures WellFormedOrder(NewOrder(p, freshId))
  {
    AcceptableDependsOnContent(p, NewOrder(p, freshId));
  }

  /** An update that passed its chain leaves a well-formed record with the same id. */
  lemma MergeWellFormed(order: Order, p: Payload)
    requires WellFormedOrder(order) && AcceptablePayload(p) && IsValidStatus(Get(p, "status"))
    ensures WellFormedOrder(Merge(order, p))
  {
    var m := Merge(order, p);
    assert Get(m, "status") == Get(p, "status");
    AcceptableDependsOnContent(p, m);
  }

  /** Merging a payload that passed the update chain into record `i` keeps
      the store invariant. */
  lemma UpdateKeepsInvariant(orders: seq<Order>, i: nat, p: Payload)
    requires StoreInvariant(orders) && i < |orders|
    requires AcceptablePayload(p) && IsValidStatus(Get(p, "status"))
    ensures StoreInvariant(orders[i := Merge(orders[i], p)])
  {
    var after := orders[i := Merge(orders[i], p)];
    MergeWellFormed(orders[i], p);
    forall a, b | 0 <= a < b < |after| ensures Get(after[a], "id") != Get(after[b], "id") {
      assert Get(after[a], "id") == Get(orders[a], "id") && Get(after[b], "id") == Get(orders[b], "id");
    }
  }

  /** Record `j` of the store after removing record `i`. */
  lemma RemovedAt(orders: seq<Order>, i: nat, j: nat)
    requires i < |orders| && j < |orders| - 1
    ensures (orders[..i] + orders[i + 1..])[j] == orders[if j < i then j else j + 1]
  {
  }

  /** Removing the record at `i` drops exactly that record: the others keep
      their order, and when ids are unique no record with its id remains. */
  lemma {:induction false} RemoveAtDropsOnlyThatRecord(orders: seq<Order>, i: nat, id: string)
    requires i < |orders| && HasId(orders[i], id) && StoreInvariant(orders)
    ensures var rest := orders[..i] + orders[i + 1..];
      && |rest| == |orders| - 1
      && multiset(rest) + multiset{orders[i]} == multiset(orders)
      && (forall j :: 0 <= j < |rest| ==> !HasId(rest[j], id))
  {
    var rest := orders[..i] + orders[i + 1..];
    assert orders == orders[..i] + [orders[i]] + orders[i + 1..];
    forall j | 0 <= j < |rest| ensures !HasId(rest[j], id) {
      RemovedAt(orders, i, j);
    }
  }

  /** Removing a record keeps the store invariant. */
  lemma RemoveAtKeepsInvariant(orders: seq<Order>, i: nat)
    requires i < |orders| && StoreInvariant(orders)
    ensures StoreInvariant(orders[..i] + orders[i + 1..])
  {
    var rest := orders[..i] + orders[i + 1..];
    forall j | 0 <= j < |rest| ensures WellFormedOrder(rest[j]) {
      RemovedAt(orders, i, j);
    }
    forall a, b | 0 <= a < b < |rest| ensures Get(rest[a], "id") != Get(rest[b], "id") {
      RemovedAt(orders, i, a);
      RemovedAt(orders, i, b);
    }
  }

  class Store {
    /** The shared orders array, in insertion order. */
    var orders: seq<Order>

    constructor (seed: seq<Order>)
      ensures orders == seed
      ensures StoreInvariant(seed) ==> Valid()
    {
      orders := seed;
    }

    ghost predicate Valid()
      reads this
    {
      StoreInvariant(orders)
    }

    /** `create: [checkOrder, create]`. */
    method Create(payload: Payload, freshId: string) returns (r: Response)
      requires FindOrder(orders, freshId).None?
      modifies this
      ensures var run := P.RunChain(P.CreateChain, P.Request(old(orders), "", payload), None);
        && (run.Halted? ==> r == Failed(run.failure) && orders == old(orders))
        && (run.Completed? ==> orders == old(orders) + [NewOrder(payload, freshId)] && r == Sent(201, One(NewOrder(payload, freshId))))
      ensures old(Valid()) ==> Valid()
    {
      var run := P.RunChain(P.CreateChain, P.Request(orders, "", payload), None);
      if run.Halted? {
        return Failed(run.failure);
      }
      P.CreateChainRun(P.Request(orders, "", payload));
      var created := NewOrder(payload, freshId);
      NewOrderWellFormed(payload, freshId);
      ghost var before := orders;
      orders := orders + [created];
      r := Sent(201, One(created));
      forall i | 0 <= i < |before| ensures Get(orders[i], "id") != Get(created, "id") {
        assert orders[i] == before[i] && !HasId(before[i], freshId);
      }
    }

    /** `read: [orderExists, read]`. */
    function Read(routeId: string): (r: Response)
      reads this
      ensures r.Failed? <==> FindOrder(orders, routeId).None?
      ensures r.Failed? ==> r.failure == Rejected(404, NotFoundMessage(routeId))
      ensures r.Sent? ==> FindOrder(orders, routeId).Some? && r == Sent(200, One(orders[FindOrder(orders, routeId).value]))
    {
      var req := P.Request(orders, routeId, map[]);
      P.NotFoundIffMissing(P.ReadChain, req);
      match P.RunChain(P.ReadChain, req, None)
      case Halted(f) => Failed(f)
      case Completed(found) =>
        P.CompletedFound(P.ReadChain, req, None);
        Sent(200, One(orders[found.value]))
    }

    /** `update: [orderExists, checkOrder, matchId, statusIsValid, update]`. */
    method Update(routeId: string, payload: Payload) returns (r: Response)
      modifies this
      ensures var run := P.RunChain(P.UpdateChain, P.Request(old(orders), routeId, payload), None);
        && (run.Halted? ==> r == Failed(run.failure) && orders == old(orders))
        && (run.Completed? ==>
              && FindOrder(old(orders), routeId).Some?
              && var i := FindOrder(old(orders), routeId).value;
              && orders == old(orders)[i := Merge(old(orders)[i], payload)]
              && r == Sent(200, One(orders[i])))
      ensures old(Valid()) ==> Valid()
    {
      var req := P.Request(orders, routeId, payload);
      var run := P.RunChain(P.UpdateChain, req, None);
      if run.Halted? {
        return Failed(run.failure);
      }
      P.CompletedFound(P.UpdateChain, req, None);
      P.UpdateChainRun(req);
      var i := run.found.value;
      ghost var before := orders;
      var updated := Merge(orders[i], payload);
      orders := orders[i := updated];
      r := Sent(200, One(updated));
      if StoreInvariant(before) {
        UpdateKeepsInvariant(before, i, payload);
      }
    }

    /** `destroy: [orderExists, orderStatusIsPending, destroy]`, removing the
        record that orderExists found. */
    method Destroy(routeId: string) returns (r: Response)
      modifies this
      ensures var run := P.RunChain(P.DestroyChain, P.Request(old(orders), routeId, map[]), None);
        && (run.Halted? ==> r == Failed(run.failure) && orders == old(orders))
        && (run.Completed? ==>
              && FindOrder(old(orders), routeId).Some?
              && var i := FindOrder(old(orders), routeId).value;
              && orders == old(orders)[..i] + old(orders)[i + 1..]
              && r == Sent(204, NoContent))
      ensures old(Valid()) ==> Valid()
      ensures old(Valid()) && r.Sent? ==> forall j :: 0 <= j < |orders| ==> !HasId(orders[j], routeId)
    {
      var req := P.Request(orders, routeId, map[]);
      var run := P.RunChain(P.DestroyChain, req, None);
      if run.Halted? {
        return Failed(run.failure);
      }
      P.CompletedFound(P.DestroyChain, req, None);
      var i := run.found.value;
      if StoreInvariant(orders) {
        RemoveAtKeepsInvariant(orders, i);
        RemoveAtDropsOnlyThatRecord(orders, i, routeId);
      }
      orders := orders[..i] + orders[i + 1..];
      r := Sent(204, NoContent);
    }

    /** `list`: no checks, the whole store in store order. */
    function List(): (r: Response)
      reads this
      ensures r.Sent? && r.status == 200 && r.body.All?
      ensures |r.body.orders| == |orders| && forall i :: 0 <= i < |orders| ==> r.body.orders[i] == orders[i]
    {
      Sent(200, All(orders))
    }
  }

  // ---------------------------------------------------------------------
  // destroy as written: `findIndex(order => order.id === Number(orderId))`

  /** `orders.findIndex(order => order.id === Number(orderId))`. `routeNumber`
      is `Number(orderId)` when that is an integer; NaN and fractions are
      `None`, which no stored id can equal since ids here are never fractional. */
  function FindIndexByNumber(orders: seq<Order>, routeNumber: Option<int>): (r: int)
    ensures -1 <= r < |orders|
    ensures r >= 0 ==> routeNumber.Some? && Get(orders[r], "id") == Some(JNum(routeNumber.value))
    ensures r >= 0 ==> forall j :: 0 <= j < r ==> Get(orders[j], "id") != Some(JNum(routeNumber.value))
    ensures r == -1 <==> forall j :: 0 <= j < |orders| ==> routeNumber.None? || Get(orders[j], "id") != Some(JNum(routeNumber.value))
    decreases |orders|
  {
    if orders == [] || routeNumber.None? then -1
    else if Get(orders[0], "id") == Some(JNum(routeNumber.value)) then 0
    else
      var k := FindIndexByNumber(orders[1..], routeNumber);
      if k == -1 then -1 else k + 1
  }

  /** `orders.splice(start, 1)`: a negative start counts back from the end. */
  function SpliceOne(orders: seq<Order>, start: int): seq<Order>
  {
    var k := if start >= 0 then start else if |orders| + start < 0 then 0 else |orders| + start;
    if k < |orders| then orders[..k] + orders[k + 1..] else orders
  }

  function DestroyAsWritten(orders: seq<Order>, routeNumber: Option<int>): seq<Order>
  {
    SpliceOne(orders, FindIndexByNumber(orders, routeNumber))
  }

  predicate StringIds(orders: seq<Order>)
  {
    forall j :: 0 <= j < |orders| ==> Get(orders[j], "id").Some? ==> Get(orders[j], "id").value.JStr?
  }

  /** With string ids, as orderExists needs them to find anything, the
      comparison with a number never matches and splice(-1, 1) drops the last
      record, whichever order the route named. */
  lemma DestroyAsWrittenRemovesLast(orders: seq<Order>, routeNumber: Option<int>)
    requires |orders| > 0 && StringIds(orders)
    ensures DestroyAsWritten(orders, routeNumber) == orders[..|orders| - 1]
  {
    assert FindIndexByNumber(orders, routeNumber) == -1;
  }

  const PendingA: Order := map["id" := JStr("a"), "status" := JStr("pending")]
  const PreparingB: Order := map["id" := JStr("b"), "status" := JStr("preparing")]

  /** Deleting pending order "a" from [a, b]: the chain lets the delete
      through, yet as written "a" stays and "b" is removed. */
  lemma DestroyAsWrittenKeepsRequestedOrder()
    ensures P.RunChain(P.DestroyChain, P.Request([PendingA, PreparingB], "a", map[]), None).Completed?
    ensures forall n :: DestroyAsWritten([PendingA, PreparingB], n) == [PendingA]
  {
    var orders := [PendingA, PreparingB];
    assert FindOrder(orders, "a") == Some(0) by {
      assert HasId(orders[0], "a");
    }
    P.DestroyChainRun(P.Request(orders, "a", map[]));
    forall n ensures DestroyAsWritten(orders, n) == [PendingA] {
      DestroyAsWrittenRemovesLast(orders, n);
      assert orders[..1] == [PendingA];
    }
  }

  // ---------------------------------------------------------------------
  // End-to-end scenarios

  function SampleOrder(): Payload
  {
    map["deliverTo" := JStr("123 Main"), "mobileNumber" := JStr("555-0100"),
        "dishes" := JArr([JObj(map["quantity" := JNum(2)])])]
  }

  /** Create, delete, then read the same id: 201, 204, then 404. */
  method CreateDeleteRead()
  {
    var store := new Store([]);
    var created := store.Create(SampleOrder(), "42");
    P.CreateChainRun(P.Request([], "", SampleOrder()));
    assert created == Sent(201, One(NewOrder(SampleOrder(), "42")));
    assert store.orders == [NewOrder(SampleOrder(), "42")];
    assert FindOrder(store.orders, "42") == Some(0);
    P.DestroyChainRun(P.Request(store.orders, "42", map[]));
    var deleted := store.Destroy("42");
    assert deleted == Sent(204, NoContent) && store.orders == [];
    var read := store.Read("42");
    assert read == Failed(Rejected(404, NotFoundMessage("42")));
  }

  /** Create, update the status to "preparing", then delete: the delete is
      refused with 400 and the order stays, now preparing. */
  method CreateUpdateDelete()
  {
    var store := new Store([]);
    var created := store.Create(SampleOrder(), "42");
    P.CreateChainRun(P.Request([], "", SampleOrder()));
    assert store.orders == [NewOrder(SampleOrder(), "42")];
    var change := SampleOrder()["status" := JStr("preparing")];
    var req := P.Request(store.orders, "42", change);
    assert FindOrder(store.orders, "42") == Some(0);
    assert IsValidStatus(Get(change, "status"));
    AcceptableDependsOnContent(SampleOrder(), change);
    P.UpdateChainRun(req);
    var updated := store.Update("42", change);
    assert updated.Sent? && updated.status == 200;
    assert Get(store.orders[0], "status") == Some(JStr("preparing"));
    assert FindOrder(store.orders, "42") == Some(0);
    P.DestroyChainRun(P.Request(store.orders, "42", map[]));
    var deleted := store.Destroy("42");
    assert deleted == Failed(Rejected(400, NotPendingMessage));
    assert |store.orders| == 1 && Get(store.orders[0], "status") == Some(JStr("preparing"));
  }
}
