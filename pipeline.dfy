/** The per-operation chains of checks as the controller's export table wires
    them, and the run of a chain: each link either passes control on or stops
    the chain with the failure it hands to `next(...)`. */
module Pipeline {
  import opened JsValues
  import V = Validation

  /** The checking links of the export table, by the controller's names. */
  datatype Middleware = OrderExists | CheckOrder | MatchId | StatusIsValid | OrderStatusIsPending

  /** What a link can see: the store, the route's `:orderId` and `req.body.data`. */
  datatype Request = Request(orders: seq<V.Order>, routeId: string, payload: V.Payload)

  /** A link passes on, with `res.locals.order` (an index into the store, or
      unset), or stops the chain. */
  datatype Step = Next(found: Option<nat>) | Stop(failure: V.Failure)

  datatype ChainResult = Halted(failure: V.Failure) | Completed(found: Option<nat>)

  function Continue(o: V.Outcome, found: Option<nat>): Step
  {
    match o
    case Pass => Next(found)
    case Fail(f) => Stop(f)
  }

  /** One link. `orderExists` records the order it found; `orderStatusIsPending`
      reads that record and throws when it was never set. */
  function Eval(m: Middleware, req: Request, found: Option<nat>): Step
  {
    match m
    case OrderExists =>
      (match V.OrderExists(req.orders, req.routeId)
       case Pass => Next(V.FindOrder(req.orders, req.routeId))
       case Fail(f) => Stop(f))
    case CheckOrder => Continue(V.CheckOrder(req.payload), found)
    case MatchId => Continue(V.MatchId(req.payload, req.routeId), found)
    case StatusIsValid => Continue(V.StatusIsValid(req.payload), found)
    case OrderStatusIsPending =>
      if found.Some? && found.value < |req.orders| then Continue(V.OrderStatusIsPending(req.orders[found.value]), found)
      else Stop(V.TypeError)
  }

  /** Runs the links in order; the first that stops ends the run. */
  function RunChain(chain: seq<Middleware>, req: Request, found: Option<nat>): ChainResult
    decreases |chain|
  {
    if chain == [] then Completed(found)
    else
      match Eval(chain[0], req, found)
      case Stop(f) => Halted(f)
      case Next(found') => RunChain(chain[1..], req, found')
  }

  /** `res.locals.order` after link `m`, had it passed. */
  function After(m: Middleware, req: Request, found: Option<nat>): Option<nat>
  {
    match Eval(m, req, found)
    case Next(f) => f
    case Stop(_) => found
  }

  /** `res.locals.order` as link `k` of the chain sees it. */
  function LocalsAt(chain: seq<Middleware>, req: Request, found: Option<nat>, k: nat): Option<nat>
    requires k <= |chain|
    decreases k
  {
    if k == 0 then found else LocalsAt(chain[1..], req, After(chain[0], req, found), k - 1)
  }

  /** The terminal operation is reached exactly when every link passes. */
  lemma {:induction false} ChainCompletesIffAllPass(chain: seq<Middleware>, req: Request, found: Option<nat>)
    ensures RunChain(chain, req, found).Completed?
        <==> forall k :: 0 <= k < |chain| ==> Eval(chain[k], req, LocalsAt(chain, req, found, k)).Next?
    decreases |chain|
  {
    if chain != [] {
      var rest, found' := chain[1..], After(chain[0], req, found);
      ChainCompletesIffAllPass(rest, req, found');
      forall k | 1 <= k < |chain|
        ensures chain[k] == rest[k - 1] && LocalsAt(chain, req, found, k) == LocalsAt(rest, req, found', k - 1)
      {
      }
      if Eval(chain[0], req, found).Next? {
        if forall k :: 0 <= k < |rest| ==> Eval(rest[k], req, LocalsAt(rest, req, found', k)).Next? {
          forall k | 0 <= k < |chain| ensures Eval(chain[k], req, LocalsAt(chain, req, found, k)).Next? {
            if k > 0 {
              assert Eval(rest[k - 1], req, LocalsAt(rest, req, found', k - 1)).Next?;
            }
          }
        } else {
          var k :| 0 <= k < |rest| && !Eval(rest[k], req, LocalsAt(rest, req, found', k)).Next?;
          assert !Eval(chain[k + 1], req, LocalsAt(chain, req, found, k + 1)).Next?;
        }
      } else {
        assert !Eval(chain[0], req, LocalsAt(chain, req, found, 0)).Next?;
      }
    }
  }

  /** A chain stops with the failure of its first failing link. */
  lemma {:induction false} ChainHaltsAtFirstFailure(chain: seq<Middleware>, req: Request, found: Option<nat>, k: nat)
    requires k < |chain| && Eval(chain[k], req, LocalsAt(chain, req, found, k)).Stop?
    requires forall j :: 0 <= j < k ==> Eval(chain[j], req, LocalsAt(chain, req, found, j)).Next?
    ensures RunChain(chain, req, found) == Halted(Eval(chain[k], req, LocalsAt(chain, req, found, k)).failure)
    decreases k
  {
    if k > 0 {
      var rest, found' := chain[1..], After(chain[0], req, found);
      assert Eval(chain[0], req, LocalsAt(chain, req, found, 0)).Next?;
      forall j | 0 <= j < k - 1
        ensures Eval(rest[j], req, LocalsAt(rest, req, found', j)).Next?
      {
        assert Eval(chain[j + 1], req, LocalsAt(chain, req, found, j + 1)).Next?;
      }
      ChainHaltsAtFirstFailure(rest, req, found', k - 1);
    }
  }

  /** After a completed run, `res.locals.order` is the order `orderExists`
      found, whenever the chain looks one up. */
  lemma {:induction false} CompletedFound(chain: seq<Middleware>, req: Request, found: Option<nat>)
    requires RunChain(chain, req, found).Completed?
    ensures OrderExists in chain ==>
      V.FindOrder(req.orders, req.routeId).Some? && RunChain(chain, req, found).found == V.FindOrder(req.orders, req.routeId)
    ensures OrderExists !in chain ==> RunChain(chain, req, found).found == found
    decreases |chain|
  {
    if chain != [] {
      var rest, found' := chain[1..], After(chain[0], req, found);
      assert chain == [chain[0]] + rest;
      CompletedFound(rest, req, found');
    }
  }

  /** Only the lookup answers 404: once the route id names a stored order, no
      later link fails with 404. */
  lemma {:induction false} NoNotFoundOnceFound(chain: seq<Middleware>, req: Request, found: Option<nat>)
    requires V.FindOrder(req.orders, req.routeId).Some?
    ensures RunChain(chain, req, found).Halted? ==>
      RunChain(chain, req, found).failure.TypeError? || RunChain(chain, req, found).failure.status != 404
    decreases |chain|
  {
    if chain != [] {
      NoNotFoundOnceFound(chain[1..], req, After(chain[0], req, found));
    }
  }

  /** A chain that starts with the lookup answers 404 exactly when no stored
      order has the route id. */
  lemma NotFoundIffMissing(chain: seq<Middleware>, req: Request)
    requires |chain| > 0 && chain[0] == OrderExists
    ensures (RunChain(chain, req, None).Halted? && RunChain(chain, req, None).failure == V.Rejected(404, V.NotFoundMessage(req.routeId)))
        <==> V.FindOrder(req.orders, req.routeId).None?
  {
    if V.FindOrder(req.orders, req.routeId).Some? {
      NoNotFoundOnceFound(chain, req, None);
    }
  }

  // ---------------------------------------------------------------------
  // The export table

  const CreateChain: seq<Middleware> := [CheckOrder]
  const ReadChain: seq<Middleware> := [OrderExists]
  const UpdateChain: seq<Middleware> := [OrderExists, CheckOrder, MatchId, StatusIsValid]
  const DestroyChain: seq<Middleware> := [OrderExists, OrderStatusIsPending]

  /** Create is let through exactly by checkOrder, and fails with its failure. */
  lemma CreateChainRun(req: Request)
    ensures RunChain(CreateChain, req, None).Completed? <==> V.AcceptablePayload(req.payload)
    ensures RunChain(CreateChain, req, None).Halted? ==> RunChain(CreateChain, req, None).failure == V.CheckOrder(req.payload).failure
  {
  }

  /** Update is let through exactly when the order exists, the content is
      acceptable, the ids agree and the status is one of the four values. */
  lemma UpdateChainRun(req: Request)
    ensures RunChain(UpdateChain, req, None).Completed? <==>
      && V.FindOrder(req.orders, req.routeId).Some?
      && V.AcceptablePayload(req.payload)
      && V.MatchId(req.payload, req.routeId).Pass?
      && V.StatusIsValid(req.payload).Pass?
  {
    ChainCompletesIffAllPass(UpdateChain, req, None);
    var l1 := LocalsAt(UpdateChain, req, None, 1);
    var l2 := LocalsAt(UpdateChain, req, None, 2);
    var l3 := LocalsAt(UpdateChain, req, None, 3);
    assert Eval(UpdateChain[1], req, l1) == Continue(V.CheckOrder(req.payload), l1);
    assert Eval(UpdateChain[2], req, l2) == Continue(V.MatchId(req.payload, req.routeId), l2);
    assert Eval(UpdateChain[3], req, l3) == Continue(V.StatusIsValid(req.payload), l3);
  }

  /** Delete is let through exactly when the order exists and is pending. */
  lemma DestroyChainRun(req: Request)
    ensures RunChain(DestroyChain, req, None).Completed? <==>
      && V.FindOrder(req.orders, req.routeId).Some?
      && Get(req.orders[V.FindOrder(req.orders, req.routeId).value], "status") == Some(JStr("pending"))
    ensures RunChain(DestroyChain, req, None).Halted? && V.FindOrder(req.orders, req.routeId).Some? ==>
      RunChain(DestroyChain, req, None).failure == V.Rejected(400, V.NotPendingMessage)
  {
  }
}
