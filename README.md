# Orders controller of GrubDash-server, modelled in Dafny

This project models the orders resource of GrubDash-server
(`src/orders/orders.controller.js`). The resource is an in-memory, shared
array of order records behind five operations: create, read, update, delete
and list. The controller holds all the decision logic. Each operation is a
chain of Express middleware, wired in the module's export table. Every link
either calls `next()` to pass control on or calls `next({status, message})`
to end the request with an error. The model covers four parts:

- **`JsValues`** (`js_values.dfy`): the JavaScript values that arrive in
  `req.body.data`. Numbers are integers only. A property that is absent
  reads as `undefined`. The module also gives the three conversions the
  checks rely on: truthiness (`!x`), loose equality with the empty string
  (`x == ""`, where arrays compare through their `join(",")`), and the text
  of a value inside a template literal (`${x}`).
- **`Validation`** (`validation.dfy`): the checks, as pure functions.
  - `checkOrder` tries its four field rules in a fixed order and reports only
    the first failure. It then runs the dish loop, which stops at the first
    bad dish and names it by its 0-based index.
  - `matchId`, `statusIsValid` with the `validStatus` list, the lifecycle
    rule `orderStatusIsPending`, and the lookup of `orderExists`.
- **`Pipeline`** (`pipeline.dfy`): the links as a datatype and the export
  table as constant sequences. `RunChain` is the short-circuiting run of a
  chain. It threads `res.locals.order` from `orderExists` to
  `orderStatusIsPending`. Lemmas give the general laws of a run and
  characterise each exported chain.
- **`Orders`** (`orders.dfy`): the `Store` class. Its field `orders` is the
  shared array. Its methods run each chain and, only when the chain
  completes, the terminal operation: `create` appends, `update` merges in
  place and `destroy` removes. `read` and `list` are functions.
  - `StoreInvariant` states the invariant the methods preserve: string ids,
    unique ids, content that `checkOrder` accepts, and a status from the
    allowed list.
  - `FindIndexByNumber`, `SpliceOne` and `DestroyAsWritten` model `destroy`
    exactly as the code writes it (see Findings).
  - Two scenario methods replay create → delete → read and
    create → update → delete.

Three behaviours of the code are easy to misread:

- `update` merges the payload into the record (`Object.assign`). Fields
  absent from the payload keep their old values; they are not replaced.
- A dish quantity must be a number greater than 0, not necessarily an
  integer.
- A missing order answers 404 with the text
  "Order id does not match route id: …".

## Model

| member | source | states |
|---|---|---|
| JsValues.NatToStringRoundTrip | src/orders/orders.controller.js:70 | the decimal text that `${index}` writes reads back as the index itself |
| JsValues.ArrayToStringEmpty | src/orders/orders.controller.js:47-51 | an array is loosely equal to "" exactly when it is empty or holds one element that is null or reads as "" |
| Validation.CheckDishes | src/orders/orders.controller.js:62-72 | the dish loop passes exactly when no dish from the start index on is null or lacks a positive numeric quantity; its rejections carry status 400 |
| Validation.CheckDishesReportsFirstBad | src/orders/orders.controller.js:62-72 | the loop's failure is the one for the first bad dish: a 400 naming its index, or the TypeError of reading a property of a null dish |
| Validation.DishMessageNamesIndex | src/orders/orders.controller.js:70 | different dish indexes give different messages, so the message identifies the offending dish |
| Validation.CheckOrder | src/orders/orders.controller.js:44-75 | checkOrder passes exactly the payloads with a non-blank deliverTo and mobileNumber and a non-empty dishes array of dishes with positive numeric quantities; every rejection is a 400 |
| Validation.CheckOrderReportsFirstRule | src/orders/orders.controller.js:47-60 | when field rule k is the first of the four (deliverTo, mobileNumber, dishes present, dishes a non-empty array) to be broken, checkOrder fails with that rule's message and no other |
| Validation.CheckOrderReportsFirstBadDish | src/orders/orders.controller.js:62-74 | when the four field rules hold, checkOrder fails exactly with the failure of the first bad dish |
| Validation.MatchId | src/orders/orders.controller.js:18-29 | an absent or falsy id (`null`, `false`, `0`, `""`) passes; a non-empty string id passes exactly when it equals the route id; a numeric id passes only when it is 0; any other truthy id fails; a failure is the 400 naming the payload id and the route id |
| Validation.StatusIsValid | src/orders/orders.controller.js:31-42 | passes exactly when the payload status is one of pending, preparing, out-for-delivery, delivered; otherwise fails with 400 and the status message |
| Validation.StatusMessageText | src/orders/orders.controller.js:31-40 | the status message lists the four allowed values joined by commas, as the array prints in the template |
| Validation.OrderStatusIsPending | src/orders/orders.controller.js:95-104 | passes exactly when the found order's status is the string "pending"; otherwise fails with 400 |
| Validation.FindOrder | src/orders/orders.controller.js:7 | gives the first index whose record has the route id as its string id, or nothing when no record has it |
| Validation.OrderExists | src/orders/orders.controller.js:5-16 | fails exactly when no stored record has the route id, and then with 404 and the not-found message |
| Pipeline.ChainCompletesIffAllPass | src/orders/orders.controller.js:117-123 | a chain reaches its terminal operation exactly when every link passes, each seeing the `res.locals.order` left by the links before it |
| Pipeline.ChainHaltsAtFirstFailure | src/orders/orders.controller.js:117-123 | a chain ends with the failure of its first failing link; no later link runs |
| Pipeline.CompletedFound | src/orders/orders.controller.js:5-10 | after a completed chain that contains orderExists, `res.locals.order` is the order that the lookup found |
| Pipeline.NoNotFoundOnceFound | src/orders/orders.controller.js:117-123 | once the route id names a stored order, no chain fails with 404 |
| Pipeline.NotFoundIffMissing | src/orders/orders.controller.js:119-121 | a chain that starts with orderExists fails with the 404 exactly when no record has the route id |
| Pipeline.CreateChainRun | src/orders/orders.controller.js:118 | the create chain completes exactly when checkOrder accepts the payload, and otherwise fails with checkOrder's failure |
| Pipeline.UpdateChainRun | src/orders/orders.controller.js:120 | the update chain completes exactly when the order exists, checkOrder accepts, the ids match and the status is valid |
| Pipeline.DestroyChainRun | src/orders/orders.controller.js:121 | the delete chain completes exactly when the order exists and is pending; an existing non-pending order is refused with 400 |
| Orders.NewOrder | src/orders/orders.controller.js:77-81 | the created record has the fresh id and status "pending" whatever the payload said, and keeps every other payload field |
| Orders.Merge | src/orders/orders.controller.js:89-91 | every payload field except id is copied onto the record, fields the payload lacks are kept, and the id is the record's own id whatever the payload contains |
| Orders.NewOrderWellFormed | src/orders/orders.controller.js:77-81 | a record created from a payload that checkOrder accepted has a string id, acceptable content and a valid status |
| Orders.MergeWellFormed | src/orders/orders.controller.js:89-91 | merging a payload that passed the update checks into a well-formed record gives a well-formed record |
| Orders.UpdateKeepsInvariant | src/orders/orders.controller.js:89-93 | an update that passed its chain preserves the store invariant, including unique ids |
| Orders.RemoveAtDropsOnlyThatRecord | src/orders/orders.controller.js:106-111 | removing the found record shortens the store by one, keeps every other record, and leaves no record with that id |
| Orders.RemoveAtKeepsInvariant | src/orders/orders.controller.js:106-111 | removing any one record preserves the store invariant, including unique ids |
| Orders.Store.Create | src/orders/orders.controller.js:77-83 | a rejected payload leaves the store unchanged; otherwise exactly one record, the new order, is appended after the unchanged earlier records; answers 201; preserves the store invariant |
| Orders.Store.Read | src/orders/orders.controller.js:85-87 | answers 404 exactly when the id is missing, and otherwise 200 with the record found |
| Orders.Store.Update | src/orders/orders.controller.js:89-93 | a halted chain leaves the store unchanged; otherwise only the found record changes, to the merge of the payload keeping its id; answers 200 with it; preserves the store invariant |
| Orders.Store.Destroy | src/orders/orders.controller.js:106-111 | a halted chain leaves the store unchanged; otherwise exactly the found record is removed and the answer is 204; preserves the store invariant, and under it no remaining record has the deleted id |
| Orders.Store.List | src/orders/orders.controller.js:113-115 | always answers 200 with every stored record in store order |
| Orders.FindIndexByNumber | src/orders/orders.controller.js:108 | the first index whose id is the number `Number(orderId)`, or -1 when there is none |
| Orders.DestroyAsWrittenRemovesLast | src/orders/orders.controller.js:106-111 | when all stored ids are strings, destroy as written removes the last record, whatever the route id |
| Orders.DestroyAsWrittenKeepsRequestedOrder | src/orders/orders.controller.js:106-111 | with records a (pending) and b, deleting a passes the chain, but as written b is removed and a stays |

## Left out

- Express plumbing is not modelled: `req`, `res`, `res.locals`, `next`, `res.status(...).json` and `sendStatus`. Responses are a status and a body. JSON serialisation and the `{ data: ... }` wrapper are not modelled.
- The error handler that turns a failure into a response is not part of this model. The status that a thrown TypeError finally gets is therefore not modelled.
- `src/data/orders-data` is not part of this model. The initial records are the argument of the `Store` constructor.
- `src/utils/nextId` is not part of this model. The new id is a parameter. `Orders.Store.Create` requires that no stored record has it, which is what the generator promises.
- Fractional numbers and NaN are not modelled, because numbers are integers here. The code also accepts a quantity such as 1.5.
- A request body whose `data` is not a plain object is not modelled. When `data` is missing or null, the destructuring at line 45 throws. For a string, number, boolean or array `data` the fields read as `undefined`, so checkOrder answers 400 "Order must include a deliverTo".
- The record object is modelled as a value in the store. The link from `res.locals.order` to the same object inside the array becomes an index, and `Object.assign` becomes replacing the record at that index.
- The key order of JavaScript objects is not modelled.
- The dish loop is modelled as "first bad dish, then stop". The `forEach` at lines 62-72 does not return from `checkOrder`, so later bad dishes and line 74 call `next` again. Express has already moved past the remaining handlers by then, so the response and the store are those of the first failure. The extra `next` calls are not modelled.
- Concurrent requests are not modelled. Each call runs to completion on the store before the next one starts.

## Findings

| source | as written | input that shows it | evidently intended | confidence | as-written member | corrected member |
|---|---|---|---|---|---|---|
| src/orders/orders.controller.js:106-111 | `destroy` looks up `order.id === Number(orderId)`. orderExists only finds records whose id is the route's string, so this never matches the found record. `findIndex` gives -1, and `splice(-1, 1)` removes the last record | store `[{id:"a", status:"pending"}, {id:"b", status:"preparing"}]`, delete `a`: the chain passes and answers 204, yet `b` is removed and `a` stays | remove the record that orderExists found | high (not executed) | Orders.DestroyAsWrittenKeepsRequestedOrder | Orders.Store.Destroy |
