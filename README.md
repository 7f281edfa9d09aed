# Inventory backend core, modelled in Dafny

This project models the logic of a Prisma/Express inventory backend: its warehouse stock
ledger, its purchase-order services, the Google-user find-or-create service, and the request
middlewares and validators around them. The database is replaced by in-memory tables. The
operations that change state are methods on a database object, and each is proved equal to a
pure state-transition function (`After*`, `Step`). The properties the code promises are then
proved as lemmas about those functions.

Modules, one concept each:

- `Wrappers`, `Decimal`, `JsonValue`: `Option`/`Result`, decimal text of integers (for
  `${statusCode}` and `String(n)`), and JSON values with JavaScript truthiness.
- `StockStatus`: `calculateStockStatus`, which is the same in both versions of the warehouse service.
- `Inventory`: the WarehouseItem and StockMovement tables, the lookups on them, and the
  operations both versions share (`removeStock`, `deleteWarehouse`).
- `DistWarehouseService`: the compiled warehouse service. Here `addStock` stores price and cost,
  `transferStock` carries the source row's location, price and cost, and `updatePriceAndCost`
  rewrites one row by id.
- `SrcWarehouseService`: the TypeScript warehouse service. Here `addStock` never touches price
  or cost, `transferStock` carries only the location, and `updatePriceAndCost` reprices every
  row of a product. It also holds the `ocupacion` figure of `getAllWarehouses`.
- `PurchaseOrders`: the order, order-item and document tables, `createOrder` with its item
  mapping, and the cascading `deleteOrder`.
- `DistPurchaseOrderService`: the compiled `updateOrder`. It upserts each submitted child, then
  deletes the old children whose ids were not submitted.
- `SrcPurchaseOrderService`: the TypeScript `updateOrder`, which deletes every child and then
  recreates one per submitted element. Also `updateDocument`.
- `GoogleUsers`: `createGoogleUser` and `findOrCreateGoogleUser` over a user table whose
  googleId and email are unique.
- `Auth`: `restrictTo` and the per-user fixed-window limiter `userRateLimit`.
- `ErrorHandler`: `AppError`, the `handle*` mappers, `sendErrorProd`, `sendErrorDev` and the
  `errorHandler` dispatch.
- `SanitizeInput`: the recursive `sanitize` traversal, the header selection, and the
  rewriting of the request in `sanitizeInput`. The HTML sanitiser is a parameter `clean`. As the
  application mounts it (src/index.ts:34), it runs before the JSON body parser (src/index.ts:85)
  and before any route has matched parameters, so in the running app the body and the parameters
  it sees are empty and are never cleaned.
- `GoogleValidation`: the UUID v4 and e-mail regular expressions as predicates, and the
  `validateUUID` / `validateEmailParam` middlewares.
- `GoogleController`: the ordered request checks of the Google-user handlers.
- `Reports`: `getPeriodRange`, the figures of `getOverview`, and the per-category loop of
  `getOrderAmountsByCategory`.

Two quirks of `addStock` are kept as the code has them. For an existing row, the stored status
is computed from the added amount, not from the new total. A newly created row is always
IN_STOCK, whatever its amount (`DistWarehouseService.AddStockStatusIgnoresTotal` shows both on
concrete rows).

The regular expressions' `\s` is the concrete set of characters JavaScript counts as whitespace.

Money is integral (cents). Ids are natural numbers drawn from a counter. A date is a (year,
0-based month, day, hour, minute, second, millisecond) record.

## Model

| member | source | states |
|---|---|---|
| StockStatus.CalculateStockStatus | dist/services/warehouseService.js:262-268 | OUT_OF_STOCK exactly when the quantity is 0, LOW_STOCK exactly for a non-zero quantity at or below the minimum, IN_STOCK exactly for a non-zero quantity above it |
| StockStatus.LowStockBand | src/services/warehouseService.ts:281-285 | for a non-negative quantity, LOW_STOCK is exactly the band 0 < quantity <= minimumStock, and anything positive above the minimum is IN_STOCK |
| Inventory.FindFirst | src/services/warehouseService.ts:119-124 | `findFirst` answers the index of the first row with that (warehouse, product) pair; no answer means no row has it |
| Inventory.FindById | dist/services/warehouseService.js:243-244 | `update({ where: { id } })` finds the row carrying that id, or reports that no row does |
| Inventory.FindFirstAfterUpdate | dist/services/warehouseService.js:190-196 | rewriting a row without changing its pair leaves every pair lookup's answer unchanged |
| Inventory.FindFirstAfterAppend | dist/services/warehouseService.js:148-159 | a created row answers only the lookup of its own pair, and only when that pair had no row |
| Inventory.OnHand | src/services/warehouseService.ts:179-192 | a pair with no row holds 0, and a non-zero figure is the quantity of a row of that pair |
| Inventory.TotalUnits | src/services/warehouseService.ts:13-16 | when no row is negative, no row's quantity exceeds the total |
| Inventory.TotalUnitsAppend | src/services/warehouseService.ts:15 | the sum of quantities over two tables put together is the sum of their sums |
| Inventory.TotalUnitsUpdate | dist/services/warehouseService.js:190-196 | changing one row changes the total by exactly that row's quantity change |
| Inventory.TotalUnitsNonNegative | src/services/reposrtServices.ts:45 | with no negative quantity stored, the total is never negative |
| Inventory.ItemsOf | src/services/warehouseService.ts:8-15 | a warehouse's `items` relation holds only rows of that warehouse |
| Inventory.ItemsNotOf | src/services/warehouseService.ts:89-91 | `deleteMany({ where: { warehouseId } })` keeps exactly the rows of the other warehouses |
| Inventory.Occupancy | src/services/warehouseService.ts:13-16 | a warehouse that holds no row has `ocupacion` 0; the sum over its own rows is related to the whole table by the Occupancy* lemmas |
| Inventory.OccupancyUpdate | src/services/warehouseService.ts:13-16 | a row that stays in its warehouse changes that warehouse's occupancy by its quantity change, and no other warehouse's |
| Inventory.OccupancyAppend | src/services/warehouseService.ts:13-16 | a new row adds its quantity to its own warehouse's occupancy only |
| Inventory.OccupancyAfterDelete | src/services/warehouseService.ts:86-95 | after a warehouse's rows are deleted its occupancy is 0, and every other warehouse keeps its occupancy |
| Inventory.AfterRemoveStock | dist/services/warehouseService.js:176-205 | fails with "Item not found in warehouse" exactly when the pair has no row, and with "Insufficient stock" exactly when it holds less than asked; on success the stored table is the old one with only the pair's first row rewritten, to its quantity minus the amount (never negative) and the status of that new quantity, and exactly one OUT movement of the amount is appended |
| Inventory.RemoveStockEffect | src/services/warehouseService.ts:179-214 | a successful removal lowers that pair by exactly the amount; the stored row keeps its id, pair, minimum, location, price and cost and holds the status of its new quantity; every other stored row is as it was; the total and the warehouse's occupancy fall by the amount; ids stay distinct and stock stays non-negative |
| Inventory.AfterDeleteWarehouse | dist/services/warehouseService.js:90-97 | afterwards no row belongs to the warehouse and the warehouse is gone; the error (record not found) happens exactly when the warehouse did not exist, and the rows are deleted regardless; the movement log is untouched |
| Inventory.Remove | src/services/warehouseService.ts:93-95 | `warehouse.delete` keeps exactly the other warehouses |
| Inventory.RemoveKeepsDistinct | src/services/warehouseService.ts:93-95 | deleting a warehouse keeps the warehouse ids distinct |
| Inventory.DeleteWarehouseKeepsOthers | src/services/warehouseService.ts:88-91 | deleting one warehouse's rows leaves every other warehouse's rows exactly as they were, in order |
| Inventory.ItemsNotOfWellFormed | dist/services/warehouseService.js:92-94 | the rows left by the cascade keep distinct ids below the id counter |
| Inventory.RemoveStock | dist/services/warehouseService.js:176-211 | the method's new tables and result are those of AfterRemoveStock, and a failure changes nothing |
| Inventory.DeleteWarehouse | src/services/warehouseService.ts:86-100 | the method's new tables and result are those of AfterDeleteWarehouse |
| DistWarehouseService.AfterAddStock | dist/services/warehouseService.js:119-169 | an existing row is rewritten in place in the stored table: it grows by the amount, takes the given price and cost, and stores the status of the ADDED amount; a missing pair gets a row appended under the next id with the amount, location, price and cost, minimumStock 0 and IN_STOCK; either way the returned row is the stored one and exactly one IN movement of the amount is appended |
| DistWarehouseService.AddStockEffect | dist/services/warehouseService.js:127-168 | afterwards the pair's stored row is the returned row, holding the given price and cost; addStock raises that pair by exactly the amount (from 0 when it had no row) and no other pair; the total and the warehouse's occupancy rise by the amount; the ledger stays well formed, with no negative stock for a non-negative amount |
| DistWarehouseService.AddStockStatusIgnoresTotal | dist/services/warehouseService.js:133-157 | in the stored table, adding 3 to a row of 10 with minimum 5 leaves LOW_STOCK on 13 units, and a new row of 0 units is stored IN_STOCK |
| DistWarehouseService.AfterTransfer | dist/services/warehouseService.js:212-233 | fails with "Source item not found" exactly when the source has no row for the product, and with "Insufficient stock" exactly when it holds too little; both failures happen before any write |
| DistWarehouseService.TransferConservation | dist/services/warehouseService.js:212-233 | between two different warehouses, the source falls and the target rises by the amount, so their sum and the total are conserved; no other pair changes; one OUT movement naming the source row and then one IN movement naming the target's stored row are appended; the target's stored row holds the source row's price and cost, and the source row's location when the target had no row (its own location otherwise) |
| DistWarehouseService.TransferMovementIds | dist/services/warehouseService.js:212-233 | the OUT movement of a transfer names the source row and the IN movement names the target pair's stored row |
| DistWarehouseService.AfterUpdatePriceAndCost | dist/services/warehouseService.js:241-256 | a missing id fails with record not found; otherwise the stored row with that id takes the new price and cost, every other row and field is as it was, and that stored row is returned |
| DistWarehouseService.UpdatePriceAndCostKeepsStock | dist/services/warehouseService.js:243-253 | repricing a row moves no stock: every pair's quantity, the total and the movement log are unchanged |
| DistWarehouseService.AddStock | dist/services/warehouseService.js:119-175 | the method's new tables and returned row are those of AfterAddStock |
| DistWarehouseService.TransferStock | dist/services/warehouseService.js:212-240 | the method's new tables and result are those of AfterTransfer, and a failure changes nothing |
| DistWarehouseService.UpdatePriceAndCost | dist/services/warehouseService.js:241-261 | the method's new tables and result are those of AfterUpdatePriceAndCost |
| SrcWarehouseService.AfterAddStock | src/services/warehouseService.ts:117-172 | an existing row is rewritten in place in the stored table: it grows by the amount, keeps its price, cost and location, and stores the status of the ADDED amount; a missing pair gets a row appended under the next id with no price or cost, minimumStock 0 and IN_STOCK; the returned row is the stored one; one IN movement is appended |
| SrcWarehouseService.AddStockEffect | src/services/warehouseService.ts:126-171 | afterwards the pair's stored row is the returned row; addStock raises that pair by exactly the amount and no other pair; the total and the occupancy rise by the amount; the ledger stays well formed |
| SrcWarehouseService.AfterTransfer | src/services/warehouseService.ts:221-255 | fails with "Source item not found" exactly when the source has no row, and with "Insufficient stock" exactly when it holds too little, before any write |
| SrcWarehouseService.TransferConservation | src/services/warehouseService.ts:221-255 | between two different warehouses exactly the amount moves: the source falls and the target rises by it, the total is conserved, no other pair changes, one OUT movement naming the source row and then one IN movement naming the target's stored row are appended, the ledger stays well formed; only the location travels: a new target row gets the source row's location and no price or cost, and an existing one keeps its own location, price and cost |
| SrcWarehouseService.TransferMovementIds | src/services/warehouseService.ts:221-255 | the OUT movement of a transfer names the source row and the IN movement names the target pair's stored row |
| SrcWarehouseService.SelfTransfer | src/services/warehouseService.ts:245-253 | a transfer from a warehouse to itself needs the amount on hand, leaves the quantity where it was, and still logs an OUT and an IN movement |
| SrcWarehouseService.Repriced | src/services/warehouseService.ts:265-271 | a row of the product gets the new price and cost; every row keeps its id, pair, quantity, status and location; a row of another product is unchanged |
| SrcWarehouseService.CountProduct | src/services/warehouseService.ts:265-271 | the count `updateMany` reports is at most the number of rows, and 0 exactly when no row has the product |
| SrcWarehouseService.RepriceProduct | src/services/warehouseService.ts:265-271 | `updateMany({ where: { productId } })` rewrites every row in place, keeping the table's length and order |
| SrcWarehouseService.RepriceProductEffect | src/services/warehouseService.ts:263-271 | repricing sets the price and cost of every row of that product and of no other row; it moves no stock (every pair and the total are unchanged), keeps the ledger well formed, and is idempotent |
| SrcWarehouseService.WarehouseOccupancies | src/services/warehouseService.ts:13-16 | one entry per warehouse, in order, carrying that warehouse |
| SrcWarehouseService.OccupancyFacts | src/services/warehouseService.ts:13-16 | each reported ocupacion is the warehouse's rows' total: 0 for a warehouse without rows, never negative when no row is, and together with the other rows' total it gives the ledger's total |
| SrcWarehouseService.OccupancyOfEmpty | src/services/warehouseService.ts:15 | a warehouse with no rows has occupancy 0 |
| SrcWarehouseService.OccupancyNonNegative | src/services/warehouseService.ts:15 | without negative rows, occupancy is never negative |
| SrcWarehouseService.OccupancyPartition | src/services/warehouseService.ts:13-16 | one warehouse's occupancy plus the total of all other rows is the table's total |
| SrcWarehouseService.AddStock | src/services/warehouseService.ts:117-177 | the method's new tables and returned row are those of AfterAddStock |
| SrcWarehouseService.TransferStock | src/services/warehouseService.ts:221-261 | the method's new tables and result are those of AfterTransfer, and a failure changes nothing |
| SrcWarehouseService.RepriceRows | src/services/warehouseService.ts:265-271 | the row-by-row pass yields the repriced table and the number of rows of the product |
| SrcWarehouseService.UpdatePriceAndCost | src/services/warehouseService.ts:263-279 | the item table becomes RepriceProduct of the old one, nothing else changes, and the count returned is the number of rows of the product |
| PurchaseOrders.ChildIds | dist/services/purchaseOrderService.js:147 | the ids of an order's children are exactly the keys whose row points to that order |
| PurchaseOrders.DeleteChildren | src/services/purchaseOrderService.ts:134-140 | `deleteMany({ where: { orderId } })` leaves the order with no child and keeps every other row unchanged |
| PurchaseOrders.CreateLines | src/services/purchaseOrderService.ts:49-54 | the mapping succeeds exactly when every product has a warehouse item; it then yields one item per line, with unitPrice the first warehouse item's price and totalPrice quantity times it |
| PurchaseOrders.CreateLinesTotals | dist/services/purchaseOrderService.js:53-58 | every mapped item's total is its quantity times its unit price, a null price counting as 0 |
| PurchaseOrders.CreateAllRows | src/services/purchaseOrderService.ts:90-104 | whatever the table held, line j of a nested create is stored under n + j for the order, and every key outside n .. n + count - 1 keeps its row |
| PurchaseOrders.CreateAllEffect | src/services/purchaseOrderService.ts:45-55 | the nested create gives line j the fresh id n + j, attaches it to the order, and keeps every existing row |
| PurchaseOrders.AfterCreateOrder | dist/services/purchaseOrderService.js:47-61 | for lines that carry a product with a `WarehouseItem` list: fails exactly when `items` is missing or a product's list is empty, with nothing stored; otherwise the header gets the next fresh id and the documents are untouched |
| PurchaseOrders.CreateOrderEffect | src/services/purchaseOrderService.ts:43-64 | a created order has exactly one item per line, each priced as quantity times unit price, and no documents; every existing row is kept and the ledger stays well formed |
| PurchaseOrders.AfterDeleteOrder | dist/services/purchaseOrderService.js:179-189 | afterwards the order has no items, no documents and no header; the error (record not found) happens exactly when there was no order; every other order and every other order's children are unchanged |
| PurchaseOrders.CreateOrder | src/services/purchaseOrderService.ts:43-69 | the method's new tables and result are those of AfterCreateOrder, and a failure changes nothing |
| PurchaseOrders.DeleteOrder | src/services/purchaseOrderService.ts:131-149 | the method's new tables and result are those of AfterDeleteOrder |
| DistPurchaseOrderService.SubmittedIds | dist/services/purchaseOrderService.js:148 | `newItemIds` holds exactly the ids the submitted elements carry |
| DistPurchaseOrderService.ToDelete | dist/services/purchaseOrderService.js:149 | `toDelete` holds exactly the old children whose ids were not submitted |
| DistPurchaseOrderService.DeleteIds | dist/services/purchaseOrderService.js:150-154 | `deleteMany({ where: { id: { in } } })` removes exactly those ids and keeps every other row |
| DistPurchaseOrderService.Upsert | dist/services/purchaseOrderService.js:78-108 | one upsert uses at most one fresh id, deletes no row, and every row it writes belongs to this order and holds the submitted fields |
| DistPurchaseOrderService.UpsertAll | dist/services/purchaseOrderService.js:78-145 | the upserts of a list use at most one fresh id per element, delete no row, and every row they write belongs to this order |
| DistPurchaseOrderService.Reconcile | dist/services/purchaseOrderService.js:78-165 | a collection's reconciliation uses at most one fresh id per element, deletes no row of another order, and keeps an old child only when its id was submitted |
| DistPurchaseOrderService.UpsertEffect | dist/services/purchaseOrderService.js:79-107 | an element naming a child of this order rewrites that row and uses no id; any other element, including one without an id, creates one row under the fresh id; other orders' rows are untouched |
| DistPurchaseOrderService.UpsertAllEffect | dist/services/purchaseOrderService.js:78-108 | after all upserts the order's children are its old children plus one fresh id per element that names no old child; other orders' rows are untouched |
| DistPurchaseOrderService.ReconcileConverges | dist/services/purchaseOrderService.js:78-165 | after reconciliation the order's children are exactly the submitted old children plus the rows this call created (none of them deleted, since the diff uses the snapshot taken before the upserts); every unsubmitted old child is gone; other orders are untouched; with distinct submitted ids the count equals the array's length |
| DistPurchaseOrderService.UpsertAllContents | dist/services/purchaseOrderService.js:78-145 | given distinct ids, every submitted element ends up stored under its key and attached to the order: no later upsert overwrites an earlier one |
| DistPurchaseOrderService.ReconcileStoresEach | dist/services/purchaseOrderService.js:146-155 | the orphan deletion spares every submitted element's row |
| DistPurchaseOrderService.AfterUpdateOrder | dist/services/purchaseOrderService.js:68-165 | a missing order fails the whole transaction and nothing changes; otherwise the header takes the submitted fields, and a collection that is not an array is left as it was |
| DistPurchaseOrderService.UpdateOrderHeader | dist/services/purchaseOrderService.js:138-142 | the header takes every submitted field and keeps every field not submitted |
| DistPurchaseOrderService.UpdateOrderItems | dist/services/purchaseOrderService.js:78-155 | with distinct submitted ids, the order ends with exactly one item per element, each element's fields stored under its key; the unsubmitted old items are gone and other orders' items are untouched |
| DistPurchaseOrderService.UpdateOrderWellFormed | dist/services/purchaseOrderService.js:68-165 | updateOrder keeps every id below the counter, whatever ids are submitted |
| DistPurchaseOrderService.UpsertEach | dist/services/purchaseOrderService.js:78-108 | the element-by-element upsert loop computes the same table and counter as the whole-list upsert |
| DistPurchaseOrderService.UpdateOrder | dist/services/purchaseOrderService.js:68-178 | the method's new tables and result are those of AfterUpdateOrder, and a failure changes nothing |
| SrcPurchaseOrderService.Fields | src/services/purchaseOrderService.ts:92-102 | the created rows take the submitted elements' fields in array order, and their ids play no part |
| SrcPurchaseOrderService.AfterUpdateOrder | src/services/purchaseOrderService.ts:71-124 | the header update fails exactly when there is no order, leaving headers and counter as they were; otherwise the header takes the patch; a collection that is not an array is left as it was |
| SrcPurchaseOrderService.Replaced | src/services/purchaseOrderService.ts:76-118 | after a replacement, element j is stored under n + j with its fields for this order, and every child of the order is one of those fresh ids: no old child survives |
| SrcPurchaseOrderService.ReplacedEffect | src/services/purchaseOrderService.ts:76-104 | after a replacement the order's children are exactly one fresh row per submitted element, holding its fields in order; no old child survives; other orders' rows are untouched |
| SrcPurchaseOrderService.UpdateOrderWellFormed | src/services/purchaseOrderService.ts:71-124 | updateOrder keeps every id below the counter |
| SrcPurchaseOrderService.UpdateOrderReplacesItems | src/services/purchaseOrderService.ts:76-104 | for an existing order the submitted item list replaces its items, so the item count equals the array's length |
| SrcPurchaseOrderService.UpdateMissingOrderDeletesChildren | src/services/purchaseOrderService.ts:76-87 | without an order the update fails, yet the children of every array-valued collection are already deleted; headers and counter are unchanged |
| SrcPurchaseOrderService.UpdateOrder | src/services/purchaseOrderService.ts:71-129 | the method's new tables and result are those of AfterUpdateOrder |
| SrcPurchaseOrderService.AfterUpdateDocument | src/services/purchaseOrderService.ts:165-170 | a missing document fails with record not found; a body naming an order that does not exist fails the foreign key; otherwise that document holds the new fields |
| SrcPurchaseOrderService.UpdateDocumentOnlyThatOne | src/services/purchaseOrderService.ts:165-170 | updateDocument changes that one document and no other row or table; the document stays with its order unless the body names another, and then it moves to that order's documents and leaves its old order's |
| SrcPurchaseOrderService.UpdateDocument | src/services/purchaseOrderService.ts:165-175 | the method's new tables and result are those of AfterUpdateDocument, and a failure changes nothing |
| GoogleUsers.FindUnique | src/services/googleService.ts:127-137 | `findUnique` by googleId or by email finds a user with that value in that column, or reports that none has it |
| GoogleUsers.Lookup | src/services/googleService.ts:127-137 | the googleId match when there is one; the email match only when there is none |
| GoogleUsers.NewUser | src/services/googleService.ts:141-150 | a new user carries the supplied googleId, email and name, and typeUser is the supplied one or BUYER |
| GoogleUsers.UpdatedUser | src/services/googleService.ts:153-163 | the match keeps its id and takes the supplied fields; typeUser, avatar and discounts keep the stored value when none is supplied |
| GoogleUsers.AfterFindOrCreate | src/services/googleService.ts:118-170 | without a match it always succeeds; with one it fails, with the "Error finding or creating Google user: " prefix, exactly when the supplied email belongs to another user |
| GoogleUsers.FindOrCreateEffect | src/services/googleService.ts:139-164 | googleId and email stay unique; a user is created exactly when neither lookup matches, so the table grows by at most one; an update keeps the record's id and position and leaves every other user unchanged |
| GoogleUsers.FindOrCreateTypeUser | src/services/googleService.ts:140-163 | the stored typeUser is the supplied one, or else BUYER for a new user and the stored value for an update |
| GoogleUsers.AfterCreate | src/services/googleService.ts:8-31 | fails, with the "Error creating Google user: " prefix, exactly when the googleId or the email is taken; otherwise appends one user with the next id and typeUser defaulting to BUYER |
| GoogleUsers.CreateKeepsUnique | src/services/googleService.ts:17-26 | a successful create keeps googleId and email unique |
| GoogleUsers.CreateGoogleUser | src/services/googleService.ts:8-31 | the method's new table and result are those of AfterCreate, and a failure changes nothing |
| GoogleUsers.FindOrCreateGoogleUser | src/services/googleService.ts:118-170 | the method's new table and result are those of AfterFindOrCreate, and a failure changes nothing |
| Auth.RestrictTo | src/middleware/auth.ts:76-83 | the request passes exactly when a user is present and their role is listed; otherwise `next` gets a 403 operational AppError with status 'fail' and the permission message |
| Auth.Step | src/middleware/auth.ts:89-112 | no user id: pass, map untouched; first request or past resetTime: pass and reset to count 1 and resetTime now + windowMs; at the limit inside the window: refused with 429 and the body `{ status: 'error', message }` carrying the rate-limit message, map untouched; below it: pass and count + 1; no other user's entry is read or written |
| Auth.StepKeepsCountsBounded | src/middleware/auth.ts:95-111 | every window's count stays between 1 and max(limit, 1) |
| Auth.WindowBound | src/middleware/auth.ts:95-111 | inside an open window, whatever other users do, a user gets through at most max(limit, 1) minus the window's current count |
| Auth.AtMostLimitPerWindow | src/middleware/auth.ts:95-111 | a window opened by a user's request lets through at most max(limit, 1) of that user's requests up to its resetTime, the opening one included |
| Auth.UserRateLimiter.constructor | src/middleware/auth.ts:86-87 | a new limiter starts with an empty map |
| Auth.UserRateLimiter.Handle | src/middleware/auth.ts:89-112 | the decision and the new map are those of Step, and the counts stay bounded |
| ErrorHandler.StatusFor | src/middleware/errorHandler.ts:14 | 'fail' exactly when the decimal text of the status code starts with '4', else 'error' |
| ErrorHandler.StatusOfHttpCode | src/middleware/errorHandler.ts:14 | for a three-digit code, 'fail' exactly for 400 to 499 |
| ErrorHandler.AppError | src/middleware/errorHandler.ts:11-18 | every AppError is operational and carries its message, its code, the status of that code and its details |
| ErrorHandler.HandleCastError | src/middleware/errorHandler.ts:22-23 | a cast error becomes an operational 400 with status 'fail', the message `Invalid <path>: <value>` and no details |
| ErrorHandler.HandleDuplicateFields | src/middleware/errorHandler.ts:25-29 | a duplicate-key error becomes an operational 400 with status 'fail' whose message names the first duplicated key and its value |
| ErrorHandler.HandleValidationError | src/middleware/errorHandler.ts:31-34 | a validation error becomes an operational 400 with status 'fail' whose message lists the validation messages joined by '. ' |
| ErrorHandler.HandleJwtError | src/middleware/errorHandler.ts:36-37 | an invalid token becomes an operational 401 with status 'fail' asking to log in again |
| ErrorHandler.HandleJwtExpiredError | src/middleware/errorHandler.ts:39-40 | an expired token becomes an operational 401 with status 'fail' asking to log in again |
| ErrorHandler.ProdChain | src/middleware/errorHandler.ts:100-109 | an error no test matches passes unchanged; a matched one becomes an operational 400 or 401 with status 'fail' |
| ErrorHandler.ProdChainClassifies | src/middleware/errorHandler.ts:100-111 | an unmatched error passes unchanged; CastError, code 11000 and ValidationError become 400 AppErrors and the two JWT errors become 401 AppErrors; the first test that matches decides, because the AppError it produces carries no name that a later test matches, and no code |
| ErrorHandler.SendErrorProd | src/middleware/errorHandler.ts:60-86 | an operational error is answered with its own code, status and message, with `errors` exactly when details is a non-null object; any other error gets 500 'error' and the generic message |
| ErrorHandler.Defaulted | src/middleware/errorHandler.ts:94-95 | a missing or zero statusCode becomes 500 and a missing or empty status becomes 'error'; nothing else changes |
| ErrorHandler.Respond | src/middleware/errorHandler.ts:88-113 | the development shape is sent exactly in development; the answer never carries status code 0 or an empty status, because both are defaulted first |
| ErrorHandler.ProdChainKeepsDefaults | src/middleware/errorHandler.ts:100-111 | after the defaults, every error leaving the chain has a status code and a status |
| ErrorHandler.ProdResponse | src/middleware/errorHandler.ts:97-112 | in production a matched error is answered as its AppError, an unmatched operational one with its defaulted code and status, and any other with 500 and the generic message |
| ErrorHandler.DevResponse | src/middleware/errorHandler.ts:51-56 | in development the answer carries the defaulted code and status and the error's own message |
| ErrorHandler.HandleError | src/middleware/errorHandler.ts:88-113 | the error object is left with the defaults written into it, and the response is that of Respond for the incoming error |
| SanitizeInput.Sanitize | src/middleware/sanitizeInput.ts:5-34 | every value keeps its kind: strings stay strings, arrays arrays and objects objects; numbers, booleans, null and undefined come back unchanged |
| SanitizeInput.Logs | src/middleware/sanitizeInput.ts:17-21 | a string logs a line exactly when the cleaner changes it; numbers, booleans, null and undefined log nothing |
| SanitizeInput.SanitizeKeepsShape | src/middleware/sanitizeInput.ts:5-34 | strings become clean(s); arrays keep their length; objects keep their keys in order; numbers, booleans, null and undefined come back unchanged |
| SanitizeInput.LogsIffChanged | src/middleware/sanitizeInput.ts:17-21 | the traversal logs nothing exactly when it returns the value unchanged |
| SanitizeInput.ValueIgnoresPath | src/middleware/sanitizeInput.ts:5-34 | the path only labels log lines: the sanitised value does not depend on it |
| SanitizeInput.SanitizeIdempotent | src/middleware/sanitizeInput.ts:10-33 | with an idempotent sanitiser, sanitising twice gives the same value as once |
| SanitizeInput.SecondPassLogsNothing | src/middleware/sanitizeInput.ts:17-21 | with an idempotent sanitiser, a second pass logs nothing |
| SanitizeInput.IdempotentWhenCleanerIs | src/middleware/sanitizeInput.ts:5-34 | for any cleaner: when it is idempotent, a second pass returns the first pass's value and logs nothing |
| SanitizeInput.SanitizeObject | src/middleware/sanitizeInput.ts:26-31 | the for-in loop builds the same object and the same log lines as the recursive definition |
| SanitizeInput.UserHeaders | src/middleware/sanitizeInput.ts:48-52 | the selected headers are exactly those whose names start with 'x-' or 'custom-' |
| SanitizeInput.Assign | src/middleware/sanitizeInput.ts:54 | `Object.assign` onto the headers keeps their number and order |
| SanitizeInput.UserHeadersDistinct | src/middleware/sanitizeInput.ts:48-52 | the selection keeps header names distinct |
| SanitizeInput.SanitizeHeaders | src/middleware/sanitizeInput.ts:48-54 | no header is added, removed, reordered or renamed |
| SanitizeInput.SanitizeHeadersEffect | src/middleware/sanitizeInput.ts:48-54 | only user headers are sanitised; every other header keeps its value, and the header names and their order are unchanged |
| SanitizeInput.Prefixed | src/middleware/sanitizeInput.ts:37-40 | every log line is prefixed with the request's base line |
| SanitizeInput.SanitizeRequest | src/middleware/sanitizeInput.ts:36-54 | body, query and params become their sanitised values under the paths 'body', 'query' and 'params'; the headers become SanitizeHeaders of the old ones; the logged lines are those of the four traversals, in that order, with the base prefix |
| SanitizeInput.SanitizeResponse | src/middleware/sanitizeInput.ts:56-60 | with an idempotent cleaner the sent payload is already clean: sanitising it again under 'response' changes nothing and logs nothing |
| GoogleValidation.IsUuidV4 | src/middleware/googleValidation.ts:36 | a matching parameter has 36 characters, each a hex digit or a dash |
| GoogleValidation.EmailRegex | src/middleware/googleValidation.ts:61 | a matching parameter has at least 5 characters, among them an '@' and a '.' |
| GoogleValidation.UuidIffGroups | src/middleware/googleValidation.ts:36 | the positional UUID v4 pattern holds exactly when the text splits at '-' into five hex groups of 8, 4, 4, 4 and 12, the third starting with '4' and the fourth with 8, 9, a or b |
| GoogleValidation.UuidLengthAndDashes | src/middleware/googleValidation.ts:36 | every accepted UUID has length 36 and exactly four '-' |
| GoogleValidation.UuidCaseInsensitive | src/middleware/googleValidation.ts:36 | because of the `i` flag, a text is accepted exactly when its lower-cased form is |
| GoogleValidation.EmailRegexFollowsRules | src/middleware/googleValidation.ts:61 | a text matching `^[^\s@]+@[^\s@]+\.[^\s@]+$` has no whitespace, exactly one '@', a non-empty local part, and a '.' in the domain that is neither first nor last |
| GoogleValidation.EmailRulesMatchRegex | src/middleware/googleValidation.ts:61 | any text meeting those rules matches the regular expression |
| GoogleValidation.EmailRegexIffRules | src/middleware/googleValidation.ts:61-63 | the regular expression and the rules accept the same texts |
| GoogleValidation.ValidateUuid | src/middleware/googleValidation.ts:24-47 | `next()` is reached exactly for a UUID v4; a missing or empty parameter gets "Parámetro X es requerido" before the format test; any other gets "X debe ser un UUID válido" |
| GoogleValidation.ValidateEmailParam | src/middleware/googleValidation.ts:50-72 | `next()` is reached exactly for a well-formed e-mail; a missing or empty parameter gets the required message; any other gets "X debe ser un email válido" |
| GoogleController.Get | src/controllers/googleController.ts:10 | reading a body member gives the last member of that name (as JSON.parse keeps it), and undefined when there is none |
| GoogleController.ToStr | src/controllers/googleController.ts:22 | `String(v)` of a string is the string itself, and only a string or an array can convert to empty text |
| GoogleController.CreateChecks | src/controllers/googleController.ts:10-52 | the service is called exactly when all four checks pass; the first failing check decides the message: required fields, then e-mail format, then a supplied typeUser outside BUYER/ADMIN, then supplied discounts that are not an array |
| GoogleController.FindOrCreateChecks | src/controllers/googleController.ts:284-317 | the handler proceeds exactly when the required fields, the email format, a supplied typeUser and supplied discounts all pass; missing required fields answer that 400 |
| GoogleController.FindOrCreateSameChecks | src/controllers/googleController.ts:284-317 | findOrCreate applies the same checks as create, in the same order, with the same messages |
| GoogleController.UpdateChecks | src/controllers/googleController.ts:75-103 | update passes exactly with an id, a well-formed e-mail when one is supplied, and array discounts when supplied; a missing id gets "ID es requerido" |
| GoogleController.UpdateIgnoresTypeUser | src/controllers/googleController.ts:76-103 | unlike create, update lets any typeUser through |
| Reports.EndBefore | src/services/reposrtServices.ts:10 | `new Date(year, m, 0, 23, 59, 59)` is the last day of month m - 1 |
| Reports.GetPeriodRange | src/services/reposrtServices.ts:4-29 | both ends lie in the requested year (two-digit years read as 19xx), the window starts on a 1st, its months include the current month, and it does not end before it starts |
| Reports.PeriodRangeFacts | src/services/reposrtServices.ts:4-29 | each window runs from midnight on the first day of its first month to 23:59:59.000 on the last day of its last month, in the requested year; it covers 1, 3, 6 or 12 whole months (month, quarter 3·⌊m/3⌋, semester 0 or 6, year and any other value), contains the current month, and starts before it ends |
| Reports.LowStockItems | src/services/reposrtServices.ts:47 | the filter keeps exactly the LOW_STOCK items |
| Reports.CountOrders | src/services/reposrtServices.ts:50-63 | an order count never exceeds the number of orders |
| Reports.SalesSum | src/services/reposrtServices.ts:83-89 | the `_sum` is absent (null) exactly when no DELIVERED order falls in the window |
| Reports.CountDiscounts | src/services/reposrtServices.ts:71-80 | the active-discount count never exceeds the number of discounts |
| Reports.CountActive | src/services/reposrtServices.ts:66-68 | the ACTIVE-warehouse count never exceeds the number of warehouses |
| Reports.GetOverview | src/services/reposrtServices.ts:35-117 | the window holds the current month and does not end before it starts; pending plus finished orders, low-stock rows, warehouses in use and active discounts never exceed the rows counted |
| Reports.InventoryValue | src/services/reposrtServices.ts:46 | non-negative when no quantity or price is negative, and 0 when every row has no quantity or no price |
| Reports.ExpenseSum | src/services/reposrtServices.ts:92-98 | the `_sum` is null exactly when no active expense is dated inside the window |
| Reports.OverviewFigures | src/services/reposrtServices.ts:35-117 | lowStock is 0 exactly when no item is LOW_STOCK; with no delivered order in the window the sales are 0 (a missing sum counting as 0) and the net profit is minus the expenses; pending plus finished orders never exceed the orders there are; total units are non-negative when every row is |
| Reports.PendingPlusFinished | src/services/reposrtServices.ts:50-63 | pending and delivered orders together never exceed the orders there are |
| Reports.LastSecondExcluded | src/services/reposrtServices.ts:8-29 | the window ends at 23:59:59.000, so a row dated later within the last second of its last day falls outside it |
| Reports.CategoryOf | src/services/reposrtServices.ts:160 | a line's category is never empty: it is the product's own category or 'Sin categoría', and a missing product is uncategorised |
| Reports.Totals | src/services/reposrtServices.ts:158-163 | the dictionary never has the empty category as a key |
| Reports.TotalsPerCategory | src/services/reposrtServices.ts:158-163 | the result has a key exactly for each category that occurs (a missing category counting as 'Sin categoría'), and each key's value is the sum of totalPrice over that category's lines |
| Reports.Selected | src/services/reposrtServices.ts:150-155 | the query returns exactly the lines of DELIVERED orders dated from 1 January of the year up to now |
| Reports.GetOrderAmountsByCategory | src/services/reposrtServices.ts:143-165 | the result is the per-category totals of the selected lines, for `year` or, when it is 0 or missing, the current year |
| Reports.AddUpByCategory | src/services/reposrtServices.ts:157-163 | the loop over the selected lines builds exactly the per-category totals |

## Left out

- Persistence: Prisma is replaced by in-memory tables. Connection failures, constraint failures other than the Google-user unique keys, and the text of Prisma's error messages are not modelled. The unique-constraint text is the constant `UniqueViolation`.
- Transactions: `transferStock` calls `removeStock` and `addStock` on the global client. The model shows their sequential effect; a failing `addStock` after a successful `removeStock` cannot happen in the model, so rollback is not modelled.
- Concurrency: the read-then-write race in `removeStock` and interleaved requests are not modelled. Every operation runs alone.
- SrcPurchaseOrderService.UpdateDocumentOnlyThatOne: a body carrying `id` would rewrite the document's key; that case is not modelled, and the body is the document's fields plus an optional `orderId`. The schema is not part of this model; `orderId` is taken to be a foreign key to the order table, so naming a missing order fails.
- ErrorHandler.HandleDuplicateFields and ErrorHandler.HandleValidationError: an error with code 11000 but no `keyValue`, or named ValidationError but with no `errors`, makes `Object.keys` or `Object.values` throw a TypeError inside the handler. The model cannot express a missing field: it reads one as empty and answers `Duplicate field "undefined": "undefined"` or `Invalid input data: `.
- The compiled `updateDocument` is not modelled. It fires an unawaited `deleteMany` whose effect depends on timing.
- Floating-point money: prices, costs and totals are integers (cents), so float rounding is not modelled.
- Ids: uuids are natural numbers from a counter. Prisma's partial `data` objects become whole field records, and the header is a field map.
- PurchaseOrders.AfterCreateOrder: a line with no `product`, or whose product has no `WarehouseItem` field, makes createOrder throw a TypeError while it maps the lines. A NewLine always carries a product id and a list of warehouse prices, so the model cannot express that line, and its failure cases are only a missing `items` and an empty list.
- DistPurchaseOrderService.ReconcileConverges: the count equality assumes distinct submitted ids. The storage lemmas (UpsertAllContents, ReconcileStoresEach, UpdateOrderItems) also assume that every submitted id was issued before the call, which holds for uuids that cannot be guessed.
- SanitizeInput.Sanitize: the object branch rebuilds every non-array object from its `for...in` keys. A Date passed straight to `sanitize` would therefore become `{}`. In the app, the date-serialising `res.json` wrapper (src/index.ts:119-132) is installed after sanitizeInput (src/index.ts:34), so it runs first and turns every Date into an ISO string before `sanitize` sees the payload. An own `__proto__` member is dropped, because assigning it sets the prototype of the new object. JSON values here have neither dates nor a `__proto__` key, so neither case is modelled.
- SanitizeInput.SanitizeIdempotent: this assumes the sanitiser is idempotent. `sanitizeHtml` is not modelled, and `clean` stands for it.
- SrcWarehouseService.UpdatePriceAndCost: `Number(itemId)` is not modelled. The method takes the product id as an integer.
- The `auth` middleware (JWT verification, user lookup), `validateSchema` (zod), the logger and `console` output, the `stack` and `error` fields of the development response, and `Error.captureStackTrace` are left out. They rely on libraries or I/O.
- Clock: `Date.now()` and `new Date()` become parameters. `getOverview` uses one reading for both its year and getPeriodRange's month. Time zones and date parsing are not modelled.
- `getSummary` is left out. It is two queries with no logic of its own.
- Controllers: only the validations before the service call are modelled. The service call, the 200/201/500 responses, the body destructuring beyond the checked fields, and the `sendEmailNotification` call are left out.
- Node can give a header as an array of strings. Header values are JSON values here.
- JavaScript lists integer-like object keys first in `for...in`. Objects here keep their insertion order.
- The `getOrderAmountsByCategory` result is a map. Category names that clash with `Object.prototype` members (such as "constructor") are not modelled as the JavaScript object would treat them.
- The other CRUD services, their controllers and routes, uploads, mail, WhatsApp and bootstrapping are left out. None of them holds logic beyond single queries.
