/**
 * The compiled version of the warehouse service: addStock takes and stores price and cost,
 * transferStock carries the source row's location, price and cost to the target, and
 * updatePriceAndCost rewrites one item by id. removeStock and deleteWarehouse are the shared
 * ones of module Inventory.
 */
module DistWarehouseService {
  import opened Wrappers
  import opened StockStatus
  import opened Inventory

  const TransferMessage: string := "Stock transferred successfully"

  /**
   * addStock as a state transition. For an existing row the quantity grows by the amount,
   * price and cost are overwritten and the status is computed from the ADDED amount (not the
   * new total). A missing pair gets a new row with the amount, the given location, price and
   * cost, minimumStock 0 and status IN_STOCK whatever the amount. Either way exactly one IN
   * movement of the amount, for that row, is appended.
   */
  function AfterAddStock(l: Ledger, w: string, p: int, q: int, location: string, price: Option<int>, cost: Option<int>)
    : (r: (Ledger, WarehouseItem))
    ensures r.0.movements == l.movements + [StockMovement(r.1.id, In, q, SystemUser)]
    ensures Matches(r.1, w, p) && r.1.price == price && r.1.cost == cost
    ensures r.0.warehouses == l.warehouses
    ensures FindFirst(l.items, w, p).Some? ==>
      r.1.quantity == OnHand(l.items, w, p) + q && r.1.status == CalculateStockStatus(q, r.1.minimumStock)
    ensures FindFirst(l.items, w, p).None? ==>
      r.1 == WarehouseItem(l.nextItemId, w, p, q, 0, location, price, cost, InStock)
    ensures FindFirst(l.items, w, p).Some? ==>
      var i := FindFirst(l.items, w, p).value;
      && r.0.items == l.items[i := r.1]
      && r.1 == l.items[i].(price := price, cost := cost, quantity := l.items[i].quantity + q,
                            status := CalculateStockStatus(q, l.items[i].minimumStock))
      && r.0.nextItemId == l.nextItemId
    ensures FindFirst(l.items, w, p).None? ==> r.0.items == l.items + [r.1] && r.0.nextItemId == l.nextItemId + 1
  {
    match FindFirst(l.items, w, p)
    case Some(i) =>
      var item := l.items[i];
      var updated := item.(
        price := price,
        cost := cost,
        quantity := item.quantity + q,
        status := CalculateStockStatus(q, item.minimumStock));
      (l.(items := l.items[i := updated],
          movements := l.movements + [StockMovement(item.id, In, q, SystemUser)]),
       updated)
    case None =>
      var created := WarehouseItem(l.nextItemId, w, p, q, 0, location, price, cost, InStock);
      (l.(items := l.items + [created],
          movements := l.movements + [StockMovement(created.id, In, q, SystemUser)],
          nextItemId := l.nextItemId + 1),
       created)
  }

  /** addStock keeps the ledger well formed. */
  lemma AddStockKeepsWellFormed(l: Ledger, w: string, p: int, q: int, location: string, price: Option<int>, cost: Option<int>)
    requires WellFormed(l)
    ensures WellFormed(AfterAddStock(l, w, p, q, location, price, cost).0)
  {
    AddStockEffect(l, w, p, q, location, price, cost);
  }

  /**
   * What addStock does to the stock: the pair's row in the stored table is the returned row,
   * holding the given price and cost; the pair's quantity grows by exactly the amount (from 0
   * when the pair had no row), every other pair keeps its quantity, the total and the
   * warehouse's occupancy grow by the amount, and well-formedness is kept; a non-negative
   * amount keeps every stored quantity non-negative.
   */
  lemma AddStockEffect(l: Ledger, w: string, p: int, q: int, location: string, price: Option<int>, cost: Option<int>)
    ensures var (l', item) := AfterAddStock(l, w, p, q, location, price, cost);
      && FindFirst(l'.items, w, p).Some? && l'.items[FindFirst(l'.items, w, p).value] == item
      && item.price == price && item.cost == cost
      && OnHand(l'.items, w, p) == OnHand(l.items, w, p) + q
      && (forall w2, p2 :: (w2, p2) != (w, p) ==> OnHand(l'.items, w2, p2) == OnHand(l.items, w2, p2))
      && TotalUnits(l'.items) == TotalUnits(l.items) + q
      && Occupancy(l'.items, w) == Occupancy(l.items, w) + q
      && (WellFormed(l) ==> WellFormed(l'))
      && (NoNegativeStock(l.items) && q >= 0 ==> NoNegativeStock(l'.items))
  {
    match FindFirst(l.items, w, p)
    case Some(i) => AddStockToRow(l, w, p, q, location, price, cost, i);
    case None => AddStockNewRow(l, w, p, q, location, price, cost);
  }

  /** AddStockEffect when the pair already has a row, at index i. */
  lemma AddStockToRow(l: Ledger, w: string, p: int, q: int, location: string, price: Option<int>, cost: Option<int>, i: nat)
    requires FindFirst(l.items, w, p) == Some(i)
    ensures var (l', item) := AfterAddStock(l, w, p, q, location, price, cost);
      && FindFirst(l'.items, w, p).Some? && l'.items[FindFirst(l'.items, w, p).value] == item
      && item.price == price && item.cost == cost
      && OnHand(l'.items, w, p) == OnHand(l.items, w, p) + q
      && (forall w2, p2 :: (w2, p2) != (w, p) ==> OnHand(l'.items, w2, p2) == OnHand(l.items, w2, p2))
      && TotalUnits(l'.items) == TotalUnits(l.items) + q
      && Occupancy(l'.items, w) == Occupancy(l.items, w) + q
      && (WellFormed(l) ==> WellFormed(l'))
      && (NoNegativeStock(l.items) && q >= 0 ==> NoNegativeStock(l'.items))
  {
    var (l', item) := AfterAddStock(l, w, p, q, location, price, cost);
    assert l'.items == l.items[i := item];
    forall w2, p2 ensures FindFirst(l'.items, w2, p2) == FindFirst(l.items, w2, p2) {
      FindFirstAfterUpdate(l.items, i, item, w2, p2);
    }
    TotalUnitsUpdate(l.items, i, item);
    OccupancyUpdate(l.items, i, item, w);
  }

  /** AddStockEffect when the pair has no row yet. */
  lemma AddStockNewRow(l: Ledger, w: string, p: int, q: int, location: string, price: Option<int>, cost: Option<int>)
    requires FindFirst(l.items, w, p).None?
    ensures var (l', item) := AfterAddStock(l, w, p, q, location, price, cost);
      && FindFirst(l'.items, w, p).Some? && l'.items[FindFirst(l'.items, w, p).value] == item
      && item.price == price && item.cost == cost
      && OnHand(l'.items, w, p) == OnHand(l.items, w, p) + q
      && (forall w2, p2 :: (w2, p2) != (w, p) ==> OnHand(l'.items, w2, p2) == OnHand(l.items, w2, p2))
      && TotalUnits(l'.items) == TotalUnits(l.items) + q
      && Occupancy(l'.items, w) == Occupancy(l.items, w) + q
      && (WellFormed(l) ==> WellFormed(l'))
      && (NoNegativeStock(l.items) && q >= 0 ==> NoNegativeStock(l'.items))
  {
    var (l', item) := AfterAddStock(l, w, p, q, location, price, cost);
    assert l'.items == l.items + [item];
    AppendNewPair(l.items, item, w, p);
    if WellFormed(l) {
      assert IdsBelow(l'.items, l'.nextItemId);
      assert DistinctIds(l'.items);
    }
    if NoNegativeStock(l.items) && q >= 0 {
      assert NoNegativeStock(l'.items);
    }
  }

  /**
   * The stored status of an existing row is computed from the added amount, not from the new
   * total, so it can disagree with the row's own quantity: adding 3 to a row holding 10 with
   * minimum 5 stores LOW_STOCK for 13 units. A new row of 0 units is stored IN_STOCK.
   */
  lemma AddStockStatusIgnoresTotal()
    ensures var l := Ledger(["W1"], [WarehouseItem(0, "W1", 42, 10, 5, "A1", None, None, InStock)], [], 1);
      var stored := AfterAddStock(l, "W1", 42, 3, "A1", None, None).0.items;
      |stored| == 1 && stored[0].quantity == 13 && stored[0].status == LowStock
      && CalculateStockStatus(stored[0].quantity, stored[0].minimumStock) == InStock
    ensures var stored := AfterAddStock(Ledger(["W1"], [], [], 0), "W1", 42, 0, "A1", None, None).0.items;
      |stored| == 1 && stored[0].quantity == 0 && stored[0].status == InStock
      && CalculateStockStatus(stored[0].quantity, stored[0].minimumStock) == OutOfStock
  {
    var l := Ledger(["W1"], [WarehouseItem(0, "W1", 42, 10, 5, "A1", None, None, InStock)], [], 1);
    assert FindFirst(l.items, "W1", 42) == Some(0);
  }

  /**
   * transferStock as a state transition: a source with no row for the product fails with
   * SourceItemNotFound; otherwise removeStock at the source (which fails with
   * InsufficientStock, before any write, when the source holds too little) and then addStock
   * at the target with the source row's location, price and cost.
   */
  function AfterTransfer(l: Ledger, source: string, target: string, p: int, q: int): (r: Result<Ledger, LedgerError>)
    ensures r == Err(SourceItemNotFound) <==> FindFirst(l.items, source, p).None?
    ensures r == Err(InsufficientStock) <==> FindFirst(l.items, source, p).Some? && OnHand(l.items, source, p) < q
    ensures r.Err? ==> r.error == SourceItemNotFound || r.error == InsufficientStock
  {
    match FindFirst(l.items, source, p)
    case None => Err(SourceItemNotFound)
    case Some(i) =>
      var src := l.items[i];
      match AfterRemoveStock(l, source, p, q)
      case Err(e) => Err(e)
      case Ok((l1, _)) => Ok(AfterAddStock(l1, target, p, q, src.location, src.price, src.cost).0)
  }

  /**
   * A successful transfer between two different warehouses lowers the source by the amount and
   * raises the target by it, so their sum and the ledger's total are conserved; every other
   * pair keeps its quantity; exactly two movements are appended, one OUT then one IN, both of
   * the amount; the target row holds the source's price and cost, and the source's location
   * when the target had no row (an existing target row keeps its own location); and
   * well-formedness and non-negative stock are kept.
   */
  lemma TransferConservation(l: Ledger, source: string, target: string, p: int, q: int)
    requires source != target
    requires AfterTransfer(l, source, target, p, q).Ok?
    ensures var l' := AfterTransfer(l, source, target, p, q).value;
      && OnHand(l'.items, source, p) == OnHand(l.items, source, p) - q
      && OnHand(l'.items, target, p) == OnHand(l.items, target, p) + q
      && OnHand(l'.items, source, p) + OnHand(l'.items, target, p) == OnHand(l.items, source, p) + OnHand(l.items, target, p)
      && (forall w2, p2 :: (w2, p2) != (source, p) && (w2, p2) != (target, p) ==> OnHand(l'.items, w2, p2) == OnHand(l.items, w2, p2))
      && TotalUnits(l'.items) == TotalUnits(l.items)
      && |l'.movements| == |l.movements| + 2
      && l'.movements[..|l.movements|] == l.movements
      && l'.movements[|l.movements|].kind == Out && l'.movements[|l.movements|].quantity == q
      && l'.movements[|l.movements| + 1].kind == In && l'.movements[|l.movements| + 1].quantity == q
      && MovementIds(l, l', source, target, p)
      && (WellFormed(l) ==> WellFormed(l'))
      && (NoNegativeStock(l.items) && q >= 0 ==> NoNegativeStock(l'.items))
      && TargetRowFrom(l, l', source, target, p)
  {
    TransferQuantities(l, source, target, p, q);
    TransferMovements(l, source, target, p, q);
    TransferMovementIds(l, source, target, p, q);
    TransferTargetRow(l, source, target, p, q);
  }

  /** The stock half of TransferConservation. */
  lemma TransferQuantities(l: Ledger, source: string, target: string, p: int, q: int)
    requires source != target
    requires AfterTransfer(l, source, target, p, q).Ok?
    ensures var l' := AfterTransfer(l, source, target, p, q).value;
      && OnHand(l'.items, source, p) == OnHand(l.items, source, p) - q
      && OnHand(l'.items, target, p) == OnHand(l.items, target, p) + q
      && (forall w2, p2 :: (w2, p2) != (source, p) && (w2, p2) != (target, p) ==> OnHand(l'.items, w2, p2) == OnHand(l.items, w2, p2))
      && TotalUnits(l'.items) == TotalUnits(l.items)
      && (WellFormed(l) ==> WellFormed(l'))
      && (NoNegativeStock(l.items) && q >= 0 ==> NoNegativeStock(l'.items))
  {
    var i := FindFirst(l.items, source, p).value;
    var src := l.items[i];
    var (l1, removed) := AfterRemoveStock(l, source, p, q).value;
    RemoveStockEffect(l, source, p, q);
    AddStockEffect(l1, target, p, q, src.location, src.price, src.cost);
  }

  /** The movement half of TransferConservation: one OUT then one IN movement of the amount. */
  lemma TransferMovements(l: Ledger, source: string, target: string, p: int, q: int)
    requires AfterTransfer(l, source, target, p, q).Ok?
    ensures var l' := AfterTransfer(l, source, target, p, q).value;
      && |l'.movements| == |l.movements| + 2
      && l'.movements[..|l.movements|] == l.movements
      && l'.movements[|l.movements|].kind == Out && l'.movements[|l.movements|].quantity == q
      && l'.movements[|l.movements| + 1].kind == In && l'.movements[|l.movements| + 1].quantity == q
  {
    var (l1, removed) := AfterRemoveStock(l, source, p, q).value;
  }

  /**
   * The two movements a transfer appends name its rows: the Out movement the source row, the In
   * movement the target pair's stored row.
   */
  predicate MovementIds(l: Ledger, l': Ledger, source: string, target: string, p: int)
    requires FindFirst(l.items, source, p).Some?
  {
    && |l'.movements| == |l.movements| + 2
    && l'.movements[|l.movements|].itemId == l.items[FindFirst(l.items, source, p).value].id
    && FindFirst(l'.items, target, p).Some?
    && l'.movements[|l.movements| + 1].itemId == l'.items[FindFirst(l'.items, target, p).value].id
  }

  /** After a successful transfer, its two movements are as MovementIds describes. */
  lemma TransferMovementIds(l: Ledger, source: string, target: string, p: int, q: int)
    requires AfterTransfer(l, source, target, p, q).Ok?
    ensures MovementIds(l, AfterTransfer(l, source, target, p, q).value, source, target, p)
  {
    var i := FindFirst(l.items, source, p).value;
    var src := l.items[i];
    var (l1, removed) := AfterRemoveStock(l, source, p, q).value;
    AddStockEffect(l1, target, p, q, src.location, src.price, src.cost);
  }

  /** After a successful transfer between two warehouses, the target row is as TargetRowFrom describes. */
  lemma TransferTargetRow(l: Ledger, source: string, target: string, p: int, q: int)
    requires source != target
    requires AfterTransfer(l, source, target, p, q).Ok?
    ensures TargetRowFrom(l, AfterTransfer(l, source, target, p, q).value, source, target, p)
  {
    var i := FindFirst(l.items, source, p).value;
    var src := l.items[i];
    var (l1, removed) := AfterRemoveStock(l, source, p, q).value;
    AddStockEffect(l1, target, p, q, src.location, src.price, src.cost);
    FindFirstAfterUpdate(l.items, i, removed, target, p);
  }

  /**
   * After a transfer the target pair has a row holding the source row's price and cost; its
   * location is the source row's when the target had no row, and its own otherwise.
   */
  predicate TargetRowFrom(l: Ledger, l': Ledger, source: string, target: string, p: int)
    requires FindFirst(l.items, source, p).Some?
  {
    var src := l.items[FindFirst(l.items, source, p).value];
    && FindFirst(l'.items, target, p).Some?
    && var row := l'.items[FindFirst(l'.items, target, p).value];
    && row.price == src.price && row.cost == src.cost
    && row.location == match FindFirst(l.items, target, p)
                       case None => src.location
                       case Some(j) => l.items[j].location
  }

  /** updatePriceAndCost as a state transition: a missing id fails; otherwise only that row's price and cost change. */
  function AfterUpdatePriceAndCost(l: Ledger, itemId: nat, price: int, cost: int): (r: Result<(Ledger, WarehouseItem), LedgerError>)
    ensures r.Err? <==> FindById(l.items, itemId).None?
    ensures r.Err? ==> r.error == RecordNotFound
    ensures r.Ok? ==> r.value.1.id == itemId && r.value.1.price == Some(price) && r.value.1.cost == Some(cost)
    ensures r.Ok? ==>
      var i := FindById(l.items, itemId).value;
      r.value.0.items == l.items[i := l.items[i].(price := Some(price), cost := Some(cost))] && r.value.1 == r.value.0.items[i]
    ensures r.Ok? ==> r.value.0.warehouses == l.warehouses && r.value.0.nextItemId == l.nextItemId
    ensures r.Ok? ==> |r.value.0.items| == |l.items| && r.value.0.movements == l.movements
    ensures r.Ok? ==> forall k :: 0 <= k < |l.items| && l.items[k].id != itemId ==> r.value.0.items[k] == l.items[k]
  {
    match FindById(l.items, itemId)
    case None => Err(RecordNotFound)
    case Some(i) =>
      var updated := l.items[i].(price := Some(price), cost := Some(cost));
      Ok((l.(items := l.items[i := updated]), updated))
  }

  /** Repricing an item moves no stock: every pair's quantity, the total and the movement log are unchanged. */
  lemma UpdatePriceAndCostKeepsStock(l: Ledger, itemId: nat, price: int, cost: int)
    requires AfterUpdatePriceAndCost(l, itemId, price, cost).Ok?
    ensures var l' := AfterUpdatePriceAndCost(l, itemId, price, cost).value.0;
      && (forall w, p :: OnHand(l'.items, w, p) == OnHand(l.items, w, p))
      && TotalUnits(l'.items) == TotalUnits(l.items)
      && (WellFormed(l) ==> WellFormed(l'))
  {
    var i := FindById(l.items, itemId).value;
    var (l', item) := AfterUpdatePriceAndCost(l, itemId, price, cost).value;
    assert l'.items == l.items[i := item];
    forall w, p ensures FindFirst(l'.items, w, p) == FindFirst(l.items, w, p) {
      FindFirstAfterUpdate(l.items, i, item, w, p);
    }
    TotalUnitsUpdate(l.items, i, item);
  }

  /** addStock: look the pair up, then update the row or create one, then log one IN movement. */
  method AddStock(db: InventoryDb, warehouseId: string, productId: int, quantity: int, location: string,
                  price: Option<int>, cost: Option<int>)
    returns (item: WarehouseItem)
    requires db.Valid()
    modifies db
    ensures db.Valid()
    ensures (db.State(), item) == AfterAddStock(old(db.State()), warehouseId, productId, quantity, location, price, cost)
  {
    AddStockKeepsWellFormed(db.State(), warehouseId, productId, quantity, location, price, cost);
    var found := FindFirst(db.items, warehouseId, productId);
    if found.Some? {
      var i := found.value;
      var existing := db.items[i];
      item := existing.(
        price := price,
        cost := cost,
        quantity := existing.quantity + quantity,
        status := CalculateStockStatus(quantity, existing.minimumStock));
      db.items := db.items[i := item];
    } else {
      item := WarehouseItem(db.nextItemId, warehouseId, productId, quantity, 0, location, price, cost, InStock);
      db.items := db.items + [item];
      db.nextItemId := db.nextItemId + 1;
    }
    db.movements := db.movements + [StockMovement(item.id, In, quantity, SystemUser)];
  }

  /** transferStock: read the source row, remove at the source, add at the target. */
  method TransferStock(db: InventoryDb, sourceWarehouseId: string, targetWarehouseId: string, productId: int, quantity: int)
    returns (r: Result<string, LedgerError>)
    requires db.Valid()
    modifies db
    ensures db.Valid()
    ensures match AfterTransfer(old(db.State()), sourceWarehouseId, targetWarehouseId, productId, quantity)
      case Ok(l') => r == Ok(TransferMessage) && db.State() == l'
      case Err(e) => r == Err(e) && db.State() == old(db.State())
  {
    var found := FindFirst(db.items, sourceWarehouseId, productId);
    if found.None? {
      return Err(SourceItemNotFound);
    }
    var sourceItem := db.items[found.value];
    var removed := RemoveStock(db, sourceWarehouseId, productId, quantity);
    if removed.Err? {
      return Err(removed.error);
    }
    var added := AddStock(db, targetWarehouseId, productId, quantity, sourceItem.location, sourceItem.price, sourceItem.cost);
    r := Ok(TransferMessage);
  }

  /** updatePriceAndCost: overwrite price and cost of the item with that id. */
  method UpdatePriceAndCost(db: InventoryDb, itemId: nat, price: int, cost: int)
    returns (r: Result<WarehouseItem, LedgerError>)
    requires db.Valid()
    modifies db
    ensures db.Valid()
    ensures match AfterUpdatePriceAndCost(old(db.State()), itemId, price, cost)
      case Ok((l', item)) => r == Ok(item) && db.State() == l'
      case Err(e) => r == Err(e) && db.State() == old(db.State())
  {
    var found := FindById(db.items, itemId);
    if found.None? {
      return Err(RecordNotFound);
    }
    var i := found.value;
    var updated := db.items[i].(price := Some(price), cost := Some(cost));
    db.items := db.items[i := updated];
    r := Ok(updated);
  }
}
