/**
 * The TypeScript version of the warehouse service: addStock takes only a location and never
 * touches price or cost, transferStock carries only the source row's location, updatePriceAndCost
 * rewrites every row of a product, and getAllWarehouses reports each warehouse's occupancy.
 * removeStock and deleteWarehouse are the shared ones of module Inventory.
 */
module SrcWarehouseService {
  import opened Wrappers
  import opened StockStatus
  import opened Inventory

  const TransferMessage: string := "Stock transferred successfully"

  /**
   * addStock as a state transition. An existing row grows by the amount, keeps its price and
   * cost, and stores the status computed from the ADDED amount; a missing pair gets a new row
   * with the amount and location, no price or cost, minimumStock 0 and status IN_STOCK. Either
   * way exactly one IN movement of the amount is appended.
   */
  function AfterAddStock(l: Ledger, w: string, p: int, q: int, location: string): (r: (Ledger, WarehouseItem))
    ensures r.0.movements == l.movements + [StockMovement(r.1.id, In, q, SystemUser)]
    ensures Matches(r.1, w, p) && r.0.warehouses == l.warehouses
    ensures FindFirst(l.items, w, p).Some? ==>
      var old_ := l.items[FindFirst(l.items, w, p).value];
      && r.1.quantity == old_.quantity + q
      && r.1.price == old_.price && r.1.cost == old_.cost && r.1.location == old_.location
      && r.1.status == CalculateStockStatus(q, old_.minimumStock)
    ensures FindFirst(l.items, w, p).None? ==>
      r.1 == WarehouseItem(l.nextItemId, w, p, q, 0, location, None, None, InStock)
    ensures FindFirst(l.items, w, p).Some? ==>
      var i := FindFirst(l.items, w, p).value;
      && r.0.items == l.items[i := r.1]
      && r.1 == l.items[i].(quantity := l.items[i].quantity + q, status := CalculateStockStatus(q, l.items[i].minimumStock))
      && r.0.nextItemId == l.nextItemId
    ensures FindFirst(l.items, w, p).None? ==> r.0.items == l.items + [r.1] && r.0.nextItemId == l.nextItemId + 1
  {
    match FindFirst(l.items, w, p)
    case Some(i) =>
      var item := l.items[i];
      var updated := item.(
        quantity := item.quantity + q,
        status := CalculateStockStatus(q, item.minimumStock));
      (l.(items := l.items[i := updated],
          movements := l.movements + [StockMovement(item.id, In, q, SystemUser)]),
       updated)
    case None =>
      var created := WarehouseItem(l.nextItemId, w, p, q, 0, location, None, None, InStock);
      (l.(items := l.items + [created],
          movements := l.movements + [StockMovement(created.id, In, q, SystemUser)],
          nextItemId := l.nextItemId + 1),
       created)
  }

  /** addStock keeps the ledger well formed. */
  lemma AddStockKeepsWellFormed(l: Ledger, w: string, p: int, q: int, location: string)
    requires WellFormed(l)
    ensures WellFormed(AfterAddStock(l, w, p, q, location).0)
  {
    AddStockEffect(l, w, p, q, location);
  }

  /**
   * What addStock does to the stock: the pair's row in the stored table is the returned row;
   * the pair grows by exactly the amount, every other pair is unchanged, the total and the
   * warehouse's occupancy grow by the amount, and well-formedness is kept, as is non-negative
   * stock for a non-negative amount.
   */
  lemma AddStockEffect(l: Ledger, w: string, p: int, q: int, location: string)
    ensures var (l', item) := AfterAddStock(l, w, p, q, location);
      && FindFirst(l'.items, w, p).Some? && l'.items[FindFirst(l'.items, w, p).value] == item
      && OnHand(l'.items, w, p) == OnHand(l.items, w, p) + q
      && (forall w2, p2 :: (w2, p2) != (w, p) ==> OnHand(l'.items, w2, p2) == OnHand(l.items, w2, p2))
      && TotalUnits(l'.items) == TotalUnits(l.items) + q
      && Occupancy(l'.items, w) == Occupancy(l.items, w) + q
      && (WellFormed(l) ==> WellFormed(l'))
      && (NoNegativeStock(l.items) && q >= 0 ==> NoNegativeStock(l'.items))
  {
    match FindFirst(l.items, w, p)
    case Some(i) => AddStockToRow(l, w, p, q, location, i);
    case None => AddStockNewRow(l, w, p, q, location);
  }

  /** AddStockEffect when the pair already has a row, at index i. */
  lemma AddStockToRow(l: Ledger, w: string, p: int, q: int, location: string, i: nat)
    requires FindFirst(l.items, w, p) == Some(i)
    ensures var (l', item) := AfterAddStock(l, w, p, q, location);
      && FindFirst(l'.items, w, p).Some? && l'.items[FindFirst(l'.items, w, p).value] == item
      && OnHand(l'.items, w, p) == OnHand(l.items, w, p) + q
      && (forall w2, p2 :: (w2, p2) != (w, p) ==> OnHand(l'.items, w2, p2) == OnHand(l.items, w2, p2))
      && TotalUnits(l'.items) == TotalUnits(l.items) + q
      && Occupancy(l'.items, w) == Occupancy(l.items, w) + q
      && (WellFormed(l) ==> WellFormed(l'))
      && (NoNegativeStock(l.items) && q >= 0 ==> NoNegativeStock(l'.items))
  {
    var (l', item) := AfterAddStock(l, w, p, q, location);
    assert l'.items == l.items[i := item];
    forall w2, p2 ensures FindFirst(l'.items, w2, p2) == FindFirst(l.items, w2, p2) {
      FindFirstAfterUpdate(l.items, i, item, w2, p2);
    }
    TotalUnitsUpdate(l.items, i, item);
    OccupancyUpdate(l.items, i, item, w);
  }

  /** AddStockEffect when the pair has no row yet. */
  lemma AddStockNewRow(l: Ledger, w: string, p: int, q: int, location: string)
    requires FindFirst(l.items, w, p).None?
    ensures var (l', item) := AfterAddStock(l, w, p, q, location);
      && FindFirst(l'.items, w, p).Some? && l'.items[FindFirst(l'.items, w, p).value] == item
      && OnHand(l'.items, w, p) == OnHand(l.items, w, p) + q
      && (forall w2, p2 :: (w2, p2) != (w, p) ==> OnHand(l'.items, w2, p2) == OnHand(l.items, w2, p2))
      && TotalUnits(l'.items) == TotalUnits(l.items) + q
      && Occupancy(l'.items, w) == Occupancy(l.items, w) + q
      && (WellFormed(l) ==> WellFormed(l'))
      && (NoNegativeStock(l.items) && q >= 0 ==> NoNegativeStock(l'.items))
  {
    var (l', item) := AfterAddStock(l, w, p, q, location);
    assert l'.items == l.items + [item];
    AppendNewPair(l.items, item, w, p);
    if WellFormed(l) {
      assert IdsBelow(l'.items, l'.nextItemId);
      assert DistinctIds(l'.items);
    }
    if NoNegativeStock(l.items) && q >= 0 {
      assert NoNegativeStock(l'.items);
    }
  }

  /**
   * transferStock as a state transition: no source row fails with SourceItemNotFound, too
   * little at the source fails with InsufficientStock before any write, and otherwise the
   * amount is removed at the source and added at the target with the source row's location.
   */
  function AfterTransfer(l: Ledger, source: string, target: string, p: int, q: int): (r: Result<Ledger, LedgerError>)
    ensures r == Err(SourceItemNotFound) <==> FindFirst(l.items, source, p).None?
    ensures r == Err(InsufficientStock) <==> FindFirst(l.items, source, p).Some? && OnHand(l.items, source, p) < q
    ensures r.Err? ==> r.error == SourceItemNotFound || r.error == InsufficientStock
  {
    match FindFirst(l.items, source, p)
    case None => Err(SourceItemNotFound)
    case Some(i) =>
      var src := l.items[i];
      match AfterRemoveStock(l, source, p, q)
      case Err(e) => Err(e)
      case Ok((l1, _)) => Ok(AfterAddStock(l1, target, p, q, src.location).0)
  }

  /**
   * A successful transfer between two different warehouses moves exactly the amount: the
   * source falls and the target rises by it, the total is conserved, no other pair changes,
   * one OUT then one IN movement of the amount are appended, and the ledger stays well formed.
   * Only the location travels: a new target row takes the source row's location with no price
   * or cost, and an existing target row keeps its own location, price and cost.
   */
  lemma TransferConservation(l: Ledger, source: string, target: string, p: int, q: int)
    requires source != target
    requires AfterTransfer(l, source, target, p, q).Ok?
    ensures var l' := AfterTransfer(l, source, target, p, q).value;
      && OnHand(l'.items, source, p) == OnHand(l.items, source, p) - q
      && OnHand(l'.items, target, p) == OnHand(l.items, target, p) + q
      && (forall w2, p2 :: (w2, p2) != (source, p) && (w2, p2) != (target, p) ==> OnHand(l'.items, w2, p2) == OnHand(l.items, w2, p2))
      && TotalUnits(l'.items) == TotalUnits(l.items)
      && |l'.movements| == |l.movements| + 2
      && l'.movements[..|l.movements|] == l.movements
      && l'.movements[|l.movements|].kind == Out && l'.movements[|l.movements|].quantity == q
      && l'.movements[|l.movements| + 1].kind == In && l'.movements[|l.movements| + 1].quantity == q
      && MovementIds(l, l', source, target, p)
      && (WellFormed(l) ==> WellFormed(l'))
      && (NoNegativeStock(l.items) && q >= 0 ==> NoNegativeStock(l'.items))
      && TargetRowFrom(l, l', source, target, p)
  {
    TransferQuantities(l, source, target, p, q);
    TransferMovements(l, source, target, p, q);
    TransferMovementIds(l, source, target, p, q);
    TransferTargetRow(l, source, target, p, q);
  }

  /** The stock half of TransferConservation. */
  lemma TransferQuantities(l: Ledger, source: string, target: string, p: int, q: int)
    requires source != target
    requires AfterTransfer(l, source, target, p, q).Ok?
    ensures var l' := AfterTransfer(l, source, target, p, q).value;
      && OnHand(l'.items, source, p) == OnHand(l.items, source, p) - q
      && OnHand(l'.items, target, p) == OnHand(l.items, target, p) + q
      && (forall w2, p2 :: (w2, p2) != (source, p) && (w2, p2) != (target, p) ==> OnHand(l'.items, w2, p2) == OnHand(l.items, w2, p2))
      && TotalUnits(l'.items) == TotalUnits(l.items)
      && (WellFormed(l) ==> WellFormed(l'))
      && (NoNegativeStock(l.items) && q >= 0 ==> NoNegativeStock(l'.items))
  {
    var i := FindFirst(l.items, source, p).value;
    var src := l.items[i];
    var (l1, removed) := AfterRemoveStock(l, source, p, q).value;
    RemoveStockEffect(l, source, p, q);
    AddStockEffect(l1, target, p, q, src.location);
  }

  /** The movement half of TransferConservation: one OUT then one IN movement of the amount. */
  lemma TransferMovements(l: Ledger, source: string, target: string, p: int, q: int)
    requires AfterTransfer(l, source, target, p, q).Ok?
    ensures var l' := AfterTransfer(l, source, target, p, q).value;
      && |l'.movements| == |l.movements| + 2
      && l'.movements[..|l.movements|] == l.movements
      && l'.movements[|l.movements|].kind == Out && l'.movements[|l.movements|].quantity == q
      && l'.movements[|l.movements| + 1].kind == In && l'.movements[|l.movements| + 1].quantity == q
  {
    var (l1, removed) := AfterRemoveStock(l, source, p, q).value;
  }

  /**
   * The two movements a transfer appends name its rows: the Out movement the source row, the In
   * movement the target pair's stored row.
   */
  predicate MovementIds(l: Ledger, l': Ledger, source: string, target: string, p: int)
    requires FindFirst(l.items, source, p).Some?
  {
    && |l'.movements| == |l.movements| + 2
    && l'.movements[|l.movements|].itemId == l.items[FindFirst(l.items, source, p).value].id
    && FindFirst(l'.items, target, p).Some?
    && l'.movements[|l.movements| + 1].itemId == l'.items[FindFirst(l'.items, target, p).value].id
  }

  /** After a successful transfer, its two movements are as MovementIds describes. */
  lemma TransferMovementIds(l: Ledger, source: string, target: string, p: int, q: int)
    requires AfterTransfer(l, source, target, p, q).Ok?
    ensures MovementIds(l, AfterTransfer(l, source, target, p, q).value, source, target, p)
  {
    var i := FindFirst(l.items, source, p).value;
    var src := l.items[i];
    var (l1, removed) := AfterRemoveStock(l, source, p, q).value;
    AddStockEffect(l1, target, p, q, src.location);
  }

  /** After a successful transfer between two warehouses, the target row is as TargetRowFrom describes. */
  lemma TransferTargetRow(l: Ledger, source: string, target: string, p: int, q: int)
    requires source != target
    requires AfterTransfer(l, source, target, p, q).Ok?
    ensures TargetRowFrom(l, AfterTransfer(l, source, target, p, q).value, source, target, p)
  {
    var i := FindFirst(l.items, source, p).value;
    var src := l.items[i];
    var (l1, removed) := AfterRemoveStock(l, source, p, q).value;
    AddStockEffect(l1, target, p, q, src.location);
    FindFirstAfterUpdate(l.items, i, removed, target, p);
  }

  /**
   * After a transfer the target pair has a row. When the target had none, it carries the
   * source row's location and no price or cost; otherwise it keeps its own location, price
   * and cost.
   */
  predicate TargetRowFrom(l: Ledger, l': Ledger, source: string, target: string, p: int)
    requires FindFirst(l.items, source, p).Some?
  {
    var src := l.items[FindFirst(l.items, source, p).value];
    && FindFirst(l'.items, target, p).Some?
    && var row := l'.items[FindFirst(l'.items, target, p).value];
    match FindFirst(l.items, target, p)
    case None => row.location == src.location && row.price.None? && row.cost.None?
    case Some(j) => row.location == l.items[j].location && row.price == l.items[j].price && row.cost == l.items[j].cost
  }

  /**
   * A transfer from a warehouse to itself is the plain remove-then-add: it needs the amount on
   * hand, leaves the quantity where it was, and still logs an OUT and an IN movement.
   */
  lemma SelfTransfer(l: Ledger, w: string, p: int, q: int)
    requires AfterTransfer(l, w, w, p, q).Ok?
    ensures OnHand(l.items, w, p) >= q
    ensures var l' := AfterTransfer(l, w, w, p, q).value;
      && OnHand(l'.items, w, p) == OnHand(l.items, w, p)
      && TotalUnits(l'.items) == TotalUnits(l.items)
      && |l'.movements| == |l.movements| + 2
  {
    var i := FindFirst(l.items, w, p).value;
    var (l1, removed) := AfterRemoveStock(l, w, p, q).value;
    RemoveStockEffect(l, w, p, q);
    AddStockEffect(l1, w, p, q, l.items[i].location);
  }

  /** One row after `updateMany({ where: { productId }, data: { price, cost } })`. */
  function Repriced(item: WarehouseItem, productId: int, price: int, cost: int): (r: WarehouseItem)
    ensures r.id == item.id && r.warehouseId == item.warehouseId && r.productId == item.productId
    ensures r.quantity == item.quantity && r.status == item.status && r.location == item.location
    ensures item.productId == productId ==> r.price == Some(price) && r.cost == Some(cost)
    ensures item.productId != productId ==> r == item
  {
    if item.productId == productId then item.(price := Some(price), cost := Some(cost)) else item
  }

  /** The item table after repricing a product. */
  function RepriceProduct(items: seq<WarehouseItem>, productId: int, price: int, cost: int): (r: seq<WarehouseItem>)
    ensures |r| == |items|
    ensures forall k :: 0 <= k < |items| ==> r[k] == Repriced(items[k], productId, price, cost)
  {
    if items == [] then []
    else [Repriced(items[0], productId, price, cost)] + RepriceProduct(items[1..], productId, price, cost)
  }

  /** The number of rows of a product (the `count` that `updateMany` reports). */
  function CountProduct(items: seq<WarehouseItem>, productId: int): (n: nat)
    ensures n <= |items|
    ensures n == 0 <==> forall k :: 0 <= k < |items| ==> items[k].productId != productId
  {
    if items == [] then 0
    else CountProduct(items[..|items| - 1], productId) + (if items[|items| - 1].productId == productId then 1 else 0)
  }

  /**
   * Repricing a product sets the price and cost of every row of that product and of no other,
   * moves no stock (every pair's quantity and the total are unchanged), keeps the ledger well
   * formed, and is idempotent.
   */
  lemma RepriceProductEffect(items: seq<WarehouseItem>, productId: int, price: int, cost: int)
    ensures var r := RepriceProduct(items, productId, price, cost);
      && (forall k :: 0 <= k < |r| ==>
            (r[k].productId == productId ==> r[k].price == Some(price) && r[k].cost == Some(cost))
            && (r[k].productId != productId ==> r[k] == items[k])
            && r[k].id == items[k].id && r[k].quantity == items[k].quantity)
      && (forall w, p :: OnHand(r, w, p) == OnHand(items, w, p))
      && TotalUnits(r) == TotalUnits(items)
      && (forall bound: nat :: IdsBelow(items, bound) ==> IdsBelow(r, bound))
      && (DistinctIds(items) ==> DistinctIds(r))
      && RepriceProduct(r, productId, price, cost) == r
  {
    var r := RepriceProduct(items, productId, price, cost);
    forall w, p ensures FindFirst(r, w, p) == FindFirst(items, w, p) {
      SameKeysSameFind(r, items, w, p);
    }
    SameQuantitiesSameTotal(r, items);
  }

  /** Two tables whose rows agree on their (warehouse, product) pairs answer every lookup alike. */
  lemma {:induction false} SameKeysSameFind(a: seq<WarehouseItem>, b: seq<WarehouseItem>, w: string, p: int)
    requires |a| == |b|
    requires forall k :: 0 <= k < |a| ==> a[k].warehouseId == b[k].warehouseId && a[k].productId == b[k].productId
    ensures FindFirst(a, w, p) == FindFirst(b, w, p)
  {
    if a != [] {
      SameKeysSameFind(a[1..], b[1..], w, p);
    }
  }

  /** Two tables whose rows agree on their quantities have the same total. */
  lemma {:induction false} SameQuantitiesSameTotal(a: seq<WarehouseItem>, b: seq<WarehouseItem>)
    requires |a| == |b|
    requires forall k :: 0 <= k < |a| ==> a[k].quantity == b[k].quantity
    ensures TotalUnits(a) == TotalUnits(b)
  {
    if a != [] {
      SameQuantitiesSameTotal(a[1..], b[1..]);
    }
  }

  /**
   * getAllWarehouses: every warehouse with its occupancy, the sum of its rows' quantities
   * (`items.reduce((acc, item) => acc + item.quantity, 0)`).
   */
  function WarehouseOccupancies(warehouses: seq<string>, items: seq<WarehouseItem>): (r: seq<(string, int)>)
    ensures |r| == |warehouses|
    ensures forall k :: 0 <= k < |r| ==> r[k].0 == warehouses[k]
  {
    if warehouses == [] then []
    else [(warehouses[0], Occupancy(items, warehouses[0]))] + WarehouseOccupancies(warehouses[1..], items)
  }

  /**
   * The reported occupancy of each warehouse is its rows' total: 0 for a warehouse without
   * rows, never negative when no row is, and the occupancy of one warehouse plus the total of
   * all other rows is the ledger's total.
   */
  lemma {:induction false} OccupancyFacts(warehouses: seq<string>, items: seq<WarehouseItem>, k: nat)
    requires k < |warehouses|
    ensures var (w, occupancy) := WarehouseOccupancies(warehouses, items)[k];
      && occupancy == Occupancy(items, w)
      && ((forall j :: 0 <= j < |items| ==> items[j].warehouseId != w) ==> occupancy == 0)
      && (NoNegativeStock(items) ==> occupancy >= 0)
      && occupancy + TotalUnits(ItemsNotOf(items, w)) == TotalUnits(items)
  {
    if k > 0 {
      OccupancyFacts(warehouses[1..], items, k - 1);
      assert WarehouseOccupancies(warehouses, items)[k] == WarehouseOccupancies(warehouses[1..], items)[k - 1];
    } else {
      var w := warehouses[0];
      OccupancyOfEmpty(items, w);
      OccupancyNonNegative(items, w);
      OccupancyPartition(items, w);
    }
  }

  lemma {:induction false} OccupancyOfEmpty(items: seq<WarehouseItem>, w: string)
    ensures (forall j :: 0 <= j < |items| ==> items[j].warehouseId != w) ==> Occupancy(items, w) == 0
  {
    if items != [] && forall j :: 0 <= j < |items| ==> items[j].warehouseId != w {
      assert forall j :: 0 <= j < |items[1..]| ==> items[1..][j] == items[j + 1];
      OccupancyOfEmpty(items[1..], w);
      assert ItemsOf(items, w) == ItemsOf(items[1..], w);
    }
  }

  lemma {:induction false} OccupancyNonNegative(items: seq<WarehouseItem>, w: string)
    ensures NoNegativeStock(items) ==> Occupancy(items, w) >= 0
  {
    if items != [] {
      OccupancyNonNegative(items[1..], w);
      var head := if items[0].warehouseId == w then [items[0]] else [];
      TotalUnitsAppend(head, ItemsOf(items[1..], w));
    }
  }

  /** The rows of a warehouse and the rows of all others split the table's total between them. */
  lemma {:induction false} OccupancyPartition(items: seq<WarehouseItem>, w: string)
    ensures Occupancy(items, w) + TotalUnits(ItemsNotOf(items, w)) == TotalUnits(items)
  {
    if items != [] {
      OccupancyPartition(items[1..], w);
      var mine := if items[0].warehouseId == w then [items[0]] else [];
      var others := if items[0].warehouseId != w then [items[0]] else [];
      TotalUnitsAppend(mine, ItemsOf(items[1..], w));
      TotalUnitsAppend(others, ItemsNotOf(items[1..], w));
    }
  }

  /** addStock: look the pair up, then update the row or create one, then log one IN movement. */
  method AddStock(db: InventoryDb, warehouseId: string, productId: int, quantity: int, location: string)
    returns (item: WarehouseItem)
    requires db.Valid()
    modifies db
    ensures db.Valid()
    ensures (db.State(), item) == AfterAddStock(old(db.State()), warehouseId, productId, quantity, location)
  {
    AddStockKeepsWellFormed(db.State(), warehouseId, productId, quantity, location);
    var found := FindFirst(db.items, warehouseId, productId);
    if found.Some? {
      var i := found.value;
      var existing := db.items[i];
      item := existing.(
        quantity := existing.quantity + quantity,
        status := CalculateStockStatus(quantity, existing.minimumStock));
      db.items := db.items[i := item];
    } else {
      item := WarehouseItem(db.nextItemId, warehouseId, productId, quantity, 0, location, None, None, InStock);
      db.items := db.items + [item];
      db.nextItemId := db.nextItemId + 1;
    }
    db.movements := db.movements + [StockMovement(item.id, In, quantity, SystemUser)];
  }

  /** transferStock: read the source row, remove at the source, add at the target with its location. */
  method TransferStock(db: InventoryDb, sourceWarehouseId: string, targetWarehouseId: string, productId: int, quantity: int)
    returns (r: Result<string, LedgerError>)
    requires db.Valid()
    modifies db
    ensures db.Valid()
    ensures match AfterTransfer(old(db.State()), sourceWarehouseId, targetWarehouseId, productId, quantity)
      case Ok(l') => r == Ok(TransferMessage) && db.State() == l'
      case Err(e) => r == Err(e) && db.State() == old(db.State())
  {
    var found := FindFirst(db.items, sourceWarehouseId, productId);
    if found.None? {
      return Err(SourceItemNotFound);
    }
    var sourceItem := db.items[found.value];
    var removed := RemoveStock(db, sourceWarehouseId, productId, quantity);
    if removed.Err? {
      return Err(removed.error);
    }
    var added := AddStock(db, targetWarehouseId, productId, quantity, sourceItem.location);
    r := Ok(TransferMessage);
  }

  /** The row-by-row pass of `updateMany`: each row of the product repriced, and how many there were. */
  method RepriceRows(before: seq<WarehouseItem>, productId: int, price: int, cost: int)
    returns (items: seq<WarehouseItem>, count: nat)
    ensures items == RepriceProduct(before, productId, price, cost)
    ensures count == CountProduct(before, productId)
  {
    items := before;
    count := 0;
    var i := 0;
    while i < |items|
      invariant 0 <= i <= |items| == |before|
      invariant forall k :: 0 <= k < i ==> items[k] == Repriced(before[k], productId, price, cost)
      invariant forall k :: i <= k < |items| ==> items[k] == before[k]
      invariant count == CountProduct(before[..i], productId)
    {
      assert before[..i + 1][..i] == before[..i];
      if items[i].productId == productId {
        items := items[i := Repriced(items[i], productId, price, cost)];
        count := count + 1;
      }
      i := i + 1;
    }
    assert before[..i] == before;
  }

  /**
   * updatePriceAndCost: `updateMany` over the item table; returns how many rows of the product
   * were rewritten. Nothing but the prices and costs of that product's rows changes.
   */
  method UpdatePriceAndCost(db: InventoryDb, productId: int, price: int, cost: int) returns (count: nat)
    requires db.Valid()
    modifies db
    ensures db.Valid()
    ensures db.State() == old(db.State()).(items := RepriceProduct(old(db.items), productId, price, cost))
    ensures count == CountProduct(old(db.items), productId)
  {
    var before := db.items;
    var items;
    items, count := RepriceRows(before, productId, price, cost);
    RepriceProductEffect(before, productId, price, cost);
    db.items := items;
  }
}
