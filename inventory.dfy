/**
 * The warehouse stock ledger shared by both versions of the warehouse service: the
 * WarehouseItem and StockMovement tables, the lookups the services make on them, and the
 * operations whose code is the same in both versions (removeStock, deleteWarehouse).
 *
 * A table is a sequence of rows in table order, so Prisma's `findFirst` is "the first row
 * that matches" and `deleteMany` is a filter. Row ids are distinct (WellFormed), so an update
 * `where: { id }` of a row found by `findFirst` is an update at that row's index.
 */
module Inventory {
  import opened Wrappers
  import opened StockStatus

  datatype WarehouseItem = WarehouseItem(
    id: nat,
    warehouseId: string,
    productId: int,
    quantity: int,
    minimumStock: int,
    location: string,
    price: Option<int>,
    cost: Option<int>,
    status: Status)

  datatype MovementType = In | Out

  datatype StockMovement = StockMovement(itemId: nat, kind: MovementType, quantity: int, userId: string)

  /** Every movement is attributed to this fixed actor, not to the caller. */
  const SystemUser: string := "system"

  datatype LedgerError =
    | ItemNotFound
    | InsufficientStock
    | SourceItemNotFound
    | RecordNotFound

  /** The message of the Error the service throws. */
  function Message(e: LedgerError): string {
    match e
    case ItemNotFound => "Item not found in warehouse"
    case InsufficientStock => "Insufficient stock"
    case SourceItemNotFound => "Source item not found"
    case RecordNotFound => "Record to update or delete does not exist"
  }

  /** The tables the ledger reads and writes, and the id the next created item receives. */
  datatype Ledger = Ledger(
    warehouses: seq<string>,
    items: seq<WarehouseItem>,
    movements: seq<StockMovement>,
    nextItemId: nat)

  /** Item ids are distinct and all below the next fresh id. */
  predicate WellFormed(l: Ledger) {
    IdsBelow(l.items, l.nextItemId) && DistinctIds(l.items)
  }

  predicate IdsBelow(items: seq<WarehouseItem>, bound: nat) {
    forall i :: 0 <= i < |items| ==> items[i].id < bound
  }

  predicate DistinctIds(items: seq<WarehouseItem>) {
    forall i, j :: 0 <= i < j < |items| ==> items[i].id != items[j].id
  }

  predicate NoNegativeStock(items: seq<WarehouseItem>) {
    forall i :: 0 <= i < |items| ==> items[i].quantity >= 0
  }

  predicate Matches(item: WarehouseItem, warehouseId: string, productId: int) {
    item.warehouseId == warehouseId && item.productId == productId
  }

  /** `warehouseItem.findFirst({ where: { warehouseId, productId } })`: the index of the first matching row. */
  function FindFirst(items: seq<WarehouseItem>, warehouseId: string, productId: int): (r: Option<nat>)
    ensures r.Some? ==> r.value < |items| && Matches(items[r.value], warehouseId, productId)
    ensures r.Some? ==> forall j :: 0 <= j < r.value ==> !Matches(items[j], warehouseId, productId)
    ensures r.None? ==> forall j :: 0 <= j < |items| ==> !Matches(items[j], warehouseId, productId)
  {
    if items == [] then None
    else if Matches(items[0], warehouseId, productId) then Some(0)
    else match FindFirst(items[1..], warehouseId, productId)
      case None => None
      case Some(k) => Some(k + 1)
  }

  /** `warehouseItem.update({ where: { id } })` finds the row with that id, if any. */
  function FindById(items: seq<WarehouseItem>, id: nat): (r: Option<nat>)
    ensures r.Some? ==> r.value < |items| && items[r.value].id == id
    ensures r.None? ==> forall j :: 0 <= j < |items| ==> items[j].id != id
  {
    if items == [] then None
    else if items[0].id == id then Some(0)
    else match FindById(items[1..], id)
      case None => None
      case Some(k) => Some(k + 1)
  }

  /** The quantity the ledger reports for a (warehouse, product) pair: that of its row, 0 without one. */
  function OnHand(items: seq<WarehouseItem>, warehouseId: string, productId: int): (q: int)
    ensures (forall j :: 0 <= j < |items| ==> !Matches(items[j], warehouseId, productId)) ==> q == 0
    ensures q != 0 ==> exists j :: 0 <= j < |items| && Matches(items[j], warehouseId, productId) && items[j].quantity == q
  {
    match FindFirst(items, warehouseId, productId)
    case Some(i) => items[i].quantity
    case None => 0
  }

  /** Rewriting a row without changing its (warehouse, product) pair does not change any lookup. */
  lemma FindFirstAfterUpdate(items: seq<WarehouseItem>, i: nat, x: WarehouseItem, w: string, p: int)
    requires i < |items|
    requires x.warehouseId == items[i].warehouseId && x.productId == items[i].productId
    ensures FindFirst(items[i := x], w, p) == FindFirst(items, w, p)
  {
    var a, b := FindFirst(items[i := x], w, p), FindFirst(items, w, p);
    assert forall j :: 0 <= j < |items| ==> (Matches(items[i := x][j], w, p) <==> Matches(items[j], w, p));
  }

  /** Appending a row only answers lookups that had no row before. */
  lemma {:induction false} FindFirstAfterAppend(items: seq<WarehouseItem>, x: WarehouseItem, w: string, p: int)
    ensures FindFirst(items + [x], w, p) ==
      if FindFirst(items, w, p).Some? then FindFirst(items, w, p)
      else if Matches(x, w, p) then Some(|items|)
      else None
  {
    if items == [] {
      assert [x][1..] == [];
    } else {
      assert (items + [x])[0] == items[0];
      assert (items + [x])[1..] == items[1..] + [x];
      FindFirstAfterAppend(items[1..], x, w, p);
    }
  }

  /** The sum of the quantities of a list of items (`reduce((acc, item) => acc + item.quantity, 0)`). */
  function TotalUnits(items: seq<WarehouseItem>): (r: int)
    ensures NoNegativeStock(items) ==> forall k :: 0 <= k < |items| ==> items[k].quantity <= r
  {
    if items == [] then 0 else items[0].quantity + TotalUnits(items[1..])
  }

  lemma {:induction false} TotalUnitsAppend(a: seq<WarehouseItem>, b: seq<WarehouseItem>)
    ensures TotalUnits(a + b) == TotalUnits(a) + TotalUnits(b)
  {
    if a == [] {
      assert a + b == b;
    } else {
      assert (a + b)[1..] == a[1..] + b;
      TotalUnitsAppend(a[1..], b);
    }
  }

  /** Changing one row's quantity changes the total by exactly the difference. */
  lemma {:induction false} TotalUnitsUpdate(items: seq<WarehouseItem>, i: nat, x: WarehouseItem)
    requires i < |items|
    ensures TotalUnits(items[i := x]) == TotalUnits(items) - items[i].quantity + x.quantity
  {
    if i == 0 {
      assert items[i := x][1..] == items[1..];
    } else {
      assert items[i := x][1..] == items[1..][i - 1 := x];
      TotalUnitsUpdate(items[1..], i - 1, x);
    }
  }

  lemma {:induction false} TotalUnitsNonNegative(items: seq<WarehouseItem>)
    requires NoNegativeStock(items)
    ensures TotalUnits(items) >= 0
  {
    if items != [] {
      TotalUnitsNonNegative(items[1..]);
    }
  }

  /** The rows of one warehouse, in table order (the `items` relation of a Warehouse). */
  function ItemsOf(items: seq<WarehouseItem>, warehouseId: string): (r: seq<WarehouseItem>)
    ensures forall k :: 0 <= k < |r| ==> r[k].warehouseId == warehouseId
    ensures |r| <= |items|
    ensures (forall j :: 0 <= j < |items| ==> items[j].warehouseId != warehouseId) ==> r == []
  {
    if items == [] then []
    else (if items[0].warehouseId == warehouseId then [items[0]] else []) + ItemsOf(items[1..], warehouseId)
  }

  /** The rows of every other warehouse (what `deleteMany({ where: { warehouseId } })` leaves). */
  function ItemsNotOf(items: seq<WarehouseItem>, warehouseId: string): (r: seq<WarehouseItem>)
    ensures forall k :: 0 <= k < |r| ==> r[k].warehouseId != warehouseId
    ensures forall k :: 0 <= k < |r| ==> r[k] in items
    ensures forall item :: item in items && item.warehouseId != warehouseId ==> item in r
    ensures |r| <= |items|
  {
    if items == [] then []
    else (if items[0].warehouseId != warehouseId then [items[0]] else []) + ItemsNotOf(items[1..], warehouseId)
  }

  /** A warehouse's occupancy: the total quantity over its own rows. */
  function Occupancy(items: seq<WarehouseItem>, warehouseId: string): (r: int)
    ensures (forall j :: 0 <= j < |items| ==> items[j].warehouseId != warehouseId) ==> r == 0
  {
    TotalUnits(ItemsOf(items, warehouseId))
  }

  /** A row that stays in its warehouse changes that warehouse's occupancy by its quantity change, and no other. */
  lemma {:induction false} OccupancyUpdate(items: seq<WarehouseItem>, i: nat, x: WarehouseItem, w: string)
    requires i < |items| && x.warehouseId == items[i].warehouseId
    ensures Occupancy(items[i := x], w) ==
      Occupancy(items, w) + (if x.warehouseId == w then x.quantity - items[i].quantity else 0)
  {
    var head := if items[0].warehouseId == w then [items[0]] else [];
    var head' := if items[i := x][0].warehouseId == w then [items[i := x][0]] else [];
    if i == 0 {
      assert items[i := x][1..] == items[1..];
      TotalUnitsAppend(head, ItemsOf(items[1..], w));
      TotalUnitsAppend(head', ItemsOf(items[1..], w));
    } else {
      assert items[i := x][1..] == items[1..][i - 1 := x];
      OccupancyUpdate(items[1..], i - 1, x, w);
      TotalUnitsAppend(head, ItemsOf(items[1..], w));
      TotalUnitsAppend(head', ItemsOf(items[1..][i - 1 := x], w));
    }
  }

  /**
   * A row appended for a pair that had none becomes that pair's row: it adds its quantity to
   * the pair, to the table's total and to its warehouse's occupancy, and no other pair changes.
   */
  lemma AppendNewPair(items: seq<WarehouseItem>, x: WarehouseItem, w: string, p: int)
    requires FindFirst(items, w, p).None? && Matches(x, w, p)
    ensures FindFirst(items + [x], w, p) == Some(|items|)
    ensures OnHand(items + [x], w, p) == x.quantity
    ensures forall w2, p2 :: (w2, p2) != (w, p) ==> OnHand(items + [x], w2, p2) == OnHand(items, w2, p2)
    ensures TotalUnits(items + [x]) == TotalUnits(items) + x.quantity
    ensures Occupancy(items + [x], w) == Occupancy(items, w) + x.quantity
  {
    FindFirstAfterAppend(items, x, w, p);
    forall w2, p2 | (w2, p2) != (w, p)
      ensures OnHand(items + [x], w2, p2) == OnHand(items, w2, p2)
    {
      FindFirstAfterAppend(items, x, w2, p2);
      assert FindFirst(items + [x], w2, p2) == FindFirst(items, w2, p2);
    }
    TotalUnitsAppend(items, [x]);
    assert TotalUnits([x]) == x.quantity;
    OccupancyAppend(items, x, w);
  }

  /** A new row adds its quantity to its own warehouse's occupancy only. */
  lemma {:induction false} OccupancyAppend(items: seq<WarehouseItem>, x: WarehouseItem, w: string)
    ensures Occupancy(items + [x], w) == Occupancy(items, w) + (if x.warehouseId == w then x.quantity else 0)
  {
    if items == [] {
      assert [x][1..] == [];
    } else {
      assert (items + [x])[1..] == items[1..] + [x];
      OccupancyAppend(items[1..], x, w);
      var head := if items[0].warehouseId == w then [items[0]] else [];
      TotalUnitsAppend(head, ItemsOf(items[1..] + [x], w));
      TotalUnitsAppend(head, ItemsOf(items[1..], w));
    }
  }

  /**
   * After a warehouse's rows are deleted, its occupancy is 0 and every other warehouse keeps
   * its occupancy.
   */
  lemma {:induction false} OccupancyAfterDelete(items: seq<WarehouseItem>, deleted: string, w: string)
    ensures Occupancy(ItemsNotOf(items, deleted), w) == if w == deleted then 0 else Occupancy(items, w)
  {
    if items != [] {
      var x, rest := items[0], items[1..];
      OccupancyAfterDelete(rest, deleted, w);
      assert items == [x] + rest;
      OccupancyCons(x, rest, w);
      var r := ItemsNotOf(rest, deleted);
      if x.warehouseId == deleted {
        assert ItemsNotOf(items, deleted) == r;
      } else {
        assert ItemsNotOf(items, deleted) == [x] + r;
        OccupancyCons(x, r, w);
      }
    }
  }

  /** A row put in front adds its quantity to its own warehouse's occupancy only. */
  lemma OccupancyCons(x: WarehouseItem, rest: seq<WarehouseItem>, w: string)
    ensures Occupancy([x] + rest, w) == (if x.warehouseId == w then x.quantity else 0) + Occupancy(rest, w)
  {
    assert ([x] + rest)[0] == x;
    assert ([x] + rest)[1..] == rest;
    var head := if x.warehouseId == w then [x] else [];
    assert ItemsOf([x] + rest, w) == head + ItemsOf(rest, w);
    TotalUnitsAppend(head, ItemsOf(rest, w));
  }

  /**
   * removeStock as a state transition. A missing pair fails with ItemNotFound and a quantity
   * above the one on hand with InsufficientStock, both before any write; otherwise the row is
   * lowered by the quantity, its status recomputed from the new quantity, and one OUT movement
   * appended.
   */
  function AfterRemoveStock(l: Ledger, warehouseId: string, productId: int, quantity: int): (r: Result<(Ledger, WarehouseItem), LedgerError>)
    ensures r == Err(ItemNotFound) <==> FindFirst(l.items, warehouseId, productId).None?
    ensures r == Err(InsufficientStock) <==>
      FindFirst(l.items, warehouseId, productId).Some? && OnHand(l.items, warehouseId, productId) < quantity
    ensures r.Err? ==> r.error == ItemNotFound || r.error == InsufficientStock
    ensures r.Ok? ==> r.value.0.movements == l.movements + [StockMovement(r.value.1.id, Out, quantity, SystemUser)]
    ensures r.Ok? ==> r.value.1.quantity >= 0 && Matches(r.value.1, warehouseId, productId)
    ensures r.Ok? ==> FindFirst(l.items, warehouseId, productId).Some?
    ensures r.Ok? ==>
      var i := FindFirst(l.items, warehouseId, productId).value;
      && r.value.0.items == l.items[i := r.value.1]
      && r.value.1 == l.items[i].(quantity := l.items[i].quantity - quantity,
                                  status := CalculateStockStatus(l.items[i].quantity - quantity, l.items[i].minimumStock))
      && r.value.0.warehouses == l.warehouses && r.value.0.nextItemId == l.nextItemId
  {
    match FindFirst(l.items, warehouseId, productId)
    case None => Err(ItemNotFound)
    case Some(i) =>
      var item := l.items[i];
      if item.quantity < quantity then Err(InsufficientStock)
      else
        var updated := item.(
          quantity := item.quantity - quantity,
          status := CalculateStockStatus(item.quantity - quantity, item.minimumStock));
        Ok((l.(items := l.items[i := updated],
               movements := l.movements + [StockMovement(item.id, Out, quantity, SystemUser)]),
            updated))
  }

  /**
   * What a successful removeStock does to the stock: the pair's quantity drops by exactly the
   * amount and stays non-negative; the stored row keeps its id, pair, minimum, location, price
   * and cost and holds the status of its new quantity; every other row is stored as it was, so
   * every other pair keeps its quantity; the total falls by the amount, the warehouse's
   * occupancy falls by the amount, and well-formedness and non-negative stock are kept.
   */
  lemma RemoveStockEffect(l: Ledger, w: string, p: int, q: int)
    requires AfterRemoveStock(l, w, p, q).Ok?
    ensures var (l', item) := AfterRemoveStock(l, w, p, q).value;
      && OnHand(l'.items, w, p) == OnHand(l.items, w, p) - q >= 0
      && (var i := FindFirst(l.items, w, p).value;
          && |l'.items| == |l.items| && l'.items[i] == item
          && item.id == l.items[i].id && Matches(item, w, p) && item.minimumStock == l.items[i].minimumStock
          && item.location == l.items[i].location && item.price == l.items[i].price && item.cost == l.items[i].cost
          && item.status == CalculateStockStatus(item.quantity, item.minimumStock)
          && (forall k :: 0 <= k < |l.items| && k != i ==> l'.items[k] == l.items[k]))
      && (forall w2, p2 :: (w2, p2) != (w, p) ==> OnHand(l'.items, w2, p2) == OnHand(l.items, w2, p2))
      && TotalUnits(l'.items) == TotalUnits(l.items) - q
      && Occupancy(l'.items, w) == Occupancy(l.items, w) - q
      && l'.warehouses == l.warehouses && l'.nextItemId == l.nextItemId
      && (WellFormed(l) ==> WellFormed(l'))
      && (NoNegativeStock(l.items) ==> NoNegativeStock(l'.items))
  {
    var i := FindFirst(l.items, w, p).value;
    var (l', item) := AfterRemoveStock(l, w, p, q).value;
    assert l'.items == l.items[i := item];
    forall w2, p2 ensures FindFirst(l'.items, w2, p2) == FindFirst(l.items, w2, p2) {
      FindFirstAfterUpdate(l.items, i, item, w2, p2);
    }
    TotalUnitsUpdate(l.items, i, item);
    OccupancyUpdate(l.items, i, item, w);
  }

  /**
   * deleteWarehouse as a state transition: every row of the warehouse is deleted first; then
   * the warehouse row is deleted, which fails with RecordNotFound when there is none, after
   * the rows are already gone.
   */
  function AfterDeleteWarehouse(l: Ledger, warehouseId: string): (r: (Ledger, Option<LedgerError>))
    ensures forall k :: 0 <= k < |r.0.items| ==> r.0.items[k].warehouseId != warehouseId
    ensures warehouseId !in r.0.warehouses
    ensures r.1.Some? <==> warehouseId !in l.warehouses
    ensures r.0.movements == l.movements && r.0.nextItemId == l.nextItemId
  {
    var remaining := ItemsNotOf(l.items, warehouseId);
    if warehouseId in l.warehouses then
      (l.(items := remaining, warehouses := Remove(l.warehouses, warehouseId)), None)
    else
      (l.(items := remaining), Some(RecordNotFound))
  }

  /** `warehouse.delete({ where: { id } })` on the warehouse table. */
  function Remove(ws: seq<string>, w: string): (r: seq<string>)
    ensures forall x :: x in r <==> x in ws && x != w
  {
    if ws == [] then []
    else if ws[0] == w then Remove(ws[1..], w)
    else [ws[0]] + Remove(ws[1..], w)
  }

  predicate Distinct(ws: seq<string>) {
    forall i, j :: 0 <= i < j < |ws| ==> ws[i] != ws[j]
  }

  lemma {:induction false} RemoveKeepsDistinct(ws: seq<string>, w: string)
    requires Distinct(ws)
    ensures Distinct(Remove(ws, w))
  {
    if ws != [] {
      RemoveKeepsDistinct(ws[1..], w);
      assert forall k :: 0 <= k < |ws[1..]| ==> ws[1..][k] == ws[k + 1] != ws[0];
      assert ws[0] !in Remove(ws[1..], w);
    }
  }

  /** Deleting a warehouse leaves every other warehouse's rows, and their occupancy, as they were. */
  lemma {:induction false} DeleteWarehouseKeepsOthers(items: seq<WarehouseItem>, deleted: string, w: string)
    requires w != deleted
    ensures ItemsOf(ItemsNotOf(items, deleted), w) == ItemsOf(items, w)
  {
    if items != [] {
      DeleteWarehouseKeepsOthers(items[1..], deleted, w);
      var rest := ItemsNotOf(items[1..], deleted);
      if items[0].warehouseId == deleted {
        assert ItemsNotOf(items, deleted) == rest;
        assert ItemsOf(items, w) == ItemsOf(items[1..], w);
      } else {
        assert ItemsNotOf(items, deleted) == [items[0]] + rest;
        assert ([items[0]] + rest)[1..] == rest;
      }
    }
  }

  /** Deleting rows keeps the remaining ids distinct and below the bound. */
  lemma {:induction false} ItemsNotOfWellFormed(items: seq<WarehouseItem>, deleted: string, bound: nat)
    requires IdsBelow(items, bound) && DistinctIds(items)
    ensures IdsBelow(ItemsNotOf(items, deleted), bound) && DistinctIds(ItemsNotOf(items, deleted))
  {
    if items != [] {
      ItemsNotOfWellFormed(items[1..], deleted, bound);
      var rest := ItemsNotOf(items[1..], deleted);
      if items[0].warehouseId != deleted {
        assert ItemsNotOf(items, deleted) == [items[0]] + rest;
        forall k | 0 <= k < |rest| ensures rest[k].id != items[0].id {
          var j :| 0 <= j < |items[1..]| && items[1..][j] == rest[k];
          assert items[j + 1] == rest[k];
        }
      }
    }
  }

  /** The database the services write through. */
  class InventoryDb {
    var warehouses: seq<string>
    var items: seq<WarehouseItem>
    var movements: seq<StockMovement>
    var nextItemId: nat

    function State(): Ledger
      reads this
    {
      Ledger(warehouses, items, movements, nextItemId)
    }

    ghost predicate Valid()
      reads this
    {
      WellFormed(State()) && Distinct(warehouses)
    }

    constructor (warehouseIds: seq<string>)
      requires Distinct(warehouseIds)
      ensures Valid()
      ensures warehouses == warehouseIds && items == [] && movements == [] && nextItemId == 0
    {
      warehouses := warehouseIds;
      items := [];
      movements := [];
      nextItemId := 0;
    }
  }

  /** removeStock: find the row, reject a missing row or an insufficient quantity, then update and log. */
  method RemoveStock(db: InventoryDb, warehouseId: string, productId: int, quantity: int)
    returns (r: Result<WarehouseItem, LedgerError>)
    requires db.Valid()
    modifies db
    ensures db.Valid()
    ensures match AfterRemoveStock(old(db.State()), warehouseId, productId, quantity)
      case Ok((l', item)) => r == Ok(item) && db.State() == l'
      case Err(e) => r == Err(e) && db.State() == old(db.State())
  {
    var found := FindFirst(db.items, warehouseId, productId);
    if found.None? {
      return Err(ItemNotFound);
    }
    var i := found.value;
    var item := db.items[i];
    if item.quantity < quantity {
      return Err(InsufficientStock);
    }
    var updated := item.(
      quantity := item.quantity - quantity,
      status := CalculateStockStatus(item.quantity - quantity, item.minimumStock));
    db.items := db.items[i := updated];
    db.movements := db.movements + [StockMovement(item.id, Out, quantity, SystemUser)];
    r := Ok(updated);
  }

  /** deleteWarehouse: delete the warehouse's rows, then the warehouse itself. */
  method DeleteWarehouse(db: InventoryDb, warehouseId: string) returns (r: Option<LedgerError>)
    requires db.Valid()
    modifies db
    ensures db.Valid()
    ensures (db.State(), r) == AfterDeleteWarehouse(old(db.State()), warehouseId)
  {
    ItemsNotOfWellFormed(db.items, warehouseId, db.nextItemId);
    db.items := ItemsNotOf(db.items, warehouseId);
    if warehouseId !in db.warehouses {
      return Some(RecordNotFound);
    }
    RemoveKeepsDistinct(db.warehouses, warehouseId);
    db.warehouses := Remove(db.warehouses, warehouseId);
    r := None;
  }
}
