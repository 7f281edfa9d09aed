/**
 * The purchase-order tables shared by both versions of the purchase-order service, and the
 * operations whose code is the same in both: createOrder (with its item mapping) and the
 * cascading deleteOrder.
 *
 * Child rows (order items and documents) are only ever addressed by their unique id, so each
 * child table is a map from id to row. Ids are handed out from one counter, `nextId`, which
 * stands for the database's fresh uuids: every key in every table is below it.
 */
module PurchaseOrders {
  import opened Wrappers

  /** A child row: the order it belongs to and its mutable fields. */
  datatype Row<F> = Row(orderId: nat, data: F)

  type Table<F> = map<nat, Row<F>>

  /** The scalar header fields of an order (supplier, number, status, dates, amounts, notes). */
  type Header = map<string, string>

  datatype ItemFields = ItemFields(
    productId: int,
    quantity: int,
    unitPrice: Option<int>,
    totalPrice: int,
    qtyDone: Option<int>,
    isGift: Option<bool>,
    isBestSeller: Option<bool>,
    isNew: Option<bool>,
    status: Option<string>)

  datatype DocFields = DocFields(
    kind: string,
    title: string,
    url: string,
    uploadedAt: string,
    status: string,
    hash: string,
    mimeType: string,
    size: int)

  /** One element of a submitted `items` or `documents` array of updateOrder: its id, if it has one, and its fields. */
  datatype Submitted<F> = Submitted(id: Option<nat>, data: F)

  datatype OrderState = OrderState(
    orders: map<nat, Header>,
    items: Table<ItemFields>,
    documents: Table<DocFields>,
    nextId: nat)

  datatype OrderError =
    | RecordNotFound      // Prisma's update/delete of a missing row
    | MissingItems        // `data.items.map` on a payload without items
    | NoWarehouseItem     // `item.product.WarehouseItem[0].price` on a product stocked nowhere
    | ForeignKeyViolation // a child row pointed at an order that does not exist

  /** Every row's id, and the id of the order it points to, are below the bound. */
  predicate KeysBelow<F>(t: Table<F>, bound: nat) {
    forall k :: k in t ==> k < bound && t[k].orderId < bound
  }

  /** Every id in use is below the counter, so the next id is fresh in every table. */
  predicate WellFormed(s: OrderState) {
    (forall k :: k in s.orders ==> k < s.nextId) && KeysBelow(s.items, s.nextId) && KeysBelow(s.documents, s.nextId)
  }

  /** The ids of an order's children (what `include: { items: true }` returns, as ids). */
  function ChildIds<F>(t: Table<F>, orderId: nat): (r: set<nat>)
    ensures forall k :: k in r <==> k in t && t[k].orderId == orderId
  {
    set k | k in t && t[k].orderId == orderId
  }

  /** `deleteMany({ where: { orderId } })`: drop every child of the order. */
  function DeleteChildren<F>(t: Table<F>, orderId: nat): (r: Table<F>)
    ensures ChildIds(r, orderId) == {}
    ensures forall k :: k in t && t[k].orderId != orderId ==> k in r
    ensures forall k :: k in r ==> k in t && r[k] == t[k]
  {
    map k | k in t && t[k].orderId != orderId :: t[k]
  }

  /** The ids n, n + 1, ..., m - 1. */
  function Range(n: nat, m: nat): (r: set<nat>)
    ensures forall k :: k in r <==> n <= k < m
    decreases m
  {
    if m <= n then {} else Range(n, m - 1) + {m - 1}
  }

  lemma {:induction false} RangeSize(n: nat, m: nat)
    requires n <= m
    ensures |Range(n, m)| == m - n
    decreases m
  {
    if n < m {
      RangeSize(n, m - 1);
    }
  }

  /** One element of `data.items` in createOrder: the product's id, the quantity, and the prices of the product's warehouse items. */
  datatype NewLine = NewLine(productId: int, quantity: int, warehousePrices: seq<Option<int>>)

  /**
   * createOrder's item mapping: unitPrice is the price of the product's first warehouse item
   * and totalPrice is quantity times that price, where a null price multiplies as 0. A product
   * without warehouse items makes the mapping throw.
   */
  function CreateLines(lines: seq<NewLine>): (r: Result<seq<ItemFields>, OrderError>)
    ensures r.Ok? <==> forall k :: 0 <= k < |lines| ==> lines[k].warehousePrices != []
    ensures r.Err? ==> r.error == NoWarehouseItem
    ensures r.Ok? ==> |r.value| == |lines| && forall k :: 0 <= k < |lines| ==>
      && r.value[k].productId == lines[k].productId
      && r.value[k].quantity == lines[k].quantity
      && r.value[k].unitPrice == lines[k].warehousePrices[0]
  {
    if lines == [] then Ok([])
    else if lines[0].warehousePrices == [] then Err(NoWarehouseItem)
    else match CreateLines(lines[1..])
      case Err(e) => Err(e)
      case Ok(rest) =>
        var price := lines[0].warehousePrices[0];
        Ok([ItemFields(lines[0].productId, lines[0].quantity, price, lines[0].quantity * price.GetOr(0),
                       None, None, None, None, None)] + rest)
  }

  /** Every created item's total is its quantity times its unit price (0 for a null price). */
  lemma {:induction false} CreateLinesTotals(lines: seq<NewLine>)
    requires CreateLines(lines).Ok?
    ensures var r := CreateLines(lines).value;
      forall k :: 0 <= k < |r| ==> Priced(r[k])
  {
    if lines != [] {
      CreateLinesTotals(lines[1..]);
    }
  }

  /** The items table with the given rows added under consecutive fresh ids n, n + 1, ... */
  function CreateAll<F>(t: Table<F>, orderId: nat, rows: seq<F>, n: nat): (r: Table<F>)
    decreases |rows|
  {
    if rows == [] then t
    else CreateAll(t, orderId, rows[..|rows| - 1], n)[n + |rows| - 1 := Row(orderId, rows[|rows| - 1])]
  }

  /**
   * Whatever the table held, row j is stored under n + j, and every key outside n .. n + |rows| - 1
   * keeps the row it had.
   */
  lemma {:induction false} CreateAllRows<F>(t: Table<F>, orderId: nat, rows: seq<F>, n: nat)
    ensures forall k :: n <= k < n + |rows| ==>
      k in CreateAll(t, orderId, rows, n) && CreateAll(t, orderId, rows, n)[k] == Row(orderId, rows[k - n])
    ensures forall k :: k in CreateAll(t, orderId, rows, n) && !(n <= k < n + |rows|) ==>
      k in t && CreateAll(t, orderId, rows, n)[k] == t[k]
    decreases |rows|
  {
    if rows != [] {
      var prefix := rows[..|rows| - 1];
      CreateAllRows(t, orderId, prefix, n);
      assert forall j :: 0 <= j < |prefix| ==> prefix[j] == rows[j];
    }
  }

  /**
   * Nested `create` of a list of rows: row j gets id n + j, the order's children become its old
   * children plus exactly those ids, and every other key keeps its row.
   */
  lemma {:induction false} CreateAllEffect<F>(t: Table<F>, orderId: nat, rows: seq<F>, n: nat)
    requires KeysBelow(t, n) && orderId < n
    ensures var r := CreateAll(t, orderId, rows, n);
      && KeysBelow(r, n + |rows|)
      && (forall j :: 0 <= j < |rows| ==> n + j in r && r[n + j] == Row(orderId, rows[j]))
      && (forall k :: k in t ==> k in r && r[k] == t[k])
      && ChildIds(r, orderId) == ChildIds(t, orderId) + Range(n, n + |rows|)
      && (forall o :: o != orderId ==> ChildIds(r, o) == ChildIds(t, o))
    decreases |rows|
  {
    if rows != [] {
      var prefix := rows[..|rows| - 1];
      CreateAllEffect(t, orderId, prefix, n);
      assert forall j :: 0 <= j < |prefix| ==> prefix[j] == rows[j];
      assert Range(n, n + |rows|) == Range(n, n + |prefix|) + {n + |prefix|};
    }
  }

  /**
   * createOrder as a state transition. The item mapping runs before any write, so a payload
   * without items or with a product stocked nowhere fails with nothing stored; otherwise the
   * header gets a fresh id and each mapped item a fresh id after it, all attached to the order.
   */
  function AfterCreateOrder(s: OrderState, header: Header, lines: Option<seq<NewLine>>): (r: Result<(OrderState, nat), OrderError>)
    ensures r.Err? <==> lines.None? || CreateLines(lines.value).Err?
    ensures r.Ok? ==> r.value.1 == s.nextId && r.value.0.orders == s.orders[s.nextId := header]
    ensures r.Ok? ==> r.value.0.documents == s.documents
  {
    if lines.None? then Err(MissingItems)
    else match CreateLines(lines.value)
      case Err(e) => Err(e)
      case Ok(mapped) =>
        var id := s.nextId;
        Ok((OrderState(s.orders[id := header], CreateAll(s.items, id, mapped, id + 1), s.documents, id + 1 + |mapped|), id))
  }

  /**
   * A created order has exactly one item per submitted line, each priced as quantity times
   * unit price, no documents, and every row that existed before is kept.
   */
  lemma CreateOrderEffect(s: OrderState, header: Header, lines: Option<seq<NewLine>>)
    requires WellFormed(s)
    requires AfterCreateOrder(s, header, lines).Ok?
    ensures var (s', id) := AfterCreateOrder(s, header, lines).value;
      WellFormed(s') && id !in s.orders && ChildIds(s'.documents, id) == {}
    ensures var (s', id) := AfterCreateOrder(s, header, lines).value;
      |ChildIds(s'.items, id)| == |lines.value|
    ensures var (s', id) := AfterCreateOrder(s, header, lines).value;
      forall k :: k in ChildIds(s'.items, id) ==> Priced(s'.items[k].data)
    ensures var (s', id) := AfterCreateOrder(s, header, lines).value;
      forall k :: k in s.items ==> k in s'.items && s'.items[k] == s.items[k]
  {
    var id := s.nextId;
    var mapped := CreateLines(lines.value).value;
    var s' := OrderState(s.orders[id := header], CreateAll(s.items, id, mapped, id + 1), s.documents, id + 1 + |mapped|);
    assert AfterCreateOrder(s, header, lines) == Ok((s', id));
    assert |mapped| == |lines.value|;
    assert KeysBelow(s.items, id + 1);
    CreateLinesTotals(lines.value);
    CreateAllEffect(s.items, id, mapped, id + 1);
    assert ChildIds(s.items, id) == {};
    CreatedCount(s.items, id, mapped, id + 1);
    CreatedItemsPriced(s.items, id, mapped);
    assert ChildIds(s.documents, id) == {};
    assert KeysBelow(s'.items, s'.nextId);
    assert KeysBelow(s'.documents, s'.nextId);
    assert forall k :: k in s'.orders ==> k < s'.nextId;
  }

  /** Creating rows for an order that has no children makes its children exactly the fresh ids ... */
  lemma CreatedIds<F>(t: Table<F>, orderId: nat, rows: seq<F>, n: nat)
    requires KeysBelow(t, n) && orderId < n && ChildIds(t, orderId) == {}
    ensures ChildIds(CreateAll(t, orderId, rows, n), orderId) == Range(n, n + |rows|)
  {
    CreateAllEffect(t, orderId, rows, n);
  }

  /** ... so it has one child per row. */
  lemma CreatedCount<F>(t: Table<F>, orderId: nat, rows: seq<F>, n: nat)
    requires KeysBelow(t, n) && orderId < n && ChildIds(t, orderId) == {}
    ensures |ChildIds(CreateAll(t, orderId, rows, n), orderId)| == |rows|
  {
    var m := n + |rows|;
    RangeSize(n, m);
    assert |Range(n, m)| == |rows|;
    CreatedIds(t, orderId, rows, n);
  }

  /** Each item created for a new order carries its line's price. */
  lemma CreatedItemsPriced(t: Table<ItemFields>, id: nat, mapped: seq<ItemFields>)
    requires KeysBelow(t, id)
    requires forall j :: 0 <= j < |mapped| ==> Priced(mapped[j])
    ensures var r := CreateAll(t, id, mapped, id + 1);
      forall k :: k in ChildIds(r, id) ==> Priced(r[k].data)
  {
    var r := CreateAll(t, id, mapped, id + 1);
    CreateAllEffect(t, id, mapped, id + 1);
    assert ChildIds(t, id) == {};
    var created := Range(id + 1, id + 1 + |mapped|);
    assert ChildIds(r, id) == created;
    forall k | k in created ensures Priced(r[k].data) {
      var j := k - id - 1;
      assert r[id + 1 + j] == Row(id, mapped[j]);
    }
  }

  /** An item whose total is its quantity times its unit price, a null price counting as 0. */
  predicate Priced(item: ItemFields) {
    item.totalPrice == item.quantity * item.unitPrice.GetOr(0)
  }

  /**
   * deleteOrder as a state transition: the order's items, then its documents, then its header
   * are deleted; a missing header fails with RecordNotFound after the children are gone.
   */
  function AfterDeleteOrder(s: OrderState, id: nat): (r: (OrderState, Option<OrderError>))
    ensures ChildIds(r.0.items, id) == {} && ChildIds(r.0.documents, id) == {}
    ensures id !in r.0.orders
    ensures r.1.Some? <==> id !in s.orders
    ensures forall o :: o in s.orders && o != id ==> o in r.0.orders && r.0.orders[o] == s.orders[o]
    ensures forall k :: k in s.items && s.items[k].orderId != id ==> k in r.0.items && r.0.items[k] == s.items[k]
    ensures forall k :: k in s.documents && s.documents[k].orderId != id ==> k in r.0.documents && r.0.documents[k] == s.documents[k]
  {
    var s1 := s.(items := DeleteChildren(s.items, id), documents := DeleteChildren(s.documents, id));
    if id in s.orders then (s1.(orders := s.orders - {id}), None)
    else (s1, Some(RecordNotFound))
  }

  /** The database the purchase-order services write through. */
  class OrderDb {
    var orders: map<nat, Header>
    var items: Table<ItemFields>
    var documents: Table<DocFields>
    var nextId: nat

    function State(): OrderState
      reads this
    {
      OrderState(orders, items, documents, nextId)
    }

    ghost predicate Valid()
      reads this
    {
      WellFormed(State())
    }

    constructor ()
      ensures Valid()
      ensures orders == map[] && items == map[] && documents == map[] && nextId == 0
    {
      orders := map[];
      items := map[];
      documents := map[];
      nextId := 0;
    }
  }

  /** createOrder: map the lines (which may throw), then create the header with its items. */
  method CreateOrder(db: OrderDb, header: Header, lines: Option<seq<NewLine>>) returns (r: Result<nat, OrderError>)
    requires db.Valid()
    modifies db
    ensures db.Valid()
    ensures match AfterCreateOrder(old(db.State()), header, lines)
      case Ok((s', id)) => r == Ok(id) && db.State() == s'
      case Err(e) => r == Err(e) && db.State() == old(db.State())
  {
    if lines.None? {
      return Err(MissingItems);
    }
    var mapped := CreateLines(lines.value);
    if mapped.Err? {
      return Err(mapped.error);
    }
    CreateOrderEffect(db.State(), header, lines);
    var id := db.nextId;
    db.orders := db.orders[id := header];
    db.items := CreateAll(db.items, id, mapped.value, id + 1);
    db.nextId := id + 1 + |mapped.value|;
    r := Ok(id);
  }

  /** deleteOrder: delete the items, then the documents, then the header. */
  method DeleteOrder(db: OrderDb, id: nat) returns (r: Option<OrderError>)
    requires db.Valid()
    modifies db
    ensures db.Valid()
    ensures (db.State(), r) == AfterDeleteOrder(old(db.State()), id)
  {
    db.items := DeleteChildren(db.items, id);
    db.documents := DeleteChildren(db.documents, id);
    if id !in db.orders {
      return Some(RecordNotFound);
    }
    db.orders := db.orders - {id};
    r := None;
  }
}
