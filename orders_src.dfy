/**
 * The TypeScript version of updateOrder, which replaces rather than reconciles: every child of
 * a collection given as an array is deleted, then the header update creates one new child per
 * submitted element, ignoring the ids the elements carry. The deletions run before, and apart
 * from, the header update, so they stay done when the order does not exist. Also updateDocument,
 * which rewrites one document by id.
 */
module SrcPurchaseOrderService {
  import opened Wrappers
  import opened PurchaseOrders

  /** The fields of the submitted elements, in order; their ids play no part. */
  function Fields<F>(subs: seq<Submitted<F>>): (r: seq<F>)
    ensures |r| == |subs| && forall j :: 0 <= j < |subs| ==> r[j] == subs[j].data
  {
    seq(|subs|, j requires 0 <= j < |subs| => subs[j].data)
  }

  /** A collection given as an array after the update: its children deleted, then one fresh row per element. */
  function Replaced<F>(t: Table<F>, id: nat, subs: seq<Submitted<F>>, n: nat): (r: Table<F>)
    ensures forall k :: n <= k < n + |subs| ==> k in r && r[k] == Row(id, subs[k - n].data)
    ensures forall k :: k in ChildIds(r, id) ==> n <= k < n + |subs|
  {
    CreateAllRows(DeleteChildren(t, id), id, Fields(subs), n);
    CreateAll(DeleteChildren(t, id), id, Fields(subs), n)
  }

  /** How many ids the creation of an optional array uses. */
  function Count<F>(subs: Option<seq<Submitted<F>>>): nat {
    if subs.Some? then |subs.value| else 0
  }

  /**
   * updateOrder as a state transition: the `deleteMany` of each collection given as an array,
   * then the update of the header, which fails with RecordNotFound when there is no order and
   * otherwise applies the submitted header fields and creates the new items (fresh ids from the
   * counter) and then the new documents.
   */
  function AfterUpdateOrder(s: OrderState, id: nat, patch: Header,
                            items: Option<seq<Submitted<ItemFields>>>,
                            documents: Option<seq<Submitted<DocFields>>>): (r: (OrderState, Option<OrderError>))
    ensures r.1.Some? <==> id !in s.orders
    ensures r.1.Some? ==> r.1 == Some(RecordNotFound) && r.0.orders == s.orders && r.0.nextId == s.nextId
    ensures r.1.None? ==> r.0.orders == s.orders[id := s.orders[id] + patch]
    ensures items.None? ==> r.0.items == s.items
    ensures documents.None? ==> r.0.documents == s.documents
  {
    if id !in s.orders then
      (s.(items := if items.Some? then DeleteChildren(s.items, id) else s.items,
          documents := if documents.Some? then DeleteChildren(s.documents, id) else s.documents),
       Some(RecordNotFound))
    else
      var n := s.nextId;
      (OrderState(
         s.orders[id := s.orders[id] + patch],
         if items.Some? then Replaced(s.items, id, items.value, n) else s.items,
         if documents.Some? then Replaced(s.documents, id, documents.value, n + Count(items)) else s.documents,
         n + Count(items) + Count(documents)),
       None)
  }

  /**
   * Replacing a collection: afterwards the order's children are exactly one fresh row per
   * submitted element, holding that element's fields in array order, whatever ids the elements
   * carried; no old child survives and other orders' rows are untouched.
   */
  lemma {:induction false} ReplacedEffect<F>(t: Table<F>, id: nat, subs: seq<Submitted<F>>, n: nat)
    requires KeysBelow(t, n) && id < n
    ensures var r := Replaced(t, id, subs, n);
      && KeysBelow(r, n + |subs|)
      && ChildIds(r, id) == Range(n, n + |subs|)
      && |ChildIds(r, id)| == |subs|
      && (forall j :: 0 <= j < |subs| ==> n + j in r && r[n + j] == Row(id, subs[j].data))
      && (forall k :: k in t && t[k].orderId != id ==> k in r && r[k] == t[k])
  {
    var deleted := DeleteChildren(t, id);
    assert Replaced(t, id, subs, n) == CreateAll(deleted, id, Fields(subs), n);
    CreateAllEffect(deleted, id, Fields(subs), n);
    CreatedCount(deleted, id, Fields(subs), n);
  }

  /** Replacing a collection keeps every id below the counter moved past the created rows. */
  lemma ReplacedKeysBelow<F>(t: Table<F>, id: nat, subs: seq<Submitted<F>>, n: nat, bound: nat)
    requires KeysBelow(t, n) && id < n && n + |subs| <= bound
    ensures KeysBelow(Replaced(t, id, subs, n), bound)
  {
    ReplacedEffect(t, id, subs, n);
  }

  /** updateOrder keeps every id below the counter. */
  lemma UpdateOrderWellFormed(s: OrderState, id: nat, patch: Header,
                              items: Option<seq<Submitted<ItemFields>>>, documents: Option<seq<Submitted<DocFields>>>)
    requires WellFormed(s)
    ensures WellFormed(AfterUpdateOrder(s, id, patch, items, documents).0)
  {
    if id in s.orders {
      var n := s.nextId;
      var s' := AfterUpdateOrder(s, id, patch, items, documents).0;
      if items.Some? {
        ReplacedKeysBelow(s.items, id, items.value, n, s'.nextId);
      }
      if documents.Some? {
        ReplacedKeysBelow(s.documents, id, documents.value, n + Count(items), s'.nextId);
      }
    }
  }

  /** For an existing order, the submitted item list replaces its items as ReplacedEffect states. */
  lemma UpdateOrderReplacesItems(s: OrderState, id: nat, patch: Header, items: seq<Submitted<ItemFields>>,
                                 documents: Option<seq<Submitted<DocFields>>>)
    requires WellFormed(s) && id in s.orders
    ensures var s' := AfterUpdateOrder(s, id, patch, Some(items), documents).0;
      && ChildIds(s'.items, id) == Range(s.nextId, s.nextId + |items|)
      && |ChildIds(s'.items, id)| == |items|
      && (forall j :: 0 <= j < |items| ==> s'.items[s.nextId + j] == Row(id, items[j].data))
      && (forall k :: k in s.items && s.items[k].orderId != id ==> k in s'.items && s'.items[k] == s.items[k])
  {
    ReplacedEffect(s.items, id, items, s.nextId);
  }

  /**
   * Without an order the update fails, yet the children of every collection given as an array
   * are already deleted; the header table and the id counter are unchanged.
   */
  lemma UpdateMissingOrderDeletesChildren(s: OrderState, id: nat, patch: Header,
                                          items: Option<seq<Submitted<ItemFields>>>,
                                          documents: Option<seq<Submitted<DocFields>>>)
    requires id !in s.orders
    ensures var (s', e) := AfterUpdateOrder(s, id, patch, items, documents);
      && e == Some(RecordNotFound)
      && (items.Some? ==> ChildIds(s'.items, id) == {})
      && (documents.Some? ==> ChildIds(s'.documents, id) == {})
      && (forall k :: k in s.items && s.items[k].orderId != id ==> k in s'.items && s'.items[k] == s.items[k])
  {
  }

  /** updateOrder: delete the children of each array-valued collection, then update the header and create the new children. */
  method UpdateOrder(db: OrderDb, id: nat, patch: Header,
                     items: Option<seq<Submitted<ItemFields>>>,
                     documents: Option<seq<Submitted<DocFields>>>) returns (r: Option<OrderError>)
    requires db.Valid()
    modifies db
    ensures db.Valid()
    ensures (db.State(), r) == AfterUpdateOrder(old(db.State()), id, patch, items, documents)
  {
    UpdateOrderWellFormed(db.State(), id, patch, items, documents);
    var n := db.nextId;
    if items.Some? {
      db.items := DeleteChildren(db.items, id);
    }
    if documents.Some? {
      db.documents := DeleteChildren(db.documents, id);
    }
    if id !in db.orders {
      return Some(RecordNotFound);
    }
    if items.Some? {
      db.items := CreateAll(db.items, id, Fields(items.value), n);
    }
    if documents.Some? {
      db.documents := CreateAll(db.documents, id, Fields(documents.value), n + Count(items));
    }
    db.orders := db.orders[id := db.orders[id] + patch];
    db.nextId := n + Count(items) + Count(documents);
    r := None;
  }

  /**
   * The body updateDocument passes to Prisma unfiltered: the document's fields and, when the
   * body carries one, the `orderId` the document is moved to.
   */
  datatype DocUpdate = DocUpdate(data: DocFields, orderId: Option<nat>)

  /**
   * updateDocument as a state transition: a missing document fails with RecordNotFound; a body
   * naming an order that does not exist fails the foreign key; otherwise the document takes the
   * new fields and, when the body names one, the new order.
   */
  function AfterUpdateDocument(s: OrderState, documentId: nat, body: DocUpdate): (r: Result<OrderState, OrderError>)
    ensures r == Err(RecordNotFound) <==> documentId !in s.documents
    ensures r == Err(ForeignKeyViolation) <==>
      documentId in s.documents && body.orderId.Some? && body.orderId.value !in s.orders
    ensures r.Err? ==> r.error == RecordNotFound || r.error == ForeignKeyViolation
    ensures r.Ok? ==> documentId in r.value.documents && r.value.documents[documentId].data == body.data
  {
    if documentId !in s.documents then Err(RecordNotFound)
    else if body.orderId.Some? && body.orderId.value !in s.orders then Err(ForeignKeyViolation)
    else
      var owner := if body.orderId.Some? then body.orderId.value else s.documents[documentId].orderId;
      Ok(s.(documents := s.documents[documentId := Row(owner, body.data)]))
  }

  /**
   * updateDocument changes that one document and nothing else: no other row and no other
   * table. The document stays with its order unless the body names another one, in which case
   * it leaves its old order's documents and joins the named order's.
   */
  lemma UpdateDocumentOnlyThatOne(s: OrderState, documentId: nat, body: DocUpdate)
    requires AfterUpdateDocument(s, documentId, body).Ok?
    ensures var s' := AfterUpdateDocument(s, documentId, body).value;
      && s'.orders == s.orders && s'.items == s.items && s'.nextId == s.nextId
      && s'.documents.Keys == s.documents.Keys
      && (forall k :: k in s.documents && k != documentId ==> s'.documents[k] == s.documents[k])
      && (body.orderId.None? ==> s'.documents[documentId].orderId == s.documents[documentId].orderId)
      && (body.orderId.Some? ==> body.orderId.value in s.orders && documentId in ChildIds(s'.documents, body.orderId.value))
      && (body.orderId.Some? && body.orderId.value != s.documents[documentId].orderId ==>
            documentId !in ChildIds(s'.documents, s.documents[documentId].orderId))
      && (WellFormed(s) ==> WellFormed(s'))
  {
  }

  /** updateDocument: rewrite the document with that id. */
  method UpdateDocument(db: OrderDb, documentId: nat, body: DocUpdate) returns (r: Option<OrderError>)
    requires db.Valid()
    modifies db
    ensures db.Valid()
    ensures match AfterUpdateDocument(old(db.State()), documentId, body)
      case Ok(s') => r.None? && db.State() == s'
      case Err(e) => r == Some(e) && db.State() == old(db.State())
  {
    if documentId !in db.documents {
      return Some(RecordNotFound);
    }
    var owner := db.documents[documentId].orderId;
    if body.orderId.Some? {
      if body.orderId.value !in db.orders {
        return Some(ForeignKeyViolation);
      }
      owner := body.orderId.value;
    }
    db.documents := db.documents[documentId := Row(owner, body.data)];
    r := None;
  }
}
