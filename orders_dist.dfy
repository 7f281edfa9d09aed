/**
 * The compiled version of updateOrder, which reconciles an order's items and documents with a
 * submitted list: one upsert per submitted element (an element whose id is missing, or is not
 * the id of a child of this order, creates a row), then deletion of exactly those children,
 * as they were before the call, whose ids were not submitted. The header update and the upserts
 * form one transaction, which fails as a whole when the order does not exist.
 */
module DistPurchaseOrderService {
  import opened Wrappers
  import opened PurchaseOrders

  /** Whether a submitted element names one of the given children (so that its upsert updates). */
  predicate IsMatch<F>(children: set<nat>, sub: Submitted<F>) {
    sub.id.Some? && sub.id.value in children
  }

  /**
   * `upsert({ where: { id: sub.id || '', orderId }, update, create })`: rewrite the row with that
   * id when it is a child of this order, otherwise create a row under the fresh id n.
   */
  function Upsert<F>(t: Table<F>, orderId: nat, sub: Submitted<F>, n: nat): (r: (Table<F>, nat))
    ensures n <= r.1 <= n + 1
    ensures forall k :: k in t ==> k in r.0
    ensures forall k :: k in r.0 && (k !in t || r.0[k] != t[k]) ==> r.0[k] == Row(orderId, sub.data)
  {
    if IsMatch(ChildIds(t, orderId), sub) then (t[sub.id.value := Row(orderId, sub.data)], n)
    else (t[n := Row(orderId, sub.data)], n + 1)
  }

  /** The upserts of a submitted list, in array order. */
  function UpsertAll<F>(t: Table<F>, orderId: nat, subs: seq<Submitted<F>>, n: nat): (r: (Table<F>, nat))
    ensures n <= r.1 <= n + |subs|
    ensures forall k :: k in t ==> k in r.0
    ensures forall k :: k in r.0 && (k !in t || r.0[k] != t[k]) ==> r.0[k].orderId == orderId
    decreases |subs|
  {
    if subs == [] then (t, n)
    else
      var (t1, n1) := UpsertAll(t, orderId, subs[..|subs| - 1], n);
      Upsert(t1, orderId, subs[|subs| - 1], n1)
  }

  /** `newItemIds`: the ids the submitted elements carry. */
  function SubmittedIds<F>(subs: seq<Submitted<F>>): (r: set<nat>)
    ensures forall j :: 0 <= j < |subs| && subs[j].id.Some? ==> subs[j].id.value in r
    ensures forall k :: k in r ==> exists j :: 0 <= j < |subs| && subs[j].id == Some(k)
    decreases |subs|
  {
    if subs == [] then {}
    else
      var prefix := subs[..|subs| - 1];
      assert forall j :: 0 <= j < |prefix| ==> prefix[j] == subs[j];
      SubmittedIds(prefix) + (if subs[|subs| - 1].id.Some? then {subs[|subs| - 1].id.value} else {})
  }

  /** `toDelete`: the children the order had before the call whose ids were not submitted. */
  function ToDelete(existing: set<nat>, submitted: set<nat>): (r: set<nat>)
    ensures forall k :: k in r <==> k in existing && k !in submitted
  {
    existing - submitted
  }

  /** `deleteMany({ where: { id: { in: ids } } })`. */
  function DeleteIds<F>(t: Table<F>, ids: set<nat>): (r: Table<F>)
    ensures forall k :: k in r <==> k in t && k !in ids
    ensures forall k :: k in r ==> r[k] == t[k]
  {
    map k | k in t && k !in ids :: t[k]
  }

  /** One collection's reconciliation: the upserts, then the deletion of unsubmitted old children. */
  function Reconcile<F>(t: Table<F>, orderId: nat, subs: seq<Submitted<F>>, n: nat): (r: (Table<F>, nat))
    ensures n <= r.1 <= n + |subs|
    ensures forall k :: k in t && t[k].orderId != orderId ==> k in r.0
    ensures forall k :: k in ChildIds(t, orderId) && k in r.0 ==> k in SubmittedIds(subs)
  {
    var (t1, n1) := UpsertAll(t, orderId, subs, n);
    (DeleteIds(t1, ToDelete(ChildIds(t, orderId), SubmittedIds(subs))), n1)
  }

  /** How many submitted elements create a row: those that do not name a child of the order. */
  function Creates<F>(children: set<nat>, subs: seq<Submitted<F>>): nat
    decreases |subs|
  {
    if subs == [] then 0
    else Creates(children, subs[..|subs| - 1]) + (if IsMatch(children, subs[|subs| - 1]) then 0 else 1)
  }

  /** The submitted ids are distinct. */
  predicate DistinctIds<F>(subs: seq<Submitted<F>>) {
    forall i, j :: 0 <= i < j < |subs| && subs[i].id.Some? ==> subs[i].id != subs[j].id
  }

  /** Every submitted id was issued before the call (fresh ids are not guessable). */
  predicate IdsIssuedBefore<F>(subs: seq<Submitted<F>>, n: nat) {
    forall j :: 0 <= j < |subs| && subs[j].id.Some? ==> subs[j].id.value < n
  }

  /**
   * One upsert: a submitted element naming a child of this order rewrites that row and uses no
   * id; any other element creates one row under the fresh id. Rows of other orders are untouched.
   */
  lemma UpsertEffect<F>(t: Table<F>, orderId: nat, sub: Submitted<F>, n: nat)
    requires KeysBelow(t, n) && orderId < n
    ensures var (r, m) := Upsert(t, orderId, sub, n);
      && KeysBelow(r, m)
      && (forall k :: k in t ==> k in r)
      && (forall k :: k in t && t[k].orderId != orderId ==> r[k] == t[k])
      && (forall o :: o != orderId ==> ChildIds(r, o) == ChildIds(t, o))
      && (IsMatch(ChildIds(t, orderId), sub) ==>
            m == n && ChildIds(r, orderId) == ChildIds(t, orderId) && r == t[sub.id.value := Row(orderId, sub.data)])
      && (!IsMatch(ChildIds(t, orderId), sub) ==>
            m == n + 1 && n !in t && ChildIds(r, orderId) == ChildIds(t, orderId) + {n} && r == t[n := Row(orderId, sub.data)])
  {
  }

  /**
   * The upserts of a whole list: the order's children become its old children plus the fresh
   * ids n .. m - 1, one per element that names no old child, and rows of other orders are
   * untouched.
   */
  lemma {:induction false} UpsertAllEffect<F>(t: Table<F>, orderId: nat, subs: seq<Submitted<F>>, n: nat)
    requires KeysBelow(t, n) && orderId < n && IdsIssuedBefore(subs, n)
    ensures var (r, m) := UpsertAll(t, orderId, subs, n);
      && m == n + Creates(ChildIds(t, orderId), subs)
      && KeysBelow(r, m)
      && (forall k :: k in t ==> k in r)
      && (forall k :: k in t && t[k].orderId != orderId ==> r[k] == t[k])
      && (forall o :: o != orderId ==> ChildIds(r, o) == ChildIds(t, o))
      && ChildIds(r, orderId) == ChildIds(t, orderId) + Range(n, m)
    decreases |subs|
  {
    if subs != [] {
      var prefix := subs[..|subs| - 1];
      var sub := subs[|subs| - 1];
      assert IdsIssuedBefore(prefix, n) by {
        assert forall j :: 0 <= j < |prefix| ==> prefix[j] == subs[j];
      }
      UpsertAllEffect(t, orderId, prefix, n);
      var (t1, n1) := UpsertAll(t, orderId, prefix, n);
      UpsertEffect(t1, orderId, sub, n1);
      assert IsMatch(ChildIds(t1, orderId), sub) <==> IsMatch(ChildIds(t, orderId), sub);
      assert Range(n, n1 + 1) == Range(n, n1) + {n1};
    }
  }

  /** The upserts never invalidate the id counter, whatever ids are submitted. */
  lemma {:induction false} UpsertAllKeysBelow<F>(t: Table<F>, orderId: nat, subs: seq<Submitted<F>>, n: nat)
    requires KeysBelow(t, n) && orderId < n
    ensures var (r, m) := UpsertAll(t, orderId, subs, n);
      m >= n && KeysBelow(r, m)
    decreases |subs|
  {
    if subs != [] {
      UpsertAllKeysBelow(t, orderId, subs[..|subs| - 1], n);
      var (t1, n1) := UpsertAll(t, orderId, subs[..|subs| - 1], n);
      UpsertEffect(t1, orderId, subs[|subs| - 1], n1);
    }
  }

  /**
   * With distinct submitted ids, the old children that are submitted and the elements that
   * create a row together account for every submitted element.
   */
  lemma {:induction false} MatchedPlusCreated<F>(children: set<nat>, subs: seq<Submitted<F>>)
    requires DistinctIds(subs)
    ensures |children * SubmittedIds(subs)| + Creates(children, subs) == |subs|
    decreases |subs|
  {
    if subs != [] {
      var prefix := subs[..|subs| - 1];
      PrefixDistinct(subs);
      MatchedPlusCreated(children, prefix);
      MatchedStep(children, subs);
    }
  }

  /** Dropping the last element keeps the submitted ids distinct. */
  lemma PrefixDistinct<F>(subs: seq<Submitted<F>>)
    requires subs != [] && DistinctIds(subs)
    ensures DistinctIds(subs[..|subs| - 1])
  {
    var prefix := subs[..|subs| - 1];
    assert forall j :: 0 <= j < |prefix| ==> prefix[j] == subs[j];
  }

  /** The last element adds one matched old child exactly when it is a match. */
  lemma MatchedStep<F>(children: set<nat>, subs: seq<Submitted<F>>)
    requires subs != [] && DistinctIds(subs)
    ensures var prefix, sub := subs[..|subs| - 1], subs[|subs| - 1];
      |children * SubmittedIds(subs)| == |children * SubmittedIds(prefix)| + (if IsMatch(children, sub) then 1 else 0)
  {
    var prefix := subs[..|subs| - 1];
    var sub := subs[|subs| - 1];
    var ids := SubmittedIds(prefix);
    assert SubmittedIds(subs) == ids + (if sub.id.Some? then {sub.id.value} else {});
    if sub.id.Some? {
      assert sub.id.value !in ids by {
        assert forall j :: 0 <= j < |prefix| ==> prefix[j] == subs[j];
      }
      AddOneIntersection(children, ids, sub.id.value);
    }
  }

  /** Intersecting with a set grown by one new element grows by one exactly when it is kept. */
  lemma AddOneIntersection(c: set<nat>, b: set<nat>, x: nat)
    requires x !in b
    ensures |c * (b + {x})| == |c * b| + (if x in c then 1 else 0)
  {
    if x in c {
      assert c * (b + {x}) == (c * b) + {x};
    } else {
      assert c * (b + {x}) == c * b;
    }
  }

  /**
   * Reconciliation converges the order's children to the submitted list: afterwards they are
   * exactly the old children whose ids were submitted plus the rows created by this call (no
   * created row is deleted, since the deletion uses the snapshot taken before the upserts),
   * every old child whose id was not submitted is gone, other orders' rows are untouched, and
   * with distinct submitted ids the order has exactly as many children as elements submitted.
   */
  lemma ReconcileConverges<F>(t: Table<F>, orderId: nat, subs: seq<Submitted<F>>, n: nat)
    requires KeysBelow(t, n) && orderId < n && IdsIssuedBefore(subs, n)
    ensures var (r, m) := Reconcile(t, orderId, subs, n);
      && KeysBelow(r, m)
      && ChildIds(r, orderId) == (ChildIds(t, orderId) * SubmittedIds(subs)) + Range(n, m)
      && (forall k :: k in ChildIds(t, orderId) && k !in SubmittedIds(subs) ==> k !in r)
      && (forall k :: k in t && t[k].orderId != orderId ==> k in r && r[k] == t[k])
      && (forall o :: o != orderId ==> ChildIds(r, o) == ChildIds(t, o))
    ensures DistinctIds(subs) ==> |ChildIds(Reconcile(t, orderId, subs, n).0, orderId)| == |subs|
  {
    var children := ChildIds(t, orderId);
    var kept := children * SubmittedIds(subs);
    UpsertAllEffect(t, orderId, subs, n);
    var (t1, m) := UpsertAll(t, orderId, subs, n);
    var r := DeleteIds(t1, ToDelete(children, SubmittedIds(subs)));
    assert Reconcile(t, orderId, subs, n) == (r, m);
    assert ChildIds(r, orderId) == kept + Range(n, m);
    forall o | o != orderId ensures ChildIds(r, o) == ChildIds(t, o) {
      assert ChildIds(t1, o) == ChildIds(t, o);
    }
    if DistinctIds(subs) {
      ConvergedCount(kept, n, m, children, subs);
    }
  }

  /** The kept old children and the fresh ids are disjoint, so they add up to the submitted count. */
  lemma ConvergedCount<F>(kept: set<nat>, n: nat, m: nat, children: set<nat>, subs: seq<Submitted<F>>)
    requires DistinctIds(subs) && kept == children * SubmittedIds(subs)
    requires forall k :: k in children ==> k < n
    requires m == n + Creates(children, subs)
    ensures |kept + Range(n, m)| == |subs|
  {
    MatchedPlusCreated(children, subs);
    RangeSize(n, m);
    assert kept * Range(n, m) == {};
  }

  /**
   * Where a submitted element ends up: under its own id when it names an old child, otherwise
   * under the fresh id n + (the number of creating elements before it).
   */
  function StoredKey<F>(children: set<nat>, n: nat, subs: seq<Submitted<F>>, j: nat): nat
    requires j < |subs|
  {
    if IsMatch(children, subs[j]) then subs[j].id.value else n + Creates(children, subs[..j])
  }

  ghost predicate Stored<F>(r: Table<F>, children: set<nat>, orderId: nat, n: nat, subs: seq<Submitted<F>>, j: nat)
    requires j < |subs|
  {
    var key := StoredKey(children, n, subs, j);
    key in r && r[key] == Row(orderId, subs[j].data)
  }

  /**
   * Given distinct ids issued before the call, after the upserts every submitted element is
   * stored, attached to the order, under its key: no later upsert overwrites an earlier one.
   */
  lemma {:induction false} UpsertAllContents<F>(t: Table<F>, orderId: nat, subs: seq<Submitted<F>>, n: nat)
    requires KeysBelow(t, n) && orderId < n && IdsIssuedBefore(subs, n) && DistinctIds(subs)
    ensures forall j :: 0 <= j < |subs| ==> Stored(UpsertAll(t, orderId, subs, n).0, ChildIds(t, orderId), orderId, n, subs, j)
    decreases |subs|
  {
    if subs != [] {
      var children := ChildIds(t, orderId);
      var last := |subs| - 1;
      var prefix := subs[..last];
      var sub := subs[last];
      assert forall j :: 0 <= j < |prefix| ==> prefix[j] == subs[j];
      assert IdsIssuedBefore(prefix, n) && DistinctIds(prefix);
      UpsertAllContents(t, orderId, prefix, n);
      UpsertAllEffect(t, orderId, prefix, n);
      var (t1, n1) := UpsertAll(t, orderId, prefix, n);
      UpsertEffect(t1, orderId, sub, n1);
      assert IsMatch(ChildIds(t1, orderId), sub) <==> IsMatch(children, sub);
      var r := UpsertAll(t, orderId, subs, n).0;
      var written := if IsMatch(children, sub) then sub.id.value else n1;
      assert r == t1[written := Row(orderId, sub.data)];
      assert subs[..last] == prefix;
      assert written == StoredKey(children, n, subs, last);
      forall j | 0 <= j < |subs| ensures Stored(r, children, orderId, n, subs, j) {
        if j < last {
          StoredEarlierKept(t1, children, orderId, n, subs, j, Row(orderId, sub.data));
        }
      }
    }
  }

  /** The last element's write does not touch the key under which an earlier element is stored. */
  lemma StoredEarlierKept<F>(t1: Table<F>, children: set<nat>, orderId: nat, n: nat, subs: seq<Submitted<F>>, j: nat, row: Row<F>)
    requires j < |subs| - 1
    requires Stored(t1, children, orderId, n, subs[..|subs| - 1], j)
    requires IdsIssuedBefore(subs, n) && DistinctIds(subs)
    ensures Stored(t1[StoredKey(children, n, subs, |subs| - 1) := row], children, orderId, n, subs, j)
  {
    var prefix := subs[..|subs| - 1];
    assert subs[..j] == prefix[..j] && prefix[j] == subs[j];
    assert subs[..|subs| - 1] == prefix;
    assert StoredKey(children, n, subs, j) == StoredKey(children, n, prefix, j);
    CreatesBound(children, prefix, j);
    assert StoredKey(children, n, subs, j) != StoredKey(children, n, subs, |subs| - 1);
  }

  /**
   * After reconciliation every submitted element is still stored under its key: the deletion
   * spares submitted ids and the rows this call created.
   */
  lemma ReconcileStoresEach<F>(t: Table<F>, orderId: nat, subs: seq<Submitted<F>>, n: nat)
    requires KeysBelow(t, n) && orderId < n && IdsIssuedBefore(subs, n) && DistinctIds(subs)
    ensures forall j :: 0 <= j < |subs| ==> Stored(Reconcile(t, orderId, subs, n).0, ChildIds(t, orderId), orderId, n, subs, j)
  {
    var children := ChildIds(t, orderId);
    UpsertAllContents(t, orderId, subs, n);
    var t1 := UpsertAll(t, orderId, subs, n).0;
    var r := Reconcile(t, orderId, subs, n).0;
    forall j | 0 <= j < |subs| ensures Stored(r, children, orderId, n, subs, j) {
      assert Stored(t1, children, orderId, n, subs, j);
      var key := StoredKey(children, n, subs, j);
      assert key !in ToDelete(children, SubmittedIds(subs));
    }
  }

  /** Fewer elements create no more rows. */
  lemma {:induction false} CreatesBound<F>(children: set<nat>, subs: seq<Submitted<F>>, j: nat)
    requires j < |subs|
    ensures Creates(children, subs[..j]) + (if IsMatch(children, subs[j]) then 0 else 1) <= Creates(children, subs)
    decreases |subs|
  {
    var prefix := subs[..|subs| - 1];
    if j < |subs| - 1 {
      assert subs[..j] == prefix[..j] && subs[j] == prefix[j];
      CreatesBound(children, prefix, j);
    } else {
      assert subs[..j] == prefix;
    }
  }

  /**
   * updateOrder as a state transition. A missing order fails the transaction, so nothing
   * changes; otherwise the submitted header fields overwrite the stored ones, and each
   * collection given as an array is reconciled (items first), while a collection that is not
   * an array is left as it was.
   */
  function AfterUpdateOrder(s: OrderState, id: nat, patch: Header,
                            items: Option<seq<Submitted<ItemFields>>>,
                            documents: Option<seq<Submitted<DocFields>>>): (r: Result<OrderState, OrderError>)
    ensures r.Err? <==> id !in s.orders
    ensures r.Err? ==> r.error == RecordNotFound
    ensures r.Ok? ==> r.value.orders == s.orders[id := s.orders[id] + patch]
    ensures r.Ok? && items.None? ==> r.value.items == s.items
    ensures r.Ok? && documents.None? ==> r.value.documents == s.documents
  {
    if id !in s.orders then Err(RecordNotFound)
    else
      var (items1, n1) := if items.Some? then Reconcile(s.items, id, items.value, s.nextId) else (s.items, s.nextId);
      var (documents1, n2) := if documents.Some? then Reconcile(s.documents, id, documents.value, n1) else (s.documents, n1);
      Ok(OrderState(s.orders[id := s.orders[id] + patch], items1, documents1, n2))
  }

  /** The header keeps every field not submitted and takes every submitted one. */
  lemma UpdateOrderHeader(s: OrderState, id: nat, patch: Header,
                          items: Option<seq<Submitted<ItemFields>>>, documents: Option<seq<Submitted<DocFields>>>)
    requires id in s.orders
    ensures var h := AfterUpdateOrder(s, id, patch, items, documents).value.orders[id];
      && (forall f :: f in patch ==> f in h && h[f] == patch[f])
      && (forall f :: f in s.orders[id] && f !in patch ==> f in h && h[f] == s.orders[id][f])
      && (forall f :: f in h ==> f in patch || f in s.orders[id])
  {
  }

  /**
   * A submitted item list with distinct, previously issued ids leaves the order with exactly
   * one item per element, each element's fields stored under its key, the old items whose ids
   * were not submitted gone, and other orders' items untouched.
   */
  lemma UpdateOrderItems(s: OrderState, id: nat, patch: Header, items: seq<Submitted<ItemFields>>,
                         documents: Option<seq<Submitted<DocFields>>>)
    requires WellFormed(s) && id in s.orders
    requires IdsIssuedBefore(items, s.nextId) && DistinctIds(items)
    ensures var s' := AfterUpdateOrder(s, id, patch, Some(items), documents).value;
      && |ChildIds(s'.items, id)| == |items|
      && (forall j :: 0 <= j < |items| ==> Stored(s'.items, ChildIds(s.items, id), id, s.nextId, items, j))
      && (forall k :: k in ChildIds(s.items, id) && k !in SubmittedIds(items) ==> k !in s'.items)
      && (forall o :: o != id ==> ChildIds(s'.items, o) == ChildIds(s.items, o))
  {
    ReconcileConverges(s.items, id, items, s.nextId);
    ReconcileStoresEach(s.items, id, items, s.nextId);
  }

  /** updateOrder keeps every id below the counter. */
  lemma UpdateOrderWellFormed(s: OrderState, id: nat, patch: Header,
                              items: Option<seq<Submitted<ItemFields>>>, documents: Option<seq<Submitted<DocFields>>>)
    requires WellFormed(s) && AfterUpdateOrder(s, id, patch, items, documents).Ok?
    ensures WellFormed(AfterUpdateOrder(s, id, patch, items, documents).value)
  {
    var (items1, n1) := if items.Some? then Reconcile(s.items, id, items.value, s.nextId) else (s.items, s.nextId);
    if items.Some? {
      ReconcileKeysBelow(s.items, id, items.value, s.nextId);
    }
    var (documents1, n2) := if documents.Some? then Reconcile(s.documents, id, documents.value, n1) else (s.documents, n1);
    if documents.Some? {
      ReconcileKeysBelow(s.documents, id, documents.value, n1);
    }
    assert KeysBelow(items1, n2);
  }

  /** Reconciling keeps the id counter valid, whatever ids are submitted. */
  lemma ReconcileKeysBelow<F>(t: Table<F>, orderId: nat, subs: seq<Submitted<F>>, n: nat)
    requires KeysBelow(t, n) && orderId < n
    ensures var (r, m) := Reconcile(t, orderId, subs, n);
      m >= n && KeysBelow(r, m)
  {
    UpsertAllKeysBelow(t, orderId, subs, n);
  }

  /** The upserts of a submitted list, one element at a time. */
  method UpsertEach<F>(t: Table<F>, orderId: nat, subs: seq<Submitted<F>>, n: nat) returns (r: Table<F>, m: nat)
    ensures (r, m) == UpsertAll(t, orderId, subs, n)
  {
    r, m := t, n;
    var i := 0;
    while i < |subs|
      invariant 0 <= i <= |subs|
      invariant (r, m) == UpsertAll(t, orderId, subs[..i], n)
    {
      assert subs[..i + 1][..i] == subs[..i];
      var sub := subs[i];
      if sub.id.Some? && sub.id.value in r && r[sub.id.value].orderId == orderId {
        r := r[sub.id.value := Row(orderId, sub.data)];
      } else {
        r := r[m := Row(orderId, sub.data)];
        m := m + 1;
      }
      i := i + 1;
    }
    assert subs[..i] == subs;
  }

  /**
   * updateOrder: snapshot the children, update the header and run the upserts (items, then
   * documents), then delete the unsubmitted old children of each collection given as an array.
   */
  method UpdateOrder(db: OrderDb, id: nat, patch: Header,
                     items: Option<seq<Submitted<ItemFields>>>,
                     documents: Option<seq<Submitted<DocFields>>>) returns (r: Option<OrderError>)
    requires db.Valid()
    modifies db
    ensures db.Valid()
    ensures match AfterUpdateOrder(old(db.State()), id, patch, items, documents)
      case Ok(s') => r.None? && db.State() == s'
      case Err(e) => r == Some(e) && db.State() == old(db.State())
  {
    if id !in db.orders {
      return Some(RecordNotFound);
    }
    var existingItems := ChildIds(db.items, id);
    var existingDocuments := ChildIds(db.documents, id);
    db.orders := db.orders[id := db.orders[id] + patch];
    if items.Some? {
      ReconcileKeysBelow(db.items, id, items.value, db.nextId);
      db.items, db.nextId := UpsertEach(db.items, id, items.value, db.nextId);
    }
    if documents.Some? {
      ReconcileKeysBelow(db.documents, id, documents.value, db.nextId);
      db.documents, db.nextId := UpsertEach(db.documents, id, documents.value, db.nextId);
    }
    if items.Some? {
      db.items := DeleteIds(db.items, ToDelete(existingItems, SubmittedIds(items.value)));
    }
    if documents.Some? {
      db.documents := DeleteIds(db.documents, ToDelete(existingDocuments, SubmittedIds(documents.value)));
    }
    r := None;
  }
}
