/** The order table on two B+ trees that share its rows: `orders_` and `orders_by_customer_`
    (tpcctables.cc:787-819). */
module OrderStore {
  import opened Rows
  import opened Keys
  import opened OrderedEntries
  import opened BTree
  import opened UndoSpec
  import opened Consistency

  // ---------------------------------------------------------------- the last order of a customer

  predicate Owns(k: CustId, j: CustOrderId) {
    j.w == k.w && j.d == k.d && j.c == k.c
  }

  /** tpcctables.cc:802-803: one more in the upper half of the key. */
  function PastCustomer(k: CustId): int {
    CustOrderKey(CustOrderId(k.w, k.d, k.c, 1)) + TWO_TO_32
  }

  /** Below that key lie the customer's own orders and those of customers before. */
  lemma BelowNextCustomer(k: CustId, j: CustOrderId)
    requires CustOk(k) && CustOrderOk(j)
    ensures CustOrderKey(j) < PastCustomer(k) <==> CustomerKey(CustId(j.w, j.d, j.c)) <= CustomerKey(k)
    ensures Owns(k, j) <==> CustomerKey(CustId(j.w, j.d, j.c)) == CustomerKey(k)
  {
  }

  /** `j` is the customer's order with the largest number. */
  ghost predicate IsLastOrder<V>(m: map<CustOrderId, V>, k: CustId, j: CustOrderId) {
    j in m && Owns(k, j) && forall i | i in m && Owns(k, i) :: i.o <= j.o
  }

  /** This customer, or one before, has an order. */
  ghost predicate SomeoneUpTo<V>(m: map<CustOrderId, V>, k: CustId) {
    exists j :: j in m && CustomerKey(CustId(j.w, j.d, j.c)) <= CustomerKey(k)
  }

  /** The predecessor search finds a customer's last order if there is one, and otherwise never an
      order of that customer. */
  lemma LastBelow<V(!new)>(m: map<CustOrderId, V>, byKey: map<int, V>, k: CustId, last: int) returns (j: CustOrderId)
    requires CustOk(k) && (forall i | i in m :: CustOrderOk(i)) && Packs(m, byKey, CustOrderKey)
    requires IsLastLessThan(byKey, PastCustomer(k), last)
    ensures j in m && CustOrderKey(j) == last && byKey[last] == m[j]
    ensures Owns(k, j) <==> HasOrder(m, k)
    ensures Owns(k, j) ==> IsLastOrder(m, k, j)
    ensures SomeoneUpTo(m, k)
  {
    j :| j in m && CustOrderKey(j) == last;
    BelowNextCustomer(k, j);
    assert CustomerKey(CustId(j.w, j.d, j.c)) <= CustomerKey(k);
    forall i | i in m && Owns(k, i) ensures Owns(k, j) && i.o <= j.o {
      BelowNextCustomer(k, i);
      CustOrderKeyOrdered(j, i);
    }
    if Owns(k, j) {
      assert CustOrderId(k.w, k.d, k.c, j.o) in m;
    }
  }

  lemma NoneBelow<V(!new)>(m: map<CustOrderId, V>, byKey: map<int, V>, k: CustId)
    requires CustOk(k) && (forall i | i in m :: CustOrderOk(i)) && Packs(m, byKey, CustOrderKey)
    requires forall i | i in byKey :: PastCustomer(k) <= i
    ensures !HasOrder(m, k) && !SomeoneUpTo(m, k)
  {
    forall j | j in m ensures CustomerKey(CustId(j.w, j.d, j.c)) > CustomerKey(k) {
      BelowNextCustomer(k, j);
    }
    assert CustId(k.w, k.d, k.c) == k;
  }

  /** Without an order of one's own the search can end at a stranger's: customer 2 gets the order of
      customer 1. */
  lemma StrangersOrder(m: map<CustOrderId, Ref>, byKey: map<int, Ref>, last: int)
    requires m == map[CustOrderId(1, 1, 1, 7) := 1] && Packs(m, byKey, CustOrderKey)
    requires last == CustOrderKey(CustOrderId(1, 1, 1, 7))
    ensures !HasOrder(m, CustId(1, 1, 2)) && IsLastLessThan(byKey, PastCustomer(CustId(1, 1, 2)), last) && byKey[last] == 1
  {
    assert CustOrderId(1, 1, 1, 7) in m;
  }

  // ---------------------------------------------------------------- the indexes as maps

  /** The tables of a store whose indexes are these. */
  function Tables(orders: map<OrderId, Ref>, byCustomer: map<CustOrderId, Ref>, rows: map<Ref, Order>): DB {
    EMPTY_DB.(orders := orders, ordersByCustomer := byCustomer, orderRows := rows)
  }

  /** No object has the null address. */
  ghost predicate NotNull(rows: map<Ref, Order>) {
    0 !in rows
  }

  ghost predicate KeysOk(orders: map<OrderId, Ref>, byCustomer: map<CustOrderId, Ref>) {
    && (forall k | k in orders :: OrderOk(k))
    && (forall k | k in byCustomer :: CustOrderOk(k))
  }

  lemma EmptyTables()
    ensures IndexAgreement(EMPTY_DB)
    ensures Packs<OrderId, Ref>(map[], map[], OrderKey) && Packs<CustOrderId, Ref>(map[], map[], CustOrderKey)
  {
  }

  lemma AgreesAt(db: DB, id: OrderId)
    requires IndexAgreement(db) && id in db.orders
    ensures db.orders[id] in db.orderRows && OrderIdOf(db.orderRows[db.orders[id]]) == id
  {
  }

  // ---------------------------------------------------------------- the store

  class OrderStore {
    const byId: BPlusTree
    const byCustomer: BPlusTree
    /** The Order objects that the trees point at: others change them, but not the fields that the
        keys are made of. */
    ghost var rows: map<Ref, Order>
    ghost var orders: map<OrderId, Ref>
    ghost var ordersByCustomer: map<CustOrderId, Ref>

    /** The two indexes share no node. */
    ghost predicate Separate()
      reads this, byId, byId.root, byCustomer, byCustomer.root
    {
      byId.Repr() !! byCustomer.Repr() && this !in byId.Repr() && this !in byCustomer.Repr()
    }

    ghost predicate Trees()
      reads this, byId, byId.root, byId.root.Repr, byCustomer, byCustomer.root, byCustomer.root.Repr
    {
      && Separate() && byId.Valid() && byCustomer.Valid()
      && Packs(orders, byId.Map(), OrderKey) && Packs(ordersByCustomer, byCustomer.Map(), CustOrderKey)
    }

    ghost predicate Valid()
      reads this, byId, byId.root, byId.root.Repr, byCustomer, byCustomer.root, byCustomer.root.Repr
    {
      Trees() && KeysOk(orders, ordersByCustomer) && IndexAgreement(View()) && NotNull(rows)
    }

    lemma Parts()
      requires Valid()
      ensures byId.root in byId.root.Repr && byCustomer.root in byCustomer.root.Repr
    {
      byId.OwnsRoot();
      byCustomer.OwnsRoot();
    }

    ghost function View(): DB
      reads this
    {
      Tables(orders, ordersByCustomer, rows)
    }

    constructor ()
      ensures Valid() && fresh(byId.Repr()) && fresh(byCustomer.Repr())
      ensures View() == EMPTY_DB
    {
      hide IndexAgreement, Packs, BPlusTree.Valid, BPlusTree.Map, BPlusTree.Stored;
      EmptyTables();
      byId := new BPlusTree(8, 8);
      byCustomer := new BPlusTree(8, 8);
      rows, orders, ordersByCustomer := map[], map[], map[];
      new;
      byId.OwnsRoot();
      byCustomer.OwnsRoot();
    }

    method FindOrder(id: OrderId) returns (found: bool, r: Ref)
      requires Valid() && OrderOk(id) && OrderKey(id) <= INT32_MAX
      ensures found <==> id in orders
      ensures found ==> r == orders[id] && r in rows && OrderIdOf(rows[r]) == id
    {
      hide IndexAgreement, BPlusTree.Valid, BPlusTree.Map, Packs, OrderKey, OrderOk;
      forall j | j in orders && OrderKey(j) == OrderKey(id) ensures j == id {
        OrderKeyInjective(j, id);
      }
      if id in orders { AgreesAt(View(), id); }
      PackedFind(orders, byId.Map(), OrderKey, id);
      found, r := byId.Find(OrderKey(id));
    }

    /** A customer's own newest order is found exactly if the customer has an order; otherwise
        somebody else's order is found if a customer before has one, and nothing if none has, and the
        assertion at tpcctables.cc:807 fails. */
    method FindLastOrderByCustomer(k: CustId) returns (found: bool, r: Ref)
      requires Valid() && CustOk(k)
      ensures found ==> r in rows
      ensures HasOrder(ordersByCustomer, k) ==>
                found && IsLastOrder(ordersByCustomer, k, CustOrderIdOf(rows[r]))
                && r == ordersByCustomer[CustOrderIdOf(rows[r])]
      ensures !HasOrder(ordersByCustomer, k) ==> !found || !Owns(k, CustOrderIdOf(rows[r]))
      ensures found <==> SomeoneUpTo(ordersByCustomer, k)
    {
      hide Packs, HasOrder, IsLastOrder, Owns, BPlusTree.Valid, BPlusTree.Map, PastCustomer, IsLastLessThan, SomeoneUpTo;
      ghost var last;
      found, r, last := byCustomer.FindLastLessThan(PastCustomer(k));
      if found {
        ghost var j := LastBelow(ordersByCustomer, byCustomer.Map(), k, last);
        assert r == ordersByCustomer[j] && r in rows && CustOrderIdOf(rows[r]) == j;
      } else {
        NoneBelow(ordersByCustomer, byCustomer.Map(), k);
      }
    }

    /** The new object is at an address that no object of the table has. */
    method InsertOrder(o: Order, r: Ref)
      requires Valid() && OrderOk(OrderIdOf(o)) && CustOrderOk(CustOrderIdOf(o)) && OrderKey(OrderIdOf(o)) <= INT32_MAX
      requires OrderIdOf(o) !in orders && CustOrderIdOf(o) !in ordersByCustomer && r != 0 && r !in rows
      modifies this, byId.Repr(), byCustomer.Repr()
      ensures Valid() && fresh(byId.Repr() - old(byId.Repr())) && fresh(byCustomer.Repr() - old(byCustomer.Repr()))
      ensures rows == old(rows)[r := o] && orders == old(orders)[OrderIdOf(o) := r]
      ensures ordersByCustomer == old(ordersByCustomer)[CustOrderIdOf(o) := r]
    {
      hide IndexAgreement, Packs, BPlusTree.Valid, BPlusTree.Map, OrderOk, CustOrderOk;
      InsertKeepsIndex(View(), o, r);
      Parts();
      PutBoth(byId, byCustomer, orders, ordersByCustomer, o, r);
      orders, ordersByCustomer := orders[OrderIdOf(o) := r], ordersByCustomer[CustOrderIdOf(o) := r];
      rows := rows[r := o];
    }

    /** Both keys come from the object's own fields. */
    method EraseOrder(r: Ref, o: Order)
      requires Valid() && r in rows && rows[r] == o
      modifies this, byId.Repr(), byCustomer.Repr()
      ensures Valid() && byId.Repr() == old(byId.Repr()) && byCustomer.Repr() == old(byCustomer.Repr())
      ensures rows == old(rows) - {r}
      ensures orders == Without(old(orders), {r}) && ordersByCustomer == Without(old(ordersByCustomer), {r})
    {
      hide IndexAgreement, Packs, BPlusTree.Valid, BPlusTree.Map;
      EraseKeepsIndex(View(), r);
      assert orders[OrderIdOf(o)] == r && ordersByCustomer[CustOrderIdOf(o)] == r;
      Parts();
      DropOrder(byId, orders, OrderIdOf(o), r);
      byId.OwnsRoot();
      DropCustomerOrder(byCustomer, ordersByCustomer, CustOrderIdOf(o), r);
      byCustomer.OwnsRoot();
      orders, ordersByCustomer := orders - {OrderIdOf(o)}, ordersByCustomer - {CustOrderIdOf(o)};
      rows := rows - {r};
    }

    /** Delivery sets carriers, and undo takes them back: the trees do not notice. */
    ghost method RowsChange(now: map<Ref, Order>)
      requires Valid() && now.Keys == rows.Keys && SameIds(now, rows)
      modifies this
      ensures Valid() && rows == now && orders == old(orders) && ordersByCustomer == old(ordersByCustomer)
    {
      hide IndexAgreement, Packs, BPlusTree.Valid, BPlusTree.Map;
      ChangeKeepsIndex(View(), now);
      rows := now;
    }
  }

  /** The object goes into both indexes; neither insertion touches the other tree. */
  method PutBoth(a: BPlusTree, b: BPlusTree, ghost m: map<OrderId, Ref>, ghost mc: map<CustOrderId, Ref>, o: Order, r: Ref)
    requires a.Valid() && b.Valid() && a.Repr() !! b.Repr() && KeysOk(m, mc) && r != 0
    requires Packs(m, a.Map(), OrderKey) && Packs(mc, b.Map(), CustOrderKey)
    requires OrderOk(OrderIdOf(o)) && CustOrderOk(CustOrderIdOf(o)) && OrderIdOf(o) !in m && CustOrderIdOf(o) !in mc
    modifies a.Repr(), b.Repr()
    ensures a.Valid() && b.Valid() && a.Repr() !! b.Repr()
    ensures fresh(a.Repr() - old(a.Repr())) && fresh(b.Repr() - old(b.Repr()))
    ensures Packs(m[OrderIdOf(o) := r], a.Map(), OrderKey) && Packs(mc[CustOrderIdOf(o) := r], b.Map(), CustOrderKey)
  {
    hide Packs, BPlusTree.Valid, BPlusTree.Map, OrderOk, CustOrderOk;
    a.OwnsRoot();
    b.OwnsRoot();
    PutOrder(a, m, OrderIdOf(o), r);
    a.OwnsRoot();
    PutCustomerOrder(b, mc, CustOrderIdOf(o), r);
  }

  /** `insert` (tpcctables.cc:622-628) on the primary index. */
  method PutOrder(tree: BPlusTree, ghost m: map<OrderId, Ref>, id: OrderId, r: Ref)
    requires tree.Valid() && Packs(m, tree.Map(), OrderKey) && r != 0
    requires OrderOk(id) && (forall j | j in m :: OrderOk(j)) && id !in m
    modifies tree.Repr()
    ensures tree.Valid() && fresh(tree.Repr() - old(tree.Repr())) && Packs(m[id := r], tree.Map(), OrderKey)
  {
    hide Packs, BPlusTree.Valid, BPlusTree.Map;
    forall j | j in m && OrderKey(j) == OrderKey(id) ensures j == id {
      OrderKeyInjective(j, id);
    }
    PackedInsert(m, tree.Map(), OrderKey, id, r);
    tree.Insert(OrderKey(id), r);
  }

  method PutCustomerOrder(tree: BPlusTree, ghost m: map<CustOrderId, Ref>, id: CustOrderId, r: Ref)
    requires tree.Valid() && Packs(m, tree.Map(), CustOrderKey) && r != 0
    requires CustOrderOk(id) && (forall j | j in m :: CustOrderOk(j)) && id !in m
    modifies tree.Repr()
    ensures tree.Valid() && fresh(tree.Repr() - old(tree.Repr())) && Packs(m[id := r], tree.Map(), CustOrderKey)
  {
    hide Packs, BPlusTree.Valid, BPlusTree.Map;
    forall j | j in m && CustOrderKey(j) == CustOrderKey(id) ensures j == id {
      CustOrderKeyOrdered(j, id);
    }
    PackedInsert(m, tree.Map(), CustOrderKey, id, r);
    tree.Insert(CustOrderKey(id), r);
  }

  /** `erase` (tpcctables.cc:639-648): the key is live, and stands for this object. */
  method DropOrder(tree: BPlusTree, ghost m: map<OrderId, Ref>, id: OrderId, r: Ref)
    requires tree.Valid() && Packs(m, tree.Map(), OrderKey)
    requires (forall j | j in m :: OrderOk(j)) && id in m && m[id] == r
    modifies tree.Repr()
    ensures tree.Valid() && tree.Repr() == old(tree.Repr()) && Packs(m - {id}, tree.Map(), OrderKey)
  {
    forall j | j in m && OrderKey(j) == OrderKey(id) ensures j == id {
      OrderKeyInjective(j, id);
    }
    PackedErase(m, tree.Map(), OrderKey, id);
    tree.PresentInBounds(OrderKey(id));
    hide Packs, BPlusTree.Valid, BPlusTree.Map, BPlusTree.DelInBounds;
    var found := tree.Del(OrderKey(id));
  }

  method DropCustomerOrder(tree: BPlusTree, ghost m: map<CustOrderId, Ref>, id: CustOrderId, r: Ref)
    requires tree.Valid() && Packs(m, tree.Map(), CustOrderKey)
    requires (forall j | j in m :: CustOrderOk(j)) && id in m && m[id] == r
    modifies tree.Repr()
    ensures tree.Valid() && tree.Repr() == old(tree.Repr()) && Packs(m - {id}, tree.Map(), CustOrderKey)
  {
    forall j | j in m && CustOrderKey(j) == CustOrderKey(id) ensures j == id {
      CustOrderKeyOrdered(j, id);
    }
    PackedErase(m, tree.Map(), CustOrderKey, id);
    tree.PresentInBounds(CustOrderKey(id));
    hide Packs, BPlusTree.Valid, BPlusTree.Map, BPlusTree.DelInBounds;
    var found := tree.Del(CustOrderKey(id));
  }
}
