/** All of the database: the tables, the order table's two B+ trees, and the index by last name, which
    every transaction, every undo and the load keep together. */
module Database {
  import opened Rows
  import opened Sequences
  import opened Keys
  import opened NewOrderSpec
  import opened Consistency
  import opened UndoSpec
  import opened UndoBuffer
  import opened Machine
  import opened Unchanged
  import opened NameIndex
  import opened Generated
  import opened Generator
  import opened StatusSpec
  import opened Reachable
  import opened LoadedStock
  import opened LoadedNames
  import opened Tables
  import PaymentSpec
  import DeliverySpec
  import Orders = OrderStore
  import CustomerNames
  import StockLevel

  // ---------------------------------------------------------------- what the transactions do to orders

  /** A new order adds one object to the order table. */
  lemma OneOrderMore(t: Tx, dk: DistId, c: int, its: seq<NewOrderItem>, now: string, all: seq<int>,
                     db: DB, u: Undo, track: bool, infos: seq<ItemInfo>, total: int)
    requires NewOrderDone(t, dk, c, its, now, all, db, u, track, infos, total) && dk.w in t.db.warehouses
    ensures var id, r := OrderId(dk.w, dk.d, t.db.districts[dk].d_next_o_id), t.db.nextRef;
            var o := OrderFor(id, c, its, now);
            && db.orders == t.db.orders[id := r] && db.ordersByCustomer == t.db.ordersByCustomer[CustOrderIdOf(o) := r]
            && db.orderRows == t.db.orderRows[r := o]
    ensures SameNames(t.db.customers, db.customers)
  {
  }

  /** The same objects under the same keys. */
  ghost predicate SameObjects(a: DB, b: DB) {
    && a.orders == b.orders && a.ordersByCustomer == b.ordersByCustomer
    && a.orderRows.Keys == b.orderRows.Keys && SameIds(b.orderRows, a.orderRows)
  }

  lemma OneDelivered(a: DB, t: Tx, id: OrderId, carrier: int, now: string)
    requires DeliverySpec.OrderReady(t.db, id) && SameObjects(a, t.db)
    ensures SameObjects(a, DeliverySpec.DeliverOrder(t, id, carrier, now).db)
  {
  }

  /** A delivery changes rows of the order table, but not their identifying fields. */
  lemma {:induction false} RowsDelivered(t: Tx, w: int, carrier: int, now: string, n: nat)
    requires DeliverySpec.AllReady(t.db)
    ensures SameObjects(t.db, DeliverySpec.Delivery(t, w, carrier, now, n).db)
  {
    hide SameObjects, DeliverySpec.LinesPresent, DeliverySpec.DeliverOrder, DeliverySpec.IsLowest;
    if n == 0 {
      Itself(t.db);
    } else {
      RowsDelivered(t, w, carrier, now, n - 1);
      var s := DeliverySpec.Delivery(t, w, carrier, now, n - 1);
      var low := DeliverySpec.Lowest(s.db.newOrders, DistId(w, n));
      if low.Some? {
        LowestReady(s.db, DistId(w, n));
        OneDelivered(t.db, s, low.value, carrier, now);
      }
    }
  }

  lemma Itself(db: DB)
    ensures SameObjects(db, db)
  {
  }

  /** The saved customers are the present ones under the same names. */
  ghost predicate SavedNames(saved: map<CustId, Customer>, now: map<CustId, Customer>) {
    SameNames(now + saved, now)
  }

  /** So it is with every buffer of a run. */
  lemma BufferNames(base: DB, t: Tx)
    requires Covers(base, t) && SameNames(base.customers, t.db.customers)
    ensures SavedNames(t.undo.customers, t.db.customers)
  {
    hide CoversOrders, CoversHistory, RefsBelow, SameNames;
  }

  /** What the rows of the order table are after applyUndo, seen from those that stay. */
  lemma RowsUndone(rows: map<Ref, Order>, saved: map<Ref, Order>, gone: set<Ref>)
    requires saved.Keys <= rows.Keys && SameIds(saved, rows)
    ensures var now := (rows + saved) - gone; now.Keys == (rows - gone).Keys && SameIds(now, rows - gone)
  {
  }

  lemma OtherWay(a: map<CustId, Customer>, b: map<CustId, Customer>)
    requires SameNames(a, b)
    ensures SameNames(b, a)
  {
  }

  lemma OrdersUntouched(t: Tx, dk: DistId, cust: CustId, amount: int, now: string, record: string)
    requires PaymentSpec.PaymentReady(t.db, dk, cust, record)
    ensures var db := PaymentSpec.Payment(t, dk, cust, amount, now, record).db;
            && db.orders == t.db.orders && db.ordersByCustomer == t.db.ordersByCustomer && db.orderRows == t.db.orderRows
            && SameNames(t.db.customers, db.customers) && cust in db.customers
  {
  }

  lemma AllLetters(names: seq<CustId>, customers: map<CustId, Customer>)
    requires AllIn(names, customers) && RowsNamed(customers)
    ensures forall i | 0 <= i < |names| :: CustomerNames.Letters(Listing(names, customers)[i].c_last)
  {
    forall i | 0 <= i < |names| ensures CustomerNames.Letters(Listing(names, customers)[i].c_last) {
      assert RowNamed(names[i], customers[names[i]]);
    }
  }

  /** The row that the search returns is that of the middle one. */
  lemma MiddleIs(names: seq<CustId>, customers: map<CustId, Customer>, w: int, d: int, last: string, c: Customer)
    requires AllIn(names, customers) && RowsNamed(customers)
    requires exists lo: nat, n: nat :: CustomerNames.IsGroup(Listing(names, customers), w, d, last, lo, n) && n > 0
                                       && c == Listing(names, customers)[lo + (n - 1) / 2]
    ensures IdOf(c) in customers && IsMiddle(Listing(names, customers), w, d, last, IdOf(c))
  {
    hide CustomerNames.Matches;
    var lo: nat, n: nat :| CustomerNames.IsGroup(Listing(names, customers), w, d, last, lo, n) && n > 0
                           && c == Listing(names, customers)[lo + (n - 1) / 2];
    var k := names[lo + (n - 1) / 2];
    assert RowNamed(k, customers[k]);
  }

  // ---------------------------------------------------------------- the database

  class Database {
    const tables: TPCCTables
    const store: Orders.OrderStore
    /** customers_by_name_, in its order. */
    var names: seq<CustId>

    ghost function Trees(): set<object>
      reads this, store, store.byId, store.byId.root, store.byCustomer, store.byCustomer.root
    {
      {store} + store.byId.Repr() + store.byCustomer.Repr()
    }

    /** The trees hold exactly the orders of the table. */
    ghost predicate SameOrders()
      reads this, tables, store
    {
      && store.orders == tables.orders && store.ordersByCustomer == tables.ordersByCustomer
      && store.rows == tables.orderRows
    }

    /** The index by name stands for every customer of the table. */
    ghost predicate NamesListed()
      reads this, tables
    {
      Lists(names, tables.customers, tables.customers.Keys) && RowsNamed(tables.customers)
    }

    ghost predicate Valid()
      reads this, tables, store, store.byId, store.byId.root, store.byId.root.Repr,
            store.byCustomer, store.byCustomer.root, store.byCustomer.root.Repr
    {
      store.Valid() && SameOrders() && NamesListed() && this !in Trees() && tables !in Trees()
    }

    constructor (tables: TPCCTables, store: Orders.OrderStore, names: seq<CustId>)
      requires store.Valid() && tables !in store.byId.Repr() && tables !in store.byCustomer.Repr()
      requires store.orders == tables.orders && store.ordersByCustomer == tables.ordersByCustomer && store.rows == tables.orderRows
      requires Lists(names, tables.customers, tables.customers.Keys) && RowsNamed(tables.customers)
      ensures Valid() && this.tables == tables && this.store == store && this.names == names
    {
      this.tables, this.store, this.names := tables, store, names;
    }

    // -------------------------------------------------------------- transactions

    /** Trees and index catch up with a table that has one order more than it had in `before`. */
    method Follow(ghost before: DB, id: OrderId)
      requires store.Valid() && this !in Trees() && tables !in Trees() && id in tables.orders && id !in before.orders
      requires store.orders == before.orders && store.ordersByCustomer == before.ordersByCustomer && store.rows == before.orderRows
      requires Lists(names, before.customers, before.customers.Keys) && RowsNamed(before.customers)
      requires SameNames(before.customers, tables.customers)
      requires var r := tables.orders[id];
               && r in tables.orderRows && r !in before.orderRows && r != 0
               && var o := tables.orderRows[r];
                  && OrderIdOf(o) == id && OrderOk(id) && OrderKey(id) <= INT32_MAX && CustOrderOk(CustOrderIdOf(o))
                  && CustOrderIdOf(o) !in before.ordersByCustomer && tables.orderRows == before.orderRows[r := o]
                  && tables.orders == before.orders[id := r]
                  && tables.ordersByCustomer == before.ordersByCustomer[CustOrderIdOf(o) := r]
      modifies Trees()
      ensures Valid() && fresh(Trees() - old(Trees()))
    {
      hide Orders.OrderStore.Valid, Lists, RowsNamed;
      var r := tables.orders[id];
      store.InsertOrder(tables.orderRows[r], r);
      SameNamesListed(names, before.customers, tables.customers, before.customers.Keys);
    }

    /** Its tables and buffer are those of `Tables.TPCCTables.NewOrder`; the new object goes into both
        trees (tpcctables.cc:787-797). */
    method NewOrder(dk: DistId, c: int, its: seq<NewOrderItem>, now: string, output: NewOrderOutput,
                    track: bool, u: TPCCUndo?)
      returns (ok: bool, u': TPCCUndo?, ghost ws: seq<int>)
      requires Valid() && u !in Trees() && output !in Trees() && (!track ==> u == null) && output.items == []
      requires NewOrderReady(tables.View(), dk, c, its) && OrderIsNew(tables.View(), dk, c)
      requires tables.newOrders <= tables.orders.Keys && UndoFits(Tx(tables.View(), UndoOf(u)))
      requires var id := OrderId(dk.w, dk.d, tables.districts[dk].d_next_o_id);
               OrderOk(id) && LineKey(LineId(id.w, id.d, id.o, |its|)) <= INT32_MAX && CustOk(CustId(dk.w, dk.d, c))
      modifies tables, u, output, Trees()
      ensures Valid() && fresh(Trees() - old(Trees()))
      ensures ok <==> old(ItemsValid(tables.View(), its))
      ensures !ok ==> tables.View() == old(tables.View()) && u' == u && UndoOf(u) == old(UndoOf(u))
      ensures ok ==>
                && Enumerates(ws, RemoteWarehouses(dk.w, its))
                && NewOrderDone(Tx(old(tables.View()), old(UndoOf(u))), dk, c, its, now, [dk.w] + ws, tables.View(), UndoOf(u'), track,
                                output.items, output.total)
                && (u' == null <==> !track) && (u != null ==> u' == u) && (u == null && track ==> fresh(u'))
      ensures ok ==> ShowsPrices(tables.items, its, output.items, output.total)
    {
      hide Orders.OrderStore.Valid, Lists, RowsNamed, NewOrderDone, NewOrderReady, OrderIsNew, UndoFits, ItemsValid,
        SameNames, Enumerates, ShowsPrices, DeliverySpec.LineTotal;
      ghost var t := Tx(tables.View(), UndoOf(u));
      FreeForOrder(t, dk, c, its);
      ok, u', ws := tables.NewOrder(dk, c, its, now, output, track, u);
      if ok {
        OneOrderMore(t, dk, c, its, now, [dk.w] + ws, tables.View(), UndoOf(u'), track, output.items, output.total);
        KeysOfNext(t, dk, c, its);
        assert Trees() == old(Trees()) && u' !in Trees();
        ghost var db', undo', infos, total := tables.View(), UndoOf(u'), output.items, output.total;
        Follow(t.db, OrderId(dk.w, dk.d, output.oId));
        assert tables.View() == db' && UndoOf(u') == undo' && output.items == infos && output.total == total;
      }
    }

    method Payment(dk: DistId, cust: CustId, amount: int, now: string, record: string, output: PaymentOutput,
                   track: bool, u: TPCCUndo?) returns (u': TPCCUndo?)
      requires Valid() && u !in Trees() && output !in Trees() && (!track ==> u == null)
      requires PaymentSpec.PaymentReady(tables.View(), dk, cust, record) && UndoFits(Tx(tables.View(), UndoOf(u)))
      modifies tables, u, output
      ensures Valid() && Trees() == old(Trees())
      ensures var t := Tx(old(tables.View()), old(UndoOf(u)));
              && tables.View() == PaymentSpec.Payment(t, dk, cust, amount, now, record).db
              && (track ==> UndoOf(u') == PaymentSpec.Payment(t, dk, cust, amount, now, record).undo)
      ensures (u' == null <==> !track) && (u != null ==> u' == u) && (u == null && track ==> fresh(u'))
      ensures cust in tables.customers && ShowsCustomer(output.customer, tables.customers[cust])
    {
      hide Orders.OrderStore.Valid, Lists, RowsNamed, UndoFits, PaymentSpec.Payment, PaymentSpec.PaymentReady;
      ghost var t := Tx(tables.View(), UndoOf(u));
      OrdersUntouched(t, dk, cust, amount, now, record);
      u' := tables.Payment(dk, cust, amount, now, record, output, track, u);
      SameNamesListed(names, t.db.customers, tables.customers, t.db.customers.Keys);
    }

    method Delivery(w: int, carrier: int, now: string, track: bool, u: TPCCUndo?)
      returns (delivered: seq<OrderId>, u': TPCCUndo?)
      requires Valid() && u !in Trees() && (!track ==> u == null)
      requires WarehouseOk(w) && (forall id | id in tables.newOrders :: OrderOk(id))
      requires DeliverySpec.AllReady(tables.View()) && UndoFits(Tx(tables.View(), UndoOf(u)))
      modifies tables, u, store
      ensures Valid() && Trees() == old(Trees())
      ensures var t := Tx(old(tables.View()), old(UndoOf(u)));
              && tables.View() == DeliverySpec.Delivery(t, w, carrier, now, DISTRICTS).db
              && (track ==> UndoOf(u') == DeliverySpec.Delivery(t, w, carrier, now, DISTRICTS).undo)
      ensures (u' == null <==> !track) && (u != null ==> u' == u) && (u == null && track ==> fresh(u'))
      ensures IsReport(delivered, old(tables.newOrders), tables.newOrders, DISTRICTS)
    {
      hide Orders.OrderStore.Valid, Lists, RowsNamed, UndoFits, DeliverySpec.Delivery, DeliverySpec.AllReady, IsReport, OrderOk,
        LinesKnown;
      ghost var t := Tx(tables.View(), UndoOf(u));
      RowsDelivered(t, w, carrier, now, DISTRICTS);
      DeliveryKeeps(t, w, carrier, now, DISTRICTS);
      delivered, u' := tables.Delivery(w, carrier, now, track, u);
      store.RowsChange(tables.orderRows);
      SameNamesListed(names, t.db.customers, tables.customers, t.db.customers.Keys);
    }

    // -------------------------------------------------------------- undo

    /** The inserted objects leave both trees. */
    method EraseFromTrees(rs: set<Ref>)
      requires store.Valid() && SameOrders() && rs <= tables.orderRows.Keys && this !in Trees() && tables !in Trees()
      modifies Trees()
      ensures store.Valid() && Trees() == old(Trees()) && store.rows == old(store.rows) - rs
      ensures store.orders == Without(old(store.orders), rs)
      ensures store.ordersByCustomer == Without(old(store.ordersByCustomer), rs)
    {
      hide Orders.OrderStore.Valid, Without;
      ghost var db, done := tables.View(), {};
      var todo := rs;
      NothingErased(db);
      while todo != {}
        invariant store.Valid() && Trees() == old(Trees()) && done + todo == rs && done !! todo
        invariant store.rows == db.orderRows - done && store.orders == Without(db.orders, done)
        invariant store.ordersByCustomer == Without(db.ordersByCustomer, done)
        decreases |todo|
      {
        ghost var any := Member(todo);
        var r :| r in todo;
        OneOrderLess(db, done, r);
        store.EraseOrder(r, tables.orderRows[r]);
        todo, done := todo - {r}, done + {r};
      }
    }

    method ApplyUndo(u: TPCCUndo)
      requires Valid() && u !in Trees() && CanApply(Tx(tables.View(), u.View()))
      requires SavedNames(u.modifiedCustomers, tables.customers)
      modifies tables, u, Trees()
      ensures Valid() && Trees() == old(Trees())
      ensures tables.View() == UndoSpec.ApplyUndo(Tx(old(tables.View()), old(u.View())))
      ensures u.View() == old(u.View()).(deletedNewOrders := {})
    {
      hide Orders.OrderStore.Valid, Lists, RowsNamed, Without, IndexAgreement, SameIds, NewOrdersUndoable, IsTail, SameNames;
      ghost var db, s := tables.View(), u.View();
      RowsUndone(db.orderRows, s.orders, s.insertedOrders);
      EraseFromTrees(u.insertedOrders);
      tables.ApplyUndo(u);
      store.RowsChange(tables.orderRows);
      OtherWay(db.customers + s.customers, db.customers);
      SameNamesListed(names, db.customers, tables.customers, db.customers.Keys);
    }

    // -------------------------------------------------------------- order status

    /** tpcctables.cc:118-158. */
    method OrderStatus(k: CustId) returns (out: OrderStatusOutput)
      requires Valid() && CustOk(k) && k in tables.customers && HasOrder(tables.ordersByCustomer, k)
      requires IndexAgreement(tables.View()) && OrdersSound(tables.View()) && LinesSound(tables.View())
      ensures ShowsLastOrder(tables.View(), k, out)
    {
      hide Orders.OrderStore.Valid, IndexAgreement, OrdersSound, LinesSound, HasOrder, Orders.IsLastOrder, Lists, RowsNamed,
        ShowsLastOrder, StockLevel.AreLinesOf, StatusSpec.Infos;
      var found, r := store.FindLastOrderByCustomer(k);
      var lines := StockLevel.OrderLinesOf(tables, r);
      var c, o := tables.customers[k], tables.orderRows[r];
      out := OrderStatusOutput(c.c_id, c.c_balance, c.c_first, c.c_last, o.o_id, o.o_carrier_id, o.o_entry_d,
                               StatusSpec.Infos(lines));
      StatusShown(tables.View(), k, r, lines, out);
    }

    // -------------------------------------------------------------- by last name

    /** findCustomerByName, on the rows that the index points at. */
    method FindByName(w: int, d: int, last: string) returns (k: CustId)
      requires Valid() && CustomerNames.Letters(last)
      requires exists j :: j in tables.customers && CustomerNames.Matches(tables.customers[j], w, d, last)
      ensures k in tables.customers && AllIn(names, tables.customers)
      ensures IsMiddle(Listing(names, tables.customers), w, d, last, k)
    {
      hide Orders.OrderStore.Valid, CustomerNames.Ordered, CustomerNames.Letters, CustomerNames.IsGroup, Stands;
      ghost var j :| j in tables.customers && CustomerNames.Matches(tables.customers[j], w, d, last);
      ghost var i := SomeoneListed(names, tables.customers, j, w, d, last);
      AllLetters(names, tables.customers);
      var c := CustomerNames.FindCustomerByName(Listing(names, tables.customers), w, d, last);
      k := IdOf(c);
      MiddleIs(names, tables.customers, w, d, last, c);
    }

    /** tpcctables.cc:123-127. */
    method OrderStatusByName(w: int, d: int, last: string) returns (out: OrderStatusOutput, ghost k: CustId)
      requires Valid() && CustomerNames.Letters(last)
      requires exists j :: j in tables.customers && CustomerNames.Matches(tables.customers[j], w, d, last)
      requires EveryoneOrdered(tables.View()) && forall j | j in tables.customers :: CustOk(j)
      requires IndexAgreement(tables.View()) && OrdersSound(tables.View()) && LinesSound(tables.View())
      ensures k in tables.customers && AllIn(names, tables.customers)
      ensures IsMiddle(Listing(names, tables.customers), w, d, last, k) && ShowsLastOrder(tables.View(), k, out)
    {
      hide Valid, IndexAgreement, OrdersSound, LinesSound, HasOrder, ShowsLastOrder, IsMiddle, CustOk, CustomerNames.Letters,
        CustomerNames.Matches;
      var found := FindByName(w, d, last);
      k := found;
      out := OrderStatus(found);
    }

    /** tpcctables.cc:365-373. */
    method PaymentByName(dk: DistId, w: int, d: int, last: string, amount: int, now: string, record: string,
                         output: PaymentOutput, track: bool, u: TPCCUndo?)
      returns (u': TPCCUndo?, ghost k: CustId)
      requires Valid() && u !in Trees() && output !in Trees() && (!track ==> u == null)
      requires PaymentSpec.HomeReady(tables.View(), dk) && |record| <= MAX_DATA && UndoFits(Tx(tables.View(), UndoOf(u)))
      requires CustomerNames.Letters(last)
      requires exists j :: j in tables.customers && CustomerNames.Matches(tables.customers[j], w, d, last)
      modifies tables, u, output
      ensures Valid() && Trees() == old(Trees()) && k in old(tables.customers) && AllIn(old(names), old(tables.customers))
      ensures IsMiddle(old(Listing(names, tables.customers)), w, d, last, k)
      ensures var t := Tx(old(tables.View()), old(UndoOf(u)));
              && tables.View() == PaymentSpec.Payment(t, dk, k, amount, now, record).db
              && (track ==> UndoOf(u') == PaymentSpec.Payment(t, dk, k, amount, now, record).undo)
      ensures (u' == null <==> !track) && (u != null ==> u' == u) && (u == null && track ==> fresh(u'))
      ensures k in tables.customers && ShowsCustomer(output.customer, tables.customers[k])
    {
      hide Valid, UndoFits, PaymentSpec.Payment, PaymentSpec.HomeReady, IsMiddle, CustomerNames.Letters, CustomerNames.Matches;
      var found := FindByName(w, d, last);
      k := found;
      u' := Payment(dk, found, amount, now, record, output, track, u);
    }
  }

  lemma KeysOfNext(t: Tx, dk: DistId, c: int, its: seq<NewOrderItem>)
    requires dk in t.db.districts
    requires var id := OrderId(dk.w, dk.d, t.db.districts[dk].d_next_o_id);
             OrderOk(id) && LineKey(LineId(id.w, id.d, id.o, |its|)) <= INT32_MAX && CustOk(CustId(dk.w, dk.d, c))
    ensures var id := OrderId(dk.w, dk.d, t.db.districts[dk].d_next_o_id);
            OrderKey(id) <= INT32_MAX && CustOrderOk(CustOrderId(id.w, id.d, c, id.o))
  {
  }

  lemma FreeForOrder(t: Tx, dk: DistId, c: int, its: seq<NewOrderItem>)
    requires NewOrderReady(t.db, dk, c, its) && OrderIsNew(t.db, dk, c) && UndoFits(t)
    ensures dk in t.db.districts
    ensures var n := t.db.districts[dk].d_next_o_id;
            && OrderId(dk.w, dk.d, n) !in t.db.orders && CustOrderId(dk.w, dk.d, c, n) !in t.db.ordersByCustomer
            && t.db.nextRef !in t.db.orderRows && t.db.nextRef != 0 && dk.w in t.db.warehouses
  {
  }

  // ---------------------------------------------------------------- the load

  /** All order numbers and customers of the table fit the packed keys. */
  ghost predicate OrdersFit(db: DB)
    requires IndexAgreement(db)
  {
    && (forall id | id in db.orders :: OrderOk(id) && OrderKey(id) <= INT32_MAX)
    && forall k | k in db.ordersByCustomer :: CustOrderOk(k)
  }

  lemma NoneIndexed(db: DB)
    requires IndexAgreement(db)
    ensures Without(db.orders, db.orderRows.Keys) == map[] && Without(db.ordersByCustomer, db.orderRows.Keys) == map[]
  {
  }

  /** Indexing one more object, at any address. */
  lemma OneMoreIndexed(db: DB, todo: set<Ref>, r: Ref)
    requires IndexAgreement(db) && r in todo && todo <= db.orderRows.Keys && KeysBelow(db.orderRows, db.nextRef) && OrdersFit(db)
    ensures var o := db.orderRows[r];
            && OrderIdOf(o) !in Without(db.orders, todo) && CustOrderIdOf(o) !in Without(db.ordersByCustomer, todo) && r != 0
            && OrderOk(OrderIdOf(o)) && OrderKey(OrderIdOf(o)) <= INT32_MAX && CustOrderOk(CustOrderIdOf(o))
            && Without(db.orders, todo)[OrderIdOf(o) := r] == Without(db.orders, todo - {r})
            && Without(db.ordersByCustomer, todo)[CustOrderIdOf(o) := r] == Without(db.ordersByCustomer, todo - {r})
  {
    hide OrderOk, CustOrderOk;
    assert Indexed(db, r);
  }

  /** The trees of a loaded table; whatever the order in which the objects go in, they end up the same map. */
  method IndexOrders(tables: TPCCTables) returns (store: Orders.OrderStore)
    requires IndexAgreement(tables.View()) && KeysBelow(tables.orderRows, tables.nextRef) && OrdersFit(tables.View())
    ensures store.Valid() && fresh(store) && fresh(store.byId.Repr()) && fresh(store.byCustomer.Repr())
    ensures store.orders == tables.orders && store.ordersByCustomer == tables.ordersByCustomer && store.rows == tables.orderRows
  {
    hide Orders.OrderStore.Valid, Without, IndexAgreement, OrdersFit, KeysBelow;
    ghost var db := tables.View();
    store := new Orders.OrderStore();
    NoneIndexed(db);
    var todo := tables.orderRows.Keys;
    while todo != {}
      invariant store.Valid() && fresh(store) && fresh(store.byId.Repr()) && fresh(store.byCustomer.Repr())
      invariant todo <= tables.orderRows.Keys && store.rows == db.orderRows - todo
      invariant store.orders == Without(db.orders, todo) && store.ordersByCustomer == Without(db.ordersByCustomer, todo)
      decreases |todo|
    {
      ghost var any := Member(todo);
      var r :| r in todo;
      OneMoreIndexed(db, todo, r);
      store.InsertOrder(tables.orderRows[r], r);
      todo := todo - {r};
    }
    AllIndexed(db);
  }

  lemma AllIndexed(db: DB)
    ensures Without(db.orders, {}) == db.orders && Without(db.ordersByCustomer, {}) == db.ordersByCustomer
  {
  }

  /** The index by name, in the order in which the load inserts the customers (tpccgenerator.cc:249-265);
      `asserted` tells whether the assertion at tpcctables.cc:710 held every time. */
  method IndexCustomers(customers: map<CustId, Customer>, warehouses: nat, districts: nat, n: nat)
    returns (names: seq<CustId>, asserted: bool)
    requires forall k :: k in customers <==> 1 <= k.w <= warehouses && 1 <= k.d <= districts && 1 <= k.c <= n
    requires RowsNamed(customers)
    ensures Lists(names, customers, customers.Keys)
    ensures asserted <==> NoTwins(customers, customers.Keys)
  {
    hide Lists, RowsNamed, NoTwins, CustomerNames.KeyOf;
    ghost var done: set<CustId> := {};
    names, asserted := [], true;
    NoneYet(customers);
    NothingListed(customers);
    for w := 1 to warehouses + 1
      invariant Lists(names, customers, done) && done <= customers.Keys && (asserted <==> NoTwins(customers, done))
      invariant forall k :: k in done <==> k in customers && k.w < w
    {
      for d := 1 to districts + 1
        invariant Lists(names, customers, done) && done <= customers.Keys && (asserted <==> NoTwins(customers, done))
        invariant forall k :: k in done <==> k in customers && (k.w < w || (k.w == w && k.d < d))
      {
        for c := 1 to n + 1
          invariant Lists(names, customers, done) && done <= customers.Keys && (asserted <==> NoTwins(customers, done))
          invariant forall k :: k in done <==> k in customers && (k.w < w || (k.w == w && (k.d < d || (k.d == d && k.c < c))))
        {
          var inserted;
          OneMoreDiffers(customers, done, CustId(w, d, c));
          names, inserted := InsertName(names, customers, CustId(w, d, c), done);
          asserted := asserted && inserted;
          done := done + {CustId(w, d, c)};
        }
      }
    }
    assert done == customers.Keys;
  }

  lemma NoneYet(customers: map<CustId, Customer>)
    ensures NoTwins(customers, {})
  {
  }

  lemma LoadedNamed(db: DB, load: Load, z: Settings)
    requires Loaded(db, load, z)
    ensures RowsNamed(db.customers)
  {
    hide Consistent, Populated, CustomersMade, RowsNamed;
    MadeNamed(db.customers, z.customers);
  }

  lemma LoadedFitsKeys(db: DB, load: Load, z: Settings)
    requires Loaded(db, load, z) && z.warehouses <= MAX_WAREHOUSE_ID && z.districts <= DISTRICTS
    requires z.customers <= CUSTOMERS_PER_DISTRICT
    ensures OrdersFit(db) && KeysBelow(db.orderRows, db.nextRef) && RowsNamed(db.customers)
    ensures forall k :: k in db.customers <==> 1 <= k.w <= z.warehouses && 1 <= k.d <= z.districts && 1 <= k.c <= z.customers
  {
    hide Queue, LinesSound, EveryoneOrdered, BalancesRight, YtdRight, StockRight, Population, RowsMade, RowsNamed, CreditDealt;
    LoadedNamed(db, load, z);
    forall id | id in db.orders ensures OrderOk(id) && OrderKey(id) <= INT32_MAX {
      assert DistOf(id) in db.districts;
    }
    forall k | k in db.ordersByCustomer ensures CustOrderOk(k) {
      assert Indexed(db, db.ordersByCustomer[k]);
      assert OrderId(k.w, k.d, k.o) in db.orders;
      assert CustId(k.w, k.d, k.c) in db.customers;
    }
  }

  /** tpcc.cc:47-62: the load of all of it. */
  method LoadDatabase(g: TPCCGenerator, warehouses: nat) returns (d: Database, asserted: bool, ghost load: Load)
    requires g.Valid() && warehouses <= MAX_WAREHOUSE_ID
    ensures fresh(d) && fresh(d.tables) && fresh(d.Trees()) && d.Valid()
    ensures Loaded(d.tables.View(), load, g.SettingsFor(warehouses))
    ensures asserted <==> NoTwins(d.tables.customers, d.tables.customers.Keys)
    ensures asserted <==> forall k | k in d.tables.customers :: k in d.names
    ensures g.customersPerDistrict <= 1000 ==> asserted
  {
    hide Loaded, OrdersFit, KeysBelow, Lists, RowsNamed, NoTwins, Orders.OrderStore.Valid;
    var tables;
    tables, load := g.LoadAll(warehouses);
    LoadedFitsKeys(tables.View(), load, g.SettingsFor(warehouses));
    LoadedAgrees(tables.View(), load, g.SettingsFor(warehouses));
    var store := IndexOrders(tables);
    var names;
    names, asserted := IndexCustomers(tables.customers, warehouses, g.districtsPerWarehouse, g.customersPerDistrict);
    AllListedExactly(names, tables.customers);
    if g.customersPerDistrict <= 1000 {
      FewDiffer(tables.View(), load, g.SettingsFor(warehouses));
    }
    d := new Database(tables, store, names);
  }

  lemma LoadedAgrees(db: DB, load: Load, z: Settings)
    requires Loaded(db, load, z)
    ensures IndexAgreement(db)
  {
  }

  // ---------------------------------------------------------------- in every state of every run

  /** Order status may ask for every customer. */
  lemma {:induction false} StatusReady(db: DB, load: Load, z: Settings, steps: seq<Step>, k: CustId)
    requires Loaded(db, load, z) && AllEnabled(State(db, []), steps)
    requires z.warehouses <= MAX_WAREHOUSE_ID && z.districts <= DISTRICTS && z.customers <= CUSTOMERS_PER_DISTRICT
    requires k in Run(State(db, []), steps).db.customers
    ensures var d := Run(State(db, []), steps).db;
            CustOk(k) && HasOrder(d.ordersByCustomer, k) && IndexAgreement(d) && OrdersSound(d) && LinesSound(d)
  {
    hide Run, AllEnabled, Loaded, LinesKnown, Population, IndexAgreement, Dense, Queue, OrdersSound, LinesSound, BalancesRight,
      YtdRight, StockRight, RefsBelow, HasOrder;
    StateOfRun(db, load, z, steps);
    LoadedFitsKeys(db, load, z);
  }

  /** Payment and order status may ask for every name that the client can draw, in every loaded district. */
  lemma ByNameReady(db: DB, load: Load, z: Settings, steps: seq<Step>, dk: DistId, num: nat)
    requires Loaded(db, load, z) && AllEnabled(State(db, []), steps) && dk in db.districts && num <= 999 && num < z.customers
    requires z.warehouses <= MAX_WAREHOUSE_ID && z.districts <= DISTRICTS && z.customers <= CUSTOMERS_PER_DISTRICT
    ensures var d := Run(State(db, []), steps).db;
            && CustomerNames.Letters(CustomerNames.LastName(num))
            && (exists j :: j in d.customers && CustomerNames.Matches(d.customers[j], dk.w, dk.d, CustomerNames.LastName(num)))
            && EveryoneOrdered(d) && (forall j | j in d.customers :: CustOk(j))
            && IndexAgreement(d) && OrdersSound(d) && LinesSound(d)
  {
    hide Run, AllEnabled, Loaded, Keeps, CustOk, CustomerNames.Matches, Population, IndexAgreement, Dense, Queue, OrdersSound,
      LinesSound, EveryoneOrdered, BalancesRight, YtdRight, StockRight, RefsBelow;
    StateOfRun(db, load, z, steps);
    NameFound(db, load, z, steps, dk, num);
    var d := Run(State(db, []), steps).db;
    forall j | j in d.customers ensures CustOk(j) {
      StatusReady(db, load, z, steps, j);
    }
    assert CustId(dk.w, dk.d, num + 1) in d.customers;
  }

  /** The newest buffer may be applied unless it both inserted and deleted one NEW-ORDER row. */
  lemma {:induction false} UndoReady(db: DB, load: Load, steps: seq<Step>)
    requires Consistent(db, load) && AllEnabled(State(db, []), steps) && Run(State(db, []), steps).stack != []
    requires var u := Newest(Run(State(db, []), steps)).undo; u.insertedNewOrders !! u.deletedNewOrders
    ensures var s := Run(State(db, []), steps);
            CanApply(Tx(s.db, Newest(s).undo)) && SavedNames(Newest(s).undo.customers, s.db.customers)
  {
    hide Run, AllEnabled, Consistent, Covers, CanApply, SavedNames, LinesKnown;
    var s := Run(State(db, []), steps);
    RunSound(State(db, []), steps, load);
    KeepsItself(db);
    StateKeeps(db, State(db, []), steps, load);
    var n := |s.stack| - 1;
    assert FrameOk(s.db, s.stack, n, load);
    BufferCanBeApplied(s.stack[n].base, Tx(s.db, s.stack[n].undo), load);
    BufferNames(s.stack[n].base, Tx(s.db, s.stack[n].undo));
  }
}
