/** What follows for every state of every run from a loaded database, and that the methods of the
    table object may be called in all of them. */
module Reachable {
  import opened Sequences
  import opened Rows
  import opened Keys
  import opened NewOrderSpec
  import opened NewOrderSplit
  import opened DeliverySpec
  import opened UndoSpec
  import opened Consistency
  import opened Preservation
  import opened Machine
  import opened Tables
  import opened OrderStore
  import opened OrderedEntries

  /** The conditions of section 3.3.2 of TPC-C hold after any run of transactions, commits and undos. */
  lemma {:induction false} AlwaysConsistent(db: DB, load: Load, steps: seq<Step>)
    requires Consistent(db, load) && AllEnabled(State(db, []), steps)
    ensures Consistent(Run(State(db, []), steps).db, load)
  {
    hide Consistent;
    RunSound(State(db, []), steps, load);
  }

  /** Whatever a buffer accounts for, applyUndo finds what it relies on, unless one NEW-ORDER row was
      both inserted and deleted under it. */
  lemma BufferCanBeApplied(base: DB, t: Tx, load: Load)
    requires Covers(base, t) && Consistent(t.db, load) && t.undo.insertedNewOrders !! t.undo.deletedNewOrders
    ensures CanApply(t) && UndoSpec.ApplyUndo(t) == base.(nextRef := t.db.nextRef)
  {
    hide Population, Dense, Queue, OrdersSound, LinesSound, EveryoneOrdered, BalancesRight, YtdRight, StockRight, RefsBelow,
      IndexAgreement, NewOrdersUndoable, UndoSpec.ApplyUndo, QueueCovers, IndexCovers, SameIds;
    UndoRestores(base, t);
    TailCovered(base, t);
  }

  lemma TailCovered(base: DB, t: Tx)
    requires CoversHistory(base, t)
    ensures IsTail(t.db.history, t.undo.insertedHistory)
  {
  }

  /** The numbers of warehouses and orders are within the limits of the packed keys: the lines of every
      district's next order still have keys of 32 bits. */
  ghost predicate NumbersOk(db: DB) {
    forall k | k in db.districts ::
      WarehouseOk(k.w) && LineKey(LineId(k.w, k.d, db.districts[k].d_next_o_id, MAX_OL_CNT)) <= INT32_MAX
  }

  /** In every reachable state within the limits of the keys the transactions' methods may be called. */
  lemma MethodsCallable(base: DB, t: Tx, load: Load, dk: DistId, c: int)
    requires Covers(base, t) && Consistent(t.db, load) && dk in t.db.districts && NumbersOk(t.db)
    ensures UndoFits(t) && t.db.newOrders <= t.db.orders.Keys && OrderIsNew(t.db, dk, c) && AllReady(t.db)
    ensures WarehouseOk(dk.w) && forall id | id in t.db.newOrders :: OrderOk(id)
    ensures var id := OrderId(dk.w, dk.d, t.db.districts[dk].d_next_o_id);
            OrderOk(id) && OrderKey(id) <= INT32_MAX && forall n | 1 <= n <= MAX_OL_CNT :: 0 < LineKey(LineId(id.w, id.d, id.o, n)) <= INT32_MAX
  {
    NextKeysFit(t.db, dk);
    QueueInRange(t.db);
    hide Covers, UndoFits, OrderIsNew, AllReady, Population, Dense, EveryoneOrdered, BalancesRight, YtdRight, RefsBelow, StockRight;
    CoversFits(base, t);
    NextIsNew(t.db, dk, c);
    ReadyToDeliver(t.db);
  }

  lemma NextKeysFit(db: DB, dk: DistId)
    requires Population(db) && dk in db.districts && NumbersOk(db)
    ensures var id := OrderId(dk.w, dk.d, db.districts[dk].d_next_o_id);
            OrderOk(id) && OrderKey(id) <= INT32_MAX && forall n | 1 <= n <= MAX_OL_CNT :: 0 < LineKey(LineId(id.w, id.d, id.o, n)) <= INT32_MAX
  {
    assert WarehouseOk(dk.w) && 1 <= dk.d <= DISTRICTS && db.districts[dk].d_next_o_id >= 1;
  }

  lemma QueueInRange(db: DB)
    requires Population(db) && Dense(db) && Queue(db) && NumbersOk(db)
    ensures forall id | id in db.newOrders :: OrderOk(id)
  {
    forall id | id in db.newOrders ensures OrderOk(id) {
      assert id in db.orders;
      assert DistOf(id) in db.districts;
    }
  }

  /** The assertions in delivery hold: a queued order has no carrier and its lines no date
      (tpcctables.cc:544, tpcctables.cc:557). */
  lemma QueuedUndelivered(db: DB, load: Load, id: OrderId, n: int)
    requires Consistent(db, load) && id in db.newOrders
    ensures OrderReady(db, id) && OrderAt(db, id).o_carrier_id == NULL_CARRIER_ID
    ensures 1 <= n <= OrderAt(db, id).o_ol_cnt ==> db.lines[LineId(id.w, id.d, id.o, n)].ol_delivery_d == ""
  {
    hide Population, Dense, EveryoneOrdered, BalancesRight, YtdRight, RefsBelow, StockRight;
    ReadyToDeliver(db);
    assert id in db.orders;
    if 1 <= n <= OrderAt(db, id).o_ol_cnt {
      assert LineId(id.w, id.d, id.o, n) in db.lines;
    }
  }

  /** Orders leave a district's queue in the order of their numbers: below the next one to deliver
      everything has been delivered, from it on nothing has. */
  lemma FirstInFirstOut(db: DB, load: Load, dk: DistId, id: OrderId)
    requires Consistent(db, load) && Lowest(db.newOrders, dk) == Some(id) && id in db.orders
    ensures forall j | j in db.orders && DistOf(j) == dk ::
              (j.o < id.o ==> OrderAt(db, j).o_carrier_id != NULL_CARRIER_ID)
              && (j.o >= id.o ==> OrderAt(db, j).o_carrier_id == NULL_CARRIER_ID && j in db.newOrders)
  {
    hide Population, Dense, LinesSound, EveryoneOrdered, BalancesRight, YtdRight, StockRight, RefsBelow;
    forall j | j in db.orders && DistOf(j) == dk
      ensures j in db.newOrders <==> j.o >= id.o
    {
      assert j == OrderId(id.w, id.d, j.o);
    }
  }

  /** The predecessor search for a customer finds an order of the customer, and the one with the
      largest number among all orders of the customer. */
  lemma LastOrderRight(db: DB, load: Load, k: CustId)
    requires Consistent(db, load) && k in db.customers
    ensures HasOrder(db.ordersByCustomer, k)
    ensures forall j | IsLastOrder(db.ordersByCustomer, k, j) ::
              && OrderId(k.w, k.d, j.o) in db.orders && OrderAt(db, OrderId(k.w, k.d, j.o)).o_c_id == k.c
              && forall id | id in db.orders && DistOf(id) == DistId(k.w, k.d) && OrderAt(db, id).o_c_id == k.c :: id.o <= j.o
  {
    hide Population, Dense, Queue, OrdersSound, LinesSound, BalancesRight, YtdRight, StockRight, RefsBelow;
    assert HasOrder(db.ordersByCustomer, k);
    forall j | IsLastOrder(db.ordersByCustomer, k, j)
      ensures && OrderId(k.w, k.d, j.o) in db.orders && OrderAt(db, OrderId(k.w, k.d, j.o)).o_c_id == k.c
              && forall id | id in db.orders && DistOf(id) == DistId(k.w, k.d) && OrderAt(db, id).o_c_id == k.c :: id.o <= j.o
    {
      OwnLast(db, k, j);
    }
  }

  /** So the predecessor search in the tree finds, for every customer, the customer's own order with
      the largest number. */
  lemma LastOrderFound(db: DB, load: Load, k: CustId, byKey: map<int, Ref>, last: int)
    requires Consistent(db, load) && k in db.customers && CustOk(k) && KeysOk(db.orders, db.ordersByCustomer)
    requires Packs(db.ordersByCustomer, byKey, CustOrderKey) && IsLastLessThan(byKey, PastCustomer(k), last)
    ensures byKey[last] in db.orderRows
    ensures var o := db.orderRows[byKey[last]];
            && CustId(o.o_w_id, o.o_d_id, o.o_c_id) == k && OrderIdOf(o) in db.orders && db.orders[OrderIdOf(o)] == byKey[last]
            && forall id | id in db.orders && DistOf(id) == DistId(k.w, k.d) && OrderAt(db, id).o_c_id == k.c :: id.o <= o.o_id
  {
    hide Population, Dense, Queue, OrdersSound, LinesSound, EveryoneOrdered, BalancesRight, YtdRight, StockRight, RefsBelow,
      HasOrder, CustOk;
    LastOrderRight(db, load, k);
    var j := LastBelow(db.ordersByCustomer, byKey, k, last);
    assert Indexed(db, byKey[last]);
  }

  lemma OwnLast(db: DB, k: CustId, j: CustOrderId)
    requires IndexAgreement(db) && IsLastOrder(db.ordersByCustomer, k, j)
    ensures OrderId(k.w, k.d, j.o) in db.orders && OrderAt(db, OrderId(k.w, k.d, j.o)).o_c_id == k.c
    ensures forall id | id in db.orders && DistOf(id) == DistId(k.w, k.d) && OrderAt(db, id).o_c_id == k.c :: id.o <= j.o
  {
    assert Indexed(db, db.ordersByCustomer[j]);
    forall id | id in db.orders && DistOf(id) == DistId(k.w, k.d) && OrderAt(db, id).o_c_id == k.c ensures id.o <= j.o {
      assert Indexed(db, db.orders[id]);
      assert Owns(k, CustOrderIdOf(OrderAt(db, id)));
    }
  }

  /** What the new-order method leaves is one left-to-right pass over the items; with the quantities
      that TPC-C allows, the reported quantities are those of the pass. */
  lemma {:induction false} NewOrderIsOnePass(t: Tx, dk: DistId, c: int, its: seq<NewOrderItem>, now: string, ws: seq<int>,
                                             db: DB, u: Undo, track: bool, infos: seq<ItemInfo>, total: int, load: Load)
    requires NewOrderDone(t, dk, c, its, now, [dk.w] + ws, db, u, track, infos, total)
    requires Enumerates(ws, RemoteWarehouses(dk.w, its)) && NewOrderReady(t.db, dk, c, its)
    requires StockRight(t.db, load) && forall i | 0 <= i < |its| :: 1 <= its[i].ol_quantity <= 10
    ensures var whole := WholePass(t.db.stock, dk.w, its, |its|);
            && db == EnterOrder(t, dk, c, its, now).db.(stock := whole.stock)
            && QuantitiesOf(infos) == whole.out
  {
    SplitAgrees(t, dk, c, its, now, ws);
    QuantitiesInRange(t.db.stock, dk.w, its, load.quantity);
    forall i | 0 <= i < |its| ensures RowBefore(t.db.stock, dk.w, its, i).s_quantity != its[i].ol_quantity - 92 {
      MarkerExactly(t.db.stock, dk.w, its, i);
    }
    var out := RemoteOuts(EnterOrder(t, dk, c, its, now), dk.w, [dk.w] + ws, its, Zeros(|its|));
    FilledTwice(Infos(t.db, its, |its|), out, out);
  }
}
