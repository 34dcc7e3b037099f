/** What the counters of stock rows and customers mean in every state after the load: sums and numbers of the
    order lines and orders that are there. */
module Counters {
  import opened Rows
  import opened NewOrderSpec
  import opened UndoSpec
  import opened Consistency
  import opened Preservation
  import opened Machine
  import opened StockLaw
  import opened DeliveryLaw
  import opened Generated
  import opened Generator
  import DeliverySpec

  /** The customer's orders numbered from `first` on that have a carrier. */
  function CarriedFor(orders: map<OrderId, Ref>, rows: map<Ref, Order>, k: CustId, first: int): set<OrderId> {
    set id | id in orders && orders[id] in rows && id.w == k.w && id.d == k.d && id.o >= first
             && rows[orders[id]].o_c_id == k.c && rows[orders[id]].o_carrier_id != NULL_CARRIER_ID
  }

  ghost predicate DeliveriesCounted(db: DB, first: int) {
    forall k | k in db.customers :: db.customers[k].c_delivery_cnt == |CarriedFor(db.orders, db.orderRows, k, first)|
  }

  /** Orders wait from number `first` on, and the next order of every district is numbered past `c`. */
  predicate NumbersFrom(db: DB, c: int, first: int) {
    && first <= c + 1 && (forall id | id in db.newOrders :: id.o >= first)
    && forall k | k in db.districts :: db.districts[k].d_next_o_id > c
  }

  /** All counters are right: of the load's orders, those up to `c`, no line counts for the stock, and those below
      `first` count for no customer. */
  ghost predicate Counted(db: DB, c: int, first: int) {
    StockCounted(db.stock, db.lines, c) && DeliveriesCounted(db, first) && NumbersFrom(db, c, first)
  }

  lemma CountedLater(db: DB, c: int, first: int, n: Ref)
    requires Counted(db, c, first)
    ensures Counted(db.(nextRef := n), c, first)
  {
    hide StockCounted;
  }

  // ---------------------------------------------------------------- payments

  lemma PaymentCounted(t: Tx, cmd: Command, c: int, first: int)
    requires Counted(t.db, c, first) && cmd.CPayment? && Ready(t.db, cmd)
    ensures Counted(Do(t, cmd).db, c, first)
  {
    hide StockCounted, CarriedFor;
  }

  // ---------------------------------------------------------------- deliveries

  lemma CarriedMore(a: DB, b: DB, w: int, carrier: int, k: CustId, first: int)
    requires IndexAgreement(a) && OrdersSound(a) && a.newOrders <= a.orders.Keys && carrier != NULL_CARRIER_ID
    requires OrdersCarried(a, b, w, DISTRICTS, carrier) && forall id | id in a.newOrders :: id.o >= first
    ensures CarriedFor(b.orders, b.orderRows, k, first) == CarriedFor(a.orders, a.orderRows, k, first) + TakenFor(a, w, DISTRICTS, k)
    ensures CarriedFor(a.orders, a.orderRows, k, first) !! TakenFor(a, w, DISTRICTS, k)
  {
    hide Indexed;
    var x, y, taken := CarriedFor(a.orders, a.orderRows, k, first), CarriedFor(b.orders, b.orderRows, k, first), TakenFor(a, w, DISTRICTS, k);
    forall id ensures id in y <==> id in x || id in taken {
      assert DeliverySpec.IsLowest(a.newOrders, id) ==> id in a.newOrders;
    }
  }

  lemma DeliveriesStay(a: DB, b: DB, w: int, carrier: int, now: string, first: int)
    requires IndexAgreement(a) && OrdersSound(a) && a.newOrders <= a.orders.Keys && carrier != NULL_CARRIER_ID
    requires DeliveryDone(a, b, w, DISTRICTS, carrier, now) && DeliveriesCounted(a, first) && forall id | id in a.newOrders :: id.o >= first
    ensures DeliveriesCounted(b, first)
  {
    hide IndexAgreement, OrdersSound, OrdersCarried, LinesDated, CarriedFor, TakenFor;
    forall k | k in b.customers ensures b.customers[k].c_delivery_cnt == |CarriedFor(b.orders, b.orderRows, k, first)| {
      CarriedMore(a, b, w, carrier, k, first);
    }
  }

  lemma DatesOnly(a: DB, b: DB, w: int, now: string, c: int)
    requires IndexAgreement(a) && LinesDated(a, b, w, DISTRICTS, now) && StockCounted(a.stock, a.lines, c)
    ensures StockCounted(a.stock, b.lines, c)
  {
    hide StockCounted, Taken;
    DatesDoNotCount(a.stock, a.lines, b.lines, c);
  }

  lemma DeliveryCounted(t: Tx, cmd: Command, c: int, first: int)
    requires IndexAgreement(t.db) && OrdersSound(t.db) && t.db.newOrders <= t.db.orders.Keys
    requires Counted(t.db, c, first) && cmd.CDelivery? && Ready(t.db, cmd)
    ensures Counted(Do(t, cmd).db, c, first)
  {
    hide IndexAgreement, OrdersSound, StockCounted, DeliveriesCounted, LinesDated, CustomersCounted, Taken,
      DeliverySpec.AllReady, DeliverySpec.Delivery;
    var b := Do(t, cmd).db;
    DeliveryIs(t, cmd.w, cmd.carrier, cmd.now, DISTRICTS);
    DeliveriesStay(t.db, b, cmd.w, cmd.carrier, cmd.now, first);
    DatesOnly(t.db, b, cmd.w, cmd.now, c);
  }

  // ---------------------------------------------------------------- new orders

  lemma NoneCarried(orders: map<OrderId, Ref>, rows: map<Ref, Order>, k: CustId, first: int, id: OrderId, r: Ref, o: Order)
    requires id !in orders && r !in rows && o.o_carrier_id == NULL_CARRIER_ID
    requires forall j | j in orders :: orders[j] in rows
    ensures CarriedFor(orders[id := r], rows[r := o], k, first) == CarriedFor(orders, rows, k, first)
  {
  }

  lemma OrderCounted(t: Tx, cmd: Command, c: int, first: int)
    requires IndexAgreement(t.db) && Dense(t.db) && LinesSound(t.db) && RefsBelow(t.db, t.db.nextRef)
    requires Counted(t.db, c, first) && cmd.CNewOrder? && Ready(t.db, cmd) && ItemsValid(t.db, cmd.items)
    ensures Counted(Do(t, cmd).db, c, first)
  {
    hide IndexAgreement, Dense, LinesSound, RefsBelow, StockCounted, DeliveriesCounted, OrderIsNew, Enumerates, RemoteWarehouses, ItemsValid, NewOrder;
    NextIsNew(t.db, cmd.dk, cmd.c);
    NewOrderCounted(t, cmd.dk, cmd.c, cmd.items, cmd.now, cmd.ws, c);
    OrderCountsFor(t, cmd, c, first);
    OrderNumbers(t, cmd, c, first);
  }

  lemma OrderCountsFor(t: Tx, cmd: Command, c: int, first: int)
    requires IndexAgreement(t.db) && RefsBelow(t.db, t.db.nextRef) && DeliveriesCounted(t.db, first)
    requires cmd.CNewOrder? && Ready(t.db, cmd) && ItemsValid(t.db, cmd.items) && OrderIsNew(t.db, cmd.dk, cmd.c)
    ensures DeliveriesCounted(Do(t, cmd).db, first)
  {
    hide CarriedFor, ItemsValid, NewLines, RemotePart, RemoteWarehouses, Enumerates, AllLocal, Indexed;
    var id := OrderId(cmd.dk.w, cmd.dk.d, t.db.districts[cmd.dk].d_next_o_id);
    var o := OrderFor(id, cmd.c, cmd.items, cmd.now);
    forall k | k in t.db.customers
      ensures CarriedFor(Do(t, cmd).db.orders, Do(t, cmd).db.orderRows, k, first) == CarriedFor(t.db.orders, t.db.orderRows, k, first)
    {
      NoneCarried(t.db.orders, t.db.orderRows, k, first, id, t.db.nextRef, o);
    }
  }

  lemma OrderNumbers(t: Tx, cmd: Command, c: int, first: int)
    requires cmd.CNewOrder? && Ready(t.db, cmd) && ItemsValid(t.db, cmd.items) && NumbersFrom(t.db, c, first)
    ensures NumbersFrom(Do(t, cmd).db, c, first)
  {
    hide ItemsValid, NewLines, RemotePart, RemoteWarehouses, Enumerates, AllLocal;
  }

  // ---------------------------------------------------------------- every command, and the load

  lemma DoCounted(t: Tx, cmd: Command, load: Load, c: int, first: int)
    requires Consistent(t.db, load) && Counted(t.db, c, first) && Ready(t.db, cmd)
    ensures Counted(Do(t, cmd).db, c, first)
  {
    hide Counted, Do, ItemsValid, RefsBelow, Population, IndexAgreement, Dense, OrdersSound, LinesSound, EveryoneOrdered,
      BalancesRight, YtdRight, StockRight;
    if cmd.CNewOrder? && !ItemsValid(t.db, cmd.items) {
      RefusedKeeps(t, cmd);
    } else {
      match cmd
      case CNewOrder(dk, cust, items, now, ws) => OrderCounted(t, cmd, c, first);
      case CPayment(dk, cust, amount, now, record) => PaymentCounted(t, cmd, c, first);
      case CDelivery(w, carrier, now) => DeliveryCounted(t, cmd, c, first);
    }
  }

  lemma RefusedKeeps(t: Tx, cmd: Command)
    requires Ready(t.db, cmd) && Refused(t.db, cmd)
    ensures Do(t, cmd) == t
  {
    hide ItemsValid;
  }

  lemma NotCarried(db: DB, now: string, c: nat, first: int, id: OrderId)
    requires IndexAgreement(db) && RowsMade(db, now, c, first) && id in db.orders && id.o >= first
    ensures OrderAt(db, id).o_carrier_id == NULL_CARRIER_ID
  {
    hide CustomersMade, LinesMade, Indexed;
    var r := db.orders[id];
    assert r in db.orderRows && OrderMade(db.orderRows[r], db.orderRows[r].o_id >= first, now);
  }

  lemma NoneYet(db: DB, now: string, c: nat, first: int, k: CustId)
    requires IndexAgreement(db) && RowsMade(db, now, c, first)
    ensures CarriedFor(db.orders, db.orderRows, k, first) == {}
  {
    hide RowsMade, Indexed;
    forall id | id in db.orders && id.o >= first ensures OrderAt(db, id).o_carrier_id == NULL_CARRIER_ID {
      NotCarried(db, now, c, first, id);
    }
  }

  lemma NothingDelivered(db: DB, now: string, c: nat, first: int)
    requires IndexAgreement(db) && RowsMade(db, now, c, first)
    ensures DeliveriesCounted(db, first)
  {
    hide IndexAgreement, LinesMade, CarriedFor;
    forall k | k in db.customers ensures |CarriedFor(db.orders, db.orderRows, k, first)| == 0 == db.customers[k].c_delivery_cnt {
      NoneYet(db, now, c, first, k);
      assert CustomerMade(k, db.customers[k], c);
    }
  }

  /** Right after the load nothing is ordered, and nobody's delivered orders count. */
  lemma LoadedCounted(db: DB, load: Load, z: Settings)
    requires Loaded(db, load, z)
    ensures Counted(db, z.customers, z.FirstNew())
  {
    hide Population, IndexAgreement, Dense, Queue, OrdersSound, EveryoneOrdered, BalancesRight, YtdRight, RefsBelow, StockRight, LinesSound,
      RowsMade, StockCounted, DeliveriesCounted;
    LoadedLines(db, load, z);
    NothingDelivered(db, z.now, z.customers, z.FirstNew());
  }

  lemma LoadedLines(db: DB, load: Load, z: Settings)
    requires Loaded(db, load, z)
    ensures StockCounted(db.stock, db.lines, z.customers)
  {
    hide Population, Queue, OrdersSound, EveryoneOrdered, BalancesRight, YtdRight, RefsBelow, StockRight, RowCounted, Indexed,
      CustomersMade, LinesMade;
    forall l | l in db.lines ensures l.o <= z.customers {
      assert OrderOfLine(l) in db.orders;
    }
    forall k | k in db.stock ensures RowCounted(db.stock[k], db.lines, k, z.customers) {
      NothingOrdered(db.stock[k], db.lines, k, z.customers);
    }
  }
}
