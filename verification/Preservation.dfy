/** Every transaction keeps every consistency condition. */
module Preservation {
  import opened Rows
  import opened NewOrderSpec
  import opened NewOrderSplit
  import opened PaymentSpec
  import opened DeliverySpec
  import opened UndoSpec
  import opened Consistency

  // ---------------------------------------------------------------- sums

  lemma {:induction false} LineTotalSame(a: map<LineId, OrderLine>, b: map<LineId, OrderLine>, id: OrderId, n: int)
    requires forall i | 1 <= i <= n ::
               var l := LineId(id.w, id.d, id.o, i);
               (l in a <==> l in b) && (l in a ==> a[l].ol_amount == b[l].ol_amount)
    ensures LineTotal(a, id, n) == LineTotal(b, id, n)
    decreases n
  {
    if n > 0 {
      LineTotalSame(a, b, id, n - 1);
    }
  }

  lemma {:induction false} PaidSame(h: seq<Ref>, a: map<Ref, History>, b: map<Ref, History>, k: CustId, dk: DistId)
    requires forall r | r in h :: (r in a <==> r in b) && (r in a ==> a[r] == b[r])
    ensures PaidBy(h, a, k) == PaidBy(h, b, k) && PaidIn(h, a, dk) == PaidIn(h, b, dk)
  {
    if h != [] {
      PaidSame(h[..|h| - 1], a, b, k, dk);
    }
  }

  /** A new history row counts for its customer and its district only. */
  lemma PaidAppend(h: seq<Ref>, rows: map<Ref, History>, r: Ref, row: History, k: CustId, dk: DistId)
    requires r !in h
    ensures PaidBy(h + [r], rows[r := row], k) == PaidBy(h, rows, k) + if CustomerOf(row) == k then row.h_amount else 0
    ensures PaidIn(h + [r], rows[r := row], dk) ==
            PaidIn(h, rows, dk) + if DistrictOf(row) == dk then row.h_amount else 0
  {
    PaidSame(h, rows, rows[r := row], k, dk);
    assert (h + [r])[..|h|] == h;
  }

  lemma {:induction false} DistrictSumDiffers(a: map<DistId, District>, b: map<DistId, District>, w: int, n: nat,
                                              at: DistId, delta: int)
    requires a.Keys == b.Keys && at in a
    requires forall k | k in a :: b[k].d_ytd == a[k].d_ytd + if k == at then delta else 0
    ensures DistrictSum(b, w, n) == DistrictSum(a, w, n) + if at.w == w && 1 <= at.d <= n then delta else 0
  {
    if n > 0 {
      DistrictSumDiffers(a, b, w, n - 1, at, delta);
    }
  }

  // ---------------------------------------------------------------- adding an order

  /** The next order of a district, with its lines and, if it has no carrier yet, its NEW-ORDER row:
      what a new-order transaction adds, and what the load adds. */
  function AddOrder(db: DB, o: Order, lines: map<LineId, OrderLine>): DB
    requires DistOf(OrderIdOf(o)) in db.districts
  {
    var id, r := OrderIdOf(o), db.nextRef;
    var d := db.districts[DistOf(id)];
    db.(districts := db.districts[DistOf(id) := d.(d_next_o_id := d.d_next_o_id + 1)],
        orders := db.orders[id := r],
        ordersByCustomer := db.ordersByCustomer[CustOrderIdOf(o) := r],
        orderRows := db.orderRows[r := o],
        newOrders := if o.o_carrier_id == NULL_CARRIER_ID then db.newOrders + {id} else db.newOrders,
        lines := db.lines + lines,
        nextRef := r + 1)
  }

  /** A new order, or a delivered one that is worth nothing in a district without new orders. */
  ghost predicate OrderFits(db: DB, o: Order, lines: map<LineId, OrderLine>) {
    var id := OrderIdOf(o);
    && DistOf(id) in db.districts && id.o == db.districts[DistOf(id)].d_next_o_id
    && 1 <= o.o_ol_cnt <= MAX_OL_CNT && CustId(id.w, id.d, o.o_c_id) in db.customers
    && (forall l :: l in lines <==> OrderOfLine(l) == id && 1 <= l.n <= o.o_ol_cnt)
    && (forall l | l in lines ::
          LineIdOf(lines[l]) == l && (lines[l].ol_delivery_d == "" <==> o.o_carrier_id == NULL_CARRIER_ID))
    && (o.o_carrier_id == NULL_CARRIER_ID
        || (LineTotal(lines, id, o.o_ol_cnt) == 0 && forall j | j in db.newOrders :: DistOf(j) != DistOf(id)))
  }

  lemma NextIsNew(db: DB, dk: DistId, c: int)
    requires IndexAgreement(db) && Dense(db) && LinesSound(db) && dk in db.districts
    ensures OrderIsNew(db, dk, c)
  {
    assert OrderId(dk.w, dk.d, db.districts[dk].d_next_o_id) !in db.orders;
    forall k | k in db.ordersByCustomer ensures OrderId(k.w, k.d, k.o) in db.orders {
      assert Indexed(db, db.ordersByCustomer[k]);
    }
  }

  ghost predicate IsNew(db: DB, o: Order)
    requires DistOf(OrderIdOf(o)) in db.districts
  {
    OrderIsNew(db, DistOf(OrderIdOf(o)), o.o_c_id)
  }

  lemma AddBelow(db: DB, o: Order, lines: map<LineId, OrderLine>)
    requires RefsBelow(db, db.nextRef) && DistOf(OrderIdOf(o)) in db.districts
    ensures var db' := AddOrder(db, o, lines); RefsBelow(db', db'.nextRef)
  {
  }

  lemma AddIndex(db: DB, o: Order, lines: map<LineId, OrderLine>)
    requires RefsBelow(db, db.nextRef) && IndexAgreement(db) && OrderFits(db, o, lines) && IsNew(db, o)
    ensures IndexAgreement(AddOrder(db, o, lines))
  {
    InsertKeepsIndex(db, o, db.nextRef);
    var db' := AddOrder(db, o, lines);
    SameIndex(db.(orders := db'.orders, orderRows := db'.orderRows, ordersByCustomer := db'.ordersByCustomer), db');
  }

  lemma AddPopulation(db: DB, o: Order, lines: map<LineId, OrderLine>)
    requires Population(db) && OrderFits(db, o, lines)
    ensures Population(AddOrder(db, o, lines))
  {
  }

  lemma AddDense(db: DB, o: Order, lines: map<LineId, OrderLine>)
    requires Dense(db) && Population(db) && OrderFits(db, o, lines)
    ensures Dense(AddOrder(db, o, lines))
  {
    var db', dk := AddOrder(db, o, lines), DistOf(OrderIdOf(o));
    NextDense(db.orders, db.districts, dk, db.nextRef, db'.orders, db'.districts);
  }

  lemma NextDense(orders: map<OrderId, Ref>, districts: map<DistId, District>, dk: DistId, r: Ref,
                  orders': map<OrderId, Ref>, districts': map<DistId, District>)
    requires forall id | id in orders :: DistOf(id) in districts && 1 <= id.o < districts[DistOf(id)].d_next_o_id
    requires forall k, o | k in districts && 1 <= o < districts[k].d_next_o_id :: OrderId(k.w, k.d, o) in orders
    requires dk in districts && districts[dk].d_next_o_id >= 1
    requires var d := districts[dk];
             && orders' == orders[OrderId(dk.w, dk.d, d.d_next_o_id) := r]
             && districts' == districts[dk := d.(d_next_o_id := d.d_next_o_id + 1)]
    ensures forall id | id in orders' :: DistOf(id) in districts' && 1 <= id.o < districts'[DistOf(id)].d_next_o_id
    ensures forall k, o | k in districts' && 1 <= o < districts'[k].d_next_o_id :: OrderId(k.w, k.d, o) in orders'
  {
    forall k, o | k in districts' && 1 <= o < districts'[k].d_next_o_id
      ensures OrderId(k.w, k.d, o) in orders'
    {
      assert (k == dk && o == districts[dk].d_next_o_id) || OrderId(k.w, k.d, o) in orders;
    }
  }

  lemma AddQueued(db: DB, o: Order, lines: map<LineId, OrderLine>)
    requires Dense(db) && Queue(db) && OrderFits(db, o, lines)
    ensures Queue(AddOrder(db, o, lines))
  {
  }

  lemma OlderOrder(db: DB, o: Order, lines: map<LineId, OrderLine>, j: OrderId)
    requires RefsBelow(db, db.nextRef) && IndexAgreement(db) && j in db.orders && OrderFits(db, o, lines) && IsNew(db, o)
    requires IndexAgreement(AddOrder(db, o, lines))
    ensures var db' := AddOrder(db, o, lines); j in db'.orders && OrderAt(db', j) == OrderAt(db, j)
  {
  }

  lemma AddOrders(db: DB, o: Order, lines: map<LineId, OrderLine>)
    requires RefsBelow(db, db.nextRef) && IndexAgreement(db) && OrdersSound(db) && Queue(db)
    requires OrderFits(db, o, lines) && IsNew(db, o) && IndexAgreement(AddOrder(db, o, lines))
    ensures OrdersSound(AddOrder(db, o, lines))
  {
    var db' := AddOrder(db, o, lines);
    forall id | id in db'.orders
      ensures id in db.orders ==> OrderAt(db', id) == OrderAt(db, id) && (id in db'.newOrders <==> id in db.newOrders)
    {
    }
  }

  lemma AddLine(db: DB, o: Order, lines: map<LineId, OrderLine>, l: LineId)
    requires RefsBelow(db, db.nextRef) && IndexAgreement(db) && LinesSound(db) && OrderFits(db, o, lines) && IsNew(db, o)
    requires IndexAgreement(AddOrder(db, o, lines)) && l in AddOrder(db, o, lines).lines
    ensures var db' := AddOrder(db, o, lines);
            && OrderOfLine(l) in db'.orders && 1 <= l.n <= OrderAt(db', OrderOfLine(l)).o_ol_cnt
            && LineIdOf(db'.lines[l]) == l
            && (db'.lines[l].ol_delivery_d == "" <==> OrderAt(db', OrderOfLine(l)).o_carrier_id == NULL_CARRIER_ID)
  {
    var db' := AddOrder(db, o, lines);
    if l in lines {
      assert OrderAt(db', OrderIdOf(o)) == o;
    } else {
      assert l in db.lines && db'.lines[l] == db.lines[l] && OrderOfLine(l) in db.orders;
      OlderOrder(db, o, lines, OrderOfLine(l));
    }
  }

  lemma AddAllLines(db: DB, o: Order, lines: map<LineId, OrderLine>, j: OrderId, n: int)
    requires RefsBelow(db, db.nextRef) && IndexAgreement(db) && LinesSound(db) && OrderFits(db, o, lines) && IsNew(db, o)
    requires IndexAgreement(AddOrder(db, o, lines))
    requires var db' := AddOrder(db, o, lines); j in db'.orders && 1 <= n <= OrderAt(db', j).o_ol_cnt
    ensures LineId(j.w, j.d, j.o, n) in AddOrder(db, o, lines).lines
  {
    if j == OrderIdOf(o) {
      assert LineId(j.w, j.d, j.o, n) in lines;
    } else {
      OlderOrder(db, o, lines, j);
    }
  }

  lemma AddLines(db: DB, o: Order, lines: map<LineId, OrderLine>)
    requires RefsBelow(db, db.nextRef) && IndexAgreement(db) && LinesSound(db) && OrderFits(db, o, lines) && IsNew(db, o)
    requires IndexAgreement(AddOrder(db, o, lines))
    ensures LinesSound(AddOrder(db, o, lines))
  {
    var db' := AddOrder(db, o, lines);
    forall l | l in db'.lines {
      AddLine(db, o, lines, l);
    }
    forall j, n | j in db'.orders && 1 <= n <= OrderAt(db', j).o_ol_cnt
      ensures LineId(j.w, j.d, j.o, n) in db'.lines
    {
      AddAllLines(db, o, lines, j, n);
    }
  }

  /** The order adds nothing to anybody's delivered amounts. */
  lemma AddShare(db: DB, o: Order, lines: map<LineId, OrderLine>, k: CustId, n: int)
    requires RefsBelow(db, db.nextRef) && IndexAgreement(db) && OrderFits(db, o, lines) && IsNew(db, o)
    ensures var db' := AddOrder(db, o, lines);
            Share(db'.orders, db'.orderRows, db'.lines, k, n) == Share(db.orders, db.orderRows, db.lines, k, n)
  {
    var db', j := AddOrder(db, o, lines), OrderId(k.w, k.d, n);
    if j in db.orders {
      LineTotalSame(db.lines, db'.lines, j, db.orderRows[db.orders[j]].o_ol_cnt);
    } else if j == OrderIdOf(o) {
      LineTotalSame(lines, db'.lines, j, o.o_ol_cnt);
    }
  }

  lemma {:induction false} AddDeliveredUpTo(db: DB, o: Order, lines: map<LineId, OrderLine>, k: CustId, n: int)
    requires RefsBelow(db, db.nextRef) && IndexAgreement(db) && OrderFits(db, o, lines) && IsNew(db, o)
    ensures var db' := AddOrder(db, o, lines);
            Delivered(db'.orders, db'.orderRows, db'.lines, k, n) == Delivered(db.orders, db.orderRows, db.lines, k, n)
    decreases n
  {
    hide RefsBelow, IndexAgreement, OrderFits, IsNew, Share;
    if n > 0 {
      AddDeliveredUpTo(db, o, lines, k, n - 1);
      AddShare(db, o, lines, k, n);
    }
  }

  lemma NoShare(db: DB, k: CustId, o: int)
    requires OrderId(k.w, k.d, o) !in db.orders
    ensures Share(db.orders, db.orderRows, db.lines, k, o) == 0
  {
  }

  lemma AddDelivered(db: DB, o: Order, lines: map<LineId, OrderLine>, k: CustId)
    requires RefsBelow(db, db.nextRef) && IndexAgreement(db) && Population(db) && OrderFits(db, o, lines) && IsNew(db, o)
    ensures DeliveredTo(AddOrder(db, o, lines), k) == DeliveredTo(db, k)
  {
    hide IndexAgreement, RefsBelow, Share;
    var dk := DistId(k.w, k.d);
    if dk in db.districts {
      var n := db.districts[dk].d_next_o_id - 1;
      AddDeliveredUpTo(db, o, lines, k, n);
      if dk == DistOf(OrderIdOf(o)) {
        AddShare(db, o, lines, k, n + 1);
        NoShare(db, k, n + 1);
      }
    }
  }

  lemma AddBalances(db: DB, o: Order, lines: map<LineId, OrderLine>)
    requires RefsBelow(db, db.nextRef) && IndexAgreement(db) && Population(db) && OrderFits(db, o, lines) && IsNew(db, o)
    requires BalancesRight(db)
    ensures BalancesRight(AddOrder(db, o, lines))
  {
    assert DistOf(OrderIdOf(o)) in db.districts;
    hide IndexAgreement, RefsBelow, Population, OrderFits, IsNew, DeliveredTo;
    var db' := AddOrder(db, o, lines);
    forall k | k in db'.customers ensures BalanceRight(db', k) {
      assert BalanceRight(db, k);
      AddDelivered(db, o, lines, k);
    }
  }

  lemma AddYtd(db: DB, o: Order, lines: map<LineId, OrderLine>, load: Load)
    requires OrderFits(db, o, lines) && YtdRight(db, load)
    ensures YtdRight(AddOrder(db, o, lines), load)
  {
    var db' := AddOrder(db, o, lines);
    forall w | w in db'.warehouses
      ensures db'.warehouses[w].w_ytd == DistrictSum(db'.districts, w, DISTRICTS) + load.warehouseGap
    {
      DistrictSumDiffers(db.districts, db'.districts, w, DISTRICTS, DistOf(OrderIdOf(o)), 0);
    }
  }

  lemma AddEveryone(db: DB, o: Order, lines: map<LineId, OrderLine>)
    requires OrderFits(db, o, lines) && EveryoneOrdered(db)
    ensures EveryoneOrdered(AddOrder(db, o, lines))
  {
    var db' := AddOrder(db, o, lines);
    forall k | k in db'.customers ensures HasOrder(db'.ordersByCustomer, k) {
      assert HasOrder(db.ordersByCustomer, k);
      var n :| CustOrderId(k.w, k.d, k.c, n) in db.ordersByCustomer;
      assert CustOrderId(k.w, k.d, k.c, n) in db'.ordersByCustomer;
    }
  }

  /** All that does not depend on which customers have orders and on the year-to-date sums. */
  ghost predicate Core(db: DB, load: Load) {
    && RefsBelow(db, db.nextRef) && Population(db) && IndexAgreement(db) && Dense(db) && Queue(db)
    && OrdersSound(db) && LinesSound(db) && BalancesRight(db) && StockRight(db, load)
  }

  lemma AddCore(db: DB, o: Order, lines: map<LineId, OrderLine>, load: Load)
    requires Core(db, load) && OrderFits(db, o, lines)
    ensures IsNew(db, o) && Core(AddOrder(db, o, lines), load)
  {
    hide Population, IndexAgreement, Dense, Queue, OrdersSound, LinesSound, BalancesRight, RefsBelow, IsNew;
    AddIsNew(db, o, lines);
    AddBelow(db, o, lines);
    AddIndex(db, o, lines);
    AddPopulation(db, o, lines);
    AddDense(db, o, lines);
    AddQueued(db, o, lines);
    AddOrders(db, o, lines);
    AddLines(db, o, lines);
    AddBalances(db, o, lines);
  }

  lemma AddIsNew(db: DB, o: Order, lines: map<LineId, OrderLine>)
    requires IndexAgreement(db) && Dense(db) && LinesSound(db) && OrderFits(db, o, lines)
    ensures IsNew(db, o)
  {
    NextIsNew(db, DistOf(OrderIdOf(o)), o.o_c_id);
  }

  // ---------------------------------------------------------------- entering an order

  /** The parameters of a new order that the client generates. */
  ghost predicate OrderArguments(db: DB, dk: DistId, c: int, items: seq<NewOrderItem>, now: string) {
    && NewOrderReady(db, dk, c, items) && 1 <= |items| <= MAX_OL_CNT
    && forall i | 0 <= i < |items| :: 1 <= items[i].ol_quantity <= 10
  }

  lemma {:induction false} EnterIsAdd(t: Tx, dk: DistId, c: int, items: seq<NewOrderItem>, now: string)
    requires OrderArguments(t.db, dk, c, items, now) && ItemsValid(t.db, items)
    ensures var id := OrderId(dk.w, dk.d, t.db.districts[dk].d_next_o_id);
            var o, lines := OrderFor(id, c, items, now), NewLines(t.db, id, items, |items|);
            OrderFits(t.db, o, lines) && EnterOrder(t, dk, c, items, now).db == AddOrder(t.db, o, lines)
  {
  }

  lemma EnterConsistent(t: Tx, dk: DistId, c: int, items: seq<NewOrderItem>, now: string, load: Load)
    requires Consistent(t.db, load) && OrderArguments(t.db, dk, c, items, now) && ItemsValid(t.db, items)
    ensures Consistent(EnterOrder(t, dk, c, items, now).db, load)
  {
    hide Population, IndexAgreement, Dense, Queue, OrdersSound, LinesSound, EveryoneOrdered, BalancesRight, YtdRight,
      RefsBelow, StockRight, AddOrder, OrderFits, EnterOrder;
    EnterIsAdd(t, dk, c, items, now);
    var id := OrderId(dk.w, dk.d, t.db.districts[dk].d_next_o_id);
    var o, lines := OrderFor(id, c, items, now), NewLines(t.db, id, items, |items|);
    AddCore(t.db, o, lines, load);
    AddEveryone(t.db, o, lines);
    AddYtd(t.db, o, lines, load);
  }

  // ---------------------------------------------------------------- stock passes

  lemma {:induction false} PassRule(stock: map<StockId, Stock>, saved: map<StockId, Stock>, home: int, remote: int,
                                    items: seq<NewOrderItem>, load: Load)
    requires StockPresent(stock, items) && forall i | 0 <= i < |items| :: 1 <= items[i].ol_quantity <= 10
    requires forall k | k in stock :: k in load.quantity && QuantityRule(stock[k], load.quantity[k])
    ensures var p := RemotePass(stock, saved, home, remote, items, |items|);
            forall k | k in p.stock :: k in load.quantity && QuantityRule(p.stock[k], load.quantity[k])
  {
    RemotePassRows(stock, saved, home, remote, items, |items|);
    forall k | k in stock ensures QuantityRule(RowAfter(stock[k], k, home, items, |items|), load.quantity[k]) {
      RowRule(stock[k], k, home, items, |items|, load.quantity[k]);
    }
  }

  lemma RemotePartConsistent(t: Tx, home: int, remote: int, items: seq<NewOrderItem>, load: Load)
    requires Consistent(t.db, load) && StockPresent(t.db.stock, items)
    requires forall i | 0 <= i < |items| :: 1 <= items[i].ol_quantity <= 10
    ensures Consistent(RemotePart(t, home, remote, items).db, load)
  {
    PassRule(t.db.stock, t.undo.stock, home, remote, items, load);
    OnlyStock(t.db, RemotePart(t, home, remote, items).db, load);
  }

  /** The conditions on orders speak of the order tables and of which customers there are. */
  lemma SameOrders(db: DB, db': DB)
    requires IndexAgreement(db) && OrdersSound(db) && LinesSound(db) && Queue(db) && EveryoneOrdered(db)
    requires db'.orders == db.orders && db'.ordersByCustomer == db.ordersByCustomer && db'.orderRows == db.orderRows
    requires db'.lines == db.lines && db'.newOrders == db.newOrders && db'.customers.Keys == db.customers.Keys
    ensures IndexAgreement(db') && OrdersSound(db') && LinesSound(db') && Queue(db') && EveryoneOrdered(db')
  {
    forall r | r in db'.orderRows ensures Indexed(db', r) {
      assert Indexed(db, r);
    }
    forall k | k in db'.customers ensures HasOrder(db'.ordersByCustomer, k) {
      assert HasOrder(db.ordersByCustomer, k);
    }
  }

  lemma SameBalances(db: DB, db': DB)
    requires BalancesRight(db) && db' == db.(stock := db'.stock)
    ensures BalancesRight(db')
  {
    forall k | k in db'.customers ensures BalanceRight(db', k) {
      assert BalanceRight(db, k);
    }
  }

  lemma SameRest(db: DB, db': DB, load: Load)
    requires RefsBelow(db, db.nextRef) && Population(db) && Dense(db) && YtdRight(db, load)
    requires db' == db.(stock := db'.stock)
    ensures RefsBelow(db', db'.nextRef) && Population(db') && Dense(db') && YtdRight(db', load)
  {
  }

  /** The other conditions do not speak of stock rows. */
  lemma OnlyStock(db: DB, db': DB, load: Load)
    requires Consistent(db, load) && db' == db.(stock := db'.stock) && StockRight(db', load)
    ensures Consistent(db', load)
  {
    hide Population, IndexAgreement, Dense, Queue, OrdersSound, LinesSound, EveryoneOrdered, BalancesRight, YtdRight,
      RefsBelow, StockRight;
    SameOrders(db, db');
    SameBalances(db, db');
    SameRest(db, db', load);
  }

  lemma {:induction false} RemotePartsConsistent(t: Tx, home: int, ws: seq<int>, items: seq<NewOrderItem>, load: Load)
    requires Consistent(t.db, load) && StockPresent(t.db.stock, items)
    requires forall i | 0 <= i < |items| :: 1 <= items[i].ol_quantity <= 10
    ensures Consistent(RemoteParts(t, home, ws, items).db, load)
  {
    hide Consistent;
    if ws != [] {
      RemotePartsConsistent(t, home, ws[..|ws| - 1], items, load);
      RemotePartConsistent(RemoteParts(t, home, ws[..|ws| - 1], items), home, ws[|ws| - 1], items, load);
    }
  }

  lemma NewOrderConsistent(t: Tx, dk: DistId, c: int, items: seq<NewOrderItem>, now: string, ws: seq<int>, load: Load)
    requires Consistent(t.db, load) && OrderArguments(t.db, dk, c, items, now)
    ensures OrderIsNew(t.db, dk, c) && Consistent(NewOrder(t, dk, c, items, now, ws).db, load)
  {
    NextIsNew(t.db, dk, c);
    if ItemsValid(t.db, items) {
      EnterConsistent(t, dk, c, items, now, load);
      hide Consistent;
      RemotePartsConsistent(EnterOrder(t, dk, c, items, now), dk.w, [dk.w] + ws, items, load);
    }
  }

  // ---------------------------------------------------------------- payments

  lemma PaymentYtd(t: Tx, dk: DistId, cust: CustId, amount: int, now: string, record: string, load: Load)
    requires PaymentReady(t.db, dk, cust, record) && YtdRight(t.db, load) && RefsBelow(t.db, t.db.nextRef)
    requires Population(t.db)
    ensures YtdRight(Payment(t, dk, cust, amount, now, record).db, load)
  {
    var db, db' := t.db, Payment(t, dk, cust, amount, now, record).db;
    forall w | w in db'.warehouses
      ensures db'.warehouses[w].w_ytd == DistrictSum(db'.districts, w, DISTRICTS) + load.warehouseGap
    {
      DistrictSumDiffers(db.districts, db'.districts, w, DISTRICTS, dk, amount);
    }
    forall k | k in db'.districts
      ensures db'.districts[k].d_ytd == PaidIn(db'.history, db'.historyRows, k) + load.districtGap
    {
      PaidAppend(db.history, db.historyRows, db.nextRef, db'.historyRows[db.nextRef], cust, k);
    }
  }

  lemma PaymentBalances(t: Tx, dk: DistId, cust: CustId, amount: int, now: string, record: string)
    requires PaymentReady(t.db, dk, cust, record) && BalancesRight(t.db) && RefsBelow(t.db, t.db.nextRef)
    ensures BalancesRight(Payment(t, dk, cust, amount, now, record).db)
  {
    var db, db' := t.db, Payment(t, dk, cust, amount, now, record).db;
    forall k | k in db'.customers ensures BalanceRight(db', k) {
      assert BalanceRight(db, k);
      PaidAppend(db.history, db.historyRows, db.nextRef, db'.historyRows[db.nextRef], k, dk);
      assert DeliveredTo(db', k) == DeliveredTo(db, k);
    }
  }

  lemma PaymentRefs(t: Tx, dk: DistId, cust: CustId, amount: int, now: string, record: string)
    requires PaymentReady(t.db, dk, cust, record) && RefsBelow(t.db, t.db.nextRef)
    ensures var db' := Payment(t, dk, cust, amount, now, record).db; RefsBelow(db', db'.nextRef)
  {
  }

  lemma PaymentRest(t: Tx, dk: DistId, cust: CustId, amount: int, now: string, record: string, load: Load)
    requires PaymentReady(t.db, dk, cust, record) && StockRight(t.db, load) && Population(t.db) && Dense(t.db)
    ensures var db' := Payment(t, dk, cust, amount, now, record).db; Population(db') && Dense(db') && StockRight(db', load)
  {
  }

  lemma PaymentConsistent(t: Tx, dk: DistId, cust: CustId, amount: int, now: string, record: string, load: Load)
    requires Consistent(t.db, load) && PaymentReady(t.db, dk, cust, record)
    ensures Consistent(Payment(t, dk, cust, amount, now, record).db, load)
  {
    hide Population, IndexAgreement, Dense, Queue, OrdersSound, LinesSound, EveryoneOrdered, BalancesRight, YtdRight,
      RefsBelow, StockRight;
    PaymentYtd(t, dk, cust, amount, now, record, load);
    PaymentBalances(t, dk, cust, amount, now, record);
    SameOrders(t.db, Payment(t, dk, cust, amount, now, record).db);
    PaymentRefs(t, dk, cust, amount, now, record);
    PaymentRest(t, dk, cust, amount, now, record, load);
  }

  // ---------------------------------------------------------------- deliveries

  lemma ReadyToDeliver(db: DB)
    requires IndexAgreement(db) && OrdersSound(db) && LinesSound(db) && Queue(db)
    ensures AllReady(db)
  {
    forall id | id in db.newOrders ensures OrderReady(db, id) {
      assert id in db.orders;
      assert forall n | 1 <= n <= OrderAt(db, id).o_ol_cnt :: LineId(id.w, id.d, id.o, n) in db.lines;
    }
  }

  lemma DeliverIndex(t: Tx, id: OrderId, carrier: int, now: string)
    requires IndexAgreement(t.db) && OrderReady(t.db, id)
    ensures IndexAgreement(DeliverOrder(t, id, carrier, now).db)
  {
    var db' := DeliverOrder(t, id, carrier, now).db;
    forall r | r in db'.orderRows ensures Indexed(db', r) {
      assert Indexed(t.db, r);
    }
  }

  /** The lowest order leaves the queue; the rest is still the last orders without a gap. */
  lemma DeliverQueue(t: Tx, id: OrderId, carrier: int, now: string)
    requires Queue(t.db) && OrderReady(t.db, id) && IsLowest(t.db.newOrders, id)
    ensures Queue(DeliverOrder(t, id, carrier, now).db)
  {
  }

  lemma DeliverOrders(t: Tx, id: OrderId, carrier: int, now: string)
    requires IndexAgreement(t.db) && OrdersSound(t.db) && OrderReady(t.db, id) && carrier != NULL_CARRIER_ID
    requires IndexAgreement(DeliverOrder(t, id, carrier, now).db)
    ensures OrdersSound(DeliverOrder(t, id, carrier, now).db)
  {
    var db, db' := t.db, DeliverOrder(t, id, carrier, now).db;
    forall j | j in db'.orders
      ensures OrderAt(db', j) == if j == id then OrderAt(db, id).(o_carrier_id := carrier) else OrderAt(db, j)
    {
    }
  }

  lemma DeliverLines(t: Tx, id: OrderId, carrier: int, now: string)
    requires IndexAgreement(t.db) && LinesSound(t.db) && OrderReady(t.db, id)
    requires carrier != NULL_CARRIER_ID && now != ""
    requires IndexAgreement(DeliverOrder(t, id, carrier, now).db)
    ensures LinesSound(DeliverOrder(t, id, carrier, now).db)
  {
    var db, db' := t.db, DeliverOrder(t, id, carrier, now).db;
    forall j | j in db'.orders
      ensures OrderAt(db', j) == if j == id then OrderAt(db, id).(o_carrier_id := carrier) else OrderAt(db, j)
    {
    }
  }

  /** The delivered order's own customer gains its total; nobody else gains anything. */
  lemma {:induction false} DeliverShare(t: Tx, id: OrderId, carrier: int, now: string, k: CustId, o: int)
    requires IndexAgreement(t.db) && OrdersSound(t.db) && OrderReady(t.db, id)
    requires id in t.db.newOrders && carrier != NULL_CARRIER_ID
    ensures var db, db', row := t.db, DeliverOrder(t, id, carrier, now).db, OrderAt(t.db, id);
            var mine := k == CustId(id.w, id.d, row.o_c_id) && o == id.o;
            Share(db'.orders, db'.orderRows, db'.lines, k, o) ==
            Share(db.orders, db.orderRows, db.lines, k, o) + if mine then LineTotal(db.lines, id, row.o_ol_cnt) else 0
  {
    var db, db' := t.db, DeliverOrder(t, id, carrier, now).db;
    var j := OrderId(k.w, k.d, o);
    if j in db.orders {
      LineTotalSame(db.lines, db'.lines, j, OrderAt(db, j).o_ol_cnt);
    }
  }

  lemma {:induction false} DeliverDeliveredUpTo(t: Tx, id: OrderId, carrier: int, now: string, k: CustId, n: int)
    requires IndexAgreement(t.db) && OrdersSound(t.db) && OrderReady(t.db, id)
    requires id in t.db.newOrders && carrier != NULL_CARRIER_ID && id.o >= 1
    ensures var db, db', row := t.db, DeliverOrder(t, id, carrier, now).db, OrderAt(t.db, id);
            var mine := k == CustId(id.w, id.d, row.o_c_id) && id.o <= n;
            Delivered(db'.orders, db'.orderRows, db'.lines, k, n) ==
            Delivered(db.orders, db.orderRows, db.lines, k, n) +
            if mine then LineTotal(db.lines, id, row.o_ol_cnt) else 0
    decreases n
  {
    hide IndexAgreement, OrdersSound, Share, LineTotal;
    if n > 0 {
      DeliverDeliveredUpTo(t, id, carrier, now, k, n - 1);
      DeliverShare(t, id, carrier, now, k, n);
    }
  }

  lemma {:induction false} DeliverDelivered(t: Tx, id: OrderId, carrier: int, now: string, k: CustId)
    requires IndexAgreement(t.db) && OrdersSound(t.db) && OrderReady(t.db, id) && Dense(t.db)
    requires id in t.db.newOrders && carrier != NULL_CARRIER_ID
    ensures var row := OrderAt(t.db, id);
            DeliveredTo(DeliverOrder(t, id, carrier, now).db, k) == DeliveredTo(t.db, k) +
            if k == CustId(id.w, id.d, row.o_c_id) then LineTotal(t.db.lines, id, row.o_ol_cnt) else 0
  {
    assert 1 <= id.o < t.db.districts[DistOf(id)].d_next_o_id;
    var dk, db' := DistId(k.w, k.d), DeliverOrder(t, id, carrier, now).db;
    assert db'.districts == t.db.districts;
    if dk in t.db.districts {
      var n := t.db.districts[dk].d_next_o_id - 1;
      assert dk == DistOf(id) ==> id.o <= n;
      hide IndexAgreement, OrdersSound, Dense, Delivered, LineTotal, DeliverOrder;
      DeliverDeliveredUpTo(t, id, carrier, now, k, n);
    }
  }

  lemma DeliverBalances(t: Tx, id: OrderId, carrier: int, now: string)
    requires IndexAgreement(t.db) && OrdersSound(t.db) && OrderReady(t.db, id) && Dense(t.db)
    requires id in t.db.newOrders && carrier != NULL_CARRIER_ID && BalancesRight(t.db)
    ensures BalancesRight(DeliverOrder(t, id, carrier, now).db)
  {
    var db' := DeliverOrder(t, id, carrier, now).db;
    forall k | k in db'.customers ensures BalanceRight(db', k) {
      assert BalanceRight(t.db, k);
      DeliverDelivered(t, id, carrier, now, k);
    }
  }

  lemma DeliverRest(t: Tx, id: OrderId, carrier: int, now: string, load: Load)
    requires OrderReady(t.db, id) && RefsBelow(t.db, t.db.nextRef) && Population(t.db) && Dense(t.db)
    requires YtdRight(t.db, load) && StockRight(t.db, load) && EveryoneOrdered(t.db)
    ensures var db' := DeliverOrder(t, id, carrier, now).db;
            && RefsBelow(db', db'.nextRef) && Population(db') && Dense(db')
            && YtdRight(db', load) && StockRight(db', load) && EveryoneOrdered(db')
  {
    var db' := DeliverOrder(t, id, carrier, now).db;
    forall k | k in db'.customers ensures HasOrder(db'.ordersByCustomer, k) {
      assert HasOrder(t.db.ordersByCustomer, k);
    }
  }

  lemma DeliverConsistent(t: Tx, id: OrderId, carrier: int, now: string, load: Load)
    requires Consistent(t.db, load) && IsLowest(t.db.newOrders, id) && OrderReady(t.db, id)
    requires carrier != NULL_CARRIER_ID && now != ""
    ensures Consistent(DeliverOrder(t, id, carrier, now).db, load)
  {
    hide Population, IndexAgreement, Dense, Queue, OrdersSound, LinesSound, EveryoneOrdered, BalancesRight, YtdRight,
      RefsBelow, StockRight;
    DeliverIndex(t, id, carrier, now);
    DeliverQueue(t, id, carrier, now);
    DeliverOrders(t, id, carrier, now);
    DeliverLines(t, id, carrier, now);
    DeliverBalances(t, id, carrier, now);
    DeliverRest(t, id, carrier, now, load);
  }

  lemma {:induction false} DeliveryConsistent(t: Tx, w: int, carrier: int, now: string, n: nat, load: Load)
    requires Consistent(t.db, load) && carrier != NULL_CARRIER_ID && now != ""
    ensures AllReady(t.db) && Consistent(Delivery(t, w, carrier, now, n).db, load)
  {
    ReadyToDeliver(t.db);
    hide Consistent;
    if n > 0 {
      DeliveryConsistent(t, w, carrier, now, n - 1, load);
      var s := Delivery(t, w, carrier, now, n - 1);
      var low := Lowest(s.db.newOrders, DistId(w, n));
      if low.Some? {
        DeliverConsistent(s, low.value, carrier, now, load);
      }
    }
  }
}
