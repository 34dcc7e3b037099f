/** What a whole delivery does to orders, lines and customers (tpcctables.cc:510-570), in terms of the queue that
    it found. */
module DeliveryLaw {
  import opened Rows
  import opened Sequences
  import opened DeliverySpec
  import opened Consistency
  import opened Preservation

  /** The order is the first in the queue of one of the districts 1 to `n` of the warehouse. */
  ghost predicate Taken(queue: set<OrderId>, w: int, n: int, id: OrderId) {
    IsLowest(queue, id) && id.w == w && 1 <= id.d <= n
  }

  /** The orders of a customer among those taken. */
  ghost function TakenFor(db: DB, w: int, n: int, k: CustId): set<OrderId>
    requires IndexAgreement(db) && db.newOrders <= db.orders.Keys
  {
    set id | id in db.newOrders && Taken(db.newOrders, w, n, id) && CustId(id.w, id.d, OrderAt(db, id).o_c_id) == k
  }

  /** Exactly the orders taken leave the queue, and get the carrier. */
  ghost predicate OrdersCarried(a: DB, b: DB, w: int, n: int, carrier: int)
    requires IndexAgreement(a)
  {
    && (forall id :: id in b.newOrders <==> id in a.newOrders && !Taken(a.newOrders, w, n, id))
    && b.orders == a.orders && b.orderRows.Keys == a.orderRows.Keys
    && forall id | id in a.orders ::
         b.orderRows[a.orders[id]] == if Taken(a.newOrders, w, n, id) then OrderAt(a, id).(o_carrier_id := carrier) else OrderAt(a, id)
  }

  /** Exactly their lines 1 to o_ol_cnt get the date. */
  ghost predicate LinesDated(a: DB, b: DB, w: int, n: int, now: string)
    requires IndexAgreement(a)
  {
    && b.lines.Keys == a.lines.Keys
    && forall l | l in a.lines ::
         var id := OrderOfLine(l);
         b.lines[l] == if id in a.orders && Taken(a.newOrders, w, n, id) && 1 <= l.n <= OrderAt(a, id).o_ol_cnt
                       then a.lines[l].(ol_delivery_d := now) else a.lines[l]
  }

  /** The amounts of the lines 1 to `n` of an order. */
  function AmountsOf(lines: map<LineId, OrderLine>, id: OrderId, n: int): map<LineId, int> {
    map l | l in lines && OrderOfLine(l) == id && 1 <= l.n <= n :: lines[l].ol_amount
  }

  /** The amounts of the lines of a customer's orders among those taken. */
  ghost function AmountsFor(db: DB, w: int, n: int, k: CustId): map<LineId, int>
    requires IndexAgreement(db) && db.newOrders <= db.orders.Keys
  {
    map l | l in db.lines && OrderOfLine(l) in TakenFor(db, w, n, k) && 1 <= l.n <= OrderAt(db, OrderOfLine(l)).o_ol_cnt ::
      db.lines[l].ol_amount
  }

  /** Every customer is charged those amounts, and the delivery count grows by the number of those orders. */
  ghost predicate CustomersCounted(a: DB, b: DB, w: int, n: int)
    requires IndexAgreement(a) && a.newOrders <= a.orders.Keys
  {
    && b.customers.Keys == a.customers.Keys
    && forall k | k in a.customers ::
         b.customers[k] == a.customers[k].(c_balance := a.customers[k].c_balance + Total(AmountsFor(a, w, n, k)),
                                           c_delivery_cnt := a.customers[k].c_delivery_cnt + |TakenFor(a, w, n, k)|)
  }

  /** All else is as it was. */
  predicate OnlyDelivered(a: DB, b: DB) {
    b == a.(newOrders := b.newOrders, orderRows := b.orderRows, lines := b.lines, customers := b.customers)
  }

  ghost predicate DeliveryDone(a: DB, b: DB, w: int, n: int, carrier: int, now: string)
    requires IndexAgreement(a) && a.newOrders <= a.orders.Keys
  {
    OnlyDelivered(a, b) && OrdersCarried(a, b, w, n, carrier) && LinesDated(a, b, w, n, now) && CustomersCounted(a, b, w, n)
  }

  // ---------------------------------------------------------------- one more district

  lemma NoneTaken(a: DB, w: int, carrier: int, now: string)
    requires IndexAgreement(a) && a.newOrders <= a.orders.Keys
    ensures DeliveryDone(a, a, w, 0, carrier, now)
  {
    forall k | k in a.customers ensures TakenFor(a, w, 0, k) == {} && AmountsFor(a, w, 0, k) == map[] {
    }
  }

  /** What the next district's lookup finds is the lowest of the queue that the delivery found. */
  lemma NextTaken(a: set<OrderId>, b: set<OrderId>, w: int, n: int)
    requires n >= 1 && forall id :: id in b <==> id in a && !Taken(a, w, n - 1, id)
    ensures match Lowest(b, DistId(w, n))
            case None => forall id :: Taken(a, w, n, id) <==> Taken(a, w, n - 1, id)
            case Some(low) => low in a && DistOf(low) == DistId(w, n)
                              && forall id :: Taken(a, w, n, id) <==> Taken(a, w, n - 1, id) || id == low
  {
    var dk := DistId(w, n);
    assert forall id | DistOf(id) == dk :: id in b <==> id in a;
    match Lowest(b, dk)
    case None =>
      forall id | Taken(a, w, n, id) ensures Taken(a, w, n - 1, id) {
        assert DistOf(id) == dk ==> id in b;
      }
    case Some(low) =>
      assert IsLowest(a, low);
      forall id | Taken(a, w, n, id) && id.d == n ensures id == low {
        assert id.o == low.o;
      }
  }

  lemma NoDistrict(a: DB, b: DB, w: int, n: int, carrier: int, now: string)
    requires n >= 1 && IndexAgreement(a) && a.newOrders <= a.orders.Keys && DeliveryDone(a, b, w, n - 1, carrier, now)
    requires forall id :: Taken(a.newOrders, w, n, id) <==> Taken(a.newOrders, w, n - 1, id)
    ensures DeliveryDone(a, b, w, n, carrier, now)
  {
    hide Taken;
    forall k | k in a.customers
      ensures TakenFor(a, w, n, k) == TakenFor(a, w, n - 1, k) && AmountsFor(a, w, n, k) == AmountsFor(a, w, n - 1, k)
    {
    }
  }

  lemma OneOrderCarried(a: DB, t: Tx, w: int, n: int, carrier: int, now: string, id: OrderId)
    requires n >= 1 && IndexAgreement(a) && OrdersCarried(a, t.db, w, n - 1, carrier) && OrderReady(t.db, id)
    requires id in a.newOrders && forall j :: Taken(a.newOrders, w, n, j) <==> Taken(a.newOrders, w, n - 1, j) || j == id
    ensures OrdersCarried(a, DeliverOrder(t, id, carrier, now).db, w, n, carrier)
  {
    hide Taken;
    var b := DeliverOrder(t, id, carrier, now).db;
    forall j | j in a.orders
      ensures b.orderRows[a.orders[j]] == if Taken(a.newOrders, w, n, j) then OrderAt(a, j).(o_carrier_id := carrier) else OrderAt(a, j)
    {
      assert OrderIdOf(OrderAt(a, j)) == j && OrderIdOf(OrderAt(a, id)) == id;
    }
  }

  lemma OneOrderDated(a: DB, t: Tx, w: int, n: int, carrier: int, now: string, id: OrderId)
    requires n >= 1 && IndexAgreement(a) && OrdersCarried(a, t.db, w, n - 1, carrier) && LinesDated(a, t.db, w, n - 1, now)
    requires OrderReady(t.db, id) && id in a.orders && !Taken(a.newOrders, w, n - 1, id)
    requires forall j :: Taken(a.newOrders, w, n, j) <==> Taken(a.newOrders, w, n - 1, j) || j == id
    ensures LinesDated(a, DeliverOrder(t, id, carrier, now).db, w, n, now)
  {
    hide Taken;
    RowBefore(a, t.db, w, n, carrier, id);
  }

  lemma OneOrderCounted(a: DB, t: Tx, w: int, n: int, carrier: int, now: string, id: OrderId)
    requires n >= 1 && IndexAgreement(a) && a.newOrders <= a.orders.Keys
    requires OrdersCarried(a, t.db, w, n - 1, carrier) && LinesDated(a, t.db, w, n - 1, now) && CustomersCounted(a, t.db, w, n - 1)
    requires OrderReady(t.db, id) && id in a.newOrders && !Taken(a.newOrders, w, n - 1, id)
    requires forall j :: Taken(a.newOrders, w, n, j) <==> Taken(a.newOrders, w, n - 1, j) || j == id
    ensures CustomersCounted(a, DeliverOrder(t, id, carrier, now).db, w, n)
  {
    hide Taken, TakenFor, AmountsFor, AmountsOf, IndexAgreement, OrdersCarried, LinesDated, LineTotal, Total, DeliverOrder;
    RowBefore(a, t.db, w, n, carrier, id);
    OrderCharges(t, id, carrier, now);
    SameAmounts(a, t.db, w, n, now, id, OrderAt(a, id).o_ol_cnt);
    LineTotalIs(a.lines, id, OrderAt(a, id).o_ol_cnt);
    forall k | k in a.customers
      ensures |TakenFor(a, w, n, k)| == |TakenFor(a, w, n - 1, k)| + if k == CustId(id.w, id.d, OrderAt(a, id).o_c_id) then 1 else 0
      ensures Total(AmountsFor(a, w, n, k)) == Total(AmountsFor(a, w, n - 1, k)) +
              if k == CustId(id.w, id.d, OrderAt(a, id).o_c_id) then Total(AmountsOf(a.lines, id, OrderAt(a, id).o_ol_cnt)) else 0
    {
      OneTakenFor(a, w, n, k, id);
      OneChargedFor(a, w, n, k, id);
    }
  }

  lemma OrderCharges(t: Tx, id: OrderId, carrier: int, now: string)
    requires OrderReady(t.db, id)
    ensures id in t.db.orders && t.db.orders[id] in t.db.orderRows
    ensures var o := OrderAt(t.db, id);
            var ck := CustId(id.w, id.d, o.o_c_id);
            && ck in t.db.customers
            && var c := t.db.customers[ck];
               DeliverOrder(t, id, carrier, now).db.customers ==
               t.db.customers[ck := c.(c_balance := c.c_balance + LineTotal(t.db.lines, id, o.o_ol_cnt),
                                       c_delivery_cnt := c.c_delivery_cnt + 1)]
  {
    hide LineTotal, Dated, SavedLines;
  }

  /** The loop over the lines of an order adds up all of their amounts. */
  lemma {:induction false} LineTotalIs(lines: map<LineId, OrderLine>, id: OrderId, n: int)
    ensures LineTotal(lines, id, n) == Total(AmountsOf(lines, id, n))
    decreases n
  {
    var l := LineId(id.w, id.d, id.o, n);
    if n <= 0 {
      assert AmountsOf(lines, id, n) == map[];
    } else {
      LineTotalIs(lines, id, n - 1);
      var before := AmountsOf(lines, id, n - 1);
      assert l !in before;
      assert AmountsOf(lines, id, n) == if l in lines then before[l := lines[l].ol_amount] else before;
      if l in lines {
        TotalWith(before, l, lines[l].ol_amount);
      }
    }
  }

  lemma SameAmounts(a: DB, b: DB, w: int, n: int, now: string, id: OrderId, cnt: int)
    requires IndexAgreement(a) && LinesDated(a, b, w, n - 1, now)
    ensures LineTotal(b.lines, id, cnt) == LineTotal(a.lines, id, cnt)
  {
    hide Taken, IndexAgreement;
    LineTotalSame(b.lines, a.lines, id, cnt);
  }

  lemma OneChargedFor(a: DB, w: int, n: int, k: CustId, id: OrderId)
    requires n >= 1 && IndexAgreement(a) && a.newOrders <= a.orders.Keys
    requires id in a.newOrders && !Taken(a.newOrders, w, n - 1, id)
    requires forall j :: Taken(a.newOrders, w, n, j) <==> Taken(a.newOrders, w, n - 1, j) || j == id
    ensures Total(AmountsFor(a, w, n, k)) == Total(AmountsFor(a, w, n - 1, k)) +
            if k == CustId(id.w, id.d, OrderAt(a, id).o_c_id) then Total(AmountsOf(a.lines, id, OrderAt(a, id).o_ol_cnt)) else 0
  {
    hide Taken, Total;
    var x, y := AmountsFor(a, w, n - 1, k), AmountsOf(a.lines, id, OrderAt(a, id).o_ol_cnt);
    if k == CustId(id.w, id.d, OrderAt(a, id).o_c_id) {
      assert AmountsFor(a, w, n, k) == x + y && x.Keys !! y.Keys;
      TotalOfBoth(x, y);
    } else {
      assert AmountsFor(a, w, n, k) == x;
    }
  }

  lemma RowBefore(a: DB, b: DB, w: int, n: int, carrier: int, id: OrderId)
    requires IndexAgreement(a) && OrdersCarried(a, b, w, n - 1, carrier) && id in a.orders && !Taken(a.newOrders, w, n - 1, id)
    ensures a.orders[id] in a.orderRows && b.orders == a.orders && b.orderRows.Keys == a.orderRows.Keys
    ensures b.orderRows[b.orders[id]] == OrderAt(a, id)
  {
  }

  lemma OneTakenFor(a: DB, w: int, n: int, k: CustId, id: OrderId)
    requires n >= 1 && IndexAgreement(a) && a.newOrders <= a.orders.Keys
    requires id in a.newOrders && !Taken(a.newOrders, w, n - 1, id)
    requires forall j :: Taken(a.newOrders, w, n, j) <==> Taken(a.newOrders, w, n - 1, j) || j == id
    ensures |TakenFor(a, w, n, k)| ==
            |TakenFor(a, w, n - 1, k)| + if k == CustId(id.w, id.d, OrderAt(a, id).o_c_id) then 1 else 0
  {
    hide Taken;
    var x := TakenFor(a, w, n - 1, k);
    assert TakenFor(a, w, n, k) == if k == CustId(id.w, id.d, OrderAt(a, id).o_c_id) then x + {id} else x;
    assert id !in x;
  }

  /** The first order of every district's queue is delivered, with its carrier and the date on all its
      lines, and charged to its customer and counted there; nothing else changes. */
  lemma {:induction false} DeliveryIs(t: Tx, w: int, carrier: int, now: string, n: nat)
    requires AllReady(t.db) && IndexAgreement(t.db) && t.db.newOrders <= t.db.orders.Keys
    ensures DeliveryDone(t.db, Delivery(t, w, carrier, now, n).db, w, n, carrier, now)
  {
    hide IndexAgreement, AllReady, DeliverOrder, OrdersCarried, LinesDated, CustomersCounted, Taken;
    if n == 0 {
      NoneTaken(t.db, w, carrier, now);
    } else {
      DeliveryIs(t, w, carrier, now, n - 1);
      OneDistrict(t.db, Delivery(t, w, carrier, now, n - 1), w, carrier, now, n);
    }
  }

  lemma OneDistrict(a: DB, t: Tx, w: int, carrier: int, now: string, n: nat)
    requires n >= 1 && AllReady(t.db) && IndexAgreement(a) && a.newOrders <= a.orders.Keys
    requires DeliveryDone(a, t.db, w, n - 1, carrier, now)
    ensures match Lowest(t.db.newOrders, DistId(w, n))
            case None => DeliveryDone(a, t.db, w, n, carrier, now)
            case Some(low) => OrderReady(t.db, low) && DeliveryDone(a, DeliverOrder(t, low, carrier, now).db, w, n, carrier, now)
  {
    hide IndexAgreement, DeliverOrder, LinesDated, CustomersCounted, Taken, OrderReady;
    NextTaken(a.newOrders, t.db.newOrders, w, n);
    match Lowest(t.db.newOrders, DistId(w, n))
    case None => NoDistrict(a, t.db, w, n, carrier, now);
    case Some(low) =>
      OneOrderCarried(a, t, w, n, carrier, now, low);
      OneOrderDated(a, t, w, n, carrier, now, low);
      OneOrderCounted(a, t, w, n, carrier, now, low);
      OnlyOne(a, t, low, carrier, now);
  }

  lemma OnlyOne(a: DB, t: Tx, id: OrderId, carrier: int, now: string)
    requires OnlyDelivered(a, t.db) && OrderReady(t.db, id)
    ensures OnlyDelivered(a, DeliverOrder(t, id, carrier, now).db)
  {
  }
}
