/** The consistency conditions of section 3.3.2 of TPC-C, and the facts about keys and indexes that
    they rest on. */
module Consistency {
  import opened Rows
  import opened NewOrderSpec
  import opened NewOrderSplit
  import opened DeliverySpec
  import opened UndoSpec

  // ---------------------------------------------------------------- tables and indexes

  ghost predicate Population(db: DB) {
    && (forall k | k in db.districts :: k.w in db.warehouses && 1 <= k.d <= DISTRICTS && db.districts[k].d_next_o_id >= 1)
    && (forall k | k in db.customers :: DistId(k.w, k.d) in db.districts)
    && (forall r | r in db.history ::
          r in db.historyRows && CustomerOf(db.historyRows[r]) in db.customers && DistrictOf(db.historyRows[r]) in db.districts)
  }

  /** Both order indexes hold the same objects, each under the key that the object's own fields
      give. */
  ghost predicate IndexAgreement(db: DB) {
    && (forall id | id in db.orders ::
          db.orders[id] in db.orderRows && OrderIdOf(db.orderRows[db.orders[id]]) == id)
    && (forall k | k in db.ordersByCustomer ::
          db.ordersByCustomer[k] in db.orderRows && CustOrderIdOf(db.orderRows[db.ordersByCustomer[k]]) == k)
    && (forall r | r in db.orderRows :: Indexed(db, r))
  }

  ghost predicate Indexed(db: DB, r: Ref)
    requires r in db.orderRows
  {
    var o := db.orderRows[r];
    && OrderIdOf(o) in db.orders && db.orders[OrderIdOf(o)] == r
    && CustOrderIdOf(o) in db.ordersByCustomer && db.ordersByCustomer[CustOrderIdOf(o)] == r
  }

  /** A new row at an unused address and under unused keys keeps the agreement, whoever used the
      order number before. */
  lemma InsertKeepsIndex(db: DB, o: Order, r: Ref)
    requires IndexAgreement(db) && r !in db.orderRows
    requires OrderIdOf(o) !in db.orders && CustOrderIdOf(o) !in db.ordersByCustomer
    ensures IndexAgreement(db.(orders := db.orders[OrderIdOf(o) := r], orderRows := db.orderRows[r := o],
                               ordersByCustomer := db.ordersByCustomer[CustOrderIdOf(o) := r]))
  {
    var db' := db.(orders := db.orders[OrderIdOf(o) := r], orderRows := db.orderRows[r := o],
                   ordersByCustomer := db.ordersByCustomer[CustOrderIdOf(o) := r]);
    forall q | q in db'.orderRows ensures Indexed(db', q) {
      if q != r { assert Indexed(db, q); }
    }
  }

  /** Erasing under the keys of the object's own fields erases the object from both indexes. */
  lemma EraseKeepsIndex(db: DB, r: Ref)
    requires IndexAgreement(db) && r in db.orderRows
    ensures var o := db.orderRows[r];
            var db' := db.(orders := db.orders - {OrderIdOf(o)}, orderRows := db.orderRows - {r},
                           ordersByCustomer := db.ordersByCustomer - {CustOrderIdOf(o)});
            && Indexed(db, r) && IndexAgreement(db') && (RefsBelow(db, db.nextRef) ==> RefsBelow(db', db.nextRef))
            && db'.orders == Without(db.orders, {r}) && db'.ordersByCustomer == Without(db.ordersByCustomer, {r})
  {
    assert Indexed(db, r);
    var o := db.orderRows[r];
    var db' := db.(orders := db.orders - {OrderIdOf(o)}, orderRows := db.orderRows - {r},
                   ordersByCustomer := db.ordersByCustomer - {CustOrderIdOf(o)});
    forall q | q in db'.orderRows ensures Indexed(db', q) {
      assert Indexed(db, q);
    }
  }

  /** Rows may change in all but the fields that the keys are made of. */
  lemma ChangeKeepsIndex(db: DB, now: map<Ref, Order>)
    requires IndexAgreement(db) && now.Keys == db.orderRows.Keys && SameIds(now, db.orderRows)
    ensures IndexAgreement(db.(orderRows := now))
  {
    forall r | r in now ensures OrderIdOf(now[r]) == OrderIdOf(db.orderRows[r])
                                && CustOrderIdOf(now[r]) == CustOrderIdOf(db.orderRows[r]) {
    }
    forall r | r in now ensures Indexed(db.(orderRows := now), r) {
      assert Indexed(db, r);
    }
  }

  /** The agreement is a matter of the three order maps. */
  lemma SameIndex(a: DB, b: DB)
    requires IndexAgreement(a) && a.orders == b.orders && a.ordersByCustomer == b.ordersByCustomer && a.orderRows == b.orderRows
    ensures IndexAgreement(b)
  {
    forall r | r in b.orderRows ensures Indexed(b, r) {
      assert Indexed(a, r);
    }
  }

  function OrderAt(db: DB, id: OrderId): Order
    requires id in db.orders && db.orders[id] in db.orderRows
  {
    db.orderRows[db.orders[id]]
  }

  // ---------------------------------------------------------------- order numbers and the queue

  /** Section 3.3.2.2: the order ids of a district are exactly 1 to d_next_o_id - 1. */
  ghost predicate Dense(db: DB) {
    && (forall id | id in db.orders ::
          DistOf(id) in db.districts && 1 <= id.o < db.districts[DistOf(id)].d_next_o_id)
    && (forall k, o | k in db.districts && 1 <= o < db.districts[k].d_next_o_id :: OrderId(k.w, k.d, o) in db.orders)
  }

  /** Section 3.3.2.3: the NEW-ORDER rows of a district are its last orders, without a gap. */
  ghost predicate Queue(db: DB) {
    && db.newOrders <= db.orders.Keys
    && (forall id, o | id in db.newOrders && OrderId(id.w, id.d, o) in db.orders && id.o <= o ::
          OrderId(id.w, id.d, o) in db.newOrders)
  }

  // ---------------------------------------------------------------- orders and lines

  /** Section 3.3.2.5, and what delivery and order status dereference. */
  ghost predicate OrdersSound(db: DB)
    requires IndexAgreement(db)
  {
    forall id | id in db.orders ::
      var o := OrderAt(db, id);
      && 1 <= o.o_ol_cnt <= MAX_OL_CNT
      && (o.o_carrier_id == NULL_CARRIER_ID <==> id in db.newOrders)
      && CustId(id.w, id.d, o.o_c_id) in db.customers
  }

  /** Sections 3.3.2.6 and 3.3.2.7: lines are numbered 1 to o_ol_cnt; a line has no delivery date
      exactly when its order has no carrier. */
  ghost predicate LinesSound(db: DB)
    requires IndexAgreement(db)
  {
    && (forall l | l in db.lines ::
          && OrderOfLine(l) in db.orders && 1 <= l.n <= OrderAt(db, OrderOfLine(l)).o_ol_cnt
          && LineIdOf(db.lines[l]) == l
          && (db.lines[l].ol_delivery_d == "" <==> OrderAt(db, OrderOfLine(l)).o_carrier_id == NULL_CARRIER_ID))
    && (forall id, n | id in db.orders && 1 <= n <= OrderAt(db, id).o_ol_cnt :: LineId(id.w, id.d, id.o, n) in db.lines)
  }

  /** The load gives every customer an order. */
  ghost predicate EveryoneOrdered(db: DB) {
    forall k | k in db.customers :: HasOrder(db.ordersByCustomer, k)
  }

  ghost predicate HasOrder<V>(m: map<CustOrderId, V>, k: CustId) {
    exists o :: CustOrderId(k.w, k.d, k.c, o) in m
  }

  // ---------------------------------------------------------------- money

  /** What order number `o` adds to the delivered amounts of a customer. */
  function Share(orders: map<OrderId, Ref>, rows: map<Ref, Order>, lines: map<LineId, OrderLine>, k: CustId, o: int): int {
    var id := OrderId(k.w, k.d, o);
    if id in orders && orders[id] in rows && rows[orders[id]].o_c_id == k.c && rows[orders[id]].o_carrier_id != NULL_CARRIER_ID
    then LineTotal(lines, id, rows[orders[id]].o_ol_cnt) else 0
  }

  function Delivered(orders: map<OrderId, Ref>, rows: map<Ref, Order>, lines: map<LineId, OrderLine>, k: CustId, n: int): int
    decreases n
  {
    if n <= 0 then 0 else Delivered(orders, rows, lines, k, n - 1) + Share(orders, rows, lines, k, n)
  }

  /** The customer's delivered line amounts. */
  function DeliveredTo(db: DB, k: CustId): int {
    var dk := DistId(k.w, k.d);
    if dk in db.districts then Delivered(db.orders, db.orderRows, db.lines, k, db.districts[dk].d_next_o_id - 1) else 0
  }

  function CustomerOf(h: History): CustId {
    CustId(h.h_c_w_id, h.h_c_d_id, h.h_c_id)
  }

  function DistrictOf(h: History): DistId {
    DistId(h.h_w_id, h.h_d_id)
  }

  /** The amounts of a customer's history rows. */
  function PaidBy(history: seq<Ref>, rows: map<Ref, History>, k: CustId): int {
    if history == [] then 0
    else
      var r := history[|history| - 1];
      PaidBy(history[..|history| - 1], rows, k) + if r in rows && CustomerOf(rows[r]) == k then rows[r].h_amount else 0
  }

  /** The amounts of the payments made in a district. */
  function PaidIn(history: seq<Ref>, rows: map<Ref, History>, dk: DistId): int {
    if history == [] then 0
    else
      var r := history[|history| - 1];
      PaidIn(history[..|history| - 1], rows, dk) +
      if r in rows && DistrictOf(rows[r]) == dk then rows[r].h_amount else 0
  }

  /** Sections 3.3.2.10 and 3.3.2.12. */
  ghost predicate BalancesRight(db: DB) {
    forall k | k in db.customers :: BalanceRight(db, k)
  }

  ghost predicate BalanceRight(db: DB, k: CustId)
    requires k in db.customers
  {
    var c, paid := db.customers[k], PaidBy(db.history, db.historyRows, k);
    c.c_balance == DeliveredTo(db, k) - paid && c.c_balance + c.c_ytd_payment == DeliveredTo(db, k)
  }

  /** The year-to-date amounts of districts 1 to `n`. */
  function DistrictSum(districts: map<DistId, District>, w: int, n: nat): int {
    if n == 0 then 0
    else DistrictSum(districts, w, n - 1) + if DistId(w, n) in districts then districts[DistId(w, n)].d_ytd else 0
  }

  /** What the load fixes: initial quantities, and by how much the initial year-to-date amounts
      differ from the sums below them. */
  datatype Load = Load(quantity: map<StockId, int>, warehouseGap: int, districtGap: int)

  /** Sections 3.3.2.1 and 3.3.2.9, up to the constants of the load. */
  ghost predicate YtdRight(db: DB, load: Load) {
    && (forall w | w in db.warehouses ::
          db.warehouses[w].w_ytd == DistrictSum(db.districts, w, DISTRICTS) + load.warehouseGap)
    && (forall k | k in db.districts ::
          db.districts[k].d_ytd == PaidIn(db.history, db.historyRows, k) + load.districtGap)
  }

  ghost predicate StockRight(db: DB, load: Load) {
    forall k | k in db.stock :: k in load.quantity && QuantityRule(db.stock[k], load.quantity[k])
  }

  /** Every condition together. */
  ghost predicate Consistent(db: DB, load: Load) {
    && RefsBelow(db, db.nextRef) && Population(db) && IndexAgreement(db) && Dense(db) && Queue(db)
    && OrdersSound(db) && LinesSound(db) && EveryoneOrdered(db)
    && BalancesRight(db) && YtdRight(db, load) && StockRight(db, load)
  }
}
