/** The delivery transaction (tpcctables.cc:510-570) as a function of the database. */
module DeliverySpec {
  import opened Rows

  /** `id` is the lowest numbered undelivered order of its district. */
  ghost predicate IsLowest(s: set<OrderId>, id: OrderId) {
    id in s && forall j | j in s && DistOf(j) == DistOf(id) :: id.o <= j.o
  }

  lemma {:induction false} LowestExists(s: set<OrderId>, id: OrderId)
    requires id in s
    ensures exists low :: IsLowest(s, low) && DistOf(low) == DistOf(id)
    decreases set j | j in s && DistOf(j) == DistOf(id) && j.o < id.o
  {
    var smaller := set j | j in s && DistOf(j) == DistOf(id) && j.o < id.o;
    if smaller == {} {
      forall j | j in s && DistOf(j) == DistOf(id) ensures id.o <= j.o {
        assert j.o < id.o ==> j in smaller;
      }
      assert IsLowest(s, id);
    } else {
      var j :| j in smaller;
      assert j !in (set i | i in s && DistOf(i) == DistOf(j) && i.o < j.o);
      LowestExists(s, j);
    }
  }

  /** What lower_bound at the district's first key finds, if it is of this district. */
  ghost function Lowest(s: set<OrderId>, dk: DistId): (r: Option<OrderId>)
    ensures r.None? <==> forall j | j in s :: DistOf(j) != dk
    ensures r.Some? ==> IsLowest(s, r.value) && DistOf(r.value) == dk
  {
    if exists j :: j in s && DistOf(j) == dk then
      var j :| j in s && DistOf(j) == dk;
      LowestExists(s, j);
      var low :| IsLowest(s, low) && DistOf(low) == dk;
      Some(low)
    else None
  }

  predicate LinesPresent(lines: map<LineId, OrderLine>, id: OrderId, n: int) {
    forall i | 1 <= i <= n :: LineId(id.w, id.d, id.o, i) in lines
  }

  /** The lines 1 to `n` of an order with their delivery date set. */
  function Dated(lines: map<LineId, OrderLine>, id: OrderId, now: string, n: int): (r: map<LineId, OrderLine>)
    requires LinesPresent(lines, id, n)
    ensures r.Keys == lines.Keys
    ensures forall l | l in lines ::
              r[l] == if OrderOfLine(l) == id && 1 <= l.n <= n then lines[l].(ol_delivery_d := now) else lines[l]
  {
    map l | l in lines ::
      if OrderOfLine(l) == id && 1 <= l.n <= n then lines[l].(ol_delivery_d := now) else lines[l]
  }

  function SavedLines(saved: map<LineId, OrderLine>, lines: map<LineId, OrderLine>, id: OrderId, n: int):
    map<LineId, OrderLine>
  {
    (map l | l in lines && OrderOfLine(l) == id && 1 <= l.n <= n :: lines[l]) + saved
  }

  /** The sum of the amounts of lines 1 to `n`. */
  function LineTotal(lines: map<LineId, OrderLine>, id: OrderId, n: int): int
    decreases n
  {
    if n <= 0 then 0
    else
      var l := LineId(id.w, id.d, id.o, n);
      LineTotal(lines, id, n - 1) + if l in lines then lines[l].ol_amount else 0
  }

  /** The rows that delivering order `id` dereferences. */
  predicate OrderReady(db: DB, id: OrderId) {
    && id in db.orders && db.orders[id] in db.orderRows
    && var o := db.orderRows[db.orders[id]];
       LinesPresent(db.lines, id, o.o_ol_cnt) && CustId(id.w, id.d, o.o_c_id) in db.customers
  }

  function DeliverOrder(t: Tx, id: OrderId, carrier: int, now: string): Tx
    requires OrderReady(t.db, id)
  {
    var db, u := t.db, t.undo;
    var r := db.orders[id];
    var o := db.orderRows[r];
    var ck := CustId(id.w, id.d, o.o_c_id);
    var c := db.customers[ck];
    var total := LineTotal(db.lines, id, o.o_ol_cnt);
    Tx(db.(newOrders := db.newOrders - {id},
           orderRows := db.orderRows[r := o.(o_carrier_id := carrier)],
           lines := Dated(db.lines, id, now, o.o_ol_cnt),
           customers := db.customers[ck := c.(c_balance := c.c_balance + total,
                                              c_delivery_cnt := c.c_delivery_cnt + 1)]),
       u.(deletedNewOrders := u.deletedNewOrders + {id},
          orders := SaveIn(u.orders, r, o),
          lines := SavedLines(u.lines, db.lines, id, o.o_ol_cnt),
          customers := SaveIn(u.customers, ck, c)))
  }

  /** Every undelivered order has its rows. */
  predicate AllReady(db: DB) {
    forall id | id in db.newOrders :: OrderReady(db, id)
  }

  lemma AllReadyKept(t: Tx, id: OrderId, carrier: int, now: string)
    requires AllReady(t.db) && OrderReady(t.db, id)
    ensures AllReady(DeliverOrder(t, id, carrier, now).db)
  {
    var db' := DeliverOrder(t, id, carrier, now).db;
    forall j | j in db'.newOrders ensures OrderReady(db', j) {
      assert OrderReady(t.db, j);
    }
  }

  /** The first `n` districts of a warehouse. */
  ghost function Delivery(t: Tx, w: int, carrier: int, now: string, n: nat): (r: Tx)
    requires AllReady(t.db)
    ensures AllReady(r.db)
  {
    if n == 0 then t
    else
      var s, dk := Delivery(t, w, carrier, now, n - 1), DistId(w, n);
      var low := Lowest(s.db.newOrders, dk);
      if low.None? then s else
        AllReadyKept(s, low.value, carrier, now);
        DeliverOrder(s, low.value, carrier, now)
  }
}
