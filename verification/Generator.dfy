/** The load (tpccgenerator.cc): the tables it makes meet every consistency condition, up to two
    constants that vanish for the full-size load. */
module Generator {
  import opened Rows
  import opened NewOrderSpec
  import opened NewOrderSplit
  import opened DeliverySpec
  import opened UndoSpec
  import opened Consistency
  import opened Preservation
  import opened Tables
  import opened Keys
  import Random
  import CustomerNames
  import opened Generated

  /** The load's constants when there are `d` districts with `c` customers each. */
  function LoadOf(quantity: map<StockId, int>, d: int, c: int): Load {
    Load(quantity, WAREHOUSE_YTD - d * DISTRICT_YTD, DISTRICT_YTD - c * INITIAL_AMOUNT)
  }

  /** Sections 3.3.2.1 and 3.3.2.9 of TPC-C hold with equality exactly after the full-size load: of
      the loaded database, and of every database that a run makes of it. */
  lemma {:induction false} FullSizeLoad(db: DB, load: Load, d: int, c: int, w: int, dk: DistId)
    requires Consistent(db, load) && load == LoadOf(load.quantity, d, c) && w in db.warehouses && dk in db.districts
    ensures db.warehouses[w].w_ytd == DistrictSum(db.districts, w, DISTRICTS) <==> d == DISTRICTS
    ensures db.districts[dk].d_ytd == PaidIn(db.history, db.historyRows, dk) <==> c == CUSTOMERS_PER_DISTRICT
  {
    hide Population, IndexAgreement, Dense, Queue, OrdersSound, LinesSound, EveryoneOrdered, BalancesRight, RefsBelow, StockRight;
  }

  // ---------------------------------------------------------------- a district being filled

  /** The tables as they are when the district's orders end at number `n`. */
  function UpTo(db: DB, dk: DistId, n: nat): DB
    requires dk in db.districts
  {
    db.(districts := db.districts[dk := db.districts[dk].(d_next_o_id := n + 1)])
  }

  /** All other districts are complete. */
  ghost predicate Elsewhere(db: DB, dk: DistId, load: Load) {
    && (forall k | k in db.customers && DistId(k.w, k.d) != dk :: HasOrder(db.ordersByCustomer, k))
    && (forall k | k in db.districts && k != dk :: db.districts[k].d_ytd == PaidIn(db.history, db.historyRows, k) + load.districtGap)
  }

  /** The district has the customers 1 to `c`, each with one payment. */
  ghost predicate HasCustomers(db: DB, dk: DistId, c: nat) {
    && (forall i :: CustId(dk.w, dk.d, i) in db.customers <==> 1 <= i <= c)
    && PaidIn(db.history, db.historyRows, dk) == c * INITIAL_AMOUNT
  }

  /** Order number i + 1 is that of customer p[i]. */
  ghost predicate HasOrders(db: DB, dk: DistId, p: seq<int>, n: nat) {
    n <= |p| && forall i | 0 <= i < n :: CustOrderId(dk.w, dk.d, p[i], i + 1) in db.ordersByCustomer
  }

  /** The district's new orders are those from number `first` to `n`. */
  ghost predicate NewOrdersAre(db: DB, dk: DistId, first: int, n: int) {
    forall id | DistOf(id) == dk :: id in db.newOrders <==> first <= id.o <= n
  }

  /** The customers of other districts are the same. */
  ghost predicate OtherCustomers(a: map<CustId, Customer>, b: map<CustId, Customer>, dk: DistId) {
    forall k: CustId | DistId(k.w, k.d) != dk :: (k in a <==> k in b) && (k in a ==> a[k] == b[k])
  }

  ghost predicate OtherNewOrders(a: set<OrderId>, b: set<OrderId>, dk: DistId) {
    forall id: OrderId | DistOf(id) != dk :: id in a <==> id in b
  }

  /** Nothing but order tables has changed, and no other district's new orders. */
  ghost predicate OnlyOrders(a: DB, b: DB, dk: DistId) {
    && a.items == b.items && a.warehouses == b.warehouses && a.districts == b.districts && a.stock == b.stock
    && a.customers == b.customers && OtherNewOrders(a.newOrders, b.newOrders, dk)
  }

  lemma StillOnlyOrders(a: DB, b: DB, c: DB, dk: DistId)
    requires OnlyOrders(a, b, dk) && OnlyOrders(b, c, dk)
    ensures OnlyOrders(a, c, dk)
  {
  }

  lemma NoOrdersAtFirst(db: DB, dk: DistId)
    ensures OnlyOrders(db, db, dk)
  {
  }

  /** Every district has customers and orders 1 to `c`, of which those from `first` on are new. */
  ghost predicate Populated(db: DB, c: nat, first: int) {
    && (forall k :: k in db.customers <==> DistId(k.w, k.d) in db.districts && 1 <= k.c <= c)
    && (forall id :: id in db.newOrders <==> DistOf(id) in db.districts && first <= id.o <= c)
    && (forall k | k in db.districts :: db.districts[k].d_next_o_id == c + 1)
    && (forall k | k in db.districts :: CreditDealt(db.customers, k, c))
  }

  /** What a load with these settings leaves. */
  ghost predicate Loaded(db: DB, load: Load, z: Settings) {
    && Consistent(db, load) && load == LoadOf(load.quantity, z.districts, z.customers)
    && |db.items| == z.items && (forall w :: w in db.warehouses <==> 1 <= w <= z.warehouses)
    && (forall k :: k in db.stock <==> 1 <= k.w <= z.warehouses && 1 <= k.i <= z.items)
    && (forall k :: k in db.districts <==> 1 <= k.w <= z.warehouses && 1 <= k.d <= z.districts)
    && Populated(db, z.customers, z.FirstNew()) && RowsMade(db, z.now, z.customers, z.FirstNew())
  }

  lemma DistrictFills(a: DB, b: DB, dk: DistId, c: nat, first: int)
    requires Populated(a, c, first) && dk !in a.districts
    requires OtherCustomers(a.customers, b.customers, dk) && OtherNewOrders(a.newOrders, b.newOrders, dk)
    requires dk in b.districts && b.districts == a.districts[dk := b.districts[dk]] && b.districts[dk].d_next_o_id == c + 1
    requires (forall i :: CustId(dk.w, dk.d, i) in b.customers <==> 1 <= i <= c) && NewOrdersAre(b, dk, first, c)
    requires CreditDealt(b.customers, dk, c)
    ensures Populated(b, c, first)
  {
    forall k ensures k in b.customers <==> DistId(k.w, k.d) in b.districts && 1 <= k.c <= c {
      if DistId(k.w, k.d) == dk {
        assert k == CustId(dk.w, dk.d, k.c);
      }
    }
    hide CreditDealt;
    forall k | k in b.districts ensures CreditDealt(b.customers, k, c) {
      if k != dk { CreditKept(a.customers, b.customers, k, c); }
    }
  }

  lemma SamePopulated(a: DB, b: DB, c: nat, first: int)
    requires Populated(a, c, first) && a.customers == b.customers && a.newOrders == b.newOrders && a.districts == b.districts
    ensures Populated(b, c, first)
  {
  }

  lemma StillOtherCustomers(a: map<CustId, Customer>, b: map<CustId, Customer>, c: map<CustId, Customer>, dk: DistId)
    requires OtherCustomers(a, b, dk) && OtherCustomers(b, c, dk)
    ensures OtherCustomers(a, c, dk)
  {
  }

  lemma {:induction false} PaidNothing(h: seq<Ref>, rows: map<Ref, History>, k: CustId, dk: DistId)
    ensures (forall r | r in h && r in rows :: CustomerOf(rows[r]) != k) ==> PaidBy(h, rows, k) == 0
    ensures (forall r | r in h && r in rows :: DistrictOf(rows[r]) != dk) ==> PaidIn(h, rows, dk) == 0
  {
    if h != [] {
      PaidNothing(h[..|h| - 1], rows, k, dk);
    }
  }

  // ---------------------------------------------------------------- opening a district

  function OpenDistrict(db: DB, d: District): DB {
    db.(districts := db.districts[DistId(d.d_w_id, d.d_id) := d])
  }

  lemma OpenRest(db: DB, d: District, load: Load)
    requires RefsBelow(db, db.nextRef) && Population(db) && Dense(db) && StockRight(db, load)
    requires var dk := DistId(d.d_w_id, d.d_id); dk !in db.districts && d.d_w_id in db.warehouses && 1 <= d.d_id <= DISTRICTS
    ensures var db' := UpTo(OpenDistrict(db, d), DistId(d.d_w_id, d.d_id), 0);
            RefsBelow(db', db'.nextRef) && Population(db') && Dense(db') && StockRight(db', load)
  {
  }

  lemma OpenBalances(db: DB, d: District)
    requires Population(db) && BalancesRight(db) && DistId(d.d_w_id, d.d_id) !in db.districts
    ensures BalancesRight(UpTo(OpenDistrict(db, d), DistId(d.d_w_id, d.d_id), 0))
  {
    var db' := UpTo(OpenDistrict(db, d), DistId(d.d_w_id, d.d_id), 0);
    forall k | k in db'.customers ensures BalanceRight(db', k) {
      assert BalanceRight(db, k);
    }
  }

  lemma OpenCore(db: DB, d: District, load: Load)
    requires Core(db, load) && EveryoneOrdered(db)
    requires forall k | k in db.districts :: db.districts[k].d_ytd == PaidIn(db.history, db.historyRows, k) + load.districtGap
    requires var dk := DistId(d.d_w_id, d.d_id); dk !in db.districts && d.d_w_id in db.warehouses && 1 <= d.d_id <= DISTRICTS
    ensures var db', dk := OpenDistrict(db, d), DistId(d.d_w_id, d.d_id);
            && Core(UpTo(db', dk, 0), load) && Elsewhere(db', dk, load) && HasCustomers(db', dk, 0)
            && forall id | id in db'.newOrders :: DistOf(id) != dk
  {
    hide Population, IndexAgreement, Dense, Queue, OrdersSound, LinesSound, EveryoneOrdered, BalancesRight, RefsBelow, StockRight,
      Elsewhere, HasCustomers;
    var db', dk := OpenDistrict(db, d), DistId(d.d_w_id, d.d_id);
    OpenElsewhere(db, d, load);
    OpenRest(db, d, load);
    OpenBalances(db, d);
    SameOrders(db, UpTo(db', dk, 0));
  }

  lemma OpenElsewhere(db: DB, d: District, load: Load)
    requires Population(db) && Dense(db) && Queue(db) && EveryoneOrdered(db)
    requires forall k | k in db.districts :: db.districts[k].d_ytd == PaidIn(db.history, db.historyRows, k) + load.districtGap
    requires DistId(d.d_w_id, d.d_id) !in db.districts
    ensures var db', dk := OpenDistrict(db, d), DistId(d.d_w_id, d.d_id);
            Elsewhere(db', dk, load) && HasCustomers(db', dk, 0) && (forall id | id in db'.newOrders :: DistOf(id) != dk)
  {
    var db', dk := OpenDistrict(db, d), DistId(d.d_w_id, d.d_id);
    forall k | k in db'.customers ensures HasOrder(db'.ordersByCustomer, k) {
      assert HasOrder(db.ordersByCustomer, k);
    }
    PaidNothing(db.history, db.historyRows, CustId(0, 0, 0), dk);
  }

  // ---------------------------------------------------------------- a customer

  /** A customer and the payment that explains its balance. */
  function AddCustomer(db: DB, c: Customer, h: History): DB {
    db.(customers := db.customers[CustId(c.c_w_id, c.c_d_id, c.c_id) := c],
        history := db.history + [db.nextRef], historyRows := db.historyRows[db.nextRef := h], nextRef := db.nextRef + 1)
  }

  predicate CustomerFits(db: DB, dk: DistId, n: int, c: Customer, h: History) {
    && dk in db.districts && c.c_w_id == dk.w && c.c_d_id == dk.d && c.c_id == n
    && CustomerOf(h) == CustId(dk.w, dk.d, n) && DistrictOf(h) == dk && h.h_amount == INITIAL_AMOUNT
    && c.c_balance == INITIAL_BALANCE && c.c_ytd_payment == INITIAL_YTD_PAYMENT
  }

  lemma CustomerRest(db: DB, dk: DistId, n: nat, c: Customer, h: History, load: Load)
    requires CustomerFits(db, dk, n + 1, c, h) && RefsBelow(db, db.nextRef)
    requires var v := UpTo(db, dk, 0); Population(v) && Dense(v) && StockRight(v, load)
    ensures var v := UpTo(AddCustomer(db, c, h), dk, 0);
            RefsBelow(v, v.nextRef) && Population(v) && Dense(v) && StockRight(v, load)
  {
  }

  lemma CustomerOrders(db: DB, dk: DistId, n: nat, c: Customer, h: History)
    requires CustomerFits(db, dk, n + 1, c, h)
    requires var v := UpTo(db, dk, 0); IndexAgreement(v) && OrdersSound(v) && LinesSound(v) && Queue(v)
    ensures var v := UpTo(AddCustomer(db, c, h), dk, 0); IndexAgreement(v) && OrdersSound(v) && LinesSound(v) && Queue(v)
  {
    SameIndex(UpTo(db, dk, 0), UpTo(AddCustomer(db, c, h), dk, 0));
  }

  lemma CustomerBalances(db: DB, dk: DistId, n: nat, c: Customer, h: History)
    requires CustomerFits(db, dk, n + 1, c, h) && RefsBelow(db, db.nextRef) && HasCustomers(db, dk, n)
    requires var v := UpTo(db, dk, 0); Population(v) && BalancesRight(v)
    ensures BalancesRight(UpTo(AddCustomer(db, c, h), dk, 0))
  {
    var v, v' := UpTo(db, dk, 0), UpTo(AddCustomer(db, c, h), dk, 0);
    var me := CustId(dk.w, dk.d, n + 1);
    assert forall r | r in db.history :: CustomerOf(db.historyRows[r]) in v.customers;
    assert me !in v.customers;
    hide Population, RefsBelow, HasCustomers;
    forall k | k in v'.customers ensures BalanceRight(v', k) {
      NewBalance(db, dk, n, c, h, k);
    }
  }

  lemma NewBalance(db: DB, dk: DistId, n: nat, c: Customer, h: History, k: CustId)
    requires CustomerFits(db, dk, n + 1, c, h) && ListBelow(db.history, db.nextRef)
    requires forall r | r in db.history :: r in db.historyRows && CustomerOf(db.historyRows[r]) in db.customers
    requires CustId(dk.w, dk.d, n + 1) !in db.customers && BalancesRight(UpTo(db, dk, 0))
    requires k in AddCustomer(db, c, h).customers
    ensures BalanceRight(UpTo(AddCustomer(db, c, h), dk, 0), k)
  {
    var v, v' := UpTo(db, dk, 0), UpTo(AddCustomer(db, c, h), dk, 0);
    assert db.nextRef !in db.history;
    PaidAppend(db.history, db.historyRows, db.nextRef, h, k, dk);
    SameDelivered(v, v', k);
    if k in db.customers {
      assert BalanceRight(v, k);
    } else {
      PaidNothing(db.history, db.historyRows, k, dk);
      NothingDeliveredTo(v', k, dk);
    }
    hide Delivered, DeliveredTo, PaidBy;
  }

  lemma SameDelivered(a: DB, b: DB, k: CustId)
    requires a.orders == b.orders && a.orderRows == b.orderRows && a.lines == b.lines && a.districts == b.districts
    ensures DeliveredTo(a, k) == DeliveredTo(b, k)
  {
  }

  lemma NothingDeliveredTo(db: DB, k: CustId, dk: DistId)
    requires dk == DistId(k.w, k.d) && dk in db.districts && db.districts[dk].d_next_o_id == 1
    ensures DeliveredTo(db, k) == 0
  {
  }

  lemma CustomerElsewhere(db: DB, dk: DistId, n: nat, c: Customer, h: History, load: Load)
    requires CustomerFits(db, dk, n + 1, c, h) && RefsBelow(db, db.nextRef)
    requires HasCustomers(db, dk, n) && Elsewhere(db, dk, load)
    ensures var db' := AddCustomer(db, c, h); HasCustomers(db', dk, n + 1) && Elsewhere(db', dk, load)
  {
    var db' := AddCustomer(db, c, h);
    assert db.nextRef !in db.history;
    forall k ensures PaidIn(db'.history, db'.historyRows, k) ==
                     PaidIn(db.history, db.historyRows, k) + if k == dk then INITIAL_AMOUNT else 0 {
      PaidAppend(db.history, db.historyRows, db.nextRef, h, CustId(0, 0, 0), k);
    }
    forall k | k in db'.customers && DistId(k.w, k.d) != dk ensures HasOrder(db'.ordersByCustomer, k) {
      assert HasOrder(db.ordersByCustomer, k);
    }
  }

  lemma CustomerCore(db: DB, dk: DistId, n: nat, c: Customer, h: History, load: Load)
    requires CustomerFits(db, dk, n + 1, c, h) && Core(UpTo(db, dk, 0), load)
    requires HasCustomers(db, dk, n) && Elsewhere(db, dk, load)
    ensures var db' := AddCustomer(db, c, h);
            Core(UpTo(db', dk, 0), load) && HasCustomers(db', dk, n + 1) && Elsewhere(db', dk, load)
  {
    hide Population, IndexAgreement, Dense, Queue, OrdersSound, LinesSound, BalancesRight, RefsBelow, StockRight,
      HasCustomers, Elsewhere;
    BelowUpTo(db, dk);
    CustomerRest(db, dk, n, c, h, load);
    CustomerOrders(db, dk, n, c, h);
    CustomerBalances(db, dk, n, c, h);
    CustomerElsewhere(db, dk, n, c, h, load);
  }

  lemma BelowUpTo(db: DB, dk: DistId)
    requires dk in db.districts && RefsBelow(UpTo(db, dk, 0), db.nextRef)
    ensures RefsBelow(db, db.nextRef)
  {
  }
  // ---------------------------------------------------------------- an order

  /** The rows of an order go in; the district row has its final order number already. */
  function LoadOrder(db: DB, o: Order, lines: map<LineId, OrderLine>): DB {
    var id, r := OrderIdOf(o), db.nextRef;
    db.(orders := db.orders[id := r], ordersByCustomer := db.ordersByCustomer[CustOrderIdOf(o) := r],
        orderRows := db.orderRows[r := o],
        newOrders := if o.o_carrier_id == NULL_CARRIER_ID then db.newOrders + {id} else db.newOrders,
        lines := db.lines + lines, nextRef := r + 1)
  }

  /** An order of the load: the last ones, from number `first` on, are new; the lines of the others
      are worth nothing. */
  ghost predicate LoadedOrder(dk: DistId, n: int, first: int, o: Order, lines: map<LineId, OrderLine>) {
    var id := OrderId(dk.w, dk.d, n);
    && OrderIdOf(o) == id && 1 <= o.o_ol_cnt <= MAX_OL_CNT && (o.o_carrier_id == NULL_CARRIER_ID <==> n >= first)
    && (forall l :: l in lines <==> OrderOfLine(l) == id && 1 <= l.n <= o.o_ol_cnt)
    && forall l | l in lines ::
         LineIdOf(lines[l]) == l && (lines[l].ol_delivery_d == "" <==> n >= first) && (n < first ==> lines[l].ol_amount == 0)
  }

  /** The lines 1 to `n` of an order, as generateOrderLine makes them. */
  ghost predicate OrderLinesMade(id: OrderId, lines: map<LineId, OrderLine>, n: int, newOrder: bool, now: string) {
    && (forall l :: l in lines <==> OrderOfLine(l) == id && 1 <= l.n <= n)
    && forall l | l in lines :: LineMade(l, lines[l], newOrder, now)
  }

  lemma NoLinesMade(id: OrderId, newOrder: bool, now: string)
    ensures OrderLinesMade(id, map[], 0, newOrder, now)
  {
  }

  lemma NextLineMade(id: OrderId, lines: map<LineId, OrderLine>, n: int, line: OrderLine, newOrder: bool, now: string)
    requires OrderLinesMade(id, lines, n - 1, newOrder, now) && n >= 1 && LineMade(LineId(id.w, id.d, id.o, n), line, newOrder, now)
    ensures OrderLinesMade(id, lines[LineIdOf(line) := line], n, newOrder, now) && LineIdOf(line) !in lines
  {
  }

  /** The order of customer `c` as number `n`, which is new from number `first` on. */
  ghost predicate MadeOrder(dk: DistId, n: int, c: int, o: Order, lines: map<LineId, OrderLine>, first: int, now: string) {
    && OrderIdOf(o) == OrderId(dk.w, dk.d, n) && o.o_c_id == c && OrderMade(o, n >= first, now)
    && OrderLinesMade(OrderIdOf(o), lines, o.o_ol_cnt, n >= first, now)
  }

  lemma MadeIsLoaded(dk: DistId, n: int, c: int, o: Order, lines: map<LineId, OrderLine>, first: int, now: string)
    requires MadeOrder(dk, n, c, o, lines, first, now) && now != ""
    ensures LoadedOrder(dk, n, first, o, lines)
  {
  }

  lemma MadeRows(db: DB, dk: DistId, n: int, cust: int, o: Order, lines: map<LineId, OrderLine>, first: int, now: string, c: nat)
    requires MadeOrder(dk, n, cust, o, lines, first, now) && RowsMade(db, now, c, first)
    ensures RowsMade(LoadOrder(db, o, lines), now, c, first)
  {
    hide RowsMade;
    OrderRow(db, o, lines, LoadOrder(db, o, lines), now, c, first);
  }

  lemma {:induction false} NoTotal(lines: map<LineId, OrderLine>, id: OrderId, n: int)
    requires forall l | l in lines :: lines[l].ol_amount == 0
    ensures LineTotal(lines, id, n) == 0
    decreases n
  {
    if n > 0 {
      NoTotal(lines, id, n - 1);
    }
  }

  lemma LoadedFits(db: DB, dk: DistId, n: nat, first: int, o: Order, lines: map<LineId, OrderLine>)
    requires dk in db.districts && LoadedOrder(dk, n + 1, first, o, lines) && NewOrdersAre(db, dk, first, n)
    requires CustId(dk.w, dk.d, o.o_c_id) in db.customers
    ensures OrderFits(UpTo(db, dk, n), o, lines)
  {
    var v, id := UpTo(db, dk, n), OrderIdOf(o);
    if n + 1 < first {
      NoTotal(lines, id, o.o_ol_cnt);
      assert forall j | j in v.newOrders :: DistOf(j) != dk;
    }
  }

  lemma LoadIsAdd(db: DB, dk: DistId, n: nat, o: Order, lines: map<LineId, OrderLine>)
    requires dk in db.districts && DistOf(OrderIdOf(o)) == dk
    ensures UpTo(LoadOrder(db, o, lines), dk, n + 1) == AddOrder(UpTo(db, dk, n), o, lines)
  {
    var d := db.districts[dk];
    assert db.districts[dk := d.(d_next_o_id := n + 1)][dk := d.(d_next_o_id := n + 2)] == db.districts[dk := d.(d_next_o_id := n + 2)];
  }

  lemma OrderElsewhere(db: DB, dk: DistId, n: nat, first: int, p: seq<int>, c: nat, o: Order,
                       lines: map<LineId, OrderLine>, load: Load)
    requires LoadedOrder(dk, n + 1, first, o, lines) && n < |p| && o.o_c_id == p[n]
    requires HasCustomers(db, dk, c) && HasOrders(db, dk, p, n) && Elsewhere(db, dk, load) && NewOrdersAre(db, dk, first, n)
    ensures var db' := LoadOrder(db, o, lines);
            && HasCustomers(db', dk, c) && HasOrders(db', dk, p, n + 1) && Elsewhere(db', dk, load)
            && NewOrdersAre(db', dk, first, n + 1)
  {
    var db' := LoadOrder(db, o, lines);
    forall k | k in db'.customers && DistId(k.w, k.d) != dk ensures HasOrder(db'.ordersByCustomer, k) {
      assert HasOrder(db.ordersByCustomer, k);
      var i :| CustOrderId(k.w, k.d, k.c, i) in db.ordersByCustomer;
      assert CustOrderId(k.w, k.d, k.c, i) in db'.ordersByCustomer;
    }
  }

  /** The state of the load between two orders of a district. */
  ghost predicate Filling(db: DB, dk: DistId, n: nat, first: int, p: seq<int>, c: nat, load: Load) {
    && dk in db.districts && Core(UpTo(db, dk, n), load) && Elsewhere(db, dk, load)
    && HasCustomers(db, dk, c) && HasOrders(db, dk, p, n) && NewOrdersAre(db, dk, first, n)
  }

  lemma OrderFills(db: DB, dk: DistId, n: nat, first: int, p: seq<int>, c: nat, o: Order,
                   lines: map<LineId, OrderLine>, load: Load)
    requires Filling(db, dk, n, first, p, c, load) && LoadedOrder(dk, n + 1, first, o, lines)
    requires n < |p| && o.o_c_id == p[n] && 1 <= p[n] <= c
    ensures IsNew(UpTo(db, dk, n), o)
    ensures Filling(LoadOrder(db, o, lines), dk, n + 1, first, p, c, load)
  {
    LoadedFits(db, dk, n, first, o, lines);
    OrderElsewhere(db, dk, n, first, p, c, o, lines, load);
    LoadIsAdd(db, dk, n, o, lines);
    hide Core, Elsewhere, HasCustomers, HasOrders, NewOrdersAre, OrderFits, LoadedOrder, AddOrder, IsNew;
    AddCore(UpTo(db, dk, n), o, lines, load);
  }

  // ---------------------------------------------------------------- a complete district

  /** Every condition but the sums of the warehouses. */
  ghost predicate Complete(db: DB, load: Load) {
    && Core(db, load) && EveryoneOrdered(db)
    && forall k | k in db.districts :: db.districts[k].d_ytd == PaidIn(db.history, db.historyRows, k) + load.districtGap
  }

  lemma DistrictComplete(db: DB, dk: DistId, first: int, p: seq<int>, c: nat, load: Load)
    requires Filling(db, dk, c, first, p, c, load) && Random.IsPermutation(p, 1, c) && |p| == c
    requires db.districts[dk].d_next_o_id == c + 1 && db.districts[dk].d_ytd == DISTRICT_YTD
    requires load.districtGap == DISTRICT_YTD - c * INITIAL_AMOUNT
    ensures Complete(db, load) && HasCustomers(db, dk, c) && NewOrdersAre(db, dk, first, c)
  {
    hide Core, Random.IsPermutation, NewOrdersAre;
    assert UpTo(db, dk, c) == db;
    forall k | k in db.customers ensures HasOrder(db.ordersByCustomer, k) {
      if DistId(k.w, k.d) == dk {
        assert CustId(dk.w, dk.d, k.c) in db.customers;
        SomeOrder(db, dk, p, c, k);
      }
    }
  }

  lemma SomeOrder(db: DB, dk: DistId, p: seq<int>, c: nat, k: CustId)
    requires HasOrders(db, dk, p, c) && Random.IsPermutation(p, 1, c) && |p| == c
    requires DistId(k.w, k.d) == dk && 1 <= k.c <= c
    ensures HasOrder(db.ordersByCustomer, k)
  {
    assert k.c in p;
    var i :| 0 <= i < |p| && p[i] == k.c;
    assert CustOrderId(dk.w, dk.d, p[i], i + 1) in db.ordersByCustomer;
  }

  // ---------------------------------------------------------------- warehouses

  /** The districts of the warehouse are 1 to `n`, as loaded. */
  ghost predicate FirstDistricts(districts: map<DistId, District>, w: int, n: nat) {
    && (forall i :: DistId(w, i) in districts <==> 1 <= i <= n)
    && forall i | 1 <= i <= n :: districts[DistId(w, i)].d_ytd == DISTRICT_YTD
  }

  lemma {:induction false} FirstSum(districts: map<DistId, District>, w: int, n: nat, m: nat)
    requires FirstDistricts(districts, w, n)
    ensures DistrictSum(districts, w, m) == DISTRICT_YTD * (if m < n then m else n)
  {
    if m > 0 {
      FirstSum(districts, w, n, m - 1);
    }
  }

  lemma {:induction false} OtherSum(a: map<DistId, District>, b: map<DistId, District>, w: int, n: nat)
    requires forall i :: DistId(w, i) in a <==> DistId(w, i) in b
    requires forall i | DistId(w, i) in a :: a[DistId(w, i)].d_ytd == b[DistId(w, i)].d_ytd
    ensures DistrictSum(a, w, n) == DistrictSum(b, w, n)
  {
    if n > 0 {
      OtherSum(a, b, w, n - 1);
    }
  }

  /** All warehouses but the one being loaded add up. */
  ghost predicate OthersAddUp(db: DB, w: int, load: Load) {
    forall x | x in db.warehouses && x != w :: db.warehouses[x].w_ytd == DistrictSum(db.districts, x, DISTRICTS) + load.warehouseGap
  }

  lemma WarehouseComplete(db: DB, w: int, n: nat, load: Load)
    requires Complete(db, load) && OthersAddUp(db, w, load) && FirstDistricts(db.districts, w, n) && n <= DISTRICTS
    requires w in db.warehouses && db.warehouses[w].w_ytd == WAREHOUSE_YTD && load.warehouseGap == WAREHOUSE_YTD - n * DISTRICT_YTD
    ensures Consistent(db, load)
  {
    hide Population, IndexAgreement, Dense, Queue, OrdersSound, LinesSound, EveryoneOrdered, BalancesRight, RefsBelow, StockRight;
    FirstSum(db.districts, w, n, DISTRICTS);
  }

  lemma WarehouseOpened(db: DB, w: Warehouse, load: Load)
    requires Consistent(db, load) && w.w_id !in db.warehouses
    ensures var db' := db.(warehouses := db.warehouses[w.w_id := w]);
            Complete(db', load) && OthersAddUp(db', w.w_id, load) && FirstDistricts(db'.districts, w.w_id, 0)
  {
    var db' := db.(warehouses := db.warehouses[w.w_id := w]);
    assert forall i :: DistId(w.w_id, i) !in db.districts;
    SameOrders(db, db');
    WarehouseRest(db, w, load);
    hide Population, IndexAgreement, Dense, Queue, OrdersSound, LinesSound, EveryoneOrdered, BalancesRight, RefsBelow, StockRight;
  }

  lemma WarehouseRest(db: DB, w: Warehouse, load: Load)
    requires RefsBelow(db, db.nextRef) && Population(db) && Dense(db) && StockRight(db, load) && BalancesRight(db)
    requires w.w_id !in db.warehouses
    ensures var db' := db.(warehouses := db.warehouses[w.w_id := w]);
            RefsBelow(db', db'.nextRef) && Population(db') && Dense(db') && StockRight(db', load) && BalancesRight(db')
  {
    var db' := db.(warehouses := db.warehouses[w.w_id := w]);
    forall k | k in db'.customers ensures BalanceRight(db', k) {
      assert BalanceRight(db, k);
    }
  }

  lemma EmptyConsistent(items: seq<Item>, load: Load)
    ensures Consistent(EMPTY_DB.(items := items), load)
  {
  }

  /** A stock row of the load, and its quantity as the initial one. */
  lemma StockAdded(db: DB, s: Stock, load: Load)
    requires Consistent(db, load) && StockId(s.s_w_id, s.s_i_id) !in db.stock
    requires 10 <= s.s_quantity <= 100 && s.s_ytd == 0
    ensures var k := StockId(s.s_w_id, s.s_i_id);
            Consistent(db.(stock := db.stock[k := s]), load.(quantity := load.quantity[k := s.s_quantity]))
  {
    hide Population, IndexAgreement, Dense, Queue, OrdersSound, LinesSound, EveryoneOrdered, BalancesRight, RefsBelow,
      StockRight, YtdRight;
    var k := StockId(s.s_w_id, s.s_i_id);
    var load', db' := load.(quantity := load.quantity[k := s.s_quantity]), db.(stock := db.stock[k := s]);
    StockRowAdded(db, s, load);
    SameOrders(db, db');
    SameBalances(db, db');
    SameRest(db, db', load');
  }

  lemma StockRowAdded(db: DB, s: Stock, load: Load)
    requires StockRight(db, load) && YtdRight(db, load) && StockId(s.s_w_id, s.s_i_id) !in db.stock
    requires 10 <= s.s_quantity <= 100 && s.s_ytd == 0
    ensures var k := StockId(s.s_w_id, s.s_i_id);
            var load' := load.(quantity := load.quantity[k := s.s_quantity]);
            StockRight(db.(stock := db.stock[k := s]), load') && YtdRight(db, load')
  {
  }

  // ---------------------------------------------------------------- the generator

  /** selectUniqueIds (tpccgenerator.cc:53-65): redrawing until the draw is new is drawing any new one. */
  method SelectUniqueIds(num: nat, lower: int, upper: int) returns (rows: set<int>)
    requires num <= upper - lower + 1
    ensures |rows| == num && forall r | r in rows :: lower <= r <= upper
  {
    rows := {};
    while |rows| < num
      invariant |rows| <= num && forall r | r in rows :: lower <= r <= upper
      decreases num - |rows|
    {
      FreeId(rows, lower, upper);
      var index :| lower <= index <= upper && index !in rows;
      rows := rows + {index};
    }
  }

  /** Fewer ids than the range has leave one free. */
  lemma {:induction false} FreeId(rows: set<int>, lower: int, upper: int)
    requires |rows| < upper - lower + 1
    ensures exists i :: lower <= i <= upper && i !in rows
    decreases |rows|
  {
    if upper in rows {
      FreeId(rows - {upper}, lower, upper - 1);
    } else {
      assert lower <= upper;
    }
  }

  class TPCCGenerator {
    const now: string
    const numItems: nat
    const districtsPerWarehouse: nat
    const customersPerDistrict: nat
    const newOrdersPerDistrict: nat

    predicate Valid() {
      && now != "" && 1 <= numItems <= STOCK_PER_WAREHOUSE && 1 <= districtsPerWarehouse <= DISTRICTS
      && 1 <= customersPerDistrict <= CUSTOMERS_PER_DISTRICT && 1 <= newOrdersPerDistrict <= customersPerDistrict
    }

    /** The number of the first new order of a district. */
    function FirstNew(): int {
      customersPerDistrict - newOrdersPerDistrict + 1
    }

    function SettingsFor(warehouses: nat): Settings {
      Settings(now, warehouses, numItems, districtsPerWarehouse, customersPerDistrict, newOrdersPerDistrict)
    }

    /** Every row of the tables is as the generate methods make it. */
    ghost predicate Made(db: DB) {
      RowsMade(db, now, customersPerDistrict, FirstNew())
    }

    ghost predicate Fits(load: Load) {
      && load.warehouseGap == WAREHOUSE_YTD - districtsPerWarehouse * DISTRICT_YTD
      && load.districtGap == DISTRICT_YTD - customersPerDistrict * INITIAL_AMOUNT
    }

    constructor (now: string, numItems: nat, districts: nat, customers: nat, newOrders: nat)
      requires now != "" && 1 <= numItems <= STOCK_PER_WAREHOUSE && 1 <= districts <= DISTRICTS
      requires 1 <= customers <= CUSTOMERS_PER_DISTRICT && 1 <= newOrders <= customers
      ensures Valid() && districtsPerWarehouse == districts && customersPerDistrict == customers
      ensures this.numItems == numItems && newOrdersPerDistrict == newOrders
    {
      this.now, this.numItems := now, numItems;
      districtsPerWarehouse, customersPerDistrict, newOrdersPerDistrict := districts, customers, newOrders;
    }

    method Name(lower: nat, upper: nat) returns (s: string)
      requires lower <= upper
      ensures IsName(s, lower, upper)
    {
      s := Random.GenerateString(lower, upper, 'a', 26);
    }

    method GenerateItem(id: int) returns (item: Item)
      ensures ItemMade(id, item)
    {
      var price := Random.Number(1_00, 100_00);
      item := Item(id, price);
    }

    method GenerateStock(id: int, w: int) returns (s: Stock)
      ensures StockMade(StockId(w, id), s)
    {
      var quantity := Random.Number(10, 100);
      s := Stock(id, w, quantity, 0, 0, 0);
    }

    method GenerateWarehouse(id: int) returns (w: Warehouse)
      ensures WarehouseMade(id, w)
    {
      var tax := Random.Number(0, 2000);
      var name := Name(6, 10);
      w := Warehouse(id, tax, WAREHOUSE_YTD, name);
    }

    method GenerateDistrict(id: int, w: int) returns (d: District)
      ensures DistrictMade(DistId(w, id), d, customersPerDistrict)
    {
      var tax := Random.Number(0, 2000);
      var name := Name(6, 10);
      d := District(id, w, tax, DISTRICT_YTD, customersPerDistrict + 1, name);
    }

    method GenerateCustomer(id: nat, d: int, w: int, badCredit: bool) returns (c: Customer)
      requires Valid() && 1 <= id <= customersPerDistrict
      ensures CustomerMade(CustId(w, d, id), c, customersPerDistrict)
      ensures c.c_credit == if badCredit then BAD_CREDIT else GOOD_CREDIT
    {
      var discount := Random.Number(0, 5000);
      var first := Name(6, 10);
      var n := id - 1;
      if id > 1000 {
        n := Random.Number(0, MaxNameNumber(customersPerDistrict));
      }
      var data := Name(300, 500);
      CustomerNames.NameReads(n, CustomerNames.LastName(n));
      c := Customer(id, d, w, 50_000_00, discount, INITIAL_BALANCE, INITIAL_YTD_PAYMENT, 1, 0,
                    first, CustomerNames.LastName(n), if badCredit then BAD_CREDIT else GOOD_CREDIT, data);
    }

    method GenerateHistory(c: int, d: int, w: int) returns (h: History)
      ensures CustomerOf(h) == CustId(w, d, c) && DistrictOf(h) == DistId(w, d) && HistoryMade(h, now)
    {
      var data := Name(12, 24);
      h := History(c, d, w, d, w, INITIAL_AMOUNT, now, data);
    }

    method GenerateOrder(id: int, c: int, d: int, w: int, newOrder: bool) returns (o: Order)
      ensures OrderIdOf(o) == OrderId(w, d, id) && o.o_c_id == c && OrderMade(o, newOrder, now)
    {
      var carrier := NULL_CARRIER_ID;
      if !newOrder {
        carrier := Random.Number(1, 10);
      }
      var lines := Random.Number(5, 15);
      o := Order(id, c, d, w, carrier, lines, true, now);
    }

    method GenerateOrderLine(number: int, o: int, d: int, w: int, newOrder: bool) returns (line: OrderLine)
      requires Valid()
      ensures LineMade(LineId(w, d, o, number), line, newOrder, now)
    {
      var item := Random.Number(1, MAX_I_ID);
      var amount, date := 0, now;
      if newOrder {
        amount := Random.Number(1, 9_999_99);
        date := "";
      }
      line := OrderLine(o, d, w, number, item, w, 5, amount, date);
    }

    method MakeItemsTable(tables: TPCCTables)
      requires Valid() && tables.items == [] && Made(tables.View())
      modifies tables
      ensures tables.View() == old(tables.View()).(items := tables.items) && |tables.items| == numItems
      ensures Made(tables.View())
    {
      hide RowsMade, ItemMade;
      for i := 1 to numItems + 1
        invariant tables.View() == old(tables.View()).(items := tables.items) && |tables.items| == i - 1
        invariant Made(tables.View())
      {
        var item := GenerateItem(i);
        ItemRow(tables.View(), item, now, customersPerDistrict, FirstNew());
        NumberedItem(i, item);
        tables.InsertItem(item);
      }
    }

    /** Every quantity that is drawn becomes an initial quantity of `load`. */
    method MakeStock(tables: TPCCTables, w: int, ghost load: Load) returns (ghost load': Load)
      requires Valid() && Consistent(tables.View(), load) && Made(tables.View()) && forall k | k in tables.stock :: k.w != w
      modifies tables
      ensures Made(tables.View()) && Consistent(tables.View(), load') && load' == load.(quantity := load'.quantity)
      ensures tables.View() == old(tables.View()).(stock := tables.stock)
      ensures forall k: StockId | k.w != w :: k in tables.stock <==> k in old(tables.stock)
      ensures forall i :: StockId(w, i) in tables.stock <==> 1 <= i <= numItems
    {
      hide Consistent, RowsMade;
      load' := load;
      for i := 1 to numItems + 1
        invariant Made(tables.View()) && Consistent(tables.View(), load') && load' == load.(quantity := load'.quantity)
        invariant tables.View() == old(tables.View()).(stock := tables.stock)
        invariant forall k: StockId | k.w != w :: k in tables.stock <==> k in old(tables.stock)
        invariant forall j :: StockId(w, j) in tables.stock <==> 1 <= j < i
      {
        var s := GenerateStock(i, w);
        StockAdded(tables.View(), s, load');
        StockRow(tables.View(), StockId(w, i), s, now, customersPerDistrict, FirstNew());
        tables.InsertStock(s);
        load' := load'.(quantity := load'.quantity[StockId(w, i) := s.s_quantity]);
      }
    }

    /** tpccgenerator.cc:278-283. */
    method MakeOrderLines(tables: TPCCTables, o: Order, newOrder: bool) returns (ghost lines: map<LineId, OrderLine>)
      requires Valid() && (forall l | l in tables.orderLines :: OrderOfLine(l) != OrderIdOf(o)) && o.o_ol_cnt >= 0
      modifies tables
      ensures tables.View() == old(tables.View()).(lines := old(tables.orderLines) + lines)
      ensures OrderLinesMade(OrderIdOf(o), lines, o.o_ol_cnt, newOrder, now)
    {
      hide OrderLinesMade;
      lines := map[];
      NoLinesMade(OrderIdOf(o), newOrder, now);
      for n := 1 to o.o_ol_cnt + 1
        invariant tables.View() == old(tables.View()).(lines := old(tables.orderLines) + lines)
        invariant OrderLinesMade(OrderIdOf(o), lines, n - 1, newOrder, now)
      {
        var line := GenerateOrderLine(n, o.o_id, o.o_d_id, o.o_w_id, newOrder);
        UnionUpdate(old(tables.orderLines), lines, LineIdOf(line), line);
        NextLineMade(OrderIdOf(o), lines, n, line, newOrder, now);
        tables.InsertOrderLine(line);
        lines := lines[LineIdOf(line) := line];
      }
    }

    /** tpccgenerator.cc:272-288. */
    method MakeOrder(tables: TPCCTables, dk: DistId, id: int, c: int)
      returns (ghost o: Order, ghost lines: map<LineId, OrderLine>)
      requires Valid() && OrderId(dk.w, dk.d, id) !in tables.orders && OrderId(dk.w, dk.d, id) !in tables.newOrders
      requires CustOrderId(dk.w, dk.d, c, id) !in tables.ordersByCustomer
      requires forall l | l in tables.orderLines :: OrderOfLine(l) != OrderId(dk.w, dk.d, id)
      modifies tables
      ensures MadeOrder(dk, id, c, o, lines, FirstNew(), now)
      ensures tables.View() == LoadOrder(old(tables.View()), o, lines)
    {
      var newOrder := customersPerDistrict - newOrdersPerDistrict < id;
      var order := GenerateOrder(id, c, dk.d, dk.w, newOrder);
      var r := tables.InsertOrder(order);
      lines := MakeOrderLines(tables, order, newOrder);
      if newOrder {
        tables.InsertNewOrder(OrderId(dk.w, dk.d, id));
      }
      o := order;
    }

    /** tpccgenerator.cc:256-265. */
    method MakeCustomers(tables: TPCCTables, dk: DistId, ghost load: Load)
      requires Valid() && dk in tables.districts && Core(UpTo(tables.View(), dk, 0), load) && Made(tables.View())
      requires HasCustomers(tables.View(), dk, 0) && Elsewhere(tables.View(), dk, load)
      requires forall id | id in tables.newOrders :: DistOf(id) != dk
      modifies tables
      ensures tables.districts == old(tables.districts) && tables.warehouses == old(tables.warehouses)
      ensures tables.items == old(tables.items) && tables.stock == old(tables.stock)
      ensures OtherCustomers(old(tables.customers), tables.customers, dk) && tables.newOrders == old(tables.newOrders)
      ensures CreditDealt(tables.customers, dk, customersPerDistrict) && Made(tables.View())
      ensures Filling(tables.View(), dk, 0, FirstNew(), [], customersPerDistrict, load)
    {
      hide Core, HasCustomers, Elsewhere, OtherCustomers, RowsMade, CreditIs;
      var selected := SelectUniqueIds(customersPerDistrict / 10, 1, customersPerDistrict);
      OthersAtFirst(tables.customers, dk);
      NoCredit(tables.customers, dk, selected);
      for i := 1 to customersPerDistrict + 1
        invariant tables.districts == old(tables.districts) && tables.warehouses == old(tables.warehouses)
        invariant tables.items == old(tables.items) && tables.stock == old(tables.stock) && tables.newOrders == old(tables.newOrders)
        invariant Core(UpTo(tables.View(), dk, 0), load) && Made(tables.View())
        invariant HasCustomers(tables.View(), dk, i - 1) && Elsewhere(tables.View(), dk, load)
        invariant OtherCustomers(old(tables.customers), tables.customers, dk)
        invariant CreditIs(tables.customers, dk, i - 1, selected)
      {
        ghost var before := tables.customers;
        MakeCustomer(tables, dk, i, i in selected, load);
        StillOtherCustomers(old(tables.customers), before, tables.customers, dk);
        NextCredit(before, tables.customers, dk, i, selected);
      }
      assert Selection(selected, customersPerDistrict / 10, customersPerDistrict);
    }

    method MakeCustomer(tables: TPCCTables, dk: DistId, i: nat, badCredit: bool, ghost load: Load)
      requires Valid() && 1 <= i <= customersPerDistrict && dk in tables.districts && Core(UpTo(tables.View(), dk, 0), load)
      requires HasCustomers(tables.View(), dk, i - 1) && Elsewhere(tables.View(), dk, load) && Made(tables.View())
      modifies tables
      ensures tables.districts == old(tables.districts) && tables.warehouses == old(tables.warehouses)
      ensures tables.items == old(tables.items) && tables.stock == old(tables.stock) && tables.newOrders == old(tables.newOrders)
      ensures Core(UpTo(tables.View(), dk, 0), load) && Made(tables.View())
      ensures HasCustomers(tables.View(), dk, i) && Elsewhere(tables.View(), dk, load)
      ensures OtherCustomers(old(tables.customers), tables.customers, dk)
      ensures var k := CustId(dk.w, dk.d, i);
              && k in tables.customers && tables.customers == old(tables.customers)[k := tables.customers[k]]
              && (BadCredit(tables.customers, k) <==> badCredit)
    {
      hide Core, HasCustomers, Elsewhere, CustomerOf, DistrictOf, RowsMade, CustomerMade, HistoryMade;
      ghost var db := tables.View();
      NotYet(db, dk, i - 1);
      var c := GenerateCustomer(i, dk.d, dk.w, badCredit);
      MadeId(CustId(dk.w, dk.d, i), c, customersPerDistrict);
      tables.InsertCustomer(c);
      var h := GenerateHistory(i, dk.d, dk.w);
      MadeAmount(h, now);
      var r := tables.InsertHistory(h);
      CustomerCore(db, dk, i - 1, c, h, load);
      CustomerKeeps(db, c, h, dk);
      CustomerRow(db, c, h, tables.View(), now, customersPerDistrict, FirstNew());
    }

    /** The loop body at tpccgenerator.cc:272-288; `first` is the database before the loop. */
    method FillOrder(tables: TPCCTables, dk: DistId, i: nat, c: int, ghost p: seq<int>, ghost first: DB, ghost load: Load)
      requires Valid() && 1 <= i <= |p| && p[i - 1] == c && Random.IsPermutation(p, 1, customersPerDistrict)
      requires Filling(tables.View(), dk, i - 1, FirstNew(), p, customersPerDistrict, load)
      requires OnlyOrders(first, tables.View(), dk) && Made(tables.View())
      modifies tables
      ensures Filling(tables.View(), dk, i, FirstNew(), p, customersPerDistrict, load)
      ensures OnlyOrders(first, tables.View(), dk) && Made(tables.View())
    {
      hide Filling, MadeOrder, OnlyOrders, LoadOrder, Random.IsPermutation, RowsMade;
      ghost var db := tables.View();
      NextOrder(db, dk, i - 1, FirstNew(), p, customersPerDistrict, c, load);
      ghost var o, lines := MakeOrder(tables, dk, i, c);
      OrderDone(first, db, dk, i - 1, FirstNew(), p, customersPerDistrict, o, lines, now, load);
      MadeRows(db, dk, i, c, o, lines, FirstNew(), now, customersPerDistrict);
    }

    method FillOrders(tables: TPCCTables, dk: DistId, p: seq<int>, ghost load: Load)
      requires Valid() && |p| == customersPerDistrict && Random.IsPermutation(p, 1, customersPerDistrict)
      requires Filling(tables.View(), dk, 0, FirstNew(), p, customersPerDistrict, load) && Made(tables.View())
      modifies tables
      ensures Filling(tables.View(), dk, customersPerDistrict, FirstNew(), p, customersPerDistrict, load)
      ensures OnlyOrders(old(tables.View()), tables.View(), dk) && Made(tables.View())
    {
      hide *;
      ghost var first := tables.View();
      NoOrdersAtFirst(first, dk);
      for i := 1 to customersPerDistrict + 1
        invariant Filling(tables.View(), dk, i - 1, FirstNew(), p, customersPerDistrict, load)
        invariant OnlyOrders(first, tables.View(), dk) && Made(tables.View())
      {
        FillOrder(tables, dk, i, p[i - 1], p, first, load);
      }
    }

    /** tpccgenerator.cc:270-290: one order for every customer, in a random order. */
    method MakeOrders(tables: TPCCTables, dk: DistId, ghost load: Load)
      requires Valid() && Filling(tables.View(), dk, 0, FirstNew(), [], customersPerDistrict, load) && Fits(load) && Made(tables.View())
      requires tables.districts[dk].d_next_o_id == customersPerDistrict + 1 && tables.districts[dk].d_ytd == DISTRICT_YTD
      modifies tables
      ensures Complete(tables.View(), load) && HasCustomers(tables.View(), dk, customersPerDistrict)
      ensures NewOrdersAre(tables.View(), dk, FirstNew(), customersPerDistrict)
      ensures OnlyOrders(old(tables.View()), tables.View(), dk) && Made(tables.View())
    {
      hide RowsMade, HasCustomers, NewOrdersAre, Filling, Random.IsPermutation, Random.Shuffle, Random.Draws, Random.Consecutive, Complete;
      var permutation, draws := Random.MakePermutation(1, customersPerDistrict);
      NoOrdersYet(tables.View(), dk, FirstNew(), permutation[..], customersPerDistrict, load);
      FillOrders(tables, dk, permutation[..], load);
      DistrictComplete(tables.View(), dk, FirstNew(), permutation[..], customersPerDistrict, load);
    }

    /** The loop body at tpccgenerator.cc:249-290. */
    method MakeDistrict(tables: TPCCTables, w: int, d: int, ghost load: Load)
      requires Valid() && Fits(load) && Complete(tables.View(), load) && w in tables.warehouses
      requires 1 <= d <= DISTRICTS && DistId(w, d) !in tables.districts && Populated(tables.View(), customersPerDistrict, FirstNew()) && Made(tables.View())
      modifies tables
      ensures Populated(tables.View(), customersPerDistrict, FirstNew()) && Made(tables.View())
      ensures Complete(tables.View(), load) && tables.warehouses == old(tables.warehouses)
      ensures tables.items == old(tables.items) && tables.stock == old(tables.stock)
      ensures DistId(w, d) in tables.districts && tables.districts[DistId(w, d)].d_ytd == DISTRICT_YTD
      ensures tables.districts == old(tables.districts)[DistId(w, d) := tables.districts[DistId(w, d)]]
    {
      var row := GenerateDistrict(d, w);
      var dk := DistId(w, d);
      ghost var before := tables.View();
      OpenCore(tables.View(), row, load);
      hide Core, Elsewhere, Complete, Filling, Populated, OtherCustomers, OtherNewOrders, NewOrdersAre, RowsMade, CreditDealt;
      DistrictRow(tables.View(), dk, row, now, customersPerDistrict, FirstNew());
      tables.InsertDistrict(row);
      MakeCustomers(tables, dk, load);
      MakeOrders(tables, dk, load);
      DistrictFills(before, tables.View(), dk, customersPerDistrict, FirstNew());
    }

    method MakeNextDistrict(tables: TPCCTables, w: int, d: nat, ghost load: Load)
      requires Valid() && Fits(load) && Complete(tables.View(), load) && w in tables.warehouses && 1 <= d <= DISTRICTS
      requires OthersAddUp(tables.View(), w, load) && FirstDistricts(tables.districts, w, d - 1)
      requires Populated(tables.View(), customersPerDistrict, FirstNew()) && Made(tables.View())
      modifies tables
      ensures Populated(tables.View(), customersPerDistrict, FirstNew()) && Made(tables.View())
      ensures forall k: DistId | k.w != w :: k in tables.districts <==> k in old(tables.districts)
      ensures Complete(tables.View(), load) && OthersAddUp(tables.View(), w, load) && FirstDistricts(tables.districts, w, d)
      ensures tables.warehouses == old(tables.warehouses)
      ensures tables.items == old(tables.items) && tables.stock == old(tables.stock)
    {
      hide Complete, OthersAddUp, Populated, RowsMade;
      ghost var before := tables.View();
      MakeDistrict(tables, w, d, load);
      hide FirstDistricts;
      NextDistrict(before, tables.View(), w, d, load);
    }

    method MakeWarehouseWithoutStock(tables: TPCCTables, w: int, ghost load: Load)
      requires Valid() && Fits(load) && Consistent(tables.View(), load) && w !in tables.warehouses
      requires Populated(tables.View(), customersPerDistrict, FirstNew()) && Made(tables.View())
      modifies tables
      ensures Populated(tables.View(), customersPerDistrict, FirstNew()) && Made(tables.View())
      ensures forall k: DistId | k.w != w :: k in tables.districts <==> k in old(tables.districts)
      ensures Consistent(tables.View(), load) && tables.items == old(tables.items) && tables.stock == old(tables.stock)
      ensures tables.warehouses.Keys == old(tables.warehouses.Keys) + {w}
      ensures FirstDistricts(tables.districts, w, districtsPerWarehouse)
    {
      hide Complete, Consistent, OthersAddUp, FirstDistricts, Populated, RowsMade;
      var row := GenerateWarehouse(w);
      WarehouseRow(tables.View(), row, now, customersPerDistrict, FirstNew());
      WarehouseOpened(tables.View(), row, load);
      ghost var before := tables.View();
      tables.InsertWarehouse(row);
      SamePopulated(before, tables.View(), customersPerDistrict, FirstNew());
      for d := 1 to districtsPerWarehouse + 1
        invariant Complete(tables.View(), load) && OthersAddUp(tables.View(), w, load)
        invariant FirstDistricts(tables.districts, w, d - 1) && tables.items == old(tables.items) && tables.stock == old(tables.stock)
        invariant tables.warehouses == old(tables.warehouses)[w := row]
        invariant Populated(tables.View(), customersPerDistrict, FirstNew()) && Made(tables.View())
        invariant forall k: DistId | k.w != w :: k in tables.districts <==> k in old(tables.districts)
        modifies tables
      {
        MakeNextDistrict(tables, w, d, load);
      }
      WarehouseComplete(tables.View(), w, districtsPerWarehouse, load);
    }

    method MakeWarehouse(tables: TPCCTables, w: int, ghost load: Load) returns (ghost load': Load)
      requires Valid() && Fits(load) && Consistent(tables.View(), load)
      requires w !in tables.warehouses && forall k | k in tables.stock :: k.w != w
      requires Populated(tables.View(), customersPerDistrict, FirstNew()) && Made(tables.View())
      modifies tables
      ensures Populated(tables.View(), customersPerDistrict, FirstNew()) && Made(tables.View())
      ensures forall k: DistId | k.w != w :: k in tables.districts <==> k in old(tables.districts)
      ensures Consistent(tables.View(), load') && load' == load.(quantity := load'.quantity) && tables.items == old(tables.items)
      ensures tables.warehouses.Keys == old(tables.warehouses.Keys) + {w}
      ensures forall k: StockId | k.w != w :: k in tables.stock <==> k in old(tables.stock)
      ensures forall i :: StockId(w, i) in tables.stock <==> 1 <= i <= numItems
      ensures FirstDistricts(tables.districts, w, districtsPerWarehouse)
    {
      hide Consistent, Populated, RowsMade;
      load' := MakeStock(tables, w, load);
      SamePopulated(old(tables.View()), tables.View(), customersPerDistrict, FirstNew());
      MakeWarehouseWithoutStock(tables, w, load');
    }

    method MakeNextWarehouse(tables: TPCCTables, w: nat, ghost load: Load) returns (ghost load': Load)
      requires Valid() && w >= 1 && Loaded(tables.View(), load, SettingsFor(w - 1))
      modifies tables
      ensures Loaded(tables.View(), load', SettingsFor(w)) && tables.items == old(tables.items)
    {
      hide Consistent, Populated, RowsMade;
      ghost var stock, districts := tables.stock, tables.districts;
      load' := MakeWarehouse(tables, w, load);
      DistrictsSoFar(districts, tables.districts, w, districtsPerWarehouse);
      StockSoFar(stock, tables.stock, w, numItems);
    }

    /** tpcc.cc:55-58: the whole load, from empty tables. */
    method LoadAll(warehouses: nat) returns (tables: TPCCTables, ghost load: Load)
      requires Valid()
      ensures fresh(tables) && Loaded(tables.View(), load, SettingsFor(warehouses))
    {
      hide Loaded, RowsMade;
      tables := new TPCCTables();
      NoRowsMade(now, customersPerDistrict, FirstNew());
      MakeItemsTable(tables);
      load := LoadOf(map[], districtsPerWarehouse, customersPerDistrict);
      NothingLoaded(tables.items, SettingsFor(0));
      for i := 0 to warehouses
        invariant fresh(tables) && Loaded(tables.View(), load, SettingsFor(i))
      {
        load := MakeNextWarehouse(tables, i + 1, load);
      }
    }
  }

  lemma NothingLoaded(items: seq<Item>, z: Settings)
    requires z.warehouses == 0 && |items| == z.items
    requires RowsMade(EMPTY_DB.(items := items), z.now, z.customers, z.FirstNew())
    ensures Loaded(EMPTY_DB.(items := items), LoadOf(map[], z.districts, z.customers), z)
  {
    hide Consistent, RowsMade;
    EmptyConsistent(items, LoadOf(map[], z.districts, z.customers));
  }

  lemma NotYet(db: DB, dk: DistId, n: nat)
    requires HasCustomers(db, dk, n)
    ensures CustId(dk.w, dk.d, n + 1) !in db.customers
  {
  }

  lemma CustomerKeeps(db: DB, c: Customer, h: History, dk: DistId)
    requires c.c_w_id == dk.w && c.c_d_id == dk.d
    ensures OtherCustomers(db.customers, AddCustomer(db, c, h).customers, dk)
  {
  }

  lemma NumberedItem(i: int, item: Item)
    requires ItemMade(i, item)
    ensures item.i_id == i
  {
  }

  lemma MadeId(k: CustId, c: Customer, n: nat)
    requires CustomerMade(k, c, n)
    ensures IdOf(c) == k && c.c_balance == INITIAL_BALANCE && c.c_ytd_payment == INITIAL_YTD_PAYMENT
  {
  }

  lemma MadeAmount(h: History, now: string)
    requires HistoryMade(h, now)
    ensures h.h_amount == INITIAL_AMOUNT
  {
  }

  lemma NoCredit(customers: map<CustId, Customer>, dk: DistId, selected: set<int>)
    ensures CreditIs(customers, dk, 0, selected)
  {
  }

  lemma NextCredit(a: map<CustId, Customer>, b: map<CustId, Customer>, dk: DistId, i: int, selected: set<int>)
    requires CreditIs(a, dk, i - 1, selected) && (BadCredit(b, CustId(dk.w, dk.d, i)) <==> i in selected)
    requires var k := CustId(dk.w, dk.d, i); k in b && b == a[k := b[k]]
    ensures CreditIs(b, dk, i, selected)
  {
    forall j | 1 <= j <= i ensures BadCredit(b, CustId(dk.w, dk.d, j)) <==> j in selected {
      if j < i { assert BadCredit(a, CustId(dk.w, dk.d, j)) <==> j in selected; }
    }
  }

  lemma OthersAtFirst(customers: map<CustId, Customer>, dk: DistId)
    ensures OtherCustomers(customers, customers, dk)
  {
  }

  lemma StockSoFar(a: map<StockId, Stock>, b: map<StockId, Stock>, w: int, n: int)
    requires w >= 1 && forall k :: k in a <==> 1 <= k.w <= w - 1 && 1 <= k.i <= n
    requires (forall k: StockId | k.w != w :: k in b <==> k in a) && forall i :: StockId(w, i) in b <==> 1 <= i <= n
    ensures forall k :: k in b <==> 1 <= k.w <= w && 1 <= k.i <= n
  {
    forall k ensures k in b <==> 1 <= k.w <= w && 1 <= k.i <= n {
      if k.w == w {
        assert k == StockId(w, k.i);
      } else {
        assert k in b <==> k in a;
      }
    }
  }

  lemma DistrictsSoFar(a: map<DistId, District>, b: map<DistId, District>, w: int, n: int)
    requires w >= 1 && forall k :: k in a <==> 1 <= k.w <= w - 1 && 1 <= k.d <= n
    requires (forall k: DistId | k.w != w :: k in b <==> k in a) && forall i :: DistId(w, i) in b <==> 1 <= i <= n
    ensures forall k :: k in b <==> 1 <= k.w <= w && 1 <= k.d <= n
  {
    forall k ensures k in b <==> 1 <= k.w <= w && 1 <= k.d <= n {
      if k.w == w {
        assert k == DistId(w, k.d);
      } else {
        assert k in b <==> k in a;
      }
    }
  }

  lemma NoOrdersYet(db: DB, dk: DistId, first: int, p: seq<int>, c: nat, load: Load)
    requires Filling(db, dk, 0, first, [], c, load)
    ensures Filling(db, dk, 0, first, p, c, load)
  {
  }

  lemma InRange(p: seq<int>, i: nat, c: nat)
    requires Random.IsPermutation(p, 1, c) && i < |p|
    ensures 1 <= p[i] <= c
  {
    assert p[i] in p;
  }

  lemma OrderDone(a: DB, db: DB, dk: DistId, n: nat, first: int, p: seq<int>, c: nat, o: Order,
                  lines: map<LineId, OrderLine>, now: string, load: Load)
    requires Filling(db, dk, n, first, p, c, load) && OnlyOrders(a, db, dk) && now != ""
    requires Random.IsPermutation(p, 1, c) && n < |p| && MadeOrder(dk, n + 1, p[n], o, lines, first, now)
    ensures Filling(LoadOrder(db, o, lines), dk, n + 1, first, p, c, load)
    ensures OnlyOrders(a, LoadOrder(db, o, lines), dk)
  {
    hide Filling, IsNew, LoadedOrder, OrderMade, OrderLinesMade;
    InRange(p, n, c);
    MadeIsLoaded(dk, n + 1, p[n], o, lines, first, now);
    OrderFills(db, dk, n, first, p, c, o, lines, load);
    LoadKeeps(db, dk, n + 1, first, o, lines);
    StillOnlyOrders(a, db, LoadOrder(db, o, lines), dk);
  }

  lemma LoadKeeps(db: DB, dk: DistId, n: int, first: int, o: Order, lines: map<LineId, OrderLine>)
    requires LoadedOrder(dk, n, first, o, lines)
    ensures OnlyOrders(db, LoadOrder(db, o, lines), dk)
  {
  }

  lemma NextOrder(db: DB, dk: DistId, n: nat, first: int, p: seq<int>, c: nat, cust: int, load: Load)
    requires Filling(db, dk, n, first, p, c, load)
    ensures OrderId(dk.w, dk.d, n + 1) !in db.orders && OrderId(dk.w, dk.d, n + 1) !in db.newOrders
    ensures CustOrderId(dk.w, dk.d, cust, n + 1) !in db.ordersByCustomer
    ensures forall l | l in db.lines :: OrderOfLine(l) != OrderId(dk.w, dk.d, n + 1)
  {
    NextIsNew(UpTo(db, dk, n), dk, cust);
  }

  lemma NextDistrict(a: DB, b: DB, w: int, d: int, load: Load)
    requires d >= 1 && OthersAddUp(a, w, load) && FirstDistricts(a.districts, w, d - 1) && a.warehouses == b.warehouses
    requires DistId(w, d) in b.districts && b.districts == a.districts[DistId(w, d) := b.districts[DistId(w, d)]]
    requires b.districts[DistId(w, d)].d_ytd == DISTRICT_YTD
    ensures OthersAddUp(b, w, load) && FirstDistricts(b.districts, w, d)
  {
    forall x | x in b.warehouses && x != w
      ensures b.warehouses[x].w_ytd == DistrictSum(b.districts, x, DISTRICTS) + load.warehouseGap
    {
      OtherSum(a.districts, b.districts, x, DISTRICTS);
    }
  }
}
