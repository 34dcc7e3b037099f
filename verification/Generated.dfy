/** What the generate functions of the load can make of a row (tpccgenerator.cc:67-230): every draw is
    any value of its range. */
module Generated {
  import opened Rows
  import opened DeliverySpec
  import opened Consistency
  import opened NameIndex
  import CustomerNames

  const WAREHOUSE_YTD := 300_000_00
  const DISTRICT_YTD := 30_000_00
  const INITIAL_BALANCE := -10_00
  const INITIAL_YTD_PAYMENT := 10_00
  const INITIAL_AMOUNT := 10_00
  const MAX_I_ID := 100_000
  const GOOD_CREDIT := "GC"

  /** A random string over lower-case letters. */
  predicate IsName(s: string, lower: nat, upper: nat) {
    lower <= |s| <= upper && forall i | 0 <= i < |s| :: 'a' <= s[i] <= 'z'
  }

  predicate ItemMade(id: int, item: Item) {
    item.i_id == id && 1_00 <= item.i_price <= 100_00
  }

  predicate StockMade(k: StockId, s: Stock) {
    && s.s_w_id == k.w && s.s_i_id == k.i && 10 <= s.s_quantity <= 100
    && s.s_ytd == s.s_order_cnt == s.s_remote_cnt == 0
  }

  predicate WarehouseMade(id: int, w: Warehouse) {
    w.w_id == id && w.w_ytd == WAREHOUSE_YTD && 0 <= w.w_tax <= 2000 && IsName(w.w_name, 6, 10)
  }

  predicate DistrictMade(k: DistId, d: District, customers: nat) {
    && d.d_w_id == k.w && d.d_id == k.d && d.d_ytd == DISTRICT_YTD && d.d_next_o_id == customers + 1
    && 0 <= d.d_tax <= 2000 && IsName(d.d_name, 6, 10)
  }

  /** The largest number that a last name is drawn for when there are `customers` of them in a district. */
  function MaxNameNumber(customers: nat): int {
    if customers - 1 < 999 then customers - 1 else 999
  }

  /** The names are drawn for the numbers 0 to 999, as far as there are customers with these names. */
  lemma NumbersDrawn(customers: nat, num: nat)
    ensures num <= MaxNameNumber(customers) <==> num <= 999 && num < customers
  {
  }

  /** The first 1000 customers of a district have a last name each; later ones have a drawn one. */
  ghost predicate LastNameMade(id: int, last: string, customers: nat) {
    if 1 <= id <= 1000 then CustomerNames.ReadsAs(last, id - 1)
    else exists num: nat :: num < customers && CustomerNames.ReadsAs(last, num)
  }

  ghost predicate CustomerMade(k: CustId, c: Customer, customers: nat) {
    && IdOf(c) == k && 1 <= k.c <= customers && LastNameMade(k.c, c.c_last, customers)
    && IsName(c.c_first, 6, 10) && IsName(c.c_data, 300, MAX_DATA)
    && c.c_balance == INITIAL_BALANCE && c.c_ytd_payment == INITIAL_YTD_PAYMENT
    && c.c_payment_cnt == 1 && c.c_delivery_cnt == 0 && c.c_credit_lim == 50_000_00 && 0 <= c.c_discount <= 5000
    && (c.c_credit == BAD_CREDIT || c.c_credit == GOOD_CREDIT)
  }

  predicate HistoryMade(h: History, now: string) {
    h.h_c_w_id == h.h_w_id && h.h_c_d_id == h.h_d_id && h.h_amount == INITIAL_AMOUNT && h.h_date == now && IsName(h.h_data, 12, 24)
  }

  predicate OrderMade(o: Order, newOrder: bool, now: string) {
    && 5 <= o.o_ol_cnt <= MAX_OL_CNT && o.o_all_local && o.o_entry_d == now
    && if newOrder then o.o_carrier_id == NULL_CARRIER_ID else 1 <= o.o_carrier_id <= 10
  }

  /** The item is drawn from 1 to 100000 however many items there are. */
  predicate LineMade(l: LineId, line: OrderLine, newOrder: bool, now: string) {
    && LineIdOf(line) == l && line.ol_supply_w_id == l.w && 1 <= line.ol_i_id <= MAX_I_ID && line.ol_quantity == 5
    && if newOrder then line.ol_delivery_d == "" && 1 <= line.ol_amount <= 9_999_99
       else line.ol_delivery_d == now && line.ol_amount == 0
  }

  ghost predicate CustomersMade(customers: map<CustId, Customer>, c: nat) {
    forall k | k in customers :: CustomerMade(k, customers[k], c)
  }

  /** The orders of a district from number `first` on are new. */
  ghost predicate LinesMade(lines: map<LineId, OrderLine>, first: int, now: string) {
    forall l | l in lines :: LineMade(l, lines[l], l.o >= first, now)
  }

  /** How much the load makes: warehouses, items, and districts per warehouse with their customers and
      new orders; and the date that it writes. */
  datatype Settings = Settings(now: string, warehouses: nat, items: nat, districts: nat, customers: nat, newOrders: nat) {
    /** The number of the first new order of a district. */
    function FirstNew(): int {
      customers - newOrders + 1
    }
  }

  /** Every row is one that the load can make. */
  ghost predicate RowsMade(db: DB, now: string, c: nat, first: int) {
    && (forall i | 0 <= i < |db.items| :: ItemMade(i + 1, db.items[i]))
    && (forall k | k in db.stock :: StockMade(k, db.stock[k]))
    && (forall w | w in db.warehouses :: WarehouseMade(w, db.warehouses[w]))
    && (forall k | k in db.districts :: DistrictMade(k, db.districts[k], c))
    && CustomersMade(db.customers, c)
    && (forall r | r in db.historyRows :: HistoryMade(db.historyRows[r], now))
    && (forall r | r in db.orderRows :: OrderMade(db.orderRows[r], db.orderRows[r].o_id >= first, now))
    && LinesMade(db.lines, first, now)
  }

  // ---------------------------------------------------------------- row by row

  lemma NoRowsMade(now: string, c: nat, first: int)
    ensures RowsMade(EMPTY_DB, now, c, first)
  {
  }

  lemma ItemRow(db: DB, item: Item, now: string, c: nat, first: int)
    requires RowsMade(db, now, c, first) && ItemMade(|db.items| + 1, item)
    ensures RowsMade(db.(items := db.items + [item]), now, c, first)
  {
  }

  lemma StockRow(db: DB, k: StockId, s: Stock, now: string, c: nat, first: int)
    requires RowsMade(db, now, c, first) && StockMade(k, s)
    ensures RowsMade(db.(stock := db.stock[k := s]), now, c, first)
  {
  }

  lemma WarehouseRow(db: DB, w: Warehouse, now: string, c: nat, first: int)
    requires RowsMade(db, now, c, first) && WarehouseMade(w.w_id, w)
    ensures RowsMade(db.(warehouses := db.warehouses[w.w_id := w]), now, c, first)
  {
  }

  lemma DistrictRow(db: DB, k: DistId, d: District, now: string, c: nat, first: int)
    requires RowsMade(db, now, c, first) && DistrictMade(k, d, c)
    ensures RowsMade(db.(districts := db.districts[k := d]), now, c, first)
  {
  }

  lemma CustomerRow(db: DB, row: Customer, h: History, db': DB, now: string, c: nat, first: int)
    requires RowsMade(db, now, c, first) && CustomerMade(IdOf(row), row, c) && HistoryMade(h, now)
    requires db' == db.(customers := db.customers[IdOf(row) := row], history := db'.history,
                        historyRows := db.historyRows[db.nextRef := h], nextRef := db'.nextRef)
    ensures RowsMade(db', now, c, first)
  {
  }

  lemma OrderRow(db: DB, o: Order, lines: map<LineId, OrderLine>, db': DB, now: string, c: nat, first: int)
    requires RowsMade(db, now, c, first) && OrderMade(o, o.o_id >= first, now) && LinesMade(lines, first, now)
    requires db' == db.(orders := db'.orders, ordersByCustomer := db'.ordersByCustomer, orderRows := db.orderRows[db.nextRef := o],
                        newOrders := db'.newOrders, lines := db.lines + lines, nextRef := db'.nextRef)
    ensures RowsMade(db', now, c, first)
  {
  }

  /** The rows carry their own identifiers and names that the search by name can handle. */
  lemma MadeNamed(customers: map<CustId, Customer>, c: nat)
    requires CustomersMade(customers, c)
    ensures RowsNamed(customers)
  {
    hide CustomerNames.ReadsAs;
    forall k | k in customers ensures RowNamed(k, customers[k]) {
      assert CustomerMade(k, customers[k], c);
      var num: nat :| CustomerNames.ReadsAs(customers[k].c_last, num);
      CustomerNames.ReadLetters(customers[k].c_last, num);
    }
  }

  // ---------------------------------------------------------------- bad credit

  predicate BadCredit(customers: map<CustId, Customer>, k: CustId) {
    k in customers && customers[k].c_credit == BAD_CREDIT
  }

  /** The customers 1 to `n` of a district have bad credit exactly if they were selected. */
  ghost predicate CreditIs(customers: map<CustId, Customer>, dk: DistId, n: int, selected: set<int>) {
    forall i | 1 <= i <= n :: BadCredit(customers, CustId(dk.w, dk.d, i)) <==> i in selected
  }

  /** `n` different numbers from 1 to `c`. */
  ghost predicate Selection(selected: set<int>, n: nat, c: nat) {
    |selected| == n && forall i | i in selected :: 1 <= i <= c
  }

  /** A tenth of the customers of a district have bad credit (tpccgenerator.cc:253-260). */
  ghost predicate CreditDealt(customers: map<CustId, Customer>, dk: DistId, c: nat) {
    exists selected :: Selection(selected, c / 10, c) && CreditIs(customers, dk, c, selected)
  }

  lemma CreditKept(a: map<CustId, Customer>, b: map<CustId, Customer>, dk: DistId, c: nat)
    requires CreditDealt(a, dk, c)
    requires forall k: CustId | DistId(k.w, k.d) == dk :: BadCredit(a, k) <==> BadCredit(b, k)
    ensures CreditDealt(b, dk, c)
  {
    var selected :| Selection(selected, c / 10, c) && CreditIs(a, dk, c, selected);
    assert CreditIs(b, dk, c, selected);
  }
}
