/** What the commands of a run amount to, told from the commands alone: sums of payments, rows of the history, the
    orders that were entered. And what the counters of the rows mean in every state. */
module Ledger {
  import opened Rows
  import opened Sequences
  import opened NewOrderSpec
  import opened PaymentSpec
  import opened UndoSpec
  import opened Consistency
  import opened Preservation
  import opened Machine
  import opened StockLaw
  import opened DeliveryLaw
  import DeliverySpec

  // ---------------------------------------------------------------- what commands ask for

  /** The amounts of the payments at a warehouse. */
  function PaidAt(cmds: seq<Command>, w: int): int {
    if cmds == [] then 0
    else
      var c := cmds[|cmds| - 1];
      PaidAt(cmds[..|cmds| - 1], w) + if c.CPayment? && c.dk.w == w then c.amount else 0
  }

  /** The amounts of the payments in a district. */
  function PaidInto(cmds: seq<Command>, dk: DistId): int {
    if cmds == [] then 0
    else
      var c := cmds[|cmds| - 1];
      PaidInto(cmds[..|cmds| - 1], dk) + if c.CPayment? && c.dk == dk then c.amount else 0
  }

  /** The amounts that a customer pays. */
  function PaidBy(cmds: seq<Command>, k: CustId): int {
    if cmds == [] then 0
    else
      var c := cmds[|cmds| - 1];
      PaidBy(cmds[..|cmds| - 1], k) + if c.CPayment? && c.cust == k then c.amount else 0
  }

  /** The records of a customer's payments, oldest first. */
  function RecordsBy(cmds: seq<Command>, k: CustId): seq<string> {
    if cmds == [] then []
    else
      var c := cmds[|cmds| - 1];
      RecordsBy(cmds[..|cmds| - 1], k) + if c.CPayment? && c.cust == k then [c.record] else []
  }

  function Payments(cmds: seq<Command>): seq<Command> {
    if cmds == [] then []
    else
      var c := cmds[|cmds| - 1];
      Payments(cmds[..|cmds| - 1]) + if c.CPayment? then [c] else []
  }

  /** How many orders are made in a district. */
  function OrdersIn(cmds: seq<Command>, dk: DistId): nat {
    if cmds == [] then 0
    else
      var c := cmds[|cmds| - 1];
      OrdersIn(cmds[..|cmds| - 1], dk) + if c.CNewOrder? && c.dk == dk then 1 else 0
  }

  // ---------------------------------------------------------------- what they have done

  /** Every payment has raised its warehouse and its district by its amount, and every order has taken one
      order number. */
  ghost predicate SumsTold(origin: DB, cmds: seq<Command>, db: DB) {
    && db.items == origin.items && db.warehouses.Keys == origin.warehouses.Keys && db.districts.Keys == origin.districts.Keys
    && (forall w | w in origin.warehouses ::
          db.warehouses[w] == origin.warehouses[w].(w_ytd := origin.warehouses[w].w_ytd + PaidAt(cmds, w)))
    && forall k | k in origin.districts ::
         db.districts[k] == origin.districts[k].(d_ytd := origin.districts[k].d_ytd + PaidInto(cmds, k),
                                                 d_next_o_id := origin.districts[k].d_next_o_id + OrdersIn(cmds, k))
  }

  function FirstOf(s: string, n: nat): string {
    s[..if |s| > n then n else |s|]
  }

  /** The customer has paid these amounts; the data of bad credit begin with the newest records; all but the
      balance and the number of deliveries is told by the payments. */
  ghost predicate CustomerTold(a: Customer, b: Customer, paid: int, records: seq<string>) {
    && b == a.(c_balance := b.c_balance, c_delivery_cnt := b.c_delivery_cnt, c_data := b.c_data,
               c_ytd_payment := a.c_ytd_payment + paid, c_payment_cnt := a.c_payment_cnt + |records|)
    && (a.c_credit != BAD_CREDIT ==> b.c_data == a.c_data)
    && (a.c_credit == BAD_CREDIT && |a.c_data| <= MAX_DATA ==> b.c_data == FirstOf(NewestFirst(records, a.c_data), MAX_DATA))
  }

  ghost predicate CustomersTold(a: map<CustId, Customer>, b: map<CustId, Customer>, cmds: seq<Command>) {
    && a.Keys == b.Keys
    && forall k | k in a :: CustomerTold(a[k], b[k], PaidBy(cmds, k), RecordsBy(cmds, k))
  }

  /** The history row of a payment. */
  ghost predicate IsRowOf(origin: DB, p: Command, h: History) {
    && p.CPayment? && p.dk.w in origin.warehouses && p.dk in origin.districts
    && h.h_c_w_id == p.cust.w && h.h_c_d_id == p.cust.d && h.h_c_id == p.cust.c
    && h.h_w_id == p.dk.w && h.h_d_id == p.dk.d && h.h_amount == p.amount && h.h_date == p.now
    && h.h_data == origin.warehouses[p.dk.w].w_name + "    " + origin.districts[p.dk].d_name
  }

  /** Row `j` past the old ones is that of payment `j`. */
  ghost predicate RowTold(origin: DB, ps: seq<Command>, history: seq<Ref>, rows: map<Ref, History>, j: nat)
    requires j < |ps|
  {
    var i := |origin.history| + j;
    i < |history| && history[i] in rows && IsRowOf(origin, ps[j], rows[history[i]])
  }

  /** The rows of the payments follow the old rows, in order. */
  ghost predicate HistoryTold(origin: DB, ps: seq<Command>, history: seq<Ref>, rows: map<Ref, History>) {
    && |history| == |origin.history| + |ps| && history[..|origin.history|] == origin.history
    && (forall r | r in origin.historyRows :: r in rows && rows[r] == origin.historyRows[r])
    && forall j: nat | j < |ps| :: RowTold(origin, ps, history, rows, j)
  }

  /** The order as the command asks for it, whoever delivers it. */
  ghost predicate OrderEntered(items: seq<Item>, orders: map<OrderId, Ref>, rows: map<Ref, Order>, lines: map<LineId, OrderLine>,
                               id: OrderId, cmd: Command)
  {
    && cmd.CNewOrder? && id in orders && orders[id] in rows
    && var o := rows[orders[id]];
       && o.o_w_id == id.w && o.o_d_id == id.d && o.o_id == id.o && o.o_c_id == cmd.c && o.o_entry_d == cmd.now
       && o.o_ol_cnt == |cmd.items|
       && (o.o_all_local <==> forall i | 0 <= i < |cmd.items| :: cmd.items[i].ol_supply_w_id == cmd.dk.w)
       && forall i | 0 <= i < |cmd.items| :: LineEntered(items, lines, LineId(id.w, id.d, id.o, i + 1), cmd.items[i])
  }

  ghost predicate LineEntered(items: seq<Item>, lines: map<LineId, OrderLine>, l: LineId, it: NewOrderItem) {
    && l in lines && 1 <= it.i_id <= |items|
    && lines[l].ol_w_id == l.w && lines[l].ol_d_id == l.d && lines[l].ol_o_id == l.o && lines[l].ol_number == l.n
    && lines[l].ol_i_id == it.i_id && lines[l].ol_supply_w_id == it.ol_supply_w_id && lines[l].ol_quantity == it.ol_quantity
    && lines[l].ol_amount == it.ol_quantity * items[it.i_id - 1].i_price
  }

  /** The number that the order of command `j` has taken. */
  function NumberOf(origin: DB, cmds: seq<Command>, j: nat): OrderId
    requires j < |cmds| && cmds[j].CNewOrder? && cmds[j].dk in origin.districts
  {
    var dk := cmds[j].dk;
    OrderId(dk.w, dk.d, origin.districts[dk].d_next_o_id + OrdersIn(cmds[..j], dk))
  }

  ghost predicate OrderTold(origin: DB, cmds: seq<Command>, db: DB, j: nat)
    requires j < |cmds|
  {
    cmds[j].CNewOrder? ==>
      cmds[j].dk in origin.districts
      && OrderEntered(origin.items, db.orders, db.orderRows, db.lines, NumberOf(origin, cmds, j), cmds[j])
  }

  ghost predicate OrdersTold(origin: DB, cmds: seq<Command>, db: DB) {
    forall j: nat | j < |cmds| :: OrderTold(origin, cmds, db, j)
  }

  /** Orders stay, but for their carrier, and lines, but for their date. */
  ghost predicate OrderKept(a: DB, b: DB, id: OrderId) {
    id in a.orders && a.orders[id] in a.orderRows ==>
      && id in b.orders && b.orders[id] in b.orderRows
      && var o := b.orderRows[b.orders[id]]; o == a.orderRows[a.orders[id]].(o_carrier_id := o.o_carrier_id)
  }

  ghost predicate OrdersKept(a: DB, b: DB) {
    && (forall id | id in a.orders :: OrderKept(a, b, id))
    && forall l | l in a.lines :: l in b.lines && b.lines[l] == a.lines[l].(ol_delivery_d := b.lines[l].ol_delivery_d)
  }

  /** The database is what the commands have made of `origin`. */
  ghost predicate Told(origin: DB, cmds: seq<Command>, db: DB) {
    && SumsTold(origin, cmds, db) && CustomersTold(origin.customers, db.customers, cmds)
    && HistoryTold(origin, Payments(cmds), db.history, db.historyRows)
    && OrdersTold(origin, cmds, db) && OrdersKept(origin, db)
  }

  // ---------------------------------------------------------------- no command yet

  lemma NothingTold(db: DB)
    ensures Told(db, [], db)
  {
    forall k | k in db.customers ensures CustomerTold(db.customers[k], db.customers[k], 0, []) {
    }
  }

  lemma ToldLater(origin: DB, cmds: seq<Command>, db: DB, n: Ref)
    requires Told(origin, cmds, db)
    ensures Told(origin, cmds, db.(nextRef := n))
  {
    hide OrderEntered;
    var d := db.(nextRef := n);
    forall j: nat | j < |cmds| ensures OrderTold(origin, cmds, d, j) {
      assert OrderTold(origin, cmds, db, j);
    }
    forall id | id in origin.orders ensures OrderKept(origin, d, id) {
      assert OrderKept(origin, db, id);
    }
  }

  // ---------------------------------------------------------------- one more command

  lemma OneMore(cmds: seq<Command>, cmd: Command)
    ensures (cmds + [cmd])[..|cmds + [cmd]| - 1] == cmds && (cmds + [cmd])[|cmds + [cmd]| - 1] == cmd
    ensures forall j: nat | j <= |cmds| :: (cmds + [cmd])[..j] == cmds[..j]
  {
  }

  lemma KeptOn(a: DB, b: DB, c: DB)
    requires OrdersKept(a, b) && OrdersKept(b, c)
    ensures OrdersKept(a, c)
  {
    forall id | id in a.orders ensures OrderKept(a, c, id) {
      assert OrderKept(a, b, id);
      if id in b.orders { assert OrderKept(b, c, id); }
    }
  }

  lemma EnteredOn(items: seq<Item>, a: DB, b: DB, id: OrderId, cmd: Command)
    requires OrderEntered(items, a.orders, a.orderRows, a.lines, id, cmd) && OrdersKept(a, b)
    ensures OrderEntered(items, b.orders, b.orderRows, b.lines, id, cmd)
  {
    assert OrderKept(a, b, id);
    forall i | 0 <= i < |cmd.items| ensures LineEntered(items, b.lines, LineId(id.w, id.d, id.o, i + 1), cmd.items[i]) {
      assert LineEntered(items, a.lines, LineId(id.w, id.d, id.o, i + 1), cmd.items[i]);
    }
  }

  /** Orders already told stay told. */
  lemma OrdersOn(origin: DB, cmds: seq<Command>, cmd: Command, a: DB, b: DB)
    requires OrdersTold(origin, cmds, a) && OrdersKept(origin, a) && OrdersKept(a, b)
    requires cmd.CNewOrder? ==> cmd.dk in origin.districts
                                && OrderEntered(origin.items, b.orders, b.orderRows, b.lines,
                                                OrderId(cmd.dk.w, cmd.dk.d, origin.districts[cmd.dk].d_next_o_id + OrdersIn(cmds, cmd.dk)), cmd)
    ensures OrdersTold(origin, cmds + [cmd], b) && OrdersKept(origin, b)
  {
    hide OrderEntered, OrderKept;
    KeptOn(origin, a, b);
    OneMore(cmds, cmd);
    hide OrdersKept;
    forall j: nat | j < |cmds + [cmd]| ensures OrderTold(origin, cmds + [cmd], b, j) {
      if j < |cmds| {
        assert OrderTold(origin, cmds, a, j);
        assert (cmds + [cmd])[j] == cmds[j];
        if cmds[j].CNewOrder? { EnteredOn(origin.items, a, b, NumberOf(origin, cmds, j), cmds[j]); }
      } else {
        assert (cmds + [cmd])[..j] == cmds;
      }
    }
  }

  // ---------------------------------------------------------------- payments

  lemma PaymentSums(origin: DB, cmds: seq<Command>, t: Tx, cmd: Command)
    requires SumsTold(origin, cmds, t.db) && cmd.CPayment? && Ready(t.db, cmd)
    ensures SumsTold(origin, cmds + [cmd], Do(t, cmd).db)
  {
    OneMore(cmds, cmd);
  }

  lemma RecordTold(a: Customer, b: Customer, paid: int, records: seq<string>, amount: int, record: string)
    requires CustomerTold(a, b, paid, records) && |record| <= MAX_DATA
    ensures CustomerTold(a, PayCustomer(b, amount, record), paid + amount, records + [record])
  {
    var rs := records + [record];
    assert rs[|rs| - 1] == record && rs[..|rs| - 1] == records;
    var all := NewestFirst(records, a.c_data);
    assert NewestFirst(rs, a.c_data) == record + all;
    if a.c_credit == BAD_CREDIT && |a.c_data| <= MAX_DATA {
      Pushed(record, all);
    }
  }

  /** Pushing a record in front of the first 500 characters gives the first 500 of the record and all. */
  lemma Pushed(record: string, all: string)
    requires |record| <= MAX_DATA
    ensures PushRecord(record, FirstOf(all, MAX_DATA)) == FirstOf(record + all, MAX_DATA)
  {
  }

  lemma PaidRecords(cmds: seq<Command>, cmd: Command, k: CustId)
    requires cmd.CPayment?
    ensures PaidBy(cmds + [cmd], k) == PaidBy(cmds, k) + if cmd.cust == k then cmd.amount else 0
    ensures RecordsBy(cmds + [cmd], k) == if cmd.cust == k then RecordsBy(cmds, k) + [cmd.record] else RecordsBy(cmds, k)
  {
    OneMore(cmds, cmd);
    assert RecordsBy(cmds, k) + [] == RecordsBy(cmds, k);
  }

  lemma PaymentChanges(t: Tx, cmd: Command)
    requires cmd.CPayment? && Ready(t.db, cmd)
    ensures |cmd.record| <= MAX_DATA && cmd.cust in t.db.customers
    ensures Do(t, cmd).db.customers == t.db.customers[cmd.cust := PayCustomer(t.db.customers[cmd.cust], cmd.amount, cmd.record)]
  {
  }

  lemma PaymentCustomers(origin: DB, cmds: seq<Command>, t: Tx, cmd: Command)
    requires CustomersTold(origin.customers, t.db.customers, cmds) && cmd.CPayment? && Ready(t.db, cmd)
    ensures CustomersTold(origin.customers, Do(t, cmd).db.customers, cmds + [cmd])
  {
    hide CustomerTold, PayCustomer, Do, Ready, PaidBy, RecordsBy;
    PaymentChanges(t, cmd);
    forall k | k in origin.customers
      ensures CustomerTold(origin.customers[k], Do(t, cmd).db.customers[k], PaidBy(cmds + [cmd], k), RecordsBy(cmds + [cmd], k))
    {
      PaidRecords(cmds, cmd, k);
      if k == cmd.cust {
        RecordTold(origin.customers[k], t.db.customers[k], PaidBy(cmds, k), RecordsBy(cmds, k), cmd.amount, cmd.record);
      }
    }
  }

  lemma HistoryPushed(origin: DB, ps: seq<Command>, history: seq<Ref>, rows: map<Ref, History>, p: Command, r: Ref, h: History)
    requires HistoryTold(origin, ps, history, rows) && r !in rows && IsRowOf(origin, p, h)
    ensures HistoryTold(origin, ps + [p], history + [r], rows[r := h])
  {
    hide IsRowOf;
    var n, ps', history', rows' := |origin.history|, ps + [p], history + [r], rows[r := h];
    assert history'[..n] == history[..n];
    forall j: nat | j < |ps'| ensures RowTold(origin, ps', history', rows', j) {
      if j < |ps| {
        assert RowTold(origin, ps, history, rows, j);
      }
    }
  }

  lemma PaymentRow(origin: DB, cmds: seq<Command>, t: Tx, cmd: Command)
    requires SumsTold(origin, cmds, t.db) && cmd.CPayment? && Ready(t.db, cmd)
    ensures var d, h := Do(t, cmd).db, HistoryFor(t.db.warehouses[cmd.dk.w], t.db.districts[cmd.dk], cmd.dk, cmd.cust, cmd.amount, cmd.now);
            && d.history == t.db.history + [t.db.nextRef] && d.historyRows == t.db.historyRows[t.db.nextRef := h]
            && IsRowOf(origin, cmd, h)
  {
  }

  lemma PaymentHistory(origin: DB, cmds: seq<Command>, t: Tx, cmd: Command)
    requires SumsTold(origin, cmds, t.db) && HistoryTold(origin, Payments(cmds), t.db.history, t.db.historyRows)
    requires cmd.CPayment? && Ready(t.db, cmd) && RefsBelow(t.db, t.db.nextRef)
    ensures HistoryTold(origin, Payments(cmds + [cmd]), Do(t, cmd).db.history, Do(t, cmd).db.historyRows)
  {
    hide SumsTold, HistoryTold, IsRowOf, Do, HistoryFor;
    OneMore(cmds, cmd);
    PaymentRow(origin, cmds, t, cmd);
    var h := HistoryFor(t.db.warehouses[cmd.dk.w], t.db.districts[cmd.dk], cmd.dk, cmd.cust, cmd.amount, cmd.now);
    HistoryPushed(origin, Payments(cmds), t.db.history, t.db.historyRows, cmd, t.db.nextRef, h);
  }

  lemma PaymentKept(t: Tx, cmd: Command)
    requires cmd.CPayment? && Ready(t.db, cmd)
    ensures OrdersKept(t.db, Do(t, cmd).db)
  {
  }

  lemma PaymentTold(origin: DB, cmds: seq<Command>, t: Tx, cmd: Command)
    requires Told(origin, cmds, t.db) && cmd.CPayment? && Ready(t.db, cmd) && RefsBelow(t.db, t.db.nextRef)
    ensures Told(origin, cmds + [cmd], Do(t, cmd).db)
  {
    hide SumsTold, CustomersTold, HistoryTold, OrdersTold, OrdersKept, Do, Ready, RefsBelow;
    PaymentSums(origin, cmds, t, cmd);
    PaymentCustomers(origin, cmds, t, cmd);
    PaymentHistory(origin, cmds, t, cmd);
    PaymentKept(t, cmd);
    OrdersOn(origin, cmds, cmd, t.db, Do(t, cmd).db);
  }

  // ---------------------------------------------------------------- commands that pay nothing

  lemma NoPayment(cmds: seq<Command>, cmd: Command)
    requires !cmd.CPayment?
    ensures Payments(cmds + [cmd]) == Payments(cmds)
    ensures forall w :: PaidAt(cmds + [cmd], w) == PaidAt(cmds, w)
    ensures forall k :: PaidInto(cmds + [cmd], k) == PaidInto(cmds, k)
    ensures forall k :: PaidBy(cmds + [cmd], k) == PaidBy(cmds, k)
    ensures forall k :: RecordsBy(cmds + [cmd], k) == RecordsBy(cmds, k)
  {
    OneMore(cmds, cmd);
  }

  lemma NoOrder(cmds: seq<Command>, cmd: Command)
    requires !cmd.CNewOrder?
    ensures forall k :: OrdersIn(cmds + [cmd], k) == OrdersIn(cmds, k)
  {
    OneMore(cmds, cmd);
  }

  // ---------------------------------------------------------------- deliveries

  lemma DeliveredKept(a: DB, b: DB, w: int, carrier: int, now: string)
    requires IndexAgreement(a) && a.newOrders <= a.orders.Keys && DeliveryDone(a, b, w, DISTRICTS, carrier, now)
    ensures OrdersKept(a, b)
  {
    hide Taken, TakenFor, CustomersCounted;
  }

  lemma DeliveredCustomers(origin: DB, cmds: seq<Command>, a: DB, b: DB, cmd: Command, w: int)
    requires !cmd.CPayment? && CustomersTold(origin.customers, a.customers, cmds)
    requires IndexAgreement(a) && a.newOrders <= a.orders.Keys && CustomersCounted(a, b, w, DISTRICTS)
    ensures CustomersTold(origin.customers, b.customers, cmds + [cmd])
  {
    hide TakenFor, IndexAgreement;
    NoPayment(cmds, cmd);
    forall k | k in origin.customers
      ensures CustomerTold(origin.customers[k], b.customers[k], PaidBy(cmds + [cmd], k), RecordsBy(cmds + [cmd], k))
    {
      assert CustomerTold(origin.customers[k], a.customers[k], PaidBy(cmds, k), RecordsBy(cmds, k));
    }
  }

  lemma DeliveredSums(origin: DB, cmds: seq<Command>, a: DB, b: DB, cmd: Command)
    requires cmd.CDelivery? && SumsTold(origin, cmds, a) && OnlyDelivered(a, b)
    ensures SumsTold(origin, cmds + [cmd], b)
  {
    NoPayment(cmds, cmd);
    NoOrder(cmds, cmd);
  }

  lemma DeliveryTold(origin: DB, cmds: seq<Command>, t: Tx, cmd: Command)
    requires Told(origin, cmds, t.db) && cmd.CDelivery? && Ready(t.db, cmd) && IndexAgreement(t.db) && Queue(t.db)
    ensures Told(origin, cmds + [cmd], Do(t, cmd).db)
  {
    hide SumsTold, CustomersTold, HistoryTold, OrdersTold, OrdersKept, IndexAgreement, OrdersCarried, LinesDated, CustomersCounted,
      DeliverySpec.AllReady, DeliverySpec.Delivery;
    var b := Do(t, cmd).db;
    DeliveryIs(t, cmd.w, cmd.carrier, cmd.now, DISTRICTS);
    DeliveredKept(t.db, b, cmd.w, cmd.carrier, cmd.now);
    DeliveredCustomers(origin, cmds, t.db, b, cmd, cmd.w);
    DeliveredSums(origin, cmds, t.db, b, cmd);
    NoPayment(cmds, cmd);
    OrdersOn(origin, cmds, cmd, t.db, b);
  }

  // ---------------------------------------------------------------- new orders

  lemma OrderTables(t: Tx, cmd: Command)
    requires cmd.CNewOrder? && Ready(t.db, cmd) && ItemsValid(t.db, cmd.items)
    ensures cmd.dk in t.db.districts
    ensures var db, d := Do(t, cmd).db, t.db.districts[cmd.dk];
            && db == t.db.(stock := db.stock, districts := t.db.districts[cmd.dk := d.(d_next_o_id := d.d_next_o_id + 1)],
                           orders := db.orders, ordersByCustomer := db.ordersByCustomer, orderRows := db.orderRows,
                           newOrders := db.newOrders, lines := db.lines, nextRef := db.nextRef)
  {
    hide ItemsValid, NewLines, RemotePart, AllLocal, RemoteWarehouses, Enumerates;
  }

  lemma OrderSums(origin: DB, cmds: seq<Command>, t: Tx, cmd: Command)
    requires SumsTold(origin, cmds, t.db) && cmd.CNewOrder? && Ready(t.db, cmd) && ItemsValid(t.db, cmd.items)
    ensures SumsTold(origin, cmds + [cmd], Do(t, cmd).db)
  {
    hide Do, Ready, ItemsValid, PaidAt, PaidInto;
    OrderTables(t, cmd);
    NoPayment(cmds, cmd);
    OneMore(cmds, cmd);
  }

  lemma OrderRest(origin: DB, cmds: seq<Command>, t: Tx, cmd: Command)
    requires CustomersTold(origin.customers, t.db.customers, cmds)
    requires HistoryTold(origin, Payments(cmds), t.db.history, t.db.historyRows)
    requires cmd.CNewOrder? && Ready(t.db, cmd) && ItemsValid(t.db, cmd.items)
    ensures CustomersTold(origin.customers, Do(t, cmd).db.customers, cmds + [cmd])
    ensures HistoryTold(origin, Payments(cmds + [cmd]), Do(t, cmd).db.history, Do(t, cmd).db.historyRows)
  {
    hide HistoryTold, CustomerTold, Do, Ready, ItemsValid, PaidBy, RecordsBy, Payments;
    OrderTables(t, cmd);
    NoPayment(cmds, cmd);
  }

  lemma OrderKeepsOthers(t: Tx, cmd: Command)
    requires cmd.CNewOrder? && Ready(t.db, cmd) && ItemsValid(t.db, cmd.items)
    requires OrderIsNew(t.db, cmd.dk, cmd.c) && RefsBelow(t.db, t.db.nextRef)
    ensures OrdersKept(t.db, Do(t, cmd).db)
  {
    hide ItemsValid;
  }

  lemma OrderRows(t: Tx, cmd: Command)
    requires cmd.CNewOrder? && Ready(t.db, cmd) && ItemsValid(t.db, cmd.items)
    ensures var id, db := OrderId(cmd.dk.w, cmd.dk.d, t.db.districts[cmd.dk].d_next_o_id), Do(t, cmd).db;
            && db.orders == t.db.orders[id := t.db.nextRef]
            && db.orderRows == t.db.orderRows[t.db.nextRef := OrderFor(id, cmd.c, cmd.items, cmd.now)]
            && db.lines == t.db.lines + NewLines(t.db, id, cmd.items, |cmd.items|)
  {
    hide ItemsValid, NewLines, RemotePart, AllLocal, RemoteWarehouses, Enumerates;
  }

  lemma LinesGoIn(db: DB, id: OrderId, items: seq<NewOrderItem>, i: nat)
    requires ItemsValid(db, items) && i < |items|
    ensures LineEntered(db.items, db.lines + NewLines(db, id, items, |items|), LineId(id.w, id.d, id.o, i + 1), items[i])
  {
    assert LineId(id.w, id.d, id.o, i + 1) in NewLines(db, id, items, |items|);
  }

  lemma OrderGoesIn(t: Tx, cmd: Command)
    requires cmd.CNewOrder? && Ready(t.db, cmd) && ItemsValid(t.db, cmd.items)
    ensures var db := Do(t, cmd).db;
            OrderEntered(t.db.items, db.orders, db.orderRows, db.lines,
                         OrderId(cmd.dk.w, cmd.dk.d, t.db.districts[cmd.dk].d_next_o_id), cmd)
  {
    hide Do, Enumerates, RemoteWarehouses, NewLines, LineEntered, ItemsValid;
    OrderRows(t, cmd);
    var id, db := OrderId(cmd.dk.w, cmd.dk.d, t.db.districts[cmd.dk].d_next_o_id), Do(t, cmd).db;
    forall i | 0 <= i < |cmd.items|
      ensures LineEntered(t.db.items, db.lines, LineId(id.w, id.d, id.o, i + 1), cmd.items[i])
    {
      LinesGoIn(t.db, id, cmd.items, i);
    }
  }

  lemma NewOrderTold(origin: DB, cmds: seq<Command>, t: Tx, cmd: Command)
    requires Told(origin, cmds, t.db) && cmd.CNewOrder? && Ready(t.db, cmd) && ItemsValid(t.db, cmd.items)
    requires OrderIsNew(t.db, cmd.dk, cmd.c) && RefsBelow(t.db, t.db.nextRef)
    ensures Told(origin, cmds + [cmd], Do(t, cmd).db)
  {
    hide CustomersTold, HistoryTold, OrdersTold, OrdersKept, OrderEntered, Do, OrderIsNew, RefsBelow, ItemsValid;
    OrderSums(origin, cmds, t, cmd);
    OrderRest(origin, cmds, t, cmd);
    OrderKeepsOthers(t, cmd);
    OrderGoesIn(t, cmd);
    OrdersOn(origin, cmds, cmd, t.db, Do(t, cmd).db);
  }

  /** Every command that is not refused tells on. */
  lemma DoTold(origin: DB, cmds: seq<Command>, t: Tx, cmd: Command, load: Load)
    requires Told(origin, cmds, t.db) && Consistent(t.db, load) && Ready(t.db, cmd) && !Refused(t.db, cmd)
    ensures Told(origin, cmds + [cmd], Do(t, cmd).db)
  {
    hide Told, Do, ItemsValid, RefsBelow, Population, IndexAgreement, Dense, Queue, OrdersSound, LinesSound, EveryoneOrdered,
      BalancesRight, YtdRight, StockRight, OrderIsNew;
    match cmd
    case CNewOrder(dk, c, items, now, ws) =>
      NextIsNew(t.db, dk, c);
      NewOrderTold(origin, cmds, t, cmd);
    case CPayment(dk, cust, amount, now, record) => PaymentTold(origin, cmds, t, cmd);
    case CDelivery(w, carrier, now) => DeliveryTold(origin, cmds, t, cmd);
  }
}
