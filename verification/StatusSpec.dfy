/** What order status shows, and which customer a last name stands for (tpcctables.cc:118-158, 717-761). */
module StatusSpec {
  import opened Rows
  import opened Consistency
  import opened NameIndex
  import Orders = OrderStore
  import CustomerNames
  import StockLevel

  datatype LineInfo = LineInfo(ol_i_id: int, ol_supply_w_id: int, ol_quantity: int, ol_amount: int, ol_delivery_d: string)

  datatype OrderStatusOutput = OrderStatusOutput(c_id: int, c_balance: int, c_first: string, c_last: string, o_id: int,
                                                 o_carrier_id: int, o_entry_d: string, lines: seq<LineInfo>)

  function InfoOf(l: OrderLine): LineInfo {
    LineInfo(l.ol_i_id, l.ol_supply_w_id, l.ol_quantity, l.ol_amount, l.ol_delivery_d)
  }

  /** `info` shows the line: item, supplier, quantity, amount and date. */
  ghost predicate ShowsLine(db: DB, l: LineId, info: LineInfo) {
    && l in db.lines && info.ol_i_id == db.lines[l].ol_i_id && info.ol_supply_w_id == db.lines[l].ol_supply_w_id
    && info.ol_quantity == db.lines[l].ol_quantity && info.ol_amount == db.lines[l].ol_amount
    && info.ol_delivery_d == db.lines[l].ol_delivery_d
  }

  /** `out` shows customer `k`, its order with the largest number, and all lines of that order. */
  ghost predicate ShowsLastOrder(db: DB, k: CustId, out: OrderStatusOutput)
    requires k in db.customers
  {
    var j, c := CustOrderId(k.w, k.d, k.c, out.o_id), db.customers[k];
    && out.c_id == c.c_id && out.c_balance == c.c_balance && out.c_first == c.c_first && out.c_last == c.c_last
    && Orders.IsLastOrder(db.ordersByCustomer, k, j) && db.ordersByCustomer[j] in db.orderRows
    && var o := db.orderRows[db.ordersByCustomer[j]];
       && out.o_carrier_id == o.o_carrier_id && out.o_entry_d == o.o_entry_d && |out.lines| == o.o_ol_cnt
       && forall i | 0 <= i < |out.lines| ::
            ShowsLine(db, LineId(k.w, k.d, out.o_id, i + 1), out.lines[i])
  }

  function Infos(lines: seq<OrderLine>): (r: seq<LineInfo>)
    ensures |r| == |lines| && forall i | 0 <= i < |lines| :: r[i] == InfoOf(lines[i])
  {
    seq(|lines|, i requires 0 <= i < |lines| => InfoOf(lines[i]))
  }

  lemma StatusShown(db: DB, k: CustId, r: Ref, lines: seq<OrderLine>, out: OrderStatusOutput)
    requires k in db.customers && r in db.orderRows && StockLevel.AreLinesOf(db, r, lines)
    requires var j := CustOrderIdOf(db.orderRows[r]);
             Orders.IsLastOrder(db.ordersByCustomer, k, j) && db.ordersByCustomer[j] == r
    requires var c, o := db.customers[k], db.orderRows[r];
             out == OrderStatusOutput(c.c_id, c.c_balance, c.c_first, c.c_last, o.o_id, o.o_carrier_id, o.o_entry_d,
                                      Infos(lines))
    ensures ShowsLastOrder(db, k, out)
  {
    var o := db.orderRows[r];
    assert CustOrderIdOf(o) == CustOrderId(k.w, k.d, k.c, o.o_id) && OrderIdOf(o) == OrderId(k.w, k.d, o.o_id);
    assert out.lines == Infos(lines) && out.o_id == o.o_id;
    forall i | 0 <= i < |out.lines| ensures ShowsLine(db, LineId(k.w, k.d, out.o_id, i + 1), out.lines[i]) {
      var line := lines[i];
    }
  }

  /** `k` is the middle one of the customers of that name. */
  ghost predicate IsMiddle(rows: seq<Customer>, w: int, d: int, last: string, k: CustId) {
    exists lo: nat, n: nat :: CustomerNames.IsGroup(rows, w, d, last, lo, n) && n > 0 && k == IdOf(rows[lo + (n - 1) / 2])
  }

  /** The search finds somebody whenever a customer has that name: the index stands for every customer. */
  lemma SomeoneListed(names: seq<CustId>, customers: map<CustId, Customer>, k: CustId, w: int, d: int,
                      last: string) returns (i: nat)
    requires Lists(names, customers, customers.Keys) && k in customers && CustomerNames.Matches(customers[k], w, d, last)
    ensures i < |names| && CustomerNames.Matches(Listing(names, customers)[i], w, d, last)
  {
    hide CustomerNames.Ordered;
    i := Standing(names, customers, customers.Keys, k);
  }

  /** And the group that it takes the middle of has the four fields of every such customer. */
  lemma GroupComplete(names: seq<CustId>, customers: map<CustId, Customer>, k: CustId, w: int, d: int,
                      last: string, lo: nat, n: nat) returns (i: nat)
    requires Lists(names, customers, customers.Keys) && k in customers && CustomerNames.Matches(customers[k], w, d, last)
    requires CustomerNames.IsGroup(Listing(names, customers), w, d, last, lo, n)
    ensures lo <= i < lo + n && CustomerNames.KeyOf(Listing(names, customers)[i]) == CustomerNames.KeyOf(customers[k])
  {
    hide CustomerNames.Ordered;
    i := Standing(names, customers, customers.Keys, k);
    assert CustomerNames.Matches(Listing(names, customers)[i], w, d, last);
  }
}
