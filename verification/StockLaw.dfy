/** What the counters of a stock row mean (tpcctables.cc:323-335): they are sums over the order lines, whichever
    transactions made them and in whatever parts. */
module StockLaw {
  import opened Rows
  import opened Sequences
  import opened NewOrderSpec
  import opened NewOrderSplit
  import opened UndoSpec

  /** The line is supplied from this row. */
  predicate Supplies(k: StockId, line: OrderLine) {
    line.ol_supply_w_id == k.w && line.ol_i_id == k.i
  }

  /** The quantities of the lines that a row supplies, of orders numbered past `c`. */
  function Ordered(lines: map<LineId, OrderLine>, k: StockId, c: int): map<LineId, int> {
    map l | l in lines && l.o > c && Supplies(k, lines[l]) :: lines[l].ol_quantity
  }

  /** Those of them that are for orders of other warehouses. */
  function OrderedRemotely(lines: map<LineId, OrderLine>, k: StockId, c: int): set<LineId> {
    set l | l in lines && l.o > c && Supplies(k, lines[l]) && l.w != k.w
  }

  /** s_ytd is the quantity that has been ordered, s_order_cnt the number of lines, and s_remote_cnt the
      number of lines of other warehouses' orders. */
  ghost predicate RowCounted(s: Stock, lines: map<LineId, OrderLine>, k: StockId, c: int) {
    && s.s_ytd == Total(Ordered(lines, k, c)) && s.s_order_cnt == |Ordered(lines, k, c)|
    && s.s_remote_cnt == |OrderedRemotely(lines, k, c)|
  }

  ghost predicate StockCounted(stock: map<StockId, Stock>, lines: map<LineId, OrderLine>, c: int) {
    forall k | k in stock :: RowCounted(stock[k], lines, k, c)
  }

  /** Without lines past `c` nothing has been ordered. */
  lemma NothingOrdered(s: Stock, lines: map<LineId, OrderLine>, k: StockId, c: int)
    requires s.s_ytd == s.s_order_cnt == s.s_remote_cnt == 0 && forall l | l in lines :: l.o <= c
    ensures RowCounted(s, lines, k, c)
  {
    assert Ordered(lines, k, c) == map[] && OrderedRemotely(lines, k, c) == {};
  }

  lemma OrderedMore(lines: map<LineId, OrderLine>, k: StockId, c: int, l: LineId, line: OrderLine)
    requires l !in lines && l.o > c
    ensures Ordered(lines[l := line], k, c) ==
            if Supplies(k, line) then Ordered(lines, k, c)[l := line.ol_quantity] else Ordered(lines, k, c)
    ensures l !in Ordered(lines, k, c)
  {
    var a, b := Ordered(lines, k, c), Ordered(lines[l := line], k, c);
    forall j ensures j in b <==> j in a || (j == l && Supplies(k, line)) {
    }
  }

  lemma RemotelyMore(lines: map<LineId, OrderLine>, k: StockId, c: int, l: LineId, line: OrderLine)
    requires l !in lines && l.o > c
    ensures OrderedRemotely(lines[l := line], k, c) ==
            OrderedRemotely(lines, k, c) + if Supplies(k, line) && l.w != k.w then {l} else {}
    ensures l !in OrderedRemotely(lines, k, c)
  {
  }

  /** One more line counts for the row that supplies it, and for no other. */
  lemma OneLineMore(s: Stock, s': Stock, lines: map<LineId, OrderLine>, k: StockId, c: int, l: LineId, line: OrderLine)
    requires RowCounted(s, lines, k, c) && l !in lines && l.o > c
    requires if Supplies(k, line)
             then s'.s_ytd == s.s_ytd + line.ol_quantity && s'.s_order_cnt == s.s_order_cnt + 1
                  && s'.s_remote_cnt == s.s_remote_cnt + if l.w != k.w then 1 else 0
             else s' == s
    ensures RowCounted(s', lines[l := line], k, c)
  {
    hide Ordered, OrderedRemotely, Supplies, Total;
    OrderedMore(lines, k, c, l, line);
    RemotelyMore(lines, k, c, l, line);
    TotalWith(Ordered(lines, k, c), l, line.ol_quantity);
  }

  lemma NoLinesYet(db: DB, id: OrderId, items: seq<NewOrderItem>)
    requires ItemsValid(db, items)
    ensures db.lines + NewLines(db, id, items, 0) == db.lines
  {
  }

  /** A row after the first `n` items of an order, against the lines 1 to `n` of that order. */
  lemma {:induction false} OrderCounts(row: Stock, db: DB, id: OrderId, items: seq<NewOrderItem>, k: StockId, c: int, n: nat)
    requires n <= |items| && ItemsValid(db, items) && RowCounted(row, db.lines, k, c) && id.o > c
    requires forall l | l in db.lines :: OrderOfLine(l) != id
    ensures RowCounted(RowAfter(row, k, id.w, items, n), db.lines + NewLines(db, id, items, n), k, c)
  {
    hide RowCounted, Amount, NewLines;
    if n == 0 {
      NoLinesYet(db, id, items);
    } else {
      OrderCounts(row, db, id, items, k, c, n - 1);
      var it := items[n - 1];
      var l, line := LineId(id.w, id.d, id.o, n), OrderLine(id.o, id.d, id.w, n, it.i_id, it.ol_supply_w_id, it.ol_quantity, Amount(db, it), "");
      var before := db.lines + NewLines(db, id, items, n - 1);
      LinesStep(db, id, items, n - 1);
      OneLineMore(RowAfter(row, k, id.w, items, n - 1), RowAfter(row, k, id.w, items, n), before, k, c, l, line);
    }
  }

  lemma NewOrderLines(t: Tx, dk: DistId, c: int, items: seq<NewOrderItem>, now: string, ws: seq<int>)
    requires NewOrderReady(t.db, dk, c, items) && ItemsValid(t.db, items) && Enumerates(ws, RemoteWarehouses(dk.w, items))
    ensures var id, db := OrderId(dk.w, dk.d, t.db.districts[dk].d_next_o_id), NewOrder(t, dk, c, items, now, ws).db;
            && db.lines == t.db.lines + NewLines(t.db, id, items, |items|) && db.stock.Keys == t.db.stock.Keys
            && forall k | k in t.db.stock :: db.stock[k] == RowAfter(t.db.stock[k], k, dk.w, items, |items|)
  {
    hide NewLines, RowAfter, WholePass;
    var e := EnterOrder(t, dk, c, items, now);
    StockAgrees(e, dk.w, items, ws);
    WholePassRows(t.db.stock, dk.w, items, |items|);
  }

  /** A new order counts for the rows that supply it. */
  lemma NewOrderCounted(t: Tx, dk: DistId, cust: int, items: seq<NewOrderItem>, now: string, ws: seq<int>, c: int)
    requires NewOrderReady(t.db, dk, cust, items) && ItemsValid(t.db, items) && Enumerates(ws, RemoteWarehouses(dk.w, items))
    requires StockCounted(t.db.stock, t.db.lines, c) && t.db.districts[dk].d_next_o_id > c && OrderIsNew(t.db, dk, cust)
    ensures var db := NewOrder(t, dk, cust, items, now, ws).db; StockCounted(db.stock, db.lines, c)
  {
    hide RowCounted, RowAfter, NewLines, NewOrder, ItemsValid;
    var id, db := OrderId(dk.w, dk.d, t.db.districts[dk].d_next_o_id), NewOrder(t, dk, cust, items, now, ws).db;
    NewOrderLines(t, dk, cust, items, now, ws);
    forall k | k in db.stock ensures RowCounted(db.stock[k], db.lines, k, c) {
      assert RowCounted(t.db.stock[k], t.db.lines, k, c);
      OrderCounts(t.db.stock[k], t.db, id, items, k, c, |items|);
    }
  }

  /** Dates of lines do not count. */
  lemma DatesDoNotCount(stock: map<StockId, Stock>, a: map<LineId, OrderLine>, b: map<LineId, OrderLine>, c: int)
    requires StockCounted(stock, a, c) && a.Keys == b.Keys
    requires forall l | l in a :: b[l] == a[l].(ol_delivery_d := b[l].ol_delivery_d)
    ensures StockCounted(stock, b, c)
  {
    hide Ordered, OrderedRemotely, Total;
    forall k | k in stock ensures RowCounted(stock[k], b, k, c) {
      assert RowCounted(stock[k], a, k, c);
      SameOrdered(a, b, k, c);
    }
  }

  lemma SameOrdered(a: map<LineId, OrderLine>, b: map<LineId, OrderLine>, k: StockId, c: int)
    requires a.Keys == b.Keys && forall l | l in a :: b[l] == a[l].(ol_delivery_d := b[l].ol_delivery_d)
    ensures Ordered(b, k, c) == Ordered(a, k, c) && OrderedRemotely(b, k, c) == OrderedRemotely(a, k, c)
  {
    forall l | l in a ensures Supplies(k, b[l]) <==> Supplies(k, a[l]) {
    }
  }
}
