/** The tables as an object: rows are inserted, changed and erased in place (tpcctables.cc, tpcctables.h).
    Every method is proved against the functions of the transaction modules. */
module Tables {
  import opened Sequences
  import opened Rows
  import opened NewOrderSpec
  import opened NewOrderSplit
  import opened PaymentSpec
  import opened DeliverySpec
  import opened UndoSpec
  import opened UndoBuffer
  import opened Keys
  import opened Consistency

  // ---------------------------------------------------------------- output structures

  datatype ItemInfo = ItemInfo(s_quantity: int, i_price: int, ol_amount: int)

  const INVALID_ITEM_STATUS := "Item number is not valid"

  class NewOrderOutput {
    var wTax: int
    var dTax: int
    var oId: int
    var cDiscount: int
    var total: int
    var items: seq<ItemInfo>
    var cLast: string
    var cCredit: string
    var status: string

    constructor ()
      ensures items == []
    {
      wTax, dTax, oId, cDiscount, total, items, cLast, cCredit, status := 0, 0, 0, 0, 0, [], "", "", "";
    }

    function Quantities(): (q: seq<int>)
      reads this
    {
      QuantitiesOf(items)
    }

    /** tpcctables.cc:277-281. */
    method Enter(i: nat, price: int, amount: int)
      requires i < |items|
      modifies this`items, this`total
      ensures items == old(items)[i := ItemInfo(old(items)[i].s_quantity, price, amount)]
      ensures total == old(total) + amount
    {
      items := items[i := items[i].(i_price := price, ol_amount := amount)];
      total := total + amount;
    }

    /** newOrderCombine (tpccdb.cc:102-111). */
    method Combine(remote: seq<int>)
      requires CanCombine(remote, Quantities())
      modifies this`items
      ensures items == Filled(old(items), NewOrderSpec.Combine(remote, old(Quantities())))
    {
      var i := 0;
      ghost var was := items;
      while i < |remote|
        invariant i <= |remote| == |items| == |was|
        invariant forall j | 0 <= j < |items| ::
                    items[j] == if j < i && remote[j] != INVALID_QUANTITY then was[j].(s_quantity := remote[j]) else was[j]
      {
        if remote[i] != INVALID_QUANTITY {
          assert Quantities()[i] == was[i].s_quantity == 0;
          items := items[i := items[i].(s_quantity := remote[i])];
        }
        i := i + 1;
      }
    }
  }

  /** The same lines with these quantities. */
  function Filled(infos: seq<ItemInfo>, q: seq<int>): (r: seq<ItemInfo>)
    requires |infos| == |q|
    ensures |r| == |infos|
  {
    seq(|infos|, i requires 0 <= i < |infos| => infos[i].(s_quantity := q[i]))
  }

  /** The customer's part of the payment output. */
  datatype CustomerInfo = CustomerInfo(credit_lim: int, discount: int, balance: int, first: string, last: string,
                                       credit: string, data: string)

  const NOBODY := CustomerInfo(0, 0, 0, "", "", "", "")

  /** The output shows the customer. */
  predicate ShowsCustomer(info: CustomerInfo, c: Customer) {
    && info.credit_lim == c.c_credit_lim && info.discount == c.c_discount && info.balance == c.c_balance
    && info.first == c.c_first && info.last == c.c_last && info.credit == c.c_credit && info.data == c.c_data
  }

  class PaymentOutput {
    var customer: CustomerInfo

    /** tpcctables.cc:488-501. */
    method Show(c: Customer)
      modifies this
      ensures ShowsCustomer(customer, c)
    {
      customer := CustomerInfo(c.c_credit_lim, c.c_discount, c.c_balance, c.c_first, c.c_last, c.c_credit, c.c_data);
    }

    /** paymentCombine (tpccdb.cc:135-147). */
    method Combine(remote: PaymentOutput)
      modifies this
      ensures customer == old(remote.customer)
    {
      customer := remote.customer;
    }
  }

  /** The other newOrderCombine (tpccdb.cc:113-122), on a vector that still holds markers. */
  method CombineInto(remote: seq<int>, output: array<int>)
    requires |remote| == output.Length
    requires forall i | 0 <= i < output.Length && remote[i] != INVALID_QUANTITY :: output[i] == INVALID_QUANTITY
    modifies output
    ensures output[..] == Combine(remote, old(output[..]))
  {
    var i := 0;
    while i < |remote|
      invariant i <= |remote|
      invariant forall j | 0 <= j < output.Length ::
                  output[j] == if j < i && remote[j] != INVALID_QUANTITY then remote[j] else old(output[j])
    {
      if remote[i] != INVALID_QUANTITY {
        output[i] := remote[i];
      }
      i := i + 1;
    }
  }

  /** newOrderRemoteWarehouses (tpccdb.cc:91-100). */
  method NewOrderRemoteWarehouses(home: int, items: seq<NewOrderItem>) returns (out: set<int>)
    ensures out == RemoteWarehouses(home, items)
  {
    out := {};
    var i := 0;
    while i < |items|
      invariant i <= |items| && out == RemoteWarehouses(home, items[..i])
    {
      assert items[..i + 1] == items[..i] + [items[i]];
      WarehousesAppend(home, items[..i], items[i]);
      if items[i].ol_supply_w_id != home {
        out := out + {items[i].ol_supply_w_id};
      }
      i := i + 1;
    }
    assert items[..i] == items;
  }

  lemma WarehousesAppend(home: int, items: seq<NewOrderItem>, it: NewOrderItem)
    ensures RemoteWarehouses(home, items + [it]) ==
            RemoteWarehouses(home, items) + if it.ol_supply_w_id != home then {it.ol_supply_w_id} else {}
  {
    var all := items + [it];
    forall w ensures w in RemoteWarehouses(home, all) <==>
                     w in RemoteWarehouses(home, items) || (it.ol_supply_w_id != home && w == it.ol_supply_w_id) {
      if w in RemoteWarehouses(home, items) {
        var i :| 0 <= i < |items| && items[i].ol_supply_w_id == w;
        assert all[i].ol_supply_w_id == w;
      }
      assert all[|items|] == it;
    }
  }

  ghost function UndoOf(u: TPCCUndo?): Undo
    reads u
  {
    if u == null then EMPTY_UNDO else u.View()
  }

  // ---------------------------------------------------------------- steps of the transactions, on values

  /** What the output shows of the items after the first `n`. */
  function Infos(db: DB, its: seq<NewOrderItem>, n: nat): (r: seq<ItemInfo>)
    requires ItemsValid(db, its)
    ensures |r| == |its|
  {
    seq(|its|, i requires 0 <= i < |its| =>
      if i < n then ItemInfo(0, db.items[its[i].i_id - 1].i_price, Amount(db, its[i])) else ItemInfo(0, 0, 0))
  }

  lemma {:induction false} NoLines(db: DB, id: OrderId, its: seq<NewOrderItem>)
    requires ItemsValid(db, its)
    ensures NewLines(db, id, its, 0) == map[] && TotalAmount(db, its, 0) == 0
    ensures Infos(db, its, 0) == seq(|its|, _ => ItemInfo(0, 0, 0))
  {
  }

  lemma InfosStep(db: DB, its: seq<NewOrderItem>, i: nat)
    requires ItemsValid(db, its) && i < |its|
    ensures Amount(db, its[i]) == its[i].ol_quantity * db.items[its[i].i_id - 1].i_price
    ensures TotalAmount(db, its, i + 1) == TotalAmount(db, its, i) + Amount(db, its[i])
    ensures Infos(db, its, i + 1) ==
            Infos(db, its, i)[i := ItemInfo(0, db.items[its[i].i_id - 1].i_price, Amount(db, its[i]))]
    ensures Infos(db, its, i)[i].s_quantity == 0
  {
  }

  /** Lines and amounts depend on the database for the prices only. */
  lemma {:induction false} SameLines(a: DB, b: DB, id: OrderId, its: seq<NewOrderItem>, n: nat)
    requires a.items == b.items && ItemsValid(a, its) && n <= |its|
    ensures NewLines(a, id, its, n) == NewLines(b, id, its, n)
  {
    if n > 0 {
      SameLines(a, b, id, its, n - 1);
      assert LineFor(a, id, its[n - 1], n) == LineFor(b, id, its[n - 1], n);
    }
  }

  lemma {:induction false} SameTotal(a: DB, b: DB, its: seq<NewOrderItem>, n: nat)
    requires a.items == b.items && ItemsValid(a, its) && n <= |its|
    ensures TotalAmount(a, its, n) == TotalAmount(b, its, n) && Infos(a, its, n) == Infos(b, its, n)
  {
    if n > 0 {
      SameTotal(a, b, its, n - 1);
    }
  }

  lemma EnterKeeps(t: Tx, dk: DistId, c: int, its: seq<NewOrderItem>, now: string)
    requires dk in t.db.districts && ItemsValid(t.db, its)
    ensures var db := EnterOrder(t, dk, c, its, now).db; db.stock == t.db.stock && db.items == t.db.items
  {
  }

  /** What has been saved before does not matter to the stock rows. */
  lemma {:induction false} PassIgnoresSaved(stock: map<StockId, Stock>, a: map<StockId, Stock>, b: map<StockId, Stock>,
                                            home: int, remote: int, its: seq<NewOrderItem>, n: nat)
    requires StockPresent(stock, its) && n <= |its|
    ensures var p, q := RemotePass(stock, a, home, remote, its, n), RemotePass(stock, b, home, remote, its, n);
            p.stock == q.stock && p.out == q.out
  {
    if n > 0 {
      PassIgnoresSaved(stock, a, b, home, remote, its, n - 1);
    }
  }

  lemma {:induction false} NoParts(s: Tx, home: int, its: seq<NewOrderItem>, out: seq<int>)
    requires StockPresent(s.db.stock, its) && |out| == |its|
    ensures RemoteParts(s, home, [], its) == s && RemoteOuts(s, home, [], its, out) == out
  {
  }

  function QuantitiesOf(infos: seq<ItemInfo>): (q: seq<int>)
    ensures |q| == |infos|
  {
    seq(|infos|, i requires 0 <= i < |infos| => infos[i].s_quantity)
  }

  lemma FreshInfos(db: DB, its: seq<NewOrderItem>)
    requires ItemsValid(db, its)
    ensures QuantitiesOf(Infos(db, its, |its|)) == Zeros(|its|)
  {
  }

  lemma FilledTwice(infos: seq<ItemInfo>, a: seq<int>, b: seq<int>)
    requires |infos| == |a| == |b|
    ensures QuantitiesOf(Filled(infos, a)) == a && Filled(Filled(infos, a), b) == Filled(infos, b)
  {
  }

  /** The parts of the warehouses in `all` have been done, the home part among them. */
  ghost predicate NewOrderDone(t: Tx, dk: DistId, c: int, its: seq<NewOrderItem>, now: string, all: seq<int>,
                               db: DB, u: Undo, track: bool, infos: seq<ItemInfo>, total: int)
  {
    && dk in t.db.districts && ItemsValid(t.db, its) && StockPresent(t.db.stock, its)
    && var s := EnterOrder(t, dk, c, its, now);
       && db == RemoteParts(s, dk.w, all, its).db && (track ==> u == RemoteParts(s, dk.w, all, its).undo)
       && total == TotalAmount(t.db, its, |its|)
       && infos == Filled(Infos(t.db, its, |its|), RemoteOuts(s, dk.w, all, its, Zeros(|its|)))
  }

  function ShownAmounts(infos: seq<ItemInfo>): int {
    if infos == [] then 0 else ShownAmounts(infos[..|infos| - 1]) + infos[|infos| - 1].ol_amount
  }

  /** The output shows the price of every item and what the quantity ordered costs, and the sum of that. */
  predicate ShowsPrices(items: seq<Item>, its: seq<NewOrderItem>, infos: seq<ItemInfo>, total: int) {
    && |infos| == |its| && total == ShownAmounts(infos)
    && forall i | 0 <= i < |its| ::
         && 1 <= its[i].i_id <= |items| && infos[i].i_price == items[its[i].i_id - 1].i_price
         && infos[i].ol_amount == its[i].ol_quantity * items[its[i].i_id - 1].i_price
  }

  lemma {:induction false} AmountsAdd(db: DB, its: seq<NewOrderItem>, infos: seq<ItemInfo>, n: nat)
    requires ItemsValid(db, its) && n <= |its| == |infos|
    requires forall i | 0 <= i < |its| :: infos[i].ol_amount == Amount(db, its[i])
    ensures ShownAmounts(infos[..n]) == TotalAmount(db, its, n)
  {
    if n > 0 {
      AmountsAdd(db, its, infos, n - 1);
      assert infos[..n][..n - 1] == infos[..n - 1];
    }
  }

  lemma {:induction false} TotalIsLines(db: DB, lines: map<LineId, OrderLine>, id: OrderId, its: seq<NewOrderItem>, n: nat)
    requires ItemsValid(db, its) && n <= |its|
    ensures LineTotal(lines + NewLines(db, id, its, |its|), id, n) == TotalAmount(db, its, n)
  {
    if n > 0 {
      TotalIsLines(db, lines, id, its, n - 1);
      assert LineId(id.w, id.d, id.o, n) in NewLines(db, id, its, |its|);
    }
  }

  /** Prices and amounts are shown as they are, and the total is what the delivery of the order will charge. */
  lemma DoneShows(t: Tx, dk: DistId, c: int, its: seq<NewOrderItem>, now: string, all: seq<int>,
                  db: DB, u: Undo, track: bool, infos: seq<ItemInfo>, total: int)
    requires NewOrderDone(t, dk, c, its, now, all, db, u, track, infos, total)
    ensures ShowsPrices(t.db.items, its, infos, total)
    ensures dk in t.db.districts && total == LineTotal(db.lines, OrderId(dk.w, dk.d, t.db.districts[dk].d_next_o_id), |its|)
  {
    hide RemoteParts, RemoteOuts, NewLines, LineTotal, ShownAmounts, TotalAmount;
    TotalIsLines(t.db, t.db.lines, OrderId(dk.w, dk.d, t.db.districts[dk].d_next_o_id), its, |its|);
    AmountsAdd(t.db, its, infos, |its|);
    assert infos[..|its|] == infos;
  }

  lemma NextEnumerated(home: int, ws: seq<int>, its: seq<NewOrderItem>, todo: set<int>, w: int)
    requires var all := RemoteWarehouses(home, its); todo <= all && Enumerates(ws, all - todo) && w in todo
    ensures Enumerates(ws + [w], RemoteWarehouses(home, its) - (todo - {w}))
    ensures var done := [home] + ws; w !in done && forall i, j | 0 <= i < j < |done| :: done[i] != done[j]
  {
    var done := [home] + ws;
    assert forall i | 0 <= i < |ws| :: ws[i] in ws;
    forall i, j | 0 <= i < j < |done| ensures done[i] != done[j] {
      if i == 0 { assert done[j] in ws; }
    }
  }

  /** One more remote part may begin ... */
  lemma PartReady(t: Tx, dk: DistId, c: int, its: seq<NewOrderItem>, now: string, ws: seq<int>, w: int,
                  b: Tx, track: bool, infos: seq<ItemInfo>, total: int)
    requires NewOrderDone(t, dk, c, its, now, [dk.w] + ws, b.db, b.undo, track, infos, total)
    requires var done := [dk.w] + ws; w !in done && forall i, j | 0 <= i < j < |done| :: done[i] != done[j]
    ensures ItemsValid(b.db, its) && StockPresent(b.db.stock, its) && forall i | 0 <= i < |its| :: 1 <= its[i].i_id
    ensures CanCombine(RemoteOut(b, dk.w, w, its), QuantitiesOf(infos))
  {
    var s, done := EnterOrder(t, dk, c, its, now), [dk.w] + ws;
    StillReady(t, dk, c, its, now, done);
    PassIgnoresSaved(b.db.stock, RemoteParts(s, dk.w, done, its).undo.stock, b.undo.stock, dk.w, w, its, |its|);
    CombinesOnce(s, dk.w, done, w, its);
    var out := RemoteOuts(s, dk.w, done, its, Zeros(|its|));
    FilledTwice(Infos(t.db, its, |its|), out, out);
    hide EnterOrder, RemoteParts, RemoteOuts, RemotePass, Infos, TotalAmount, Filled, Zeros, CanCombine;
  }

  /** ... and has then been done. */
  lemma PartAdded(t: Tx, dk: DistId, c: int, its: seq<NewOrderItem>, now: string, ws: seq<int>, w: int,
                  b: Tx, track: bool, infos: seq<ItemInfo>, total: int, u: Undo)
    requires NewOrderDone(t, dk, c, its, now, [dk.w] + ws, b.db, b.undo, track, infos, total)
    requires StockPresent(b.db.stock, its) && (track ==> u == RemotePart(b, dk.w, w, its).undo)
    ensures NewOrderDone(t, dk, c, its, now, [dk.w] + (ws + [w]), RemotePart(b, dk.w, w, its).db, u, track,
                         Filled(infos, Combine(RemoteOut(b, dk.w, w, its), QuantitiesOf(infos))), total)
  {
    hide EnterOrder, RemoteParts, RemoteOuts, RemotePass, Infos, TotalAmount, Filled, Zeros, Combine, QuantitiesOf;
    var s, done := EnterOrder(t, dk, c, its, now), [dk.w] + ws;
    StillReady(t, dk, c, its, now, done);
    var p, zeros := RemoteParts(s, dk.w, done, its), Zeros(|its|);
    PassIgnoresSaved(b.db.stock, p.undo.stock, b.undo.stock, dk.w, w, its, |its|);
    AddPart(s, dk.w, done, w, its, zeros);
    FilledTwice(Infos(t.db, its, |its|), RemoteOuts(s, dk.w, done, its, zeros), RemoteOuts(s, dk.w, done + [w], its, zeros));
    assert [dk.w] + (ws + [w]) == done + [w];
  }

  lemma {:induction false} StillReady(t: Tx, dk: DistId, c: int, its: seq<NewOrderItem>, now: string, all: seq<int>)
    requires dk in t.db.districts && ItemsValid(t.db, its) && StockPresent(t.db.stock, its)
    ensures var db := RemoteParts(EnterOrder(t, dk, c, its, now), dk.w, all, its).db;
            ItemsValid(db, its) && StockPresent(db.stock, its) && forall i | 0 <= i < |its| :: 1 <= its[i].i_id
  {
  }

  /** The orders that delivery reports, of districts up to `n`: those that have left the queue, by district. */
  ghost predicate IsReport(delivered: seq<OrderId>, before: set<OrderId>, now: set<OrderId>, n: int) {
    && (forall id :: id in delivered <==> id in before && id !in now)
    && (forall i | 0 <= i < |delivered| :: delivered[i].d <= n)
    && forall i, j | 0 <= i < j < |delivered| :: delivered[i].d < delivered[j].d
  }

  /** Nothing that the header is about to insert or to record is there. */
  lemma HeaderFree(t: Tx, dk: DistId, c: int)
    requires dk in t.db.districts && OrderIsNew(t.db, dk, c) && t.db.newOrders <= t.db.orders.Keys && UndoFits(t)
    ensures var n := t.db.districts[dk].d_next_o_id;
            var id := OrderId(dk.w, dk.d, n);
            && id !in t.db.orders && id !in t.db.newOrders && CustOrderId(dk.w, dk.d, c, n) !in t.db.ordersByCustomer
            && id !in t.undo.insertedNewOrders && t.db.nextRef !in t.undo.insertedOrders
  {
  }

  /** What entering an order does before its lines. */
  lemma HeaderIs(t: Tx, dk: DistId, c: int, its: seq<NewOrderItem>, now: string)
    requires dk in t.db.districts && ItemsValid(t.db, its)
    ensures var d, r, e := t.db.districts[dk], t.db.nextRef, EnterOrder(t, dk, c, its, now);
            var id := OrderId(dk.w, dk.d, d.d_next_o_id);
            var o := Order(id.o, c, id.d, id.w, NULL_CARRIER_ID, |its|, AllLocal(dk.w, its), now);
            && e.db.(lines := t.db.lines) ==
               t.db.(districts := t.db.districts[dk := d.(d_next_o_id := d.d_next_o_id + 1)],
                     orders := t.db.orders[id := r], ordersByCustomer := t.db.ordersByCustomer[CustOrderIdOf(o) := r],
                     orderRows := t.db.orderRows[r := o], newOrders := t.db.newOrders + {id}, nextRef := r + 1)
            && e.undo.(insertedLines := t.undo.insertedLines) ==
               t.undo.(districts := SaveIn(t.undo.districts, dk, d), insertedOrders := t.undo.insertedOrders + {r},
                       insertedNewOrders := t.undo.insertedNewOrders + {id})
  {
    hide NewLines, ItemsValid, AllLocal, SaveIn;
  }

  lemma HistoryFree(t: Tx)
    requires UndoFits(t)
    ensures t.db.nextRef !in t.undo.insertedHistory
  {
  }

  lemma NothingReported(s: set<OrderId>)
    ensures IsReport([], s, s, 0)
  {
  }

  lemma ReportSame(delivered: seq<OrderId>, before: set<OrderId>, now: set<OrderId>, n: int)
    requires IsReport(delivered, before, now, n - 1)
    ensures IsReport(delivered, before, now, n)
  {
  }

  lemma ReportNext(delivered: seq<OrderId>, before: set<OrderId>, now: set<OrderId>, n: int, id: OrderId)
    requires id in before && id !in now && id.d == n && now <= before && IsReport(delivered, before, now + {id}, n - 1)
    ensures IsReport(delivered + [id], before, now, n)
  {
  }

  lemma {:induction false} NothingDelivered(t: Tx, w: int, carrier: int, now: string)
    requires AllReady(t.db)
    ensures DeliverySpec.Delivery(t, w, carrier, now, 0) == t
  {
  }

  /** One more district; what the buffer held before does not matter to the tables. */
  lemma DeliveryStep(t: Tx, db: DB, u: Undo, w: int, carrier: int, now: string, d: nat)
    requires d > 0 && AllReady(t.db) && db == DeliverySpec.Delivery(t, w, carrier, now, d - 1).db
    ensures var s, s' := DeliverySpec.Delivery(t, w, carrier, now, d - 1), DeliverySpec.Delivery(t, w, carrier, now, d);
            match Lowest(db.newOrders, DistId(w, d))
            case None => s' == s
            case Some(id) => OrderReady(db, id) && s' == DeliverOrder(s, id, carrier, now)
                             && s'.db == DeliverOrder(Tx(db, u), id, carrier, now).db
  {
    hide DeliverOrder, AllReady, OrderReady, IsLowest;
    var s, low := DeliverySpec.Delivery(t, w, carrier, now, d - 1), Lowest(db.newOrders, DistId(w, d));
    if low.Some? {
      LowestReady(db, DistId(w, d));
      UndoIgnored(s, Tx(db, u), low.value, carrier, now);
    }
  }

  lemma LowestReady(db: DB, dk: DistId)
    requires AllReady(db) && Lowest(db.newOrders, dk).Some?
    ensures OrderReady(db, Lowest(db.newOrders, dk).value)
  {
  }

  lemma UndoIgnored(a: Tx, b: Tx, id: OrderId, carrier: int, now: string)
    requires a.db == b.db && OrderReady(a.db, id)
    ensures DeliverOrder(a, id, carrier, now).db == DeliverOrder(b, id, carrier, now).db
  {
  }

  lemma {:induction false} NoneDated(lines: map<LineId, OrderLine>, saved: map<LineId, OrderLine>, id: OrderId, now: string)
    ensures Dated(lines, id, now, 0) == lines && SavedLines(saved, lines, id, 0) == saved && LineTotal(lines, id, 0) == 0
  {
  }

  lemma {:induction false} NegativeCount(lines: map<LineId, OrderLine>, saved: map<LineId, OrderLine>, id: OrderId, now: string, n: int)
    requires n < 0
    ensures Dated(lines, id, now, n) == lines && SavedLines(saved, lines, id, n) == saved && LineTotal(lines, id, n) == 0
  {
  }

  lemma DatedStep(lines: map<LineId, OrderLine>, saved: map<LineId, OrderLine>, id: OrderId, now: string, i: int)
    requires i >= 1 && LinesPresent(lines, id, i)
    ensures var l := LineId(id.w, id.d, id.o, i);
            && l in lines && Dated(lines, id, now, i - 1)[l] == lines[l]
            && Dated(lines, id, now, i) == Dated(lines, id, now, i - 1)[l := lines[l].(ol_delivery_d := now)]
            && SavedLines(saved, lines, id, i) == SaveIn(SavedLines(saved, lines, id, i - 1), l, lines[l])
            && LineTotal(lines, id, i) == LineTotal(lines, id, i - 1) + lines[l].ol_amount
  {
    var l := LineId(id.w, id.d, id.o, i);
    assert OrderOfLine(l) == id;
    SavedStep(lines, saved, id, i);
    hide SavedLines, LinesPresent;
    assert Dated(lines, id, now, i) == Dated(lines, id, now, i - 1)[l := lines[l].(ol_delivery_d := now)];
  }

  lemma SavedStep(lines: map<LineId, OrderLine>, saved: map<LineId, OrderLine>, id: OrderId, i: int)
    requires i >= 1 && LineId(id.w, id.d, id.o, i) in lines
    ensures var l := LineId(id.w, id.d, id.o, i);
            SavedLines(saved, lines, id, i) == SaveIn(SavedLines(saved, lines, id, i - 1), l, lines[l])
  {
  }

  /** The last element takes the place of element `i`. */
  function SwapOut<T>(s: seq<T>, i: nat): seq<T>
    requires i < |s|
  {
    s[i := s[|s| - 1]][..|s| - 1]
  }

  ghost predicate IsLastAt<T>(s: seq<T>, x: T, i: nat) {
    i < |s| && s[i] == x && forall j | i < j < |s| :: s[j] != x
  }

  /** The last |rs| elements are the elements of `rs`. */
  ghost predicate IsTail(s: seq<Ref>, rs: set<Ref>) {
    |rs| <= |s| && forall r :: r in rs <==> r in s[|s| - |rs|..]
  }

  lemma {:induction false} TailOnce(s: seq<Ref>, rs: set<Ref>)
    requires |s| == |rs| && forall r :: r in rs <==> r in s
    ensures multiset(s) == multiset(rs)
  {
    if s != [] {
      var n := |s| - 1;
      var r, front := s[n], s[..n];
      assert s == front + [r];
      if r in front {
        ElementsAtMost(front, rs);
        assert false;
      } else {
        TailOnce(front, rs - {r});
        assert multiset(rs) == multiset(rs - {r}) + multiset{r};
      }
    }
  }

  lemma {:induction false} ElementsAtMost(s: seq<Ref>, rs: set<Ref>)
    requires forall r | r in rs :: r in s
    ensures |rs| <= |s|
  {
    if s == [] {
      if rs != {} {
        var r := Member(rs);
        assert false;
      }
    } else {
      var n := |s| - 1;
      assert s == s[..n] + [s[n]];
      ElementsAtMost(s[..n], rs - {s[n]});
    }
  }

  lemma OneLess<T, V>(rows: map<T, V>, all: set<T>, todo: set<T>, rest: seq<T>, r: T)
    requires r in todo && todo <= all && multiset(rest) == multiset(todo)
    ensures r in rest && multiset(rest) - multiset{r} == multiset(todo - {r})
    ensures rows - (all - todo) - {r} == rows - (all - (todo - {r}))
  {
    assert r in multiset(rest);
  }

  lemma SwapInTail<T>(base: seq<T>, rest: seq<T>, r: T, i: nat) returns (rest': seq<T>)
    requires r in rest && IsLastAt(base + rest, r, i)
    ensures SwapOut(base + rest, i) == base + rest' && multiset(rest') == multiset(rest) - multiset{r}
  {
    var k :| 0 <= k < |rest| && rest[k] == r;
    assert (base + rest)[|base| + k] == r;
    assert i >= |base| + k;
    rest' := SwapOut(rest, i - |base|);
    SwapOutLoses(rest, i - |base|);
    assert rest[i - |base|] == r;
  }

  lemma SwapOutLoses<T>(s: seq<T>, i: nat)
    requires i < |s|
    ensures multiset(SwapOut(s, i)) == multiset(s) - multiset{s[i]}
  {
    var n := |s| - 1;
    var last, t := s[n], s[i := s[n]];
    assert t == t[..n] + [last];
    var a, b := multiset(t[..n]), multiset(s) - multiset{s[i]};
    assert a + multiset{last} == multiset(t) == b + multiset{last};
    forall x ensures a[x] == b[x] {
      assert (a + multiset{last})[x] == (b + multiset{last})[x];
    }
  }

  lemma {:induction false} PassStart(stock: map<StockId, Stock>, saved: map<StockId, Stock>, home: int, remote: int,
                                     its: seq<NewOrderItem>)
    ensures StockPresent(stock, its) ==> RemotePass(stock, saved, home, remote, its, 0) == Pass(stock, saved, [])
  {
  }

  lemma PassStep(stock: map<StockId, Stock>, saved: map<StockId, Stock>, home: int, remote: int,
                 its: seq<NewOrderItem>, i: nat)
    requires StockPresent(stock, its) && i < |its|
    ensures var p, q, k := RemotePass(stock, saved, home, remote, its, i), RemotePass(stock, saved, home, remote, its, i + 1),
                           StockIdOf(its[i]);
            if its[i].ol_supply_w_id != remote then q == Pass(p.stock, p.saved, p.out + [INVALID_QUANTITY])
            else
              && k in p.stock
              && var row := StockStep(p.stock[k], its[i].ol_quantity, remote != home);
                 q == Pass(p.stock[k := row], SaveIn(p.saved, k, p.stock[k]), p.out + [row.s_quantity])
  {
  }

  lemma NothingErased(db: DB)
    ensures db == db.(orderRows := db.orderRows - {}, orders := Without(db.orders, {}),
                      ordersByCustomer := Without(db.ordersByCustomer, {}))
  {
    assert db.orderRows - {} == db.orderRows && Without(db.orders, {}) == db.orders;
    assert Without(db.ordersByCustomer, {}) == db.ordersByCustomer;
  }

  lemma OneOrderLess(db: DB, done: set<Ref>, r: Ref)
    ensures db.orderRows - done - {r} == db.orderRows - (done + {r})
    ensures Without(Without(db.orders, done), {r}) == Without(db.orders, done + {r})
    ensures Without(Without(db.ordersByCustomer, done), {r}) == Without(db.ordersByCustomer, done + {r})
  {
    WithoutTwice(db.orders, done, r);
    WithoutTwice(db.ordersByCustomer, done, r);
  }

  lemma WithoutTwice<K>(m: map<K, Ref>, rs: set<Ref>, r: Ref)
    ensures Without(Without(m, rs), {r}) == Without(m, rs + {r})
  {
  }

  /** Every saved row is still there. */
  ghost predicate SavedPresent(t: Tx) {
    && t.undo.warehouses.Keys <= t.db.warehouses.Keys && t.undo.districts.Keys <= t.db.districts.Keys
    && t.undo.customers.Keys <= t.db.customers.Keys && t.undo.stock.Keys <= t.db.stock.Keys
    && t.undo.orders.Keys <= t.db.orderRows.Keys && t.undo.lines.Keys <= t.db.lines.Keys
  }

  lemma AllPresent(t: Tx)
    requires SavedPresent(t)
    ensures t.undo.warehouses.Keys <= t.db.warehouses.Keys && t.undo.districts.Keys <= t.db.districts.Keys
    ensures t.undo.customers.Keys <= t.db.customers.Keys && t.undo.stock.Keys <= t.db.stock.Keys
    ensures t.undo.orders.Keys <= t.db.orderRows.Keys && t.undo.lines.Keys <= t.db.lines.Keys
  {
  }

  /** What applyUndo relies on: the rows that the buffer names are there, the indexes agree, and the
      history rows to erase are the newest. */
  ghost predicate CanApply(t: Tx) {
    && SavedPresent(t) && IndexAgreement(t.db) && SameIds(t.undo.orders, t.db.orderRows)
    && t.undo.insertedOrders <= t.db.orderRows.Keys && t.undo.insertedLines <= t.db.lines.Keys
    && NewOrdersUndoable(t) && IsTail(t.db.history, t.undo.insertedHistory)
  }

  lemma RestoredIds(saved: map<Ref, Order>, now: map<Ref, Order>)
    requires SameIds(saved, now)
    ensures SameIds(now + saved, now)
  {
  }

  /** restoreFromMap (tpcctables.cc:572-578), in whatever order the map is iterated. */
  method RestoreFromMap<K(==), V>(table: map<K, V>, saved: map<K, V>) returns (r: map<K, V>)
    requires saved.Keys <= table.Keys
    ensures r == table + saved
  {
    r := table;
    var todo := saved.Keys;
    while todo != {}
      invariant todo <= saved.Keys && r.Keys == table.Keys
      invariant forall k | k in table :: r[k] == if k in saved && k !in todo then saved[k] else table[k]
      decreases |todo|
    {
      var k :| k in todo;
      r := r[k := saved[k]];
      todo := todo - {k};
    }
  }

  /** One more part. */
  lemma {:induction false} AddPart(s: Tx, home: int, ws: seq<int>, w: int, its: seq<NewOrderItem>, out: seq<int>)
    requires StockPresent(s.db.stock, its) && |out| == |its|
    ensures RemoteParts(s, home, ws + [w], its) == RemotePart(RemoteParts(s, home, ws, its), home, w, its)
    ensures RemoteOuts(s, home, ws + [w], its, out) ==
            Combine(RemoteOut(RemoteParts(s, home, ws, its), home, w, its), RemoteOuts(s, home, ws, its, out))
  {
    assert (ws + [w])[..|ws + [w]| - 1] == ws;
  }

  /** The order total that the client is shown. */
  function TotalAmount(db: DB, its: seq<NewOrderItem>, n: nat): int
    requires ItemsValid(db, its) && n <= |its|
  {
    if n == 0 then 0 else TotalAmount(db, its, n - 1) + Amount(db, its[n - 1])
  }

  // ---------------------------------------------------------------- the tables

  class TPCCTables {
    var items: seq<Item>
    var warehouses: map<int, Warehouse>
    var districts: map<DistId, District>
    var customers: map<CustId, Customer>
    var stock: map<StockId, Stock>
    var orders: map<OrderId, Ref>
    var ordersByCustomer: map<CustOrderId, Ref>
    var orderRows: map<Ref, Order>
    var orderLines: map<LineId, OrderLine>
    var newOrders: set<OrderId>
    var history: seq<Ref>
    var historyRows: map<Ref, History>
    var nextRef: Ref

    function View(): DB
      reads this
    {
      DB(items, warehouses, districts, customers, stock, orders, ordersByCustomer, orderRows, orderLines,
         newOrders, history, historyRows, nextRef)
    }

    constructor ()
      ensures View() == EMPTY_DB
    {
      items, warehouses, districts, customers, stock, orders, ordersByCustomer, orderRows, orderLines :=
        [], map[], map[], map[], map[], map[], map[], map[], map[];
      newOrders, history, historyRows, nextRef := {}, [], map[], 1;
    }

    // -------------------------------------------------------------- loading

    method InsertItem(item: Item)
      requires item.i_id == |items| + 1
      modifies this
      ensures View() == old(View()).(items := old(items) + [item])
    {
      items := items + [item];
    }

    method InsertWarehouse(w: Warehouse)
      requires w.w_id !in warehouses
      modifies this
      ensures View() == old(View()).(warehouses := old(warehouses)[w.w_id := w])
    {
      warehouses := warehouses[w.w_id := w];
    }

    method InsertStock(s: Stock)
      requires StockId(s.s_w_id, s.s_i_id) !in stock
      modifies this
      ensures View() == old(View()).(stock := old(stock)[StockId(s.s_w_id, s.s_i_id) := s])
    {
      stock := stock[StockId(s.s_w_id, s.s_i_id) := s];
    }

    method InsertDistrict(d: District)
      requires DistId(d.d_w_id, d.d_id) !in districts
      modifies this
      ensures View() == old(View()).(districts := old(districts)[DistId(d.d_w_id, d.d_id) := d])
    {
      districts := districts[DistId(d.d_w_id, d.d_id) := d];
    }

    method InsertCustomer(c: Customer)
      requires CustId(c.c_w_id, c.c_d_id, c.c_id) !in customers
      modifies this
      ensures View() == old(View()).(customers := old(customers)[CustId(c.c_w_id, c.c_d_id, c.c_id) := c])
    {
      customers := customers[CustId(c.c_w_id, c.c_d_id, c.c_id) := c];
    }

    method InsertOrder(o: Order) returns (r: Ref)
      requires OrderIdOf(o) !in orders && CustOrderIdOf(o) !in ordersByCustomer
      modifies this
      ensures r == old(nextRef)
      ensures View() == old(View()).(orders := old(orders)[OrderIdOf(o) := r],
                                     ordersByCustomer := old(ordersByCustomer)[CustOrderIdOf(o) := r],
                                     orderRows := old(orderRows)[r := o], nextRef := r + 1)
    {
      r := nextRef;
      orderRows, nextRef := orderRows[r := o], r + 1;
      orders := orders[OrderIdOf(o) := r];
      ordersByCustomer := ordersByCustomer[CustOrderIdOf(o) := r];
    }

    method InsertOrderLine(line: OrderLine)
      requires LineIdOf(line) !in orderLines
      modifies this
      ensures View() == old(View()).(lines := old(orderLines)[LineIdOf(line) := line])
    {
      orderLines := orderLines[LineIdOf(line) := line];
    }

    method InsertNewOrder(id: OrderId)
      requires id !in newOrders
      modifies this
      ensures View() == old(View()).(newOrders := old(newOrders) + {id})
    {
      newOrders := newOrders + {id};
    }

    method InsertHistory(h: History) returns (r: Ref)
      modifies this
      ensures r == old(nextRef)
      ensures View() == old(View()).(history := old(history) + [r], historyRows := old(historyRows)[r := h], nextRef := r + 1)
    {
      r := nextRef;
      historyRows, nextRef := historyRows[r := h], r + 1;
      history := history + [r];
    }

    // -------------------------------------------------------------- new order

    /** tpcctables.h:119-123. */
    method AllocateUndo(track: bool, u: TPCCUndo?) returns (u': TPCCUndo?)
      requires !track ==> u == null
      ensures u' == null <==> !track
      ensures u != null ==> u' == u
      ensures u == null && track ==> fresh(u')
      ensures UndoOf(u') == UndoOf(u)
    {
      u' := u;
      if track && u == null {
        u' := new TPCCUndo();
      }
    }

    method FindAndValidateItems(its: seq<NewOrderItem>) returns (ok: bool, tuples: seq<Item>)
      requires forall i | 0 <= i < |its| :: 1 <= its[i].i_id
      ensures ok <==> ItemsValid(View(), its)
      ensures ok <==> forall i | 0 <= i < |its| :: its[i].i_id <= |items|
      ensures ok ==> |tuples| == |its| && forall i | 0 <= i < |its| :: tuples[i] == items[its[i].i_id - 1]
    {
      tuples := [];
      var i := 0;
      while i < |its|
        invariant i <= |its| && |tuples| == i
        invariant forall j | 0 <= j < i :: its[j].i_id <= |items| && tuples[j] == items[its[j].i_id - 1]
      {
        if its[i].i_id - 1 >= |items| {
          return false, [];
        }
        tuples := tuples + [items[its[i].i_id - 1]];
        i := i + 1;
      }
      ok := true;
    }

    /** tpcctables.cc:319-335: one item's stock row. */
    method TakeStock(k: StockId, q: int, remote: bool, u: TPCCUndo?) returns (quantity: int)
      requires k in stock
      modifies this, u
      ensures View() == old(View()).(stock := old(stock)[k := StockStep(old(stock)[k], q, remote)])
      ensures quantity == stock[k].s_quantity
      ensures u != null ==> u.View() == old(u.View()).(stock := SaveIn(old(u.modifiedStock), k, old(stock)[k]))
    {
      var s := stock[k];
      if u != null {
        u.SaveStock(k, s);
      }
      if s.s_quantity >= q + 10 {
        s := s.(s_quantity := s.s_quantity - q);
      } else {
        s := s.(s_quantity := s.s_quantity - q + 91);
      }
      quantity := s.s_quantity;
      s := s.(s_ytd := s.s_ytd + q, s_order_cnt := s.s_order_cnt + 1);
      if remote {
        s := s.(s_remote_cnt := s.s_remote_cnt + 1);
      }
      stock := stock[k := s];
    }

    /** tpcctables.cc:298-339. */
    method NewOrderRemote(home: int, remote: int, its: seq<NewOrderItem>, track: bool, u: TPCCUndo?)
      returns (ok: bool, quantities: seq<int>, u': TPCCUndo?)
      requires !track ==> u == null
      requires forall i | 0 <= i < |its| :: 1 <= its[i].i_id
      requires ItemsValid(View(), its) ==> StockPresent(stock, its)
      modifies this, u
      ensures ok <==> old(ItemsValid(View(), its))
      ensures !ok ==> View() == old(View()) && u' == u && UndoOf(u) == old(UndoOf(u))
      ensures ok ==>
                var t := Tx(old(View()), old(UndoOf(u)));
                && View() == RemotePart(t, home, remote, its).db && quantities == RemoteOut(t, home, remote, its)
                && (u' == null <==> !track) && (u != null ==> u' == u) && (u == null && track ==> fresh(u'))
                && (track ==> UndoOf(u') == RemotePart(t, home, remote, its).undo)
    {
      hide StockStep, RemotePass, ItemsValid;
      PassStart(stock, UndoOf(u).stock, home, remote, its);
      ghost var t := Tx(View(), UndoOf(u));
      var tuples;
      ok, tuples := FindAndValidateItems(its);
      if !ok {
        return false, [], u;
      }
      u' := AllocateUndo(track, u);
      quantities := [];
      var i := 0;
      while i < |its|
        invariant i <= |its|
        invariant var p := RemotePass(t.db.stock, t.undo.stock, home, remote, its, i);
                  && View() == t.db.(stock := p.stock) && quantities == p.out
                  && (u' != null ==> u'.View() == t.undo.(stock := p.saved))
      {
        var it := its[i];
        PassStep(t.db.stock, t.undo.stock, home, remote, its, i);
        if it.ol_supply_w_id != remote {
          quantities := quantities + [INVALID_QUANTITY];
        } else {
          var quantity := TakeStock(StockIdOf(it), it.ol_quantity, remote != home, u');
          quantities := quantities + [quantity];
        }
        i := i + 1;
      }
    }

    /** tpcctables.cc:205-213. */
    method CheckLocal(w: int, its: seq<NewOrderItem>) returns (allLocal: bool)
      ensures allLocal <==> AllLocal(w, its)
    {
      allLocal := true;
      var i := 0;
      while i < |its|
        invariant i <= |its| && forall j | 0 <= j < i :: its[j].ol_supply_w_id == w
      {
        if its[i].ol_supply_w_id != w {
          return false;
        }
        i := i + 1;
      }
    }

    method TakeNumber(dk: DistId, u: TPCCUndo?) returns (id: OrderId)
      requires dk in districts
      modifies this, u
      ensures id == OrderId(dk.w, dk.d, old(districts[dk].d_next_o_id))
      ensures var d := old(districts[dk]);
              && View() == old(View()).(districts := old(districts)[dk := d.(d_next_o_id := d.d_next_o_id + 1)])
              && (u != null ==> u.View() == old(u.View()).(districts := SaveIn(old(u.modifiedDistricts), dk, d)))
    {
      var d := districts[dk];
      if u != null {
        u.SaveDistrict(dk, d);
      }
      districts := districts[dk := d.(d_next_o_id := d.d_next_o_id + 1)];
      id := OrderId(dk.w, dk.d, d.d_next_o_id);
    }

    /** tpcctables.cc:219-243: the next order number is taken; the order and its NEW-ORDER row go in. */
    method EnterHeader(dk: DistId, c: int, its: seq<NewOrderItem>, now: string, u: TPCCUndo?)
      requires dk in districts && ItemsValid(View(), its)
      requires OrderIsNew(View(), dk, c) && newOrders <= orders.Keys && UndoFits(Tx(View(), UndoOf(u)))
      modifies this, u
      ensures var t := Tx(old(View()), old(UndoOf(u)));
              && View() == EnterOrder(t, dk, c, its, now).db.(lines := t.db.lines)
              && (u != null ==> u.View() == EnterOrder(t, dk, c, its, now).undo.(insertedLines := t.undo.insertedLines))
    {
      hide NewLines, AllLocal, ItemsValid, OrderIsNew, UndoFits, SaveIn, EnterOrder, OrderFor;
      ghost var t := Tx(View(), UndoOf(u));
      HeaderFree(t, dk, c);
      HeaderIs(t, dk, c, its, now);
      var allLocal := CheckLocal(dk.w, its);
      var id := TakeNumber(dk, u);
      EnterOrderRows(Order(id.o, c, id.d, id.w, NULL_CARRIER_ID, |its|, allLocal, now), u);
    }

    /** tpcctables.cc:238-243. */
    method EnterOrderRows(o: Order, u: TPCCUndo?)
      requires OrderIdOf(o) !in orders && CustOrderIdOf(o) !in ordersByCustomer && OrderIdOf(o) !in newOrders
      requires u != null ==> nextRef !in u.insertedOrders && OrderIdOf(o) !in u.insertedNewOrders
      modifies this, u
      ensures var id, r := OrderIdOf(o), old(nextRef);
              && View() == old(View()).(orders := old(orders)[id := r], orderRows := old(orderRows)[r := o], nextRef := r + 1,
                                        ordersByCustomer := old(ordersByCustomer)[CustOrderIdOf(o) := r],
                                        newOrders := old(newOrders) + {id})
              && (u != null ==> u.View() == old(u.View()).(insertedOrders := old(u.insertedOrders) + {r},
                                                           insertedNewOrders := old(u.insertedNewOrders) + {id}))
    {
      var r := InsertOrder(o);
      InsertNewOrder(OrderIdOf(o));
      if u != null {
        u.InsertedOrder(r);
        u.InsertedNewOrder(OrderIdOf(o));
      }
    }

    /** The first `i` lines have gone into the tables `db` and, if there is one, the buffer `undo`. */
    ghost predicate LinesEntered(db: DB, undo: Undo, id: OrderId, its: seq<NewOrderItem>, i: nat, output: NewOrderOutput, u: TPCCUndo?)
      requires ItemsValid(db, its) && i <= |its|
      reads this, output, u
    {
      && View() == db.(lines := db.lines + NewLines(db, id, its, i))
      && output.total == TotalAmount(db, its, i) && output.items == Infos(db, its, i)
      && (u != null ==> u.View() == undo.(insertedLines := undo.insertedLines + NewLines(db, id, its, i).Keys))
    }

    /** tpcctables.cc:245-286. */
    method EnterLines(id: OrderId, its: seq<NewOrderItem>, tuples: seq<Item>, output: NewOrderOutput, u: TPCCUndo?)
      requires ItemsValid(View(), its) && (forall l | l in orderLines :: OrderOfLine(l) != id)
      requires |tuples| == |its| && forall i | 0 <= i < |its| :: tuples[i] == items[its[i].i_id - 1]
      requires UndoOf(u).insertedLines <= orderLines.Keys && output.items == []
      modifies this, u, output`items, output`total
      ensures LinesEntered(old(View()), old(UndoOf(u)), id, its, |its|, output, u)
    {
      hide NewLines, TotalAmount, Infos, ItemsValid, OrderOfLine;
      ghost var db, undo := View(), UndoOf(u);
      NoLines(db, id, its);
      output.items := seq(|its|, _ => ItemInfo(0, 0, 0));
      output.total := 0;
      assert LinesEntered(db, undo, id, its, 0, output, u);
      EnterItems(db, undo, id, its, tuples, output, u);
    }

    /** The loop over the items. */
    method EnterItems(ghost db: DB, ghost undo: Undo, id: OrderId, its: seq<NewOrderItem>, tuples: seq<Item>,
                      output: NewOrderOutput, u: TPCCUndo?)
      requires ItemsValid(db, its) && (forall l | l in db.lines :: OrderOfLine(l) != id)
      requires |tuples| == |its| && forall i | 0 <= i < |its| :: tuples[i] == db.items[its[i].i_id - 1]
      requires undo.insertedLines <= db.lines.Keys && LinesEntered(db, undo, id, its, 0, output, u)
      modifies this, u, output`items, output`total
      ensures LinesEntered(db, undo, id, its, |its|, output, u)
    {
      hide *;
      var i := 0;
      while i < |its|
        invariant i <= |its| && LinesEntered(db, undo, id, its, i, output, u)
      {
        EnterItem(db, undo, id, its, i, tuples[i], output, u);
        i := i + 1;
      }
    }

    /** The loop body at tpcctables.cc:254-285. */
    method EnterItem(ghost db: DB, ghost undo: Undo, id: OrderId, its: seq<NewOrderItem>, i: nat, tuple: Item,
                     output: NewOrderOutput, u: TPCCUndo?)
      requires ItemsValid(db, its) && i < |its| && tuple == db.items[its[i].i_id - 1]
      requires (forall l | l in db.lines :: OrderOfLine(l) != id) && undo.insertedLines <= db.lines.Keys
      requires LinesEntered(db, undo, id, its, i, output, u)
      modifies this, u, output`items, output`total
      ensures LinesEntered(db, undo, id, its, i + 1, output, u)
    {
      hide NewLines, TotalAmount, Infos, ItemsValid, LineFor, OrderOfLine, Amount;
      LinesStep(db, id, its, i);
      InfosStep(db, its, i);
      var it := its[i];
      var amount := it.ol_quantity * tuple.i_price;
      output.Enter(i, tuple.i_price, amount);
      EnterOneLine(OrderLine(id.o, id.d, id.w, i + 1, it.i_id, it.ol_supply_w_id, it.ol_quantity, amount, ""), u);
    }

    method EnterOneLine(line: OrderLine, u: TPCCUndo?)
      requires LineIdOf(line) !in orderLines && (u != null ==> LineIdOf(line) !in u.insertedOrderLines)
      modifies this, u
      ensures View() == old(View()).(lines := old(orderLines)[LineIdOf(line) := line])
      ensures u != null ==> u.View() == old(u.View()).(insertedLines := old(u.insertedOrderLines) + {LineIdOf(line)})
    {
      InsertOrderLine(line);
      if u != null {
        u.InsertedOrderLine(LineIdOf(line));
      }
    }

    /** tpcctables.cc:181-296. */
    method NewOrderHome(dk: DistId, c: int, its: seq<NewOrderItem>, now: string, output: NewOrderOutput,
                        track: bool, u: TPCCUndo?)
      returns (ok: bool, u': TPCCUndo?)
      requires (!track ==> u == null) && output.items == []
      requires NewOrderReady(View(), dk, c, its) && OrderIsNew(View(), dk, c) && newOrders <= orders.Keys
      requires UndoFits(Tx(View(), UndoOf(u)))
      modifies this, u, output
      ensures output.oId == old(districts[dk].d_next_o_id) && output.dTax == old(districts[dk].d_tax)
      ensures ok ==> output.wTax == old(warehouses[dk.w].w_tax)
      ensures var cust := old(customers[CustId(dk.w, dk.d, c)]);
              output.cLast == cust.c_last && output.cCredit == cust.c_credit && output.cDiscount == cust.c_discount
      ensures ok <==> old(ItemsValid(View(), its))
      ensures !ok ==> View() == old(View()) && u' == u && UndoOf(u) == old(UndoOf(u)) && output.status == INVALID_ITEM_STATUS
      ensures ok ==>
                && NewOrderDone(Tx(old(View()), old(UndoOf(u))), dk, c, its, now, [dk.w], View(), UndoOf(u'), track, output.items, output.total)
                && (u' == null <==> !track) && (u != null ==> u' == u) && (u == null && track ==> fresh(u'))
                && output.status == ""
    {
      hide OrderIsNew, UndoFits, ItemsValid, NewOrderReady, NewOrderDone;
      ReadHeader(dk, c, its, output);
      var tuples;
      ok, tuples := FindAndValidateItems(its);
      if !ok {
        output.status := INVALID_ITEM_STATUS;
        return false, u;
      }
      u' := AllocateUndo(track, u);
      ghost var t := Tx(View(), UndoOf(u'));
      HomeCommit(dk, c, its, tuples, now, output, track, u');
    }

    /** tpcctables.cc:187-196. */
    method ReadHeader(dk: DistId, c: int, its: seq<NewOrderItem>, output: NewOrderOutput)
      requires NewOrderReady(View(), dk, c, its)
      modifies output`dTax, output`oId, output`cLast, output`cCredit, output`cDiscount
      ensures output.oId == districts[dk].d_next_o_id && output.dTax == districts[dk].d_tax
      ensures var cust := customers[CustId(dk.w, dk.d, c)];
              output.cLast == cust.c_last && output.cCredit == cust.c_credit && output.cDiscount == cust.c_discount
      ensures forall i | 0 <= i < |its| :: 1 <= its[i].i_id
    {
      var d, cust := districts[dk], customers[CustId(dk.w, dk.d, c)];
      output.dTax, output.oId := d.d_tax, d.d_next_o_id;
      output.cLast, output.cCredit, output.cDiscount := cust.c_last, cust.c_credit, cust.c_discount;
    }

    /** tpcctables.cc:215-293: nothing can fail from here on. */
    method HomeCommit(dk: DistId, c: int, its: seq<NewOrderItem>, tuples: seq<Item>, now: string, output: NewOrderOutput,
                      track: bool, u: TPCCUndo?)
      requires (u == null <==> !track) && output.items == []
      requires NewOrderReady(View(), dk, c, its) && ItemsValid(View(), its)
      requires OrderIsNew(View(), dk, c) && newOrders <= orders.Keys && UndoFits(Tx(View(), UndoOf(u)))
      requires |tuples| == |its| && forall i | 0 <= i < |its| :: tuples[i] == items[its[i].i_id - 1]
      modifies this, u, output`items, output`total, output`status, output`wTax
      ensures NewOrderDone(Tx(old(View()), old(UndoOf(u))), dk, c, its, now, [dk.w], View(), UndoOf(u), track, output.items, output.total)
      ensures output.status == "" && output.wTax == old(warehouses[dk.w].w_tax)
    {
      hide EnterOrder, RemoteParts, RemoteOuts, Infos, TotalAmount, Filled, OrderIsNew, UndoFits, Zeros, StockPresent;
      ghost var t := Tx(View(), UndoOf(u));
      EnterKeeps(t, dk, c, its, now);
      output.status, output.wTax := "", warehouses[dk.w].w_tax;
      EnterAll(dk, c, its, tuples, now, output, u);
      SameTotal(t.db, View(), its, |its|);
      var u' := FirstPart(EnterOrder(t, dk, c, its, now), dk.w, its, output, track, u);
    }

    /** The order, its NEW-ORDER row and its lines. */
    method EnterAll(dk: DistId, c: int, its: seq<NewOrderItem>, tuples: seq<Item>, now: string, output: NewOrderOutput,
                    u: TPCCUndo?)
      requires dk in districts && ItemsValid(View(), its) && output.items == []
      requires |tuples| == |its| && forall i | 0 <= i < |its| :: tuples[i] == items[its[i].i_id - 1]
      requires OrderIsNew(View(), dk, c) && newOrders <= orders.Keys && UndoFits(Tx(View(), UndoOf(u)))
      modifies this, u, output`items, output`total
      ensures var t := Tx(old(View()), old(UndoOf(u)));
              && View() == EnterOrder(t, dk, c, its, now).db
              && (u != null ==> u.View() == EnterOrder(t, dk, c, its, now).undo)
              && output.total == TotalAmount(t.db, its, |its|) && output.items == Infos(t.db, its, |its|)
    {
      ghost var db := View();
      var id := OrderId(dk.w, dk.d, districts[dk].d_next_o_id);
      EnterHeader(dk, c, its, now, u);
      SameLines(db, View(), id, its, |its|);
      SameTotal(db, View(), its, |its|);
      EnterLines(id, its, tuples, output, u);
    }

    /** tpcctables.cc:288-293: the stock of the home warehouse, into a fresh output. */
    method FirstPart(ghost s: Tx, w: int, its: seq<NewOrderItem>, output: NewOrderOutput, track: bool, u: TPCCUndo?)
      returns (u': TPCCUndo?)
      requires (u == null <==> !track) && s.db == View() && (track ==> s.undo == UndoOf(u))
      requires ItemsValid(View(), its) && StockPresent(stock, its) && output.items == Infos(View(), its, |its|)
      modifies this, u, output`items
      ensures View() == RemoteParts(s, w, [w], its).db && u' == u
      ensures track ==> UndoOf(u') == RemoteParts(s, w, [w], its).undo
      ensures output.items == Filled(old(output.items), RemoteOuts(s, w, [w], its, Zeros(|its|)))
    {
      assert forall i | 0 <= i < |its| :: 1 <= its[i].i_id;
      hide Infos, RemotePass, RemoteParts, RemoteOuts, ItemsValid;
      var result, quantities;
      PassIgnoresSaved(stock, s.undo.stock, UndoOf(u).stock, w, w, its, |its|);
      FreshInfos(View(), its);
      AddPart(s, w, [], w, its, Zeros(|its|));
      NoParts(s, w, its, Zeros(|its|));
      assert [] + [w] == [w];
      result, quantities, u' := NewOrderRemote(w, w, its, track, u);
      output.Combine(quantities);
    }

    /** tpcctables.cc:160-179: the home part, then one remote part for every other warehouse, in
        whatever order the set `ws` is iterated. */
    method NewOrder(dk: DistId, c: int, its: seq<NewOrderItem>, now: string, output: NewOrderOutput,
                    track: bool, u: TPCCUndo?)
      returns (ok: bool, u': TPCCUndo?, ghost ws: seq<int>)
      requires (!track ==> u == null) && output.items == []
      requires NewOrderReady(View(), dk, c, its) && OrderIsNew(View(), dk, c) && newOrders <= orders.Keys
      requires UndoFits(Tx(View(), UndoOf(u)))
      modifies this, u, output
      ensures output.oId == old(districts[dk].d_next_o_id) && output.dTax == old(districts[dk].d_tax)
      ensures ok ==> output.wTax == old(warehouses[dk.w].w_tax)
      ensures var cust := old(customers[CustId(dk.w, dk.d, c)]);
              output.cLast == cust.c_last && output.cCredit == cust.c_credit && output.cDiscount == cust.c_discount
      ensures ok <==> old(ItemsValid(View(), its))
      ensures !ok ==> View() == old(View()) && u' == u && UndoOf(u) == old(UndoOf(u)) && output.status == INVALID_ITEM_STATUS
      ensures ok ==> Enumerates(ws, RemoteWarehouses(dk.w, its))
      ensures ok ==>
                && NewOrderDone(Tx(old(View()), old(UndoOf(u))), dk, c, its, now, [dk.w] + ws, View(), UndoOf(u'), track,
                                output.items, output.total)
                && (u' == null <==> !track) && (u != null ==> u' == u) && (u == null && track ==> fresh(u'))
                && output.status == ""
      ensures ok ==> ShowsPrices(items, its, output.items, output.total)
                     && output.total == LineTotal(orderLines, OrderId(dk.w, dk.d, output.oId), |its|)
    {
      ghost var cust := customers[CustId(dk.w, dk.d, c)];
      hide OrderIsNew, UndoFits, ItemsValid, NewOrderReady, NewOrderDone;
      ghost var t := Tx(View(), UndoOf(u));
      ok, u' := NewOrderHome(dk, c, its, now, output, track, u);
      ws := [];
      if ok {
        ws := NewOrderRemotes(t, dk, c, its, now, output, track, u');
        DoneShows(t, dk, c, its, now, [dk.w] + ws, View(), UndoOf(u'), track, output.items, output.total);
      }
    }

    /** The loop at tpcctables.cc:170-176. */
    method NewOrderRemotes(ghost t: Tx, dk: DistId, ghost c: int, its: seq<NewOrderItem>, ghost now: string,
                           output: NewOrderOutput, track: bool, u: TPCCUndo?)
      returns (ghost ws: seq<int>)
      requires (u == null <==> !track)
      requires NewOrderDone(t, dk, c, its, now, [dk.w], View(), UndoOf(u), track, output.items, output.total)
      modifies this, u, output`items
      ensures Enumerates(ws, RemoteWarehouses(dk.w, its))
      ensures NewOrderDone(t, dk, c, its, now, [dk.w] + ws, View(), UndoOf(u), track, output.items, output.total)
    {
      hide NewOrderDone;
      var todo := NewOrderRemoteWarehouses(dk.w, its);
      ghost var all := todo;
      ws := [];
      assert all - todo == {} && [dk.w] + ws == [dk.w];
      assert Enumerates([], {});
      while todo != {}
        invariant todo <= all == RemoteWarehouses(dk.w, its) && Enumerates(ws, all - todo)
        invariant NewOrderDone(t, dk, c, its, now, [dk.w] + ws, View(), UndoOf(u), track, output.items, output.total)
        decreases |todo|
      {
        var w :| w in todo;
        NextEnumerated(dk.w, ws, its, todo, w);
        RemoteStep(t, dk, c, its, now, ws, w, output, track, u);
        ws := ws + [w];
        todo := todo - {w};
      }
      assert all - todo == all;
    }

    /** The loop body at tpcctables.cc:172-175. */
    method RemoteStep(ghost t: Tx, dk: DistId, ghost c: int, its: seq<NewOrderItem>, ghost now: string,
                      ghost ws: seq<int>, w: int, output: NewOrderOutput, track: bool, u: TPCCUndo?)
      requires (u == null <==> !track) && w !in [dk.w] + ws
      requires forall i, j | 0 <= i < j < |[dk.w] + ws| :: ([dk.w] + ws)[i] != ([dk.w] + ws)[j]
      requires NewOrderDone(t, dk, c, its, now, [dk.w] + ws, View(), UndoOf(u), track, output.items, output.total)
      modifies this, u, output`items
      ensures NewOrderDone(t, dk, c, its, now, [dk.w] + (ws + [w]), View(), UndoOf(u), track, output.items, output.total)
    {
      hide NewOrderDone, RemotePass, RemotePart, RemoteOut, Filled, NewOrderSpec.Combine, CanCombine, QuantitiesOf, StockPresent,
        ItemsValid;
      ghost var before := Tx(View(), UndoOf(u));
      ghost var infos := output.items;
      PartReady(t, dk, c, its, now, ws, w, before, track, infos, output.total);
      var result, quantities, u' := NewOrderRemote(dk.w, w, its, track, u);
      output.Combine(quantities);
      PartAdded(t, dk, c, its, now, ws, w, before, track, infos, output.total, UndoOf(u'));
    }

    // -------------------------------------------------------------- payment

    /** tpcctables.cc:411-458. */
    method PaymentHome(dk: DistId, cust: CustId, amount: int, now: string, output: PaymentOutput, track: bool, u: TPCCUndo?)
      returns (u': TPCCUndo?)
      requires (!track ==> u == null) && HomeReady(View(), dk) && UndoFits(Tx(View(), UndoOf(u)))
      modifies this, u, output
      ensures var t := Tx(old(View()), old(UndoOf(u)));
              && View() == PaymentSpec.PaymentHome(t, dk, cust, amount, now).db
              && (track ==> UndoOf(u') == PaymentSpec.PaymentHome(t, dk, cust, amount, now).undo)
      ensures (u' == null <==> !track) && (u != null ==> u' == u) && (u == null && track ==> fresh(u'))
      ensures output.customer == NOBODY
    {
      hide UndoFits, SaveIn;
      HistoryFree(Tx(View(), UndoOf(u)));
      u' := AllocateUndo(track, u);
      var w, d := warehouses[dk.w], districts[dk];
      AddToYtd(dk, amount, u');
      AddHistory(History(cust.c, cust.d, cust.w, dk.d, dk.w, amount, now, w.w_name + "    " + d.d_name), u');
      output.customer := NOBODY;
    }

    /** tpcctables.cc:414-426. */
    method AddToYtd(dk: DistId, amount: int, u: TPCCUndo?)
      requires HomeReady(View(), dk)
      modifies this, u
      ensures var w, d := old(warehouses[dk.w]), old(districts[dk]);
              && View() == old(View()).(warehouses := old(warehouses)[dk.w := w.(w_ytd := w.w_ytd + amount)],
                                        districts := old(districts)[dk := d.(d_ytd := d.d_ytd + amount)])
              && (u != null ==>
                    u.View() == old(u.View()).(warehouses := SaveIn(old(u.modifiedWarehouses), dk.w, w),
                                               districts := SaveIn(old(u.modifiedDistricts), dk, d)))
    {
      var w := warehouses[dk.w];
      if u != null {
        u.SaveWarehouse(dk.w, w);
      }
      warehouses := warehouses[dk.w := w.(w_ytd := w.w_ytd + amount)];
      var d := districts[dk];
      if u != null {
        u.SaveDistrict(dk, d);
      }
      districts := districts[dk := d.(d_ytd := d.d_ytd + amount)];
    }

    method AddHistory(h: History, u: TPCCUndo?)
      requires u != null ==> nextRef !in u.insertedHistory
      modifies this, u
      ensures View() == old(View()).(history := old(history) + [old(nextRef)], historyRows := old(historyRows)[old(nextRef) := h],
                                     nextRef := old(nextRef) + 1)
      ensures u != null ==> u.View() == old(u.View()).(insertedHistory := old(u.insertedHistory) + {old(nextRef)})
    {
      var r := InsertHistory(h);
      if u != null {
        u.InsertedHistory(r);
      }
    }

    /** tpcctables.cc:460-502; `record` is the text that snprintf makes of the payment. */
    method InternalPaymentRemote(cust: CustId, amount: int, record: string, output: PaymentOutput, track: bool, u: TPCCUndo?)
      returns (u': TPCCUndo?)
      requires (!track ==> u == null) && cust in customers && |record| <= MAX_DATA
      modifies this, u, output
      ensures var t := Tx(old(View()), old(UndoOf(u)));
              && View() == PaymentSpec.PaymentRemote(t, cust, amount, record).db
              && (track ==> UndoOf(u') == PaymentSpec.PaymentRemote(t, cust, amount, record).undo)
      ensures (u' == null <==> !track) && (u != null ==> u' == u) && (u == null && track ==> fresh(u'))
      ensures ShowsCustomer(output.customer, customers[cust])
    {
      hide ShowsCustomer;
      u' := AllocateUndo(track, u);
      var c := customers[cust];
      if u' != null {
        u'.SaveCustomer(cust, c);
      }
      c := c.(c_balance := c.c_balance - amount, c_ytd_payment := c.c_ytd_payment + amount, c_payment_cnt := c.c_payment_cnt + 1);
      if c.c_credit == BAD_CREDIT {
        var currentKeep := |c.c_data|;
        if currentKeep + |record| > MAX_DATA {
          currentKeep := MAX_DATA - |record|;
        }
        c := c.(c_data := record + c.c_data[..currentKeep]);
      }
      customers := customers[cust := c];
      output.Show(c);
    }

    /** tpcctables.cc:355-363. */
    method Payment(dk: DistId, cust: CustId, amount: int, now: string, record: string, output: PaymentOutput,
                   track: bool, u: TPCCUndo?)
      returns (u': TPCCUndo?)
      requires (!track ==> u == null) && PaymentReady(View(), dk, cust, record) && UndoFits(Tx(View(), UndoOf(u)))
      modifies this, u, output
      ensures var t := Tx(old(View()), old(UndoOf(u)));
              && View() == PaymentSpec.Payment(t, dk, cust, amount, now, record).db
              && (track ==> UndoOf(u') == PaymentSpec.Payment(t, dk, cust, amount, now, record).undo)
      ensures (u' == null <==> !track) && (u != null ==> u' == u) && (u == null && track ==> fresh(u'))
      ensures ShowsCustomer(output.customer, customers[cust])
    {
      hide UndoFits;
      u' := PaymentHome(dk, cust, amount, now, output, track, u);
      u' := InternalPaymentRemote(cust, amount, record, output, track, u');
    }

    // -------------------------------------------------------------- delivery

    /** The search in the ordered NEW-ORDER map and the test that what it found is of this district
        (tpcctables.cc:517-528). */
    method FindLowest(dk: DistId) returns (low: Option<OrderId>)
      requires DistOk(dk) && forall id | id in newOrders :: OrderOk(id)
      ensures low == Lowest(newOrders, dk)
    {
      var key := NewOrderKey(OrderId(dk.w, dk.d, 1));
      if exists id :: id in newOrders && key <= NewOrderKey(id) {
        ghost var above :| above in newOrders && key <= NewOrderKey(above);
        LowerBoundExists(newOrders, key, above);
        var id :| id in newOrders && key <= NewOrderKey(id) && forall j | j in newOrders && key <= NewOrderKey(j) :: NewOrderKey(id) <= NewOrderKey(j);
        LowerBoundIsLowest(newOrders, dk, id);
        low := if id.d == dk.d && id.w == dk.w then Some(id) else None;
      } else {
        NoLowerBound(newOrders, dk);
        low := None;
      }
    }

    /** tpcctables.cc:550-561. */
    method DateLines(id: OrderId, cnt: int, now: string, u: TPCCUndo?) returns (total: int)
      requires LinesPresent(orderLines, id, cnt)
      modifies this, u
      ensures View() == old(View()).(lines := Dated(old(orderLines), id, now, cnt))
      ensures u != null ==>
                u.View() == old(u.View()).(lines := SavedLines(old(u.modifiedOrderLines), old(orderLines), id, cnt))
      ensures total == LineTotal(old(orderLines), id, cnt)
    {
      hide Dated, SavedLines, LineTotal;
      ghost var was, saved := orderLines, UndoOf(u).lines;
      total := 0;
      var i := 1;
      NoneDated(was, saved, id, now);
      while i <= cnt
        invariant 1 <= i && (i <= cnt + 1 || (i == 1 && cnt < 0))
        invariant View() == old(View()).(lines := Dated(was, id, now, i - 1)) && total == LineTotal(was, id, i - 1)
        invariant u != null ==> u.View() == old(u.View()).(lines := SavedLines(saved, was, id, i - 1))
      {
        var l := LineId(id.w, id.d, id.o, i);
        DatedStep(was, saved, id, now, i);
        var line := orderLines[l];
        if u != null {
          u.SaveOrderLine(l, line);
        }
        orderLines := orderLines[l := line.(ol_delivery_d := now)];
        total := total + line.ol_amount;
        i := i + 1;
      }
      if cnt < 0 { NegativeCount(was, saved, id, now, cnt); }
    }

    /** tpcctables.cc:529-568, for the order that was found. */
    method DeliverFound(id: OrderId, carrier: int, now: string, u: TPCCUndo?)
      requires OrderReady(View(), id) && id in newOrders && (u != null ==> id !in u.deletedNewOrders)
      modifies this, u
      ensures View() == DeliverOrder(Tx(old(View()), old(UndoOf(u))), id, carrier, now).db
      ensures u != null ==> u.View() == DeliverOrder(Tx(old(View()), old(UndoOf(u))), id, carrier, now).undo
    {
      newOrders := newOrders - {id};
      if u != null {
        u.DeletedNewOrder(id);
      }
      var r := orders[id];
      var o := orderRows[r];
      if u != null {
        u.SaveOrder(r, o);
      }
      orderRows := orderRows[r := o.(o_carrier_id := carrier)];
      var total := DateLines(id, o.o_ol_cnt, now, u);
      Charge(CustId(id.w, id.d, o.o_c_id), total, u);
    }

    /** tpcctables.cc:563-568. */
    method Charge(k: CustId, total: int, u: TPCCUndo?)
      requires k in customers
      modifies this, u
      ensures var c := old(customers)[k];
              && View() == old(View()).(customers := old(customers)[k := c.(c_balance := c.c_balance + total,
                                                                             c_delivery_cnt := c.c_delivery_cnt + 1)])
              && (u != null ==> u.View() == old(u.View()).(customers := SaveIn(old(u.modifiedCustomers), k, c)))
    {
      var c := customers[k];
      if u != null {
        u.SaveCustomer(k, c);
      }
      customers := customers[k := c.(c_balance := c.c_balance + total, c_delivery_cnt := c.c_delivery_cnt + 1)];
    }

    /** tpcctables.cc:510-570. */
    method Delivery(w: int, carrier: int, now: string, track: bool, u: TPCCUndo?)
      returns (delivered: seq<OrderId>, u': TPCCUndo?)
      requires (!track ==> u == null) && WarehouseOk(w) && (forall id | id in newOrders :: OrderOk(id))
      requires AllReady(View()) && UndoFits(Tx(View(), UndoOf(u)))
      modifies this, u
      ensures var t := Tx(old(View()), old(UndoOf(u)));
              && View() == DeliverySpec.Delivery(t, w, carrier, now, DISTRICTS).db
              && (track ==> UndoOf(u') == DeliverySpec.Delivery(t, w, carrier, now, DISTRICTS).undo)
      ensures (u' == null <==> !track) && (u != null ==> u' == u) && (u == null && track ==> fresh(u'))
      ensures IsReport(delivered, old(newOrders), newOrders, DISTRICTS)
    {
      u' := AllocateUndo(track, u);
      delivered := DeliverDistricts(w, carrier, now, u');
    }

    method DeliverDistricts(w: int, carrier: int, now: string, u: TPCCUndo?) returns (delivered: seq<OrderId>)
      requires WarehouseOk(w) && (forall id | id in newOrders :: OrderOk(id))
      requires AllReady(View()) && (u != null ==> newOrders !! u.deletedNewOrders)
      modifies this, u
      ensures var s := DeliverySpec.Delivery(Tx(old(View()), old(UndoOf(u))), w, carrier, now, DISTRICTS);
              View() == s.db && (u != null ==> u.View() == s.undo)
      ensures IsReport(delivered, old(newOrders), newOrders, DISTRICTS)
    {
      ghost var t, before := Tx(View(), UndoOf(u)), newOrders;
      NothingReported(newOrders);
      NothingDelivered(t, w, carrier, now);
      hide *;
      delivered := [];
      for d := 1 to DISTRICTS + 1
        invariant var s := DeliverySpec.Delivery(t, w, carrier, now, d - 1); View() == s.db && (u != null ==> u.View() == s.undo)
        invariant (u != null ==> newOrders !! u.deletedNewOrders) && newOrders <= before
        invariant IsReport(delivered, before, newOrders, d - 1)
      {
        delivered := DeliverRound(t, w, d, carrier, now, delivered, before, u);
      }
    }

    method DeliverRound(ghost t: Tx, w: int, d: nat, carrier: int, now: string, delivered: seq<OrderId>,
                        ghost before: set<OrderId>, u: TPCCUndo?)
      returns (delivered': seq<OrderId>)
      requires WarehouseOk(w) && 1 <= d <= DISTRICTS && AllReady(t.db) && (forall id | id in newOrders :: OrderOk(id))
      requires var s := DeliverySpec.Delivery(t, w, carrier, now, d - 1); View() == s.db && (u != null ==> u.View() == s.undo)
      requires (u != null ==> newOrders !! u.deletedNewOrders)
      requires newOrders <= before && IsReport(delivered, before, newOrders, d - 1)
      modifies this, u
      ensures var s := DeliverySpec.Delivery(t, w, carrier, now, d); View() == s.db && (u != null ==> u.View() == s.undo)
      ensures (u != null ==> newOrders !! u.deletedNewOrders) && newOrders <= old(newOrders)
      ensures IsReport(delivered', before, newOrders, d)
    {
      DeliveryStep(t, View(), UndoOf(u), w, carrier, now, d);
      hide AllReady, DeliverOrder, OrderReady, OrderOk, DeliverySpec.Delivery, Lowest, IsReport, IsLowest;
      var low := DeliverDistrict(DistId(w, d), carrier, now, u);
      delivered' := delivered;
      if low.Some? {
        ReportNext(delivered, before, newOrders, d, low.value);
        delivered' := delivered + [low.value];
      } else {
        ReportSame(delivered, before, newOrders, d);
      }
    }

    /** One round of the loop. */
    method DeliverDistrict(dk: DistId, carrier: int, now: string, u: TPCCUndo?) returns (low: Option<OrderId>)
      requires DistOk(dk) && (forall id | id in newOrders :: OrderOk(id)) && AllReady(View())
      requires u != null ==> newOrders !! u.deletedNewOrders
      modifies this, u
      ensures low == Lowest(old(newOrders), dk)
      ensures low.None? ==> View() == old(View()) && UndoOf(u) == old(UndoOf(u))
      ensures low.Some? ==>
                var t := Tx(old(View()), old(UndoOf(u)));
                && OrderReady(t.db, low.value) && View() == DeliverOrder(t, low.value, carrier, now).db
                && (u != null ==> u.View() == DeliverOrder(t, low.value, carrier, now).undo)
                && low.value in old(newOrders) && newOrders == old(newOrders) - {low.value}
      ensures u != null ==> newOrders !! u.deletedNewOrders
    {
      hide OrderReady;
      low := FindLowest(dk);
      if low.Some? {
        assert OrderReady(View(), low.value);
        DeliverFound(low.value, carrier, now, u);
      }
    }

    // -------------------------------------------------------------- undo

    /** tpcctables.cc:810-819: the keys come from the object's own fields. */
    method EraseOrder(r: Ref)
      requires IndexAgreement(View()) && r in orderRows
      modifies this
      ensures IndexAgreement(View())
      ensures View() == old(View()).(orderRows := old(orderRows) - {r}, orders := Without(old(orders), {r}),
                                     ordersByCustomer := Without(old(ordersByCustomer), {r}))
    {
      hide IndexAgreement;
      var o := orderRows[r];
      EraseKeepsIndex(View(), r);
      assert orders[OrderIdOf(o)] == r && ordersByCustomer[CustOrderIdOf(o)] == r;
      orders := orders - {OrderIdOf(o)};
      ordersByCustomer := ordersByCustomer - {CustOrderIdOf(o)};
      orderRows := orderRows - {r};
    }

    method EraseOrderLine(l: LineId)
      requires l in orderLines
      modifies this
      ensures View() == old(View()).(lines := old(orderLines) - {l})
    {
      orderLines := orderLines - {l};
    }

    method EraseNewOrder(id: OrderId)
      requires id in newOrders
      modifies this
      ensures View() == old(View()).(newOrders := old(newOrders) - {id})
    {
      newOrders := newOrders - {id};
    }

    /** tpcctables.cc:890-907: the row found from the back is replaced by the last one. */
    method EraseHistory(r: Ref) returns (ghost at: nat)
      requires r in history
      modifies this
      ensures IsLastAt(old(history), r, at)
      ensures View() == old(View()).(historyRows := old(historyRows) - {r}, history := SwapOut(old(history), at))
    {
      var i := |history| - 1;
      while history[i] != r
        invariant -1 <= i < |history| && (forall j | i < j < |history| :: history[j] != r) && i >= 0
        decreases i
      {
        i := i - 1;
      }
      var h := history;
      if i != |h| - 1 {
        h := h[i := h[|h| - 1]];
      }
      history := h[..|h| - 1];
      historyRows := historyRows - {r};
      at := i;
    }

    method EraseOrders(rs: set<Ref>)
      requires IndexAgreement(View()) && rs <= orderRows.Keys
      modifies this
      ensures View() == old(View()).(orderRows := old(orderRows) - rs, orders := Without(old(orders), rs),
                                     ordersByCustomer := Without(old(ordersByCustomer), rs))
    {
      hide IndexAgreement, Without;
      ghost var db, done := View(), {};
      var todo := rs;
      NothingErased(db);
      while todo != {}
        invariant IndexAgreement(View()) && todo <= orderRows.Keys && done + todo == rs
        invariant View() == db.(orderRows := db.orderRows - done, orders := Without(db.orders, done),
                                ordersByCustomer := Without(db.ordersByCustomer, done))
        decreases |todo|
      {
        ghost var any := Member(todo);
        var r :| r in todo;
        OneOrderLess(db, done, r);
        EraseOrder(r);
        todo, done := todo - {r}, done + {r};
      }
    }

    method EraseOrderLines(ls: set<LineId>)
      requires ls <= orderLines.Keys
      modifies this
      ensures View() == old(View()).(lines := old(orderLines) - ls)
    {
      var todo := ls;
      while todo != {}
        invariant todo <= ls && View() == old(View()).(lines := old(orderLines) - (ls - todo))
        decreases |todo|
      {
        var l :| l in todo;
        assert old(orderLines) - (ls - todo) - {l} == old(orderLines) - (ls - (todo - {l}));
        EraseOrderLine(l);
        todo := todo - {l};
      }
      assert ls - todo == ls;
    }

    method EraseNewOrders(ids: set<OrderId>)
      requires ids <= newOrders
      modifies this
      ensures View() == old(View()).(newOrders := old(newOrders) - ids)
    {
      var todo := ids;
      while todo != {}
        invariant todo <= ids && View() == old(View()).(newOrders := old(newOrders) - (ids - todo))
        decreases |todo|
      {
        var id :| id in todo;
        EraseNewOrder(id);
        todo := todo - {id};
      }
    }

    method PutBackNewOrders(ids: set<OrderId>)
      requires ids !! newOrders
      modifies this
      ensures View() == old(View()).(newOrders := old(newOrders) + ids)
    {
      var todo := ids;
      while todo != {}
        invariant todo <= ids && View() == old(View()).(newOrders := old(newOrders) + (ids - todo))
        decreases |todo|
      {
        var id :| id in todo;
        InsertNewOrder(id);
        todo := todo - {id};
      }
    }

    method EraseFromTail(ghost base: seq<Ref>, ghost rest: seq<Ref>, r: Ref) returns (ghost rest': seq<Ref>)
      requires history == base + rest && r in rest
      modifies this
      ensures View() == old(View()).(history := base + rest', historyRows := old(historyRows) - {r})
      ensures multiset(rest') == multiset(rest) - multiset{r}
    {
      hide SwapOut, IsLastAt;
      ghost var i := EraseHistory(r);
      rest' := SwapInTail(base, rest, r, i);
    }

    /** Whatever the order of the set: when its rows are the last ones, exactly those go. */
    method EraseHistories(rs: set<Ref>)
      requires IsTail(history, rs)
      modifies this
      ensures View() == old(View()).(history := old(history)[..|old(history)| - |rs|], historyRows := old(historyRows) - rs)
    {
      ghost var base, rest := history[..|history| - |rs|], history[|history| - |rs|..];
      ghost var rows := historyRows;
      TailOnce(rest, rs);
      var todo := rs;
      while todo != {}
        invariant todo <= rs && history == base + rest && multiset(rest) == multiset(todo)
        invariant View() == old(View()).(history := history, historyRows := rows - (rs - todo))
        decreases |todo|
      {
        ghost var any := Member(todo);
        var r :| r in todo;
        OneLess(rows, rs, todo, rest, r);
        rest := EraseFromTail(base, rest, r);
        todo := todo - {r};
      }
      assert |rest| == 0 by { assert multiset(rest) == multiset{}; }
      assert rs - todo == rs;
    }

    method RestoreRows(u: TPCCUndo)
      requires SavedPresent(Tx(View(), u.View()))
      modifies this
      ensures var db, s := old(View()), u.View();
              View() == db.(warehouses := db.warehouses + s.warehouses, districts := db.districts + s.districts,
                            customers := db.customers + s.customers, stock := db.stock + s.stock,
                            orderRows := db.orderRows + s.orders, lines := db.lines + s.lines)
    {
      hide SavedPresent;
      AllPresent(Tx(View(), u.View()));
      var ws := RestoreFromMap(warehouses, u.modifiedWarehouses);
      var ds := RestoreFromMap(districts, u.modifiedDistricts);
      var cs := RestoreFromMap(customers, u.modifiedCustomers);
      var ss := RestoreFromMap(stock, u.modifiedStock);
      var os := RestoreFromMap(orderRows, u.modifiedOrders);
      var ls := RestoreFromMap(orderLines, u.modifiedOrderLines);
      warehouses, districts, customers, stock, orderRows, orderLines := ws, ds, cs, ss, os, ls;
    }

    /** tpcctables.cc:597-620. */
    method ApplyUndo(u: TPCCUndo)
      requires CanApply(Tx(View(), u.View()))
      modifies this, u
      ensures View() == UndoSpec.ApplyUndo(Tx(old(View()), old(u.View())))
      ensures u.View() == old(u.View()).(deletedNewOrders := {})
    {
      hide IndexAgreement, Without, IsTail, SameIds;
      ghost var db, s := View(), u.View();
      RestoredIds(s.orders, db.orderRows);
      ChangeKeepsIndex(db, db.orderRows + s.orders);
      RestoreRows(u);
      SameIndex(db.(orderRows := db.orderRows + s.orders), View());
      EraseOrders(u.insertedOrders);
      EraseOrderLines(u.insertedOrderLines);
      EraseNewOrders(u.insertedNewOrders);
      EraseHistories(u.insertedHistory);
      PutBackNewOrders(u.deletedNewOrders);
      u.Applied();
    }
  }
}
