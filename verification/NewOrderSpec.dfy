/** The new-order transaction as a function of the database: its home part, its remote part, and
    the single pass over the items that the split must agree with. */
module NewOrderSpec {
  import opened Sequences
  import opened Rows

  // ---------------------------------------------------------------- stock

  /** tpcctables.cc:323-335. */
  function StockStep(s: Stock, q: int, remote: bool): Stock {
    s.(s_quantity := if s.s_quantity >= q + 10 then s.s_quantity - q else s.s_quantity - q + 91,
       s_ytd := s.s_ytd + q,
       s_order_cnt := s.s_order_cnt + 1,
       s_remote_cnt := s.s_remote_cnt + if remote then 1 else 0)
  }

  predicate StockPresent(stock: map<StockId, Stock>, items: seq<NewOrderItem>) {
    forall i | 0 <= i < |items| :: StockIdOf(items[i]) in stock
  }

  /** Stock rows, saved copies and per-item quantities after some items. */
  datatype Pass = Pass(stock: map<StockId, Stock>, saved: map<StockId, Stock>, out: seq<int>)

  /** newOrderRemote on the first `n` items: those of other warehouses are skipped. */
  function RemotePass(stock: map<StockId, Stock>, saved: map<StockId, Stock>, home: int, remote: int,
                      items: seq<NewOrderItem>, n: nat): (p: Pass)
    requires StockPresent(stock, items) && n <= |items|
    ensures p.stock.Keys == stock.Keys && |p.out| == n
  {
    if n == 0 then Pass(stock, saved, [])
    else
      var p, it := RemotePass(stock, saved, home, remote, items, n - 1), items[n - 1];
      if it.ol_supply_w_id != remote then p.(out := p.out + [INVALID_QUANTITY])
      else
        var k := StockIdOf(it);
        var row := StockStep(p.stock[k], it.ol_quantity, remote != home);
        Pass(p.stock[k := row], SaveIn(p.saved, k, p.stock[k]), p.out + [row.s_quantity])
  }

  /** One left-to-right pass over all the items, whichever warehouse they come from. */
  function WholePass(stock: map<StockId, Stock>, home: int, items: seq<NewOrderItem>, n: nat): (p: Pass)
    requires StockPresent(stock, items) && n <= |items|
    ensures p.stock.Keys == stock.Keys && |p.out| == n
  {
    if n == 0 then Pass(stock, map[], [])
    else
      var p, it := WholePass(stock, home, items, n - 1), items[n - 1];
      var k := StockIdOf(it);
      var row := StockStep(p.stock[k], it.ol_quantity, it.ol_supply_w_id != home);
      Pass(p.stock[k := row], SaveIn(p.saved, k, p.stock[k]), p.out + [row.s_quantity])
  }

  /** newOrderCombine: a quantity fills in the item it is valid for. */
  function Combine(remote: seq<int>, out: seq<int>): (r: seq<int>)
    requires |remote| == |out|
    ensures |r| == |out|
  {
    seq(|out|, i requires 0 <= i < |out| => if remote[i] != INVALID_QUANTITY then remote[i] else out[i])
  }

  /** The assertion in newOrderCombine: nothing is combined twice. */
  predicate CanCombine(remote: seq<int>, out: seq<int>) {
    |remote| == |out| && forall i | 0 <= i < |out| && remote[i] != INVALID_QUANTITY :: out[i] == 0
  }

  // ---------------------------------------------------------------- what an order inserts

  predicate ItemsValid(db: DB, items: seq<NewOrderItem>) {
    forall i | 0 <= i < |items| :: 1 <= items[i].i_id <= |db.items|
  }

  function Amount(db: DB, it: NewOrderItem): int
    requires 1 <= it.i_id <= |db.items|
  {
    it.ol_quantity * db.items[it.i_id - 1].i_price
  }

  function LineFor(db: DB, id: OrderId, it: NewOrderItem, n: nat): OrderLine
    requires 1 <= it.i_id <= |db.items|
  {
    OrderLine(id.o, id.d, id.w, n, it.i_id, it.ol_supply_w_id, it.ol_quantity, Amount(db, it), "")
  }

  /** The lines numbered 1 to `n`. */
  function NewLines(db: DB, id: OrderId, items: seq<NewOrderItem>, n: nat): (m: map<LineId, OrderLine>)
    requires ItemsValid(db, items) && n <= |items|
    ensures forall l :: l in m <==> OrderOfLine(l) == id && 1 <= l.n <= n
    ensures forall l | l in m :: m[l] == LineFor(db, id, items[l.n - 1], l.n)
  {
    if n == 0 then map[]
    else NewLines(db, id, items, n - 1)[LineId(id.w, id.d, id.o, n) := LineFor(db, id, items[n - 1], n)]
  }

  lemma UnionUpdate<K, V>(a: map<K, V>, b: map<K, V>, k: K, v: V)
    ensures a + b[k := v] == (a + b)[k := v]
  {
  }

  /** One more line. */
  lemma LinesStep(db: DB, id: OrderId, its: seq<NewOrderItem>, i: nat)
    requires ItemsValid(db, its) && i < |its| && forall l | l in db.lines :: OrderOfLine(l) != id
    ensures var l, m := LineId(id.w, id.d, id.o, i + 1), NewLines(db, id, its, i);
            && l !in db.lines + m && l !in m.Keys
            && db.lines + NewLines(db, id, its, i + 1) ==
               (db.lines + m)[l := OrderLine(id.o, id.d, id.w, i + 1, its[i].i_id, its[i].ol_supply_w_id, its[i].ol_quantity,
                                             Amount(db, its[i]), "")]
            && NewLines(db, id, its, i + 1).Keys == m.Keys + {l}
  {
    var m := NewLines(db, id, its, i);
    var l := LineId(id.w, id.d, id.o, i + 1);
    assert l !in m && l !in db.lines;
    assert NewLines(db, id, its, i + 1) == m[l := LineFor(db, id, its[i], i + 1)];
    hide NewLines, ItemsValid, LineFor;
    UnionUpdate(db.lines, m, l, LineFor(db, id, its[i], i + 1));
  }

  predicate AllLocal(w: int, items: seq<NewOrderItem>) {
    forall i | 0 <= i < |items| :: items[i].ol_supply_w_id == w
  }

  function OrderFor(id: OrderId, c: int, items: seq<NewOrderItem>, now: string): Order {
    Order(id.o, c, id.d, id.w, NULL_CARRIER_ID, |items|, AllLocal(id.w, items), now)
  }

  // ---------------------------------------------------------------- the transaction

  /** newOrderHome up to its own stock pass: the order, its NEW-ORDER row and its lines. */
  function EnterOrder(t: Tx, dk: DistId, c: int, items: seq<NewOrderItem>, now: string): Tx
    requires dk in t.db.districts && ItemsValid(t.db, items)
  {
    var db, u := t.db, t.undo;
    var dist := db.districts[dk];
    var id := OrderId(dk.w, dk.d, dist.d_next_o_id);
    var o, r := OrderFor(id, c, items, now), db.nextRef;
    var lines := NewLines(db, id, items, |items|);
    Tx(db.(districts := db.districts[dk := dist.(d_next_o_id := dist.d_next_o_id + 1)],
           orders := db.orders[id := r],
           ordersByCustomer := db.ordersByCustomer[CustOrderIdOf(o) := r],
           orderRows := db.orderRows[r := o],
           newOrders := db.newOrders + {id},
           lines := db.lines + lines,
           nextRef := r + 1),
       u.(districts := SaveIn(u.districts, dk, dist),
          insertedOrders := u.insertedOrders + {r},
          insertedNewOrders := u.insertedNewOrders + {id},
          insertedLines := u.insertedLines + lines.Keys))
  }

  /** newOrderRemote on the tables. */
  function RemotePart(t: Tx, home: int, remote: int, items: seq<NewOrderItem>): Tx
    requires StockPresent(t.db.stock, items)
  {
    var p := RemotePass(t.db.stock, t.undo.stock, home, remote, items, |items|);
    Tx(t.db.(stock := p.stock), t.undo.(stock := p.saved))
  }

  function RemoteOut(t: Tx, home: int, remote: int, items: seq<NewOrderItem>): (out: seq<int>)
    requires StockPresent(t.db.stock, items)
    ensures |out| == |items|
  {
    RemotePass(t.db.stock, t.undo.stock, home, remote, items, |items|).out
  }

  /** The remote parts in the order in which the warehouse set is iterated. */
  function RemoteParts(t: Tx, home: int, ws: seq<int>, items: seq<NewOrderItem>): (r: Tx)
    requires StockPresent(t.db.stock, items)
    ensures r.db.stock.Keys == t.db.stock.Keys && r.db == t.db.(stock := r.db.stock)
    ensures r.undo == t.undo.(stock := r.undo.stock)
  {
    if ws == [] then t
    else RemotePart(RemoteParts(t, home, ws[..|ws| - 1], items), home, ws[|ws| - 1], items)
  }

  /** The quantities reported after combining the parts of `ws`, from `out`. */
  function RemoteOuts(t: Tx, home: int, ws: seq<int>, items: seq<NewOrderItem>, out: seq<int>): (r: seq<int>)
    requires StockPresent(t.db.stock, items) && |out| == |items|
    ensures |r| == |items|
  {
    if ws == [] then out
    else
      var before := ws[..|ws| - 1];
      Combine(RemoteOut(RemoteParts(t, home, before, items), home, ws[|ws| - 1], items),
              RemoteOuts(t, home, before, items, out))
  }

  /** newOrderRemoteWarehouses. */
  function RemoteWarehouses(home: int, items: seq<NewOrderItem>): (s: set<int>)
    ensures forall w :: w in s <==> w != home && exists i :: 0 <= i < |items| && items[i].ol_supply_w_id == w
  {
    set i | 0 <= i < |items| && items[i].ol_supply_w_id != home :: items[i].ol_supply_w_id
  }

  /** `ws` iterates over the set: every element once. */
  ghost predicate Enumerates(ws: seq<int>, s: set<int>) {
    && (forall w :: w in ws <==> w in s)
    && forall i, j | 0 <= i < j < |ws| :: ws[i] != ws[j]
  }

  /** What the code relies on when it dereferences rows without a check. */
  predicate NewOrderReady(db: DB, dk: DistId, c: int, items: seq<NewOrderItem>) {
    && dk in db.districts && dk.w in db.warehouses && CustId(dk.w, dk.d, c) in db.customers
    && (forall i | 0 <= i < |items| :: 1 <= items[i].i_id)
    && (ItemsValid(db, items) ==> StockPresent(db.stock, items))
  }

  /** The whole transaction; an unknown item leaves everything as it was. */
  function NewOrder(t: Tx, dk: DistId, c: int, items: seq<NewOrderItem>, now: string, ws: seq<int>): Tx
    requires NewOrderReady(t.db, dk, c, items)
  {
    if ItemsValid(t.db, items)
    then RemoteParts(EnterOrder(t, dk, c, items, now), dk.w, [dk.w] + ws, items)
    else t
  }

  /** The quantities in the output struct. */
  function NewOrderQuantities(t: Tx, dk: DistId, c: int, items: seq<NewOrderItem>, now: string, ws: seq<int>): seq<int>
    requires NewOrderReady(t.db, dk, c, items) && ItemsValid(t.db, items)
  {
    RemoteOuts(EnterOrder(t, dk, c, items, now), dk.w, [dk.w] + ws, items, Zeros(|items|))
  }
}
