/** applyUndo (tpcctables.cc:572-620), and the proof that it takes back exactly what was done since
    the buffer was fresh, by any number of transactions that extended it. */
module UndoSpec {
  import opened Rows
  import opened NewOrderSpec
  import opened PaymentSpec
  import opened DeliverySpec

  function Without<K>(m: map<K, Ref>, gone: set<Ref>): map<K, Ref> {
    map k | k in m && m[k] !in gone :: m[k]
  }

  /** The assertion in insertNewOrderObject and eraseNewOrder: a NEW-ORDER row that is to be erased
      is there, one that is to be put back is not. */
  predicate NewOrdersUndoable(t: Tx) {
    && t.undo.insertedNewOrders <= t.db.newOrders
    && forall id | id in t.undo.deletedNewOrders :: id !in t.db.newOrders || id in t.undo.insertedNewOrders
  }

  /** The database after applyUndo. Erasing a history row moves the last row into its place, so the
      rows that stay keep their places when the erased ones are the last ones. */
  function ApplyUndo(t: Tx): DB
    requires |t.undo.insertedHistory| <= |t.db.history|
  {
    var db, u := t.db, t.undo;
    db.(warehouses := db.warehouses + u.warehouses,
        districts := db.districts + u.districts,
        customers := db.customers + u.customers,
        stock := db.stock + u.stock,
        orderRows := (db.orderRows + u.orders) - u.insertedOrders,
        orders := Without(db.orders, u.insertedOrders),
        ordersByCustomer := Without(db.ordersByCustomer, u.insertedOrders),
        lines := (db.lines + u.lines) - u.insertedLines,
        newOrders := (db.newOrders - u.insertedNewOrders) + u.deletedNewOrders,
        history := db.history[..|db.history| - |u.insertedHistory|],
        historyRows := db.historyRows - u.insertedHistory)
  }

  // ---------------------------------------------------------------- what a buffer accounts for

  /** Writing the saved copies back and dropping the inserted rows gives the base rows. */
  ghost predicate RowsCover<K(!new), V>(now: map<K, V>, saved: map<K, V>, inserted: set<K>, base: map<K, V>) {
    saved.Keys <= now.Keys && inserted <= now.Keys && (now + saved) - inserted == base
  }

  ghost predicate RestoresTo<K(!new), V>(now: map<K, V>, saved: map<K, V>, base: map<K, V>) {
    saved.Keys <= now.Keys && now + saved == base
  }

  ghost predicate IndexCovers<K(!new)>(now: map<K, Ref>, inserted: set<Ref>, base: map<K, Ref>) {
    Without(now, inserted) == base
  }

  ghost predicate QueueCovers(now: set<OrderId>, inserted: set<OrderId>, deleted: set<OrderId>,
                              ids: set<OrderId>, base: set<OrderId>) {
    && now !! deleted && now + deleted <= ids && inserted <= now + deleted
    && (now - inserted) + (deleted - inserted) == base
  }

  /** A saved order has the identifying fields of the present one. */
  ghost predicate SameIds(saved: map<Ref, Order>, now: map<Ref, Order>) {
    forall r | r in saved && r in now :: OrderIdOf(saved[r]) == OrderIdOf(now[r]) && CustOrderIdOf(saved[r]) == CustOrderIdOf(now[r])
  }

  ghost predicate HistoryCovers(h: seq<Ref>, inserted: set<Ref>, base: seq<Ref>) {
    && |h| == |base| + |inserted| && h[..|base|] == base
    && forall r :: r in inserted <==> r in h[|base|..]
  }

  ghost predicate KeysBelow<V>(m: map<Ref, V>, n: Ref) {
    n > 0 && forall r | r in m :: 0 < r < n
  }

  ghost predicate IndexBelow<K(!new)>(m: map<K, Ref>, n: Ref) {
    n > 0 && forall k | k in m :: 0 < m[k] < n
  }

  ghost predicate ListBelow(s: seq<Ref>, n: Ref) {
    forall r | r in s :: r < n
  }

  /** Addresses in use are not null, and below the next one to be handed out. */
  ghost predicate RefsBelow(db: DB, n: Ref) {
    && KeysBelow(db.orderRows, n) && IndexBelow(db.orders, n) && IndexBelow(db.ordersByCustomer, n)
    && ListBelow(db.history, n) && KeysBelow(db.historyRows, n)
  }

  ghost predicate CoversRows(base: DB, t: Tx) {
    && t.db.items == base.items
    && RestoresTo(t.db.warehouses, t.undo.warehouses, base.warehouses)
    && RestoresTo(t.db.districts, t.undo.districts, base.districts)
    && RestoresTo(t.db.customers, t.undo.customers, base.customers)
    && RestoresTo(t.db.stock, t.undo.stock, base.stock)
  }

  ghost predicate CoversOrders(base: DB, t: Tx) {
    var db, u := t.db, t.undo;
    && RowsCover(db.orderRows, u.orders, u.insertedOrders, base.orderRows) && SameIds(u.orders, db.orderRows)
    && IndexCovers(db.orders, u.insertedOrders, base.orders)
    && IndexCovers(db.ordersByCustomer, u.insertedOrders, base.ordersByCustomer)
    && RowsCover(db.lines, u.lines, u.insertedLines, base.lines)
    && QueueCovers(db.newOrders, u.insertedNewOrders, u.deletedNewOrders, db.orders.Keys, base.newOrders)
  }

  ghost predicate CoversHistory(base: DB, t: Tx) {
    && HistoryCovers(t.db.history, t.undo.insertedHistory, base.history)
    && RowsCover(t.db.historyRows, map[], t.undo.insertedHistory, base.historyRows)
  }

  /** The buffer holds exactly the difference between `base` and the present tables. */
  ghost predicate Covers(base: DB, t: Tx) {
    && CoversRows(base, t) && CoversOrders(base, t) && CoversHistory(base, t)
    && RefsBelow(t.db, t.db.nextRef) && base.nextRef <= t.db.nextRef
  }

  /** What the buffer names is there: so nothing that is about to be inserted is in it already, and
      the assertions at tpccdb.cc:67-83 hold. */
  ghost predicate UndoFits(t: Tx) {
    && t.undo.insertedOrders <= t.db.orderRows.Keys && t.undo.insertedLines <= t.db.lines.Keys
    && t.undo.insertedNewOrders <= t.db.orders.Keys && t.undo.insertedHistory <= t.db.historyRows.Keys
    && t.db.newOrders !! t.undo.deletedNewOrders && RefsBelow(t.db, t.db.nextRef)
  }

  lemma CoversFits(base: DB, t: Tx)
    requires Covers(base, t)
    ensures UndoFits(t)
  {
  }

  lemma FreshCovers(db: DB)
    requires RefsBelow(db, db.nextRef) && db.newOrders <= db.orders.Keys
    ensures Covers(db, Tx(db, EMPTY_UNDO))
  {
    hide RefsBelow, CoversRows, CoversOrders, CoversHistory;
    FreshRows(db);
    FreshOrders(db);
    FreshHistory(db);
  }

  lemma FreshRows(db: DB)
    ensures CoversRows(db, Tx(db, EMPTY_UNDO))
  {
  }

  lemma FreshOrders(db: DB)
    requires db.newOrders <= db.orders.Keys
    ensures CoversOrders(db, Tx(db, EMPTY_UNDO))
  {
    assert Without(db.orders, {}) == db.orders;
    assert Without(db.ordersByCustomer, {}) == db.ordersByCustomer;
  }

  lemma FreshHistory(db: DB)
    ensures CoversHistory(db, Tx(db, EMPTY_UNDO))
  {
    assert db.history[|db.history|..] == [];
  }

  /** applyUndo can run to its end exactly when no NEW-ORDER row was both inserted and deleted
      under this buffer, and then it restores every table, index and the history sequence. */
  lemma UndoRestores(base: DB, t: Tx)
    requires Covers(base, t)
    ensures NewOrdersUndoable(t) <==> t.undo.insertedNewOrders !! t.undo.deletedNewOrders
    ensures |t.undo.insertedHistory| <= |t.db.history|
    ensures NewOrdersUndoable(t) ==> ApplyUndo(t) == base.(nextRef := t.db.nextRef)
  {
    var db, u := t.db, t.undo;
    QueueUndone(db.newOrders, u.insertedNewOrders, u.deletedNewOrders, db.orders.Keys, base.newOrders);
    HistoryUndone(base, t);
    hide QueueCovers, HistoryCovers, KeysBelow, IndexBelow, ListBelow, SameIds, NewOrdersUndoable, Without;
    assert RestoresTo(db.warehouses, u.warehouses, base.warehouses) && RestoresTo(db.districts, u.districts, base.districts);
    assert RestoresTo(db.customers, u.customers, base.customers) && RestoresTo(db.stock, u.stock, base.stock);
    assert RowsCover(db.orderRows, u.orders, u.insertedOrders, base.orderRows);
    assert RowsCover(db.lines, u.lines, u.insertedLines, base.lines);
  }

  lemma HistoryUndone(base: DB, t: Tx)
    requires CoversHistory(base, t)
    ensures |t.undo.insertedHistory| <= |t.db.history|
    ensures t.db.history[..|t.db.history| - |t.undo.insertedHistory|] == base.history
    ensures t.db.historyRows - t.undo.insertedHistory == base.historyRows
  {
    assert t.db.historyRows + map[] == t.db.historyRows;
  }

  lemma QueueUndone(now: set<OrderId>, inserted: set<OrderId>, deleted: set<OrderId>, ids: set<OrderId>,
                    base: set<OrderId>)
    requires QueueCovers(now, inserted, deleted, ids, base)
    ensures inserted <= now && (forall id | id in deleted :: id !in now || id in inserted) <==> inserted !! deleted
    ensures inserted !! deleted ==> (now - inserted) + deleted == base
  {
    if inserted !! deleted {
      assert deleted - inserted == deleted;
    }
  }

  // ---------------------------------------------------------------- table by table

  lemma SaveRestores<K(!new), V>(now: map<K, V>, saved: map<K, V>, base: map<K, V>, k: K, row: V)
    requires RestoresTo(now, saved, base) && k in now
    ensures RestoresTo(now[k := row], SaveIn(saved, k, now[k]), base)
  {
    assert now[k := row] + SaveIn(saved, k, now[k]) == base;
  }

  lemma SaveCovers<K(!new), V>(now: map<K, V>, saved: map<K, V>, inserted: set<K>, base: map<K, V>, k: K, row: V)
    requires RowsCover(now, saved, inserted, base) && k in now
    ensures RowsCover(now[k := row], SaveIn(saved, k, now[k]), inserted, base)
  {
    assert now[k := row] + SaveIn(saved, k, now[k]) == now + saved;
  }

  lemma InsertCovers<K(!new), V>(now: map<K, V>, saved: map<K, V>, inserted: set<K>, base: map<K, V>, rows: map<K, V>)
    requires RowsCover(now, saved, inserted, base) && rows.Keys !! now.Keys
    ensures RowsCover(now + rows, saved, inserted + rows.Keys, base)
  {
    var a, b := (now + rows + saved) - (inserted + rows.Keys), (now + saved) - inserted;
    forall k ensures k in a <==> k in b {
      assert k in rows ==> k !in now && k !in saved;
    }
    assert forall k | k in a :: a[k] == b[k];
    assert a == b;
  }

  lemma InsertOneCovers<K(!new), V>(now: map<K, V>, saved: map<K, V>, inserted: set<K>, base: map<K, V>, k: K, row: V)
    requires RowsCover(now, saved, inserted, base) && k !in now
    ensures RowsCover(now[k := row], saved, inserted + {k}, base)
  {
    InsertCovers(now, saved, inserted, base, map[k := row]);
    assert now + map[k := row] == now[k := row];
  }

  lemma SaveSameIds(saved: map<Ref, Order>, now: map<Ref, Order>, r: Ref, row: Order)
    requires SameIds(saved, now) && r in now && OrderIdOf(row) == OrderIdOf(now[r]) && CustOrderIdOf(row) == CustOrderIdOf(now[r])
    ensures SameIds(SaveIn(saved, r, now[r]), now[r := row])
  {
  }

  lemma AllocateSameIds(saved: map<Ref, Order>, now: map<Ref, Order>, inserted: set<Ref>, base: map<Ref, Order>, r: Ref, row: Order)
    requires SameIds(saved, now) && RowsCover(now, saved, inserted, base) && KeysBelow(now, r)
    ensures SameIds(saved, now[r := row])
  {
  }

  /** A row under a fresh address. */
  lemma AllocateCovers<V>(now: map<Ref, V>, saved: map<Ref, V>, inserted: set<Ref>, base: map<Ref, V>, r: Ref, row: V)
    requires RowsCover(now, saved, inserted, base) && KeysBelow(now, r)
    ensures RowsCover(now[r := row], saved, inserted + {r}, base) && KeysBelow(now[r := row], r + 1)
  {
    assert r !in now;
    InsertOneCovers(now, saved, inserted, base, r, row);
  }

  lemma BelowNext(db: DB, n: Ref)
    requires RefsBelow(db, n)
    ensures RefsBelow(db, n + 1)
  {
  }

  lemma IndexInsertCovers<K(!new)>(now: map<K, Ref>, inserted: set<Ref>, base: map<K, Ref>, k: K, r: Ref)
    requires IndexCovers(now, inserted, base) && k !in now && IndexBelow(now, r)
    ensures IndexCovers(now[k := r], inserted + {r}, base) && IndexBelow(now[k := r], r + 1)
  {
    assert forall j | j in now :: now[k := r][j] == now[j] && now[j] != r;
    assert Without(now[k := r], inserted + {r}) == Without(now, inserted);
  }

  lemma AppendCovers(h: seq<Ref>, inserted: set<Ref>, base: seq<Ref>, r: Ref)
    requires HistoryCovers(h, inserted, base) && ListBelow(h, r)
    ensures HistoryCovers(h + [r], inserted + {r}, base) && ListBelow(h + [r], r + 1)
  {
    forall x | x in inserted ensures x in h {
      var i :| 0 <= i < |h| - |base| && h[|base|..][i] == x;
      assert x == h[|base| + i];
    }
    assert (h + [r])[|base|..] == h[|base|..] + [r];
    assert r !in inserted;
  }

  lemma EnterQueue(now: set<OrderId>, inserted: set<OrderId>, deleted: set<OrderId>, ids: set<OrderId>,
                   base: set<OrderId>, id: OrderId)
    requires QueueCovers(now, inserted, deleted, ids, base) && id !in ids
    ensures QueueCovers(now + {id}, inserted + {id}, deleted, ids + {id}, base)
  {
    assert (now + {id} - (inserted + {id})) + (deleted - (inserted + {id})) == (now - inserted) + (deleted - inserted);
  }

  lemma LeaveQueue(now: set<OrderId>, inserted: set<OrderId>, deleted: set<OrderId>, ids: set<OrderId>,
                   base: set<OrderId>, id: OrderId)
    requires QueueCovers(now, inserted, deleted, ids, base) && id in now
    ensures QueueCovers(now - {id}, inserted, deleted + {id}, ids, base)
  {
    assert (now - {id} - inserted) + (deleted + {id} - inserted) == (now - inserted) + (deleted - inserted);
  }

  lemma SaveBelow<V>(now: map<Ref, V>, r: Ref, row: V, n: Ref)
    requires KeysBelow(now, n) && r in now
    ensures KeysBelow(now[r := row], n)
  {
  }

  lemma DatedCovers(now: map<LineId, OrderLine>, saved: map<LineId, OrderLine>, inserted: set<LineId>,
                    base: map<LineId, OrderLine>, id: OrderId, date: string, n: int)
    requires RowsCover(now, saved, inserted, base) && LinesPresent(now, id, n)
    ensures RowsCover(Dated(now, id, date, n), SavedLines(saved, now, id, n), inserted, base)
  {
    assert Dated(now, id, date, n) + SavedLines(saved, now, id, n) == now + saved;
  }

  lemma {:induction false} PassRestores(stock: map<StockId, Stock>, saved: map<StockId, Stock>, home: int,
                                        remote: int, items: seq<NewOrderItem>, n: nat, base: map<StockId, Stock>)
    requires StockPresent(stock, items) && n <= |items| && RestoresTo(stock, saved, base)
    ensures var p := RemotePass(stock, saved, home, remote, items, n); RestoresTo(p.stock, p.saved, base)
  {
    if n > 0 {
      PassRestores(stock, saved, home, remote, items, n - 1, base);
      var p, it := RemotePass(stock, saved, home, remote, items, n - 1), items[n - 1];
      if it.ol_supply_w_id == remote {
        var k := StockIdOf(it);
        SaveRestores(p.stock, p.saved, base, k, StockStep(p.stock[k], it.ol_quantity, remote != home));
      }
    }
  }

  // ---------------------------------------------------------------- transaction by transaction

  lemma RemotePartCovers(base: DB, t: Tx, home: int, remote: int, items: seq<NewOrderItem>)
    requires Covers(base, t) && StockPresent(t.db.stock, items)
    ensures Covers(base, RemotePart(t, home, remote, items))
  {
    PassRestores(t.db.stock, t.undo.stock, home, remote, items, |items|, base.stock);
  }

  lemma {:induction false} RemotePartsCover(base: DB, t: Tx, home: int, ws: seq<int>, items: seq<NewOrderItem>)
    requires Covers(base, t) && StockPresent(t.db.stock, items)
    ensures Covers(base, RemoteParts(t, home, ws, items))
  {
    if ws != [] {
      RemotePartsCover(base, t, home, ws[..|ws| - 1], items);
      RemotePartCovers(base, RemoteParts(t, home, ws[..|ws| - 1], items), home, ws[|ws| - 1], items);
    }
  }

  /** The keys that the new order is about to use are free. */
  ghost predicate OrderIsNew(db: DB, dk: DistId, c: int)
    requires dk in db.districts
  {
    var o := db.districts[dk].d_next_o_id;
    && OrderId(dk.w, dk.d, o) !in db.orders
    && CustOrderId(dk.w, dk.d, c, o) !in db.ordersByCustomer
    && forall l | l in db.lines :: OrderOfLine(l) != OrderId(dk.w, dk.d, o)
  }

  lemma EnterOrderRows(base: DB, t: Tx, dk: DistId, c: int, items: seq<NewOrderItem>, now: string)
    requires CoversRows(base, t) && dk in t.db.districts && ItemsValid(t.db, items)
    ensures CoversRows(base, EnterOrder(t, dk, c, items, now))
  {
    hide RestoresTo;
    var dist := t.db.districts[dk];
    SaveRestores(t.db.districts, t.undo.districts, base.districts, dk, dist.(d_next_o_id := dist.d_next_o_id + 1));
  }

  lemma EnterOrderOrders(base: DB, t: Tx, dk: DistId, c: int, items: seq<NewOrderItem>, now: string)
    requires CoversOrders(base, t) && dk in t.db.districts && ItemsValid(t.db, items) && OrderIsNew(t.db, dk, c)
    requires RefsBelow(t.db, t.db.nextRef)
    ensures CoversOrders(base, EnterOrder(t, dk, c, items, now))
  {
    hide RestoresTo, RowsCover, SameIds, IndexCovers, HistoryCovers, QueueCovers, KeysBelow, IndexBelow, ListBelow;
    var db, u := t.db, t.undo;
    var id, r := OrderId(dk.w, dk.d, db.districts[dk].d_next_o_id), db.nextRef;
    var lines := NewLines(db, id, items, |items|);
    assert lines.Keys !! db.lines.Keys;
    AllocateCovers(db.orderRows, u.orders, u.insertedOrders, base.orderRows, r, OrderFor(id, c, items, now));
    AllocateSameIds(u.orders, db.orderRows, u.insertedOrders, base.orderRows, r, OrderFor(id, c, items, now));
    IndexInsertCovers(db.orders, u.insertedOrders, base.orders, id, r);
    IndexInsertCovers(db.ordersByCustomer, u.insertedOrders, base.ordersByCustomer, CustOrderId(dk.w, dk.d, c, id.o), r);
    InsertCovers(db.lines, u.lines, u.insertedLines, base.lines, lines);
    EnterQueue(db.newOrders, u.insertedNewOrders, u.deletedNewOrders, db.orders.Keys, base.newOrders, id);
    assert db.orders[id := r].Keys == db.orders.Keys + {id};
  }

  lemma EnterOrderBelow(t: Tx, dk: DistId, c: int, items: seq<NewOrderItem>, now: string)
    requires RefsBelow(t.db, t.db.nextRef) && dk in t.db.districts && ItemsValid(t.db, items)
    ensures var db := EnterOrder(t, dk, c, items, now).db; RefsBelow(db, db.nextRef)
  {
  }

  lemma EnterOrderCovers(base: DB, t: Tx, dk: DistId, c: int, items: seq<NewOrderItem>, now: string)
    requires Covers(base, t) && dk in t.db.districts && ItemsValid(t.db, items) && OrderIsNew(t.db, dk, c)
    ensures Covers(base, EnterOrder(t, dk, c, items, now))
  {
    hide CoversRows, CoversOrders, HistoryCovers, RowsCover, RefsBelow;
    EnterOrderRows(base, t, dk, c, items, now);
    EnterOrderOrders(base, t, dk, c, items, now);
    EnterOrderBelow(t, dk, c, items, now);
  }

  lemma PaymentHomeRows(base: DB, t: Tx, dk: DistId, cust: CustId, amount: int, now: string)
    requires CoversRows(base, t) && HomeReady(t.db, dk)
    ensures CoversRows(base, PaymentHome(t, dk, cust, amount, now))
  {
    hide RestoresTo;
    var db, u, w, d := t.db, t.undo, t.db.warehouses[dk.w], t.db.districts[dk];
    SaveRestores(db.warehouses, u.warehouses, base.warehouses, dk.w, w.(w_ytd := w.w_ytd + amount));
    SaveRestores(db.districts, u.districts, base.districts, dk, d.(d_ytd := d.d_ytd + amount));
  }

  lemma PaymentHomeHistory(base: DB, t: Tx, dk: DistId, cust: CustId, amount: int, now: string)
    requires CoversHistory(base, t) && HomeReady(t.db, dk) && RefsBelow(t.db, t.db.nextRef)
    ensures var s := PaymentHome(t, dk, cust, amount, now);
            CoversHistory(base, s) && RefsBelow(s.db, s.db.nextRef)
  {
    hide RestoresTo, RowsCover, SameIds, IndexCovers, HistoryCovers, QueueCovers, KeysBelow, IndexBelow, ListBelow;
    var db, u, w, d := t.db, t.undo, t.db.warehouses[dk.w], t.db.districts[dk];
    BelowNext(db, db.nextRef);
    AppendCovers(db.history, u.insertedHistory, base.history, db.nextRef);
    AllocateCovers(db.historyRows, map[], u.insertedHistory, base.historyRows, db.nextRef,
                   HistoryFor(w, d, dk, cust, amount, now));
  }

  lemma PaymentHomeCovers(base: DB, t: Tx, dk: DistId, cust: CustId, amount: int, now: string)
    requires Covers(base, t) && HomeReady(t.db, dk)
    ensures Covers(base, PaymentHome(t, dk, cust, amount, now))
  {
    hide CoversRows, IndexCovers, RowsCover, QueueCovers, CoversHistory, RefsBelow;
    PaymentHomeRows(base, t, dk, cust, amount, now);
    PaymentHomeHistory(base, t, dk, cust, amount, now);
  }

  lemma PaymentCovers(base: DB, t: Tx, dk: DistId, cust: CustId, amount: int, now: string, record: string)
    requires Covers(base, t) && PaymentReady(t.db, dk, cust, record)
    ensures Covers(base, Payment(t, dk, cust, amount, now, record))
  {
    PaymentHomeCovers(base, t, dk, cust, amount, now);
    var c := t.db.customers[cust];
    SaveRestores(t.db.customers, t.undo.customers, base.customers, cust, PayCustomer(c, amount, record));
  }

  lemma DeliverOrderOrders(base: DB, t: Tx, id: OrderId, carrier: int, now: string)
    requires CoversOrders(base, t) && OrderReady(t.db, id) && id in t.db.newOrders
    requires RefsBelow(t.db, t.db.nextRef)
    ensures var s := DeliverOrder(t, id, carrier, now);
            CoversOrders(base, s) && RefsBelow(s.db, s.db.nextRef)
  {
    hide RestoresTo, RowsCover, SameIds, IndexCovers, HistoryCovers, QueueCovers, KeysBelow, IndexBelow, ListBelow;
    var db, u, r := t.db, t.undo, t.db.orders[id];
    var o := db.orderRows[r];
    SaveBelow(db.orderRows, r, o.(o_carrier_id := carrier), db.nextRef);
    SaveSameIds(u.orders, db.orderRows, r, o.(o_carrier_id := carrier));
    SaveCovers(db.orderRows, u.orders, u.insertedOrders, base.orderRows, r, o.(o_carrier_id := carrier));
    DatedCovers(db.lines, u.lines, u.insertedLines, base.lines, id, now, o.o_ol_cnt);
    LeaveQueue(db.newOrders, u.insertedNewOrders, u.deletedNewOrders, db.orders.Keys, base.newOrders, id);
  }

  lemma DeliverOrderCovers(base: DB, t: Tx, id: OrderId, carrier: int, now: string)
    requires Covers(base, t) && OrderReady(t.db, id) && id in t.db.newOrders
    ensures Covers(base, DeliverOrder(t, id, carrier, now))
  {
    hide RestoresTo, CoversOrders, HistoryCovers, RowsCover, RefsBelow;
    var ck := CustId(id.w, id.d, t.db.orderRows[t.db.orders[id]].o_c_id);
    var s := DeliverOrder(t, id, carrier, now);
    SaveRestores(t.db.customers, t.undo.customers, base.customers, ck, s.db.customers[ck]);
    DeliverOrderOrders(base, t, id, carrier, now);
  }

  lemma {:induction false} DeliveryCovers(base: DB, t: Tx, w: int, carrier: int, now: string, n: nat)
    requires Covers(base, t) && AllReady(t.db)
    ensures Covers(base, Delivery(t, w, carrier, now, n))
  {
    hide Covers;
    if n > 0 {
      DeliveryCovers(base, t, w, carrier, now, n - 1);
      var s := Delivery(t, w, carrier, now, n - 1);
      var low := Lowest(s.db.newOrders, DistId(w, n));
      if low.Some? {
        DeliverOrderCovers(base, s, low.value, carrier, now);
      }
    }
  }

  lemma NewOrderCovers(base: DB, t: Tx, dk: DistId, c: int, items: seq<NewOrderItem>, now: string, ws: seq<int>)
    requires Covers(base, t) && NewOrderReady(t.db, dk, c, items) && OrderIsNew(t.db, dk, c)
    ensures Covers(base, NewOrder(t, dk, c, items, now, ws))
  {
    hide Covers;
    if ItemsValid(t.db, items) {
      EnterOrderCovers(base, t, dk, c, items, now);
      RemotePartsCover(base, EnterOrder(t, dk, c, items, now), dk.w, [dk.w] + ws, items);
    }
  }
}
