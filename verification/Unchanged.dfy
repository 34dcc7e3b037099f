/** What no run changes: which items, warehouses, districts, stock rows and customers there are, the
    names of the customers, and which items the lines of the load are for. */
module Unchanged {
  import opened Rows
  import opened NewOrderSpec
  import opened PaymentSpec
  import opened DeliverySpec
  import opened UndoSpec
  import opened Consistency
  import opened Machine
  import opened NameIndex

  /** A line of `b` is a line of `a`, for the same item, or one for an item that was checked. */
  ghost predicate LineKnown(a: DB, b: DB, l: LineId)
    requires l in b.lines
  {
    || (l in a.lines && a.lines[l].ol_i_id == b.lines[l].ol_i_id)
    || (l.w in b.warehouses && 1 <= b.lines[l].ol_i_id <= |b.items|)
  }

  ghost predicate LinesKnown(a: DB, b: DB) {
    forall l | l in b.lines :: LineKnown(a, b, l)
  }

  ghost predicate Keeps(a: DB, b: DB) {
    && a.items == b.items && a.warehouses.Keys == b.warehouses.Keys && a.districts.Keys == b.districts.Keys
    && a.stock.Keys == b.stock.Keys && SameNames(a.customers, b.customers) && LinesKnown(a, b)
  }

  lemma KeepsItself(db: DB)
    ensures Keeps(db, db)
  {
  }

  lemma KeepsOn(a: DB, b: DB, c: DB)
    requires Keeps(a, b) && Keeps(b, c)
    ensures Keeps(a, c)
  {
    forall l | l in c.lines ensures LineKnown(a, c, l) {
      assert LineKnown(b, c, l);
      if l in b.lines { assert LineKnown(a, b, l); }
    }
  }

  lemma EnterKeeps(t: Tx, dk: DistId, c: int, items: seq<NewOrderItem>, now: string)
    requires dk in t.db.districts && dk.w in t.db.warehouses && ItemsValid(t.db, items)
    ensures Keeps(t.db, EnterOrder(t, dk, c, items, now).db)
  {
    var db := EnterOrder(t, dk, c, items, now).db;
    var id := OrderId(dk.w, dk.d, t.db.districts[dk].d_next_o_id);
    forall l | l in db.lines ensures LineKnown(t.db, db, l) {
      if l in NewLines(t.db, id, items, |items|) {
        assert db.lines[l] == LineFor(t.db, id, items[l.n - 1], l.n);
      }
    }
  }

  lemma NewOrderKeeps(t: Tx, dk: DistId, c: int, items: seq<NewOrderItem>, now: string, ws: seq<int>)
    requires NewOrderReady(t.db, dk, c, items)
    ensures Keeps(t.db, NewOrder(t, dk, c, items, now, ws).db)
  {
    if ItemsValid(t.db, items) {
      EnterKeeps(t, dk, c, items, now);
    }
    hide EnterOrder;
  }

  lemma PaymentKeeps(t: Tx, dk: DistId, cust: CustId, amount: int, now: string, record: string)
    requires PaymentReady(t.db, dk, cust, record)
    ensures Keeps(t.db, Payment(t, dk, cust, amount, now, record).db)
  {
  }

  lemma DeliverKeeps(t: Tx, id: OrderId, carrier: int, now: string)
    requires OrderReady(t.db, id)
    ensures Keeps(t.db, DeliverOrder(t, id, carrier, now).db)
  {
  }

  lemma {:induction false} DeliveryKeeps(t: Tx, w: int, carrier: int, now: string, n: nat)
    requires AllReady(t.db)
    ensures Keeps(t.db, Delivery(t, w, carrier, now, n).db)
  {
    hide Keeps, DeliverOrder, LinesPresent;
    if n == 0 {
      KeepsItself(t.db);
    } else {
      DeliveryKeeps(t, w, carrier, now, n - 1);
      var s := Delivery(t, w, carrier, now, n - 1);
      var low := Lowest(s.db.newOrders, DistId(w, n));
      if low.Some? {
        DeliverKeeps(s, low.value, carrier, now);
        KeepsOn(t.db, s.db, Delivery(t, w, carrier, now, n).db);
      }
    }
  }

  /** No transaction changes any of this. */
  lemma DoKeeps(t: Tx, cmd: Command)
    requires Ready(t.db, cmd)
    ensures Keeps(t.db, Do(t, cmd).db)
  {
    match cmd
    case CNewOrder(dk, c, items, now, ws) => NewOrderKeeps(t, dk, c, items, now, ws);
    case CPayment(dk, cust, amount, now, record) => PaymentKeeps(t, dk, cust, amount, now, record);
    case CDelivery(w, carrier, now) => DeliveryKeeps(t, w, carrier, now, DISTRICTS);
  }

  lemma KeepsLater(origin: DB, db: DB, n: Ref)
    requires Keeps(origin, db)
    ensures Keeps(origin, db.(nextRef := n))
  {
    forall l | l in db.lines ensures LineKnown(origin, db.(nextRef := n), l) {
      assert LineKnown(origin, db, l);
    }
  }

  /** Every database of the state: the present one, and those that the buffers lead back to. */
  ghost predicate AllKeep(origin: DB, s: State) {
    Keeps(origin, s.db) && forall i | 0 <= i < |s.stack| :: Keeps(origin, s.stack[i].base)
  }

  lemma StepKeeps(origin: DB, s: State, step: Step, load: Load)
    requires AllKeep(origin, s) && Sound(s, load) && Enabled(s, step)
    ensures AllKeep(origin, Exec(s, step))
  {
    hide Keeps, Sound, Ready, Do, ApplyUndo, NewOrdersUndoable;
    match step
    case Fresh(cmd) =>
      var t := Tx(s.db, EMPTY_UNDO);
      DoKeeps(t, cmd);
      KeepsOn(origin, s.db, Do(t, cmd).db);
    case Extend(cmd) =>
      var t := Tx(s.db, Newest(s).undo);
      DoKeeps(t, cmd);
      KeepsOn(origin, s.db, Do(t, cmd).db);
    case UndoNewest =>
      UndoBack(s, load);
      KeepsLater(origin, Newest(s).base, s.db.nextRef);
    case FreeOldest =>
  }

  lemma {:induction false} StateKeeps(origin: DB, s: State, steps: seq<Step>, load: Load)
    requires AllKeep(origin, s) && Sound(s, load) && AllEnabled(s, steps)
    ensures AllKeep(origin, Run(s, steps))
    decreases |steps|
  {
    hide AllKeep, Sound;
    if steps != [] {
      StepKeeps(origin, s, steps[0], load);
      StepSound(s, steps[0], load);
      StateKeeps(origin, Exec(s, steps[0]), steps[1..], load);
    }
  }

  /** Nor does any run of transactions, commits and undos. */
  lemma {:induction false} RunKeeps(db: DB, steps: seq<Step>, load: Load)
    requires Consistent(db, load) && AllEnabled(State(db, []), steps)
    ensures Keeps(db, Run(State(db, []), steps).db)
  {
    hide Consistent, Keeps;
    KeepsItself(db);
    StateKeeps(db, State(db, []), steps, load);
  }
}
